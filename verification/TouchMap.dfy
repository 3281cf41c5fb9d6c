/** Which touchscreen belongs to which monitor (display/manager.go): the recorded assignments and
    the property that shows them. */
module TouchMap {
  import opened Ints
  import opened DisplayConfig

  /** A touchscreen; its size is rounded to whole millimetres. */
  datatype Touchscreen = Touchscreen(id: int32, path: string, deviceNode: string, uuid: string, outputName: string,
                                     mmWidth: uint32, mmHeight: uint32, usb: bool)

  datatype Monitor = Monitor(name: string, mmWidth: uint32, mmHeight: uint32, enabled: bool,
                             x: int16, y: int16, width: uint16, height: uint16, orientation: bv16)

  /** What an X input device has been told: to be off, or to be on with the matrix of this part of the display. */
  datatype Mapping = Off | On(x: int16, y: int16, width: uint16, height: uint16, orientation: bv16)

  /** touchscreenMapValue */
  datatype Entry = Entry(output: string, auto: bool)

  function Lookup<V>(m: map<string, V>, key: string): Option<V> { if key in m then Some(m[key]) else None }

  function Read(stored: Option<map<string, Entry>>, key: string): Option<Entry> {
    match stored
    case None => None
    case Some(m) => Lookup(m, key)
  }

  // ---- What becomes of one touchscreen id ----

  /** What is recorded for an id, and what the TouchMap property shows for it. */
  datatype Slot = Slot(entry: Option<Entry>, shown: Option<string>)

  const EMPTY: Slot := Slot(None, None)

  /** The property shows just what is recorded. */
  predicate Agrees(s: Slot) {
    match s.entry
    case None => s.shown == None
    case Some(e) => s.shown == Some(e.output)
  }

  predicate Attached(ts: seq<Touchscreen>, uuid: string) { exists i :: 0 <= i < |ts| && ts[i].uuid == uuid }

  predicate HasName(ms: seq<Monitor>, name: string) { exists i :: 0 <= i < |ms| && ms[i].name == name }

  function Assigned(name: string, auto: bool): Slot { Slot(Some(Entry(name, auto)), Some(name)) }

  /** associateTouch, for an attached touchscreen. */
  function Associated(s: Slot, name: string, auto: bool): Slot {
    if s.entry.Some? && s.entry.value.output == name then s else Assigned(name, auto)
  }

  function FirstOfSize(ms: seq<Monitor>, w: uint32, h: uint32): (r: Option<Monitor>)
    ensures r.Some? ==> r.value in ms && r.value.mmWidth == w && r.value.mmHeight == h
    ensures r == None ==> forall m | m in ms :: m.mmWidth != w || m.mmHeight != h
  {
    if ms == [] then None
    else if ms[0].mmWidth == w && ms[0].mmHeight == h then Some(ms[0])
    else FirstOfSize(ms[1..], w, h)
  }

  predicate IsKept(s: Slot, ms: seq<Monitor>) { s.entry.Some? && HasName(ms, s.entry.value.output) }

  /** How one touchscreen is handled: a recorded monitor if it is connected; else the output the
      touchscreen names; else a monitor of its size; else the built-in one, unless it is on USB. */
  function Chosen(t: Touchscreen, ms: seq<Monitor>, builtin: Option<Monitor>, s: Slot): Slot {
    if IsKept(s, ms) then s
    else
      var rest := if s.entry.Some? then EMPTY else s;
      if t.outputName != "" then (if HasName(ms, t.outputName) then Associated(rest, t.outputName, true) else rest)
      else
        match FirstOfSize(ms, t.mmWidth, t.mmHeight)
        case Some(m) => Associated(rest, m.name, true)
        case None => if builtin.Some? && !t.usb then Associated(rest, builtin.value.name, true) else rest
  }

  predicate IsFirstOfSize(ms: seq<Monitor>, w: uint32, h: uint32, k: nat) {
    && k < |ms| && ms[k].mmWidth == w && ms[k].mmHeight == h
    && forall l | 0 <= l < k :: ms[l].mmWidth != w || ms[l].mmHeight != h
  }

  /** What is recorded after a touchscreen has been handled. */
  ghost predicate IsDecided(t: Touchscreen, ms: seq<Monitor>, builtin: Option<Monitor>, before: Option<Entry>,
                            after: Option<Entry>) {
    if before.Some? && exists m :: m in ms && m.name == before.value.output then after == before
    else if t.outputName != "" then
      if exists m :: m in ms && m.name == t.outputName then after == Some(Entry(t.outputName, true)) else after == None
    else if exists m :: m in ms && m.mmWidth == t.mmWidth && m.mmHeight == t.mmHeight then
      exists k: nat :: IsFirstOfSize(ms, t.mmWidth, t.mmHeight, k) && after == Some(Entry(ms[k].name, true))
    else if builtin.Some? && !t.usb then after == Some(Entry(builtin.value.name, true)) else after == None
  }

  lemma HasNameIff(ms: seq<Monitor>, name: string)
    ensures HasName(ms, name) <==> exists m :: m in ms && m.name == name
  {
    if HasName(ms, name) {
      var i :| 0 <= i < |ms| && ms[i].name == name;
      assert ms[i] in ms && ms[i].name == name;
    }
  }

  lemma {:induction false} FirstOfSizeIsFirst(ms: seq<Monitor>, w: uint32, h: uint32) returns (k: nat)
    requires FirstOfSize(ms, w, h).Some?
    ensures IsFirstOfSize(ms, w, h, k) && FirstOfSize(ms, w, h) == Some(ms[k])
  {
    if ms[0].mmWidth == w && ms[0].mmHeight == h {
      k := 0;
    } else {
      var l := FirstOfSizeIsFirst(ms[1..], w, h);
      k := l + 1;
      assert forall i | 0 < i < k :: ms[i] == ms[1..][i - 1];
    }
  }

  lemma ChosenIsDecided(t: Touchscreen, ms: seq<Monitor>, builtin: Option<Monitor>, s: Slot)
    ensures IsDecided(t, ms, builtin, s.entry, Chosen(t, ms, builtin, s).entry)
  {
    hide HasName;
    HasNameIff(ms, t.outputName);
    if s.entry.Some? {
      HasNameIff(ms, s.entry.value.output);
    }
    if FirstOfSize(ms, t.mmWidth, t.mmHeight).Some? {
      var k := FirstOfSizeIsFirst(ms, t.mmWidth, t.mmHeight);
      assert ms[k] in ms;
    }
  }

  /** All touchscreens with the id, in order. */
  function ChosenFor(ts: seq<Touchscreen>, uuid: string, ms: seq<Monitor>, builtin: Option<Monitor>, s: Slot): Slot {
    if ts == [] then s
    else
      var before := ChosenFor(ts[..|ts| - 1], uuid, ms, builtin, s);
      if ts[|ts| - 1].uuid == uuid then Chosen(ts[|ts| - 1], ms, builtin, before) else before
  }

  /** What is left once the entries of unplugged touchscreens are gone. */
  function Cleared(ts: seq<Touchscreen>, uuid: string, s: Slot): Slot {
    if s.entry.Some? && !Attached(ts, uuid) then EMPTY else s
  }

  /** A single touchscreen goes to a single monitor. */
  function Single(ts: seq<Touchscreen>, uuid: string, ms: seq<Monitor>, s: Slot): Slot {
    if |ts| == 1 && |ms| == 1 && ts[0].uuid == uuid then Associated(s, ms[0].name, true) else s
  }

  function Handled(ts: seq<Touchscreen>, uuid: string, ms: seq<Monitor>, builtin: Option<Monitor>, s: Slot): Slot {
    ChosenFor(ts, uuid, ms, builtin, Single(ts, uuid, ms, Cleared(ts, uuid, s)))
  }

  /** Nothing is shown that is not recorded, and nothing recorded for an attached touchscreen is hidden. */
  predicate Sound(ts: seq<Touchscreen>, uuid: string, s: Slot) {
    && (s.shown.Some? ==> s.entry.Some? && s.entry.value.output == s.shown.value)
    && (s.entry.Some? && Attached(ts, uuid) ==> s.shown.Some?)
  }

  /** A record is for an attached touchscreen and names a connected monitor or the built-in one. */
  predicate IsReal(ts: seq<Touchscreen>, uuid: string, ms: seq<Monitor>, builtin: Option<Monitor>, s: Slot) {
    s.entry.Some? ==>
      Attached(ts, uuid) && (IsKept(s, ms) || (builtin.Some? && s.entry.value.output == builtin.value.name))
  }

  lemma {:induction false} ChosenForAgrees(ts: seq<Touchscreen>, uuid: string, ms: seq<Monitor>,
                                           builtin: Option<Monitor>, s: Slot)
    requires Agrees(s)
    ensures Agrees(ChosenFor(ts, uuid, ms, builtin, s))
  {
    if ts != [] {
      ChosenForAgrees(ts[..|ts| - 1], uuid, ms, builtin, s);
    }
  }

  lemma ChosenIsReal(t: Touchscreen, ms: seq<Monitor>, builtin: Option<Monitor>, s: Slot)
    ensures var r := Chosen(t, ms, builtin, s);
            r.entry.Some? ==> IsKept(r, ms) || (builtin.Some? && r.entry.value.output == builtin.value.name)
  {
    var m := FirstOfSize(ms, t.mmWidth, t.mmHeight);
    assert m.Some? ==> HasName(ms, m.value.name);
  }

  lemma {:induction false} ChosenForIsReal(ts: seq<Touchscreen>, uuid: string, ms: seq<Monitor>,
                                           builtin: Option<Monitor>, s: Slot)
    ensures var r := ChosenFor(ts, uuid, ms, builtin, s);
            if Attached(ts, uuid) then
              r.entry.Some? ==> IsKept(r, ms) || (builtin.Some? && r.entry.value.output == builtin.value.name)
            else r == s
  {
    if ts != [] {
      var init := ts[..|ts| - 1];
      ChosenForIsReal(init, uuid, ms, builtin, s);
      assert Attached(ts, uuid) <==> Attached(init, uuid) || ts[|ts| - 1].uuid == uuid;
      ChosenIsReal(ts[|ts| - 1], ms, builtin, ChosenFor(init, uuid, ms, builtin, s));
    }
  }

  lemma HandledIsReal(ts: seq<Touchscreen>, uuid: string, ms: seq<Monitor>, builtin: Option<Monitor>, s: Slot)
    ensures IsReal(ts, uuid, ms, builtin, Handled(ts, uuid, ms, builtin, s))
  {
    assert |ts| == 1 && ts[0].uuid == uuid ==> Attached(ts, uuid);
    ChosenForIsReal(ts, uuid, ms, builtin, Single(ts, uuid, ms, Cleared(ts, uuid, s)));
  }

  /** Touchscreens with different ids are different devices. */
  ghost predicate DistinctDevices(ts: seq<Touchscreen>) {
    forall t, u | t in ts && u in ts && t.id == u.id :: t.uuid == u.uuid
  }

  lemma AttachedAppend(ts: seq<Touchscreen>, t: Touchscreen, uuid: string)
    ensures Attached(ts + [t], uuid) <==> Attached(ts, uuid) || t.uuid == uuid
  {
    assert (ts + [t])[|ts|] == t;
    assert forall i | 0 <= i < |ts| :: (ts + [t])[i] == ts[i];
  }

  /** Handling a change leaves nothing but sound records: attached, shown, and of a real monitor. */
  lemma HandledIsGood(ts: seq<Touchscreen>, uuid: string, ms: seq<Monitor>, builtin: Option<Monitor>, s: Slot)
    requires Sound(ts, uuid, s)
    ensures Agrees(Handled(ts, uuid, ms, builtin, s))
    ensures IsReal(ts, uuid, ms, builtin, Handled(ts, uuid, ms, builtin, s))
  {
    var start := Single(ts, uuid, ms, Cleared(ts, uuid, s));
    assert |ts| == 1 && ts[0].uuid == uuid ==> Attached(ts, uuid);
    ChosenForAgrees(ts, uuid, ms, builtin, start);
    HandledIsReal(ts, uuid, ms, builtin, s);
  }

  /** A record of an output that is not connected is replaced or dropped, and what follows agrees. */
  lemma {:induction false} UnconnectedIsRepaired(ts: seq<Touchscreen>, uuid: string, ms: seq<Monitor>,
                                                 builtin: Option<Monitor>, s: Slot)
    requires Attached(ts, uuid) && s.entry.Some? && !IsKept(s, ms)
    ensures Agrees(ChosenFor(ts, uuid, ms, builtin, s))
  {
    var init := ts[..|ts| - 1];
    assert Attached(ts, uuid) <==> Attached(init, uuid) || ts[|ts| - 1].uuid == uuid;
    if Attached(init, uuid) {
      UnconnectedIsRepaired(init, uuid, ms, builtin, s);
    } else {
      ChosenForIsReal(init, uuid, ms, builtin, s);
    }
  }

  lemma {:induction false} HiddenIsKept(ts: seq<Touchscreen>, uuid: string, ms: seq<Monitor>,
                                        builtin: Option<Monitor>, s: Slot)
    requires IsKept(s, ms)
    ensures ChosenFor(ts, uuid, ms, builtin, s) == s
  {
    if ts != [] {
      HiddenIsKept(ts[..|ts| - 1], uuid, ms, builtin, s);
    }
  }

  /** A single touchscreen is recorded for a single monitor, whatever was recorded before. */
  lemma SingleGoesToSingle(t: Touchscreen, m: Monitor, builtin: Option<Monitor>, s: Slot)
    ensures var r := Handled([t], t.uuid, [m], builtin, s); r.entry.Some? && r.entry.value.output == m.name
  {
    var ts, ms := [t], [m];
    assert ms[0].name == m.name;
    HiddenIsKept(ts, t.uuid, ms, builtin, Single(ts, t.uuid, ms, Cleared(ts, t.uuid, s)));
  }

  predicate IsFirstWithId(ts: seq<Touchscreen>, uuid: string, k: nat) {
    k < |ts| && ts[k].uuid == uuid && forall l | 0 <= l < k :: ts[l].uuid != uuid
  }

  /** Of several touchscreens with one id the first decides, if it finds a connected monitor. */
  lemma {:induction false} FirstDecides(ts: seq<Touchscreen>, uuid: string, ms: seq<Monitor>,
                                        builtin: Option<Monitor>, s: Slot, k: nat)
    requires IsFirstWithId(ts, uuid, k) && IsKept(Chosen(ts[k], ms, builtin, s), ms)
    ensures ChosenFor(ts, uuid, ms, builtin, s) == Chosen(ts[k], ms, builtin, s)
  {
    var init := ts[..|ts| - 1];
    if k == |ts| - 1 {
      ChosenForIsReal(init, uuid, ms, builtin, s);
    } else {
      FirstDecides(init, uuid, ms, builtin, s, k);
    }
  }

  /** When nothing is shown that is not recorded: after handling a change the property shows just what is
      recorded, unless it did not before and the record is of a connected monitor. */
  lemma HandledAgreesIff(ts: seq<Touchscreen>, uuid: string, ms: seq<Monitor>, builtin: Option<Monitor>, s: Slot)
    requires s.shown.Some? ==> s.entry.Some?
    ensures Agrees(Handled(ts, uuid, ms, builtin, s)) <==>
              Agrees(s) || !Attached(ts, uuid) || !IsKept(s, ms)
  {
    var start := Single(ts, uuid, ms, Cleared(ts, uuid, s));
    assert |ts| == 1 && ts[0].uuid == uuid ==> Attached(ts, uuid);
    ChosenForIsReal(ts, uuid, ms, builtin, start);
    if Agrees(start) {
      ChosenForAgrees(ts, uuid, ms, builtin, start);
    } else if !IsKept(start, ms) {
      UnconnectedIsRepaired(ts, uuid, ms, builtin, start);
    } else {
      HiddenIsKept(ts, uuid, ms, builtin, start);
    }
  }

  /** A record of a connected monitor stays; any other start leads to one and the same result. */
  lemma {:induction false} ChosenForIsKeptOrFixed(ts: seq<Touchscreen>, uuid: string, ms: seq<Monitor>,
                                                  builtin: Option<Monitor>,
                                                  s: Slot, s': Slot)
    requires Agrees(s) && Agrees(s')
    ensures IsKept(s, ms) ==> ChosenFor(ts, uuid, ms, builtin, s) == s
    ensures !IsKept(s, ms) && !IsKept(s', ms) && Attached(ts, uuid) ==>
              ChosenFor(ts, uuid, ms, builtin, s) == ChosenFor(ts, uuid, ms, builtin, s')
    ensures !Attached(ts, uuid) ==>
              ChosenFor(ts, uuid, ms, builtin, s) == s && ChosenFor(ts, uuid, ms, builtin, s') == s'
  {
    if ts != [] {
      var init := ts[..|ts| - 1];
      ChosenForIsKeptOrFixed(init, uuid, ms, builtin, s, s');
      assert Attached(ts, uuid) <==> Attached(init, uuid) || ts[|ts| - 1].uuid == uuid;
    }
  }

  lemma HandledTwiceAlike(ts: seq<Touchscreen>, uuid: string, ms: seq<Monitor>, builtin: Option<Monitor>, s: Slot)
    requires Sound(ts, uuid, s)
    ensures var r := Handled(ts, uuid, ms, builtin, s); Handled(ts, uuid, ms, builtin, r) == r
  {
    hide ChosenFor;
    var start := Single(ts, uuid, ms, Cleared(ts, uuid, s));
    var r := Handled(ts, uuid, ms, builtin, s);
    HandledIsGood(ts, uuid, ms, builtin, s);
    assert |ts| == 1 && ts[0].uuid == uuid ==> Attached(ts, uuid);
    assert |ms| == 1 ==> HasName(ms, ms[0].name);
    ChosenForIsKeptOrFixed(ts, uuid, ms, builtin, start, r);
    ChosenForIsKeptOrFixed(ts, uuid, ms, builtin, r, start);
  }

  /** The same monitors, listed in whatever order. */
  ghost predicate SameMonitors(ms: seq<Monitor>, ms': seq<Monitor>) {
    |ms| == |ms'| && forall m :: m in ms <==> m in ms'
  }

  lemma SameNames(ms: seq<Monitor>, ms': seq<Monitor>, name: string)
    requires SameMonitors(ms, ms')
    ensures HasName(ms, name) <==> HasName(ms', name)
  {
    if i :| 0 <= i < |ms| && ms[i].name == name {
      assert ms[i] in ms';
    }
    if i :| 0 <= i < |ms'| && ms'[i].name == name {
      assert ms'[i] in ms;
    }
  }

  lemma NoneOfSize(ms: seq<Monitor>, ms': seq<Monitor>, w: uint32, h: uint32)
    requires SameMonitors(ms, ms')
    ensures FirstOfSize(ms, w, h) == None <==> FirstOfSize(ms', w, h) == None
    ensures FirstOfSize(ms, w, h).Some? ==> HasName(ms, FirstOfSize(ms, w, h).value.name)
  {
  }

  /** The order of the monitors matters only to a touchscreen that ends up with one of them. */
  lemma {:induction false} UnkeptIsSettled(ts: seq<Touchscreen>, uuid: string, ms: seq<Monitor>, ms': seq<Monitor>,
                                           builtin: Option<Monitor>, s: Slot)
    requires SameMonitors(ms, ms') && Agrees(s) && !IsKept(ChosenFor(ts, uuid, ms, builtin, s), ms)
    ensures ChosenFor(ts, uuid, ms', builtin, s) == ChosenFor(ts, uuid, ms, builtin, s)
  {
    hide HasName;
    if ts != [] {
      var init, t := ts[..|ts| - 1], ts[|ts| - 1];
      var before := ChosenFor(init, uuid, ms, builtin, s);
      UnkeptIsSettled(init, uuid, ms, ms', builtin, s);
      SameNames(ms, ms', t.outputName);
      NoneOfSize(ms, ms', t.mmWidth, t.mmHeight);
      if before.entry.Some? {
        SameNames(ms, ms', before.entry.value.output);
      }
    }
  }

  lemma ListedAnew(ms: seq<Monitor>, ms': seq<Monitor>)
    requires multiset(ms) == multiset(ms')
    ensures SameMonitors(ms, ms')
  {
    assert |multiset(ms)| == |ms| && |multiset(ms')| == |ms'|;
    forall m ensures m in ms <==> m in ms' {
      assert m in ms <==> m in multiset(ms);
    }
  }

  /** Handling a change once more changes nothing, in whatever order the monitors are listed then. */
  lemma HandledTwice(ts: seq<Touchscreen>, uuid: string, ms: seq<Monitor>, ms': seq<Monitor>, builtin: Option<Monitor>,
                     s: Slot)
    requires Sound(ts, uuid, s) && multiset(ms) == multiset(ms')
    ensures var r := Handled(ts, uuid, ms, builtin, s); Handled(ts, uuid, ms', builtin, r) == r
  {
    hide ChosenFor;
    var r := Handled(ts, uuid, ms, builtin, s);
    ListedAnew(ms, ms');
    HandledIsGood(ts, uuid, ms, builtin, s);
    HandledTwiceAlike(ts, uuid, ms, builtin, s);
    assert |ms| == 1 ==> HasName(ms, ms[0].name) && ms'[0] in ms;
    if r.entry.Some? {
      SameNames(ms, ms', r.entry.value.output);
    }
    if IsKept(r, ms) {
      HiddenIsKept(ts, uuid, ms', builtin, r);
    } else {
      assert |ts| == 1 && |ms| == 1 ==> Single(ts, uuid, ms', r) == Single(ts, uuid, ms, r);
      UnkeptIsSettled(ts, uuid, ms, ms', builtin, Single(ts, uuid, ms, Cleared(ts, uuid, r)));
    }
  }

  /** A state in which everything recorded is shown is sound, whatever is attached. */
  lemma AgreeingIsSound(ts: seq<Touchscreen>, uuid: string, s: Slot)
    requires Agrees(s)
    ensures Sound(ts, uuid, s)
  {
  }

  function Initial(ts: seq<Touchscreen>, uuid: string, entry: Option<Entry>, parsed: bool): Slot {
    Slot(entry, if entry.Some? && parsed && Attached(ts, uuid) then Some(entry.value.output) else None)
  }

  predicate ReadsWell(ts: seq<Touchscreen>, uuid: string, ms: seq<Monitor>, entry: Option<Entry>, parsed: bool) {
    parsed || entry == None || !Attached(ts, uuid) || !HasName(ms, entry.value.output)
  }

  /** After initialisation the property shows just what is recorded exactly when reading went through, or
      nothing was read for an attached touchscreen and a connected monitor. */
  lemma InitialisedAgreesIff(ts: seq<Touchscreen>, uuid: string, ms: seq<Monitor>, builtin: Option<Monitor>,
                             entry: Option<Entry>, parsed: bool)
    ensures Agrees(Handled(ts, uuid, ms, builtin, Initial(ts, uuid, entry, parsed))) <==>
              ReadsWell(ts, uuid, ms, entry, parsed)
  {
    hide Handled;
    HandledAgreesIff(ts, uuid, ms, builtin, Initial(ts, uuid, entry, parsed));
  }

  /** After a reading that went wrong half way, a record stays hidden as long as its monitor is connected. */
  lemma HalfReadStaysHidden(ts: seq<Touchscreen>, uuid: string, ms: seq<Monitor>, builtin: Option<Monitor>, e: Entry)
    requires Attached(ts, uuid) && HasName(ms, e.output)
    ensures var s := Initial(ts, uuid, Some(e), false);
            Handled(ts, uuid, ms, builtin, s) == s && !Agrees(s)
  {
    HiddenIsKept(ts, uuid, ms, builtin, Initial(ts, uuid, Some(e), false));
  }

  // ---- The part of the manager that keeps them ----

  function WithoutIdx(ts: seq<Touchscreen>, i: nat): seq<Touchscreen> {
    if i < |ts| then ts[i := ts[|ts| - 1]][..|ts| - 1] else ts
  }

  predicate IsFirstWithNode(ts: seq<Touchscreen>, node: string, i: nat) {
    i < |ts| && ts[i].deviceNode == node && forall j | 0 <= j < i :: ts[j].deviceNode != node
  }

  predicate IsLastWithPath(ts: seq<Touchscreen>, path: string, i: nat) {
    i < |ts| && ts[i].path == path && forall j | i < j < |ts| :: ts[j].path != path
  }

  /** The handling of one id, as seen by another. */
  datatype Change = Change(
    manager: TouchManager, changed: string, other: string, ms: seq<Monitor>, builtin: Option<Monitor>, primary: string)

  /** Handling one id leaves the touchscreens of another where they are. */
  twostate lemma StillFollows(c: Change)
    requires c.changed != c.other && DistinctDevices(c.manager.touchscreens)
    requires c.manager.touchscreens == old(c.manager.touchscreens) && c.manager.responding == old(c.manager.responding)
    requires c.manager.SlotOf(c.other) == old(c.manager.SlotOf(c.other))
    requires c.manager.OnlyDevicesOf(c.changed)
    requires old(c.manager.FollowsItsMonitor(c.other, c.ms, c.builtin, c.primary))
    ensures c.manager.FollowsItsMonitor(c.other, c.ms, c.builtin, c.primary)
  {
    var t := c.manager;
    assert c.other in t.touchscreenMap <==> Lookup(t.touchscreenMap, c.other).Some?;
    assert c.other in old(t.touchscreenMap) <==> Lookup(old(t.touchscreenMap), c.other).Some?;
    forall m | old(t.Follows(c.other, m)) ensures t.Follows(c.other, m) {
      forall s | s in t.touchscreens && s.uuid == c.other && s.id in t.responding
        ensures s.id in t.devices && t.devices[s.id] == old(t.devices)[s.id]
      {
        assert !t.IsDeviceOf(c.changed, s.id);
      }
    }
  }

  method GetByName(ms: seq<Monitor>, name: string) returns (r: Option<Monitor>)
    ensures r == None <==> !HasName(ms, name)
    ensures r.Some? ==> r.value in ms && r.value.name == name
  {
    for i := 0 to |ms|
      invariant forall j | 0 <= j < i :: ms[j].name != name
    {
      if ms[i].name == name {
        return Some(ms[i]);
      }
    }
    r := None;
  }

  method FindBySize(ms: seq<Monitor>, w: uint32, h: uint32) returns (r: Option<Monitor>)
    ensures r == FirstOfSize(ms, w, h)
  {
    for i := 0 to |ms|
      invariant FirstOfSize(ms, w, h) == FirstOfSize(ms[i..], w, h)
    {
      if ms[i].mmWidth == w && ms[i].mmHeight == h {
        return Some(ms[i]);
      }
    }
    r := None;
  }

  class TouchManager {
    var touchscreens: seq<Touchscreen>
    var touchscreenMap: map<string, Entry>
    var touchMap: map<string, string>
    var devices: map<int32, Mapping>  // by X device id
    var responding: set<int32>        // the devices that carry out what they are told

    function SlotOf(uuid: string): Slot
      reads `touchscreenMap, `touchMap
    {
      Slot(Lookup(touchscreenMap, uuid), Lookup(touchMap, uuid))
    }

    /** The property shows just what is recorded, for every id. */
    ghost predicate AllAgree()
      reads this
    {
      forall uuid :: Agrees(SlotOf(uuid))
    }

    ghost predicate AllSound()
      reads this
    {
      forall uuid :: Sound(touchscreens, uuid, SlotOf(uuid))
    }

    /** Every record is for an attached touchscreen and names a connected monitor or the built-in one. */
    ghost predicate AllReal(ms: seq<Monitor>, builtin: Option<Monitor>)
      reads this
    {
      forall uuid :: IsReal(touchscreens, uuid, ms, builtin, SlotOf(uuid))
    }

    method IsAttached(touchUuid: string) returns (found: bool)
      ensures found <==> Attached(touchscreens, touchUuid)
    {
      for i := 0 to |touchscreens|
        invariant forall j | 0 <= j < i :: touchscreens[j].uuid != touchUuid
      {
        if touchscreens[i].uuid == touchUuid {
          return true;
        }
      }
      found := false;
    }

    /** `stored` is what was read, unless nothing was; `parsed` is false if reading went wrong half way. */
    method InitTouchMap(stored: Option<map<string, Entry>>, parsed: bool)
      modifies `touchscreenMap, `touchMap
      ensures forall uuid :: SlotOf(uuid) ==
                Initial(touchscreens, uuid, Read(stored, uuid), parsed)
    {
      touchscreenMap, touchMap := map[], map[];
      if stored == None {
        return;
      }
      touchscreenMap := stored.value;
      if !parsed {
        return;
      }
      var todo := touchscreenMap.Keys;
      while todo != {}
        invariant todo <= touchscreenMap.Keys && touchscreenMap == stored.value
        invariant touchMap.Keys == set uuid | uuid in touchscreenMap && uuid !in todo && Attached(touchscreens, uuid)
        invariant forall uuid | uuid in touchMap :: touchMap[uuid] == touchscreenMap[uuid].output
      {
        var touchUuid :| touchUuid in todo;
        todo := todo - {touchUuid};
        var found := IsAttached(touchUuid);
        if found {
          touchMap := touchMap[touchUuid := touchscreenMap[touchUuid].output];
        }
      }
    }

    ghost predicate IsDeviceOf(touchUuid: string, id: int32)
      reads `touchscreens
    {
      exists t :: t in touchscreens && t.uuid == touchUuid && t.id == id
    }

    /** Every touchscreen with the id that responds has been told to follow the monitor. */
    ghost predicate Follows(touchUuid: string, m: Monitor)
      reads `touchscreens, `devices, `responding
    {
      forall t | t in touchscreens && t.uuid == touchUuid && t.id in responding ::
        && t.id in devices
        && devices[t.id] == if m.enabled then On(m.x, m.y, m.width, m.height, m.orientation) else Off
    }

    twostate predicate OnlyDevicesOf(touchUuid: string)
      reads this
    {
      forall id | !IsDeviceOf(touchUuid, id) ::
        (id in devices <==> id in old(devices)) && (id in devices ==> devices[id] == old(devices)[id])
    }

    /** Sets the matrix of every touchscreen with the id, or switches them off with the monitor; an error
        means that there is none. */
    method DoSetTouchMap(monitor: Monitor, touchUuid: string) returns (err: bool)
      modifies `devices
      ensures err <==> !Attached(touchscreens, touchUuid)
      ensures Follows(touchUuid, monitor) && OnlyDevicesOf(touchUuid)
    {
      var touchIds := [];
      for i := 0 to |touchscreens|
        invariant devices == old(devices)
        invariant forall j | 0 <= j < i && touchscreens[j].uuid == touchUuid :: touchscreens[j].id in touchIds
        invariant forall id | id in touchIds :: IsDeviceOf(touchUuid, id)
        invariant touchIds != [] <==> Attached(touchscreens[..i], touchUuid)
      {
        assert touchscreens[..i + 1] == touchscreens[..i] + [touchscreens[i]];
        AttachedAppend(touchscreens[..i], touchscreens[i], touchUuid);
        if touchscreens[i].uuid == touchUuid {
          touchIds := touchIds + [touchscreens[i].id];
        }
      }
      assert touchscreens[..|touchscreens|] == touchscreens;
      for i := 0 to |touchIds|
        invariant touchscreens == old(touchscreens) && responding == old(responding)
        invariant forall j | 0 <= j < i && touchIds[j] in responding ::
                    && touchIds[j] in devices
                    && devices[touchIds[j]] == if monitor.enabled
                                               then On(monitor.x, monitor.y, monitor.width, monitor.height,
                                                       monitor.orientation)
                                               else Off
        invariant OnlyDevicesOf(touchUuid)
      {
        if touchIds[i] in responding {
          var mapping := Off;
          if monitor.enabled {
            mapping := On(monitor.x, monitor.y, monitor.width, monitor.height, monitor.orientation);
          }
          devices := devices[touchIds[i] := mapping];
        }
      }
      err := |touchIds| == 0;
    }

    method UpdateTouchscreenMap(output: string, touchUuid: string, auto: bool)
      modifies `touchscreenMap, `touchMap
      ensures SlotOf(touchUuid) == Assigned(output, auto)
      ensures touchUuid in touchscreenMap && touchscreenMap[touchUuid] == Entry(output, auto)
      ensures touchUuid in touchMap && touchMap[touchUuid] == output
      ensures forall uuid | uuid != touchUuid :: SlotOf(uuid) == old(SlotOf(uuid))
    {
      touchscreenMap := touchscreenMap[touchUuid := Entry(output, auto)];
      touchMap := touchMap[touchUuid := output];
    }

    method RemoveTouchscreenMap(touchUuid: string)
      modifies `touchscreenMap, `touchMap
      ensures SlotOf(touchUuid) == EMPTY && touchscreenMap.Keys == old(touchscreenMap).Keys - {touchUuid}
      ensures forall uuid | uuid != touchUuid :: SlotOf(uuid) == old(SlotOf(uuid))
    {
      touchscreenMap := touchscreenMap - {touchUuid};
      touchMap := touchMap - {touchUuid};
    }

    method AssociateTouch(monitor: Monitor, touchUuid: string, auto: bool) returns (err: bool)
      modifies `touchscreenMap, `touchMap, `devices
      ensures SlotOf(touchUuid) == if err then old(SlotOf(touchUuid))
                                   else Associated(old(SlotOf(touchUuid)), monitor.name, auto)
      ensures old(SlotOf(touchUuid)).entry == None ==> Follows(touchUuid, monitor)
      ensures SlotOf(touchUuid) != old(SlotOf(touchUuid)) ==> Follows(touchUuid, monitor)
      ensures !err ==> touchUuid in touchscreenMap && touchscreenMap[touchUuid].output == monitor.name
      ensures OnlyDevicesOf(touchUuid)
      ensures forall uuid | uuid != touchUuid :: SlotOf(uuid) == old(SlotOf(uuid))
      ensures err ==> !Attached(touchscreens, touchUuid)
      ensures old(AllAgree()) ==> AllAgree()
    {
      if touchUuid in touchscreenMap && touchscreenMap[touchUuid].output == monitor.name {
        return false;
      }
      err := DoSetTouchMap(monitor, touchUuid);
      if err {
        return;
      }
      UpdateTouchscreenMap(monitor.name, touchUuid, auto);
    }

    /** Forgets the touchscreens that were unplugged. */
    method ClearUnplugged()
      modifies `touchscreenMap, `touchMap
      ensures forall uuid :: SlotOf(uuid) == Cleared(touchscreens, uuid, old(SlotOf(uuid)))
    {
      var todo := touchscreenMap.Keys;
      while todo != {}
        invariant todo <= touchscreenMap.Keys
        invariant forall uuid :: SlotOf(uuid) ==
                    if uuid in todo then old(SlotOf(uuid)) else Cleared(touchscreens, uuid, old(SlotOf(uuid)))
        decreases |todo|
      {
        var touchUuid :| touchUuid in todo;
        todo := todo - {touchUuid};
        var found := IsAttached(touchUuid);
        if !found {
          RemoveTouchscreenMap(touchUuid);
        }
      }
    }

    ghost predicate NamesNoOutput(touchUuid: string)
      reads `touchscreens
    {
      forall t | t in touchscreens && t.uuid == touchUuid :: t.outputName == ""
    }

    /** The touchscreens with the id follow the monitor that is recorded for it; without a record and a name of an
        output they follow the primary monitor, if it is connected. */
    ghost predicate FollowsItsMonitor(touchUuid: string, ms: seq<Monitor>, builtin: Option<Monitor>, primary: string)
      reads this
    {
      && (touchUuid in touchscreenMap ==>
            exists m ::
              (m in ms || builtin == Some(m)) && m.name == touchscreenMap[touchUuid].output && Follows(touchUuid, m))
      && (touchUuid !in touchscreenMap && NamesNoOutput(touchUuid) && HasName(ms, primary) ==>
            exists m :: m in ms && m.name == primary && Follows(touchUuid, m))
    }

    /** What becomes of a touchscreen that is not recorded. */
    method HandleUnrecorded(touch: Touchscreen, ms: seq<Monitor>, builtin: Option<Monitor>, primary: string)
      requires touch in touchscreens && touch.uuid !in touchscreenMap
      modifies `touchscreenMap, `touchMap, `devices
      ensures SlotOf(touch.uuid) == Chosen(touch, ms, builtin, old(SlotOf(touch.uuid)))
      ensures forall uuid | uuid != touch.uuid :: SlotOf(uuid) == old(SlotOf(uuid))
      ensures FollowsItsMonitor(touch.uuid, ms, builtin, primary) && OnlyDevicesOf(touch.uuid)
    {
      hide HasName;
      var err;
      if touch.outputName != "" {
        var monitor := GetByName(ms, touch.outputName);
        if monitor.Some? {
          err := AssociateTouch(monitor.value, touch.uuid, true);
        }
        return;
      }
      var monitor := FindBySize(ms, touch.mmWidth, touch.mmHeight);
      if monitor.Some? {
        err := AssociateTouch(monitor.value, touch.uuid, true);
        return;
      }
      if builtin.Some? && !touch.usb {
        err := AssociateTouch(builtin.value, touch.uuid, true);
        return;
      }
      var primaryMonitor := GetByName(ms, primary);
      if primaryMonitor.Some? {
        err := DoSetTouchMap(primaryMonitor.value, touch.uuid);
      }
    }

    /** The body of the loop over the touchscreens. */
    method HandleOne(touch: Touchscreen, ms: seq<Monitor>, builtin: Option<Monitor>, primary: string)
      requires touch in touchscreens
      modifies `touchscreenMap, `touchMap, `devices
      ensures SlotOf(touch.uuid) == Chosen(touch, ms, builtin, old(SlotOf(touch.uuid)))
      ensures IsDecided(touch, ms, builtin, old(SlotOf(touch.uuid)).entry, SlotOf(touch.uuid).entry)
      ensures forall uuid | uuid != touch.uuid :: SlotOf(uuid) == old(SlotOf(uuid))
      ensures FollowsItsMonitor(touch.uuid, ms, builtin, primary) && OnlyDevicesOf(touch.uuid)
    {
      hide IsDecided, HasName;
      ChosenIsDecided(touch, ms, builtin, SlotOf(touch.uuid));
      if touch.uuid in touchscreenMap {
        var output := touchscreenMap[touch.uuid].output;
        var monitor := GetByName(ms, output);
        if monitor.Some? {
          var err := DoSetTouchMap(monitor.value, touch.uuid);
          return;
        }
        RemoveTouchscreenMap(touch.uuid);
      }
      HandleUnrecorded(touch, ms, builtin, primary);
    }

    /** With a single touchscreen and a single monitor, one goes to the other. */
    method Start(ms: seq<Monitor>)
      modifies `touchscreenMap, `touchMap, `devices
      ensures forall uuid :: SlotOf(uuid) == Single(touchscreens, uuid, ms, old(SlotOf(uuid)))
    {
      if |touchscreens| == 1 && |ms| == 1 {
        var err := AssociateTouch(ms[0], touchscreens[0].uuid, true);
      }
    }

    method HandleAll(ms: seq<Monitor>, builtin: Option<Monitor>, primary: string)
      modifies `touchscreenMap, `touchMap, `devices
      ensures forall uuid :: SlotOf(uuid) == Handled(touchscreens, uuid, ms, builtin, old(SlotOf(uuid)))
      ensures DistinctDevices(touchscreens) ==>
                forall t | t in touchscreens :: FollowsItsMonitor(t.uuid, ms, builtin, primary)
    {
      hide Chosen, Cleared, Single, Associated, IsDecided, TouchManager.FollowsItsMonitor, TouchManager.OnlyDevicesOf;
      ClearUnplugged();
      Start(ms);
      label started:
      for i := 0 to |touchscreens|
        invariant touchscreens == old(touchscreens) && responding == old(responding)
        invariant DistinctDevices(touchscreens) ==>
                    forall j | 0 <= j < i :: FollowsItsMonitor(touchscreens[j].uuid, ms, builtin, primary)
        invariant forall uuid ::
                    SlotOf(uuid) == ChosenFor(touchscreens[..i], uuid, ms, builtin, old@started(SlotOf(uuid)))
      {
        assert touchscreens[..i + 1][..i] == touchscreens[..i];
        label before:
        HandleOne(touchscreens[i], ms, builtin, primary);
        forall j | 0 <= j < i && DistinctDevices(touchscreens)
          ensures FollowsItsMonitor(touchscreens[j].uuid, ms, builtin, primary)
        {
          if touchscreens[j].uuid != touchscreens[i].uuid {
            StillFollows@before(Change(this, touchscreens[i].uuid, touchscreens[j].uuid, ms, builtin, primary));
          }
        }
      }
      assert touchscreens[..|touchscreens|] == touchscreens;
    }

    method HandleTouchscreenChanged(ms: seq<Monitor>, builtin: Option<Monitor>, primary: string)
      modifies `touchscreenMap, `touchMap, `devices
      ensures forall uuid :: SlotOf(uuid) == Handled(touchscreens, uuid, ms, builtin, old(SlotOf(uuid)))
      ensures AllReal(ms, builtin)
      ensures |touchscreens| == |ms| == 1 ==>
                && touchscreens[0].uuid in touchscreenMap
                && touchscreenMap[touchscreens[0].uuid].output == ms[0].name
      ensures old(AllSound()) ==> AllAgree()
      ensures DistinctDevices(touchscreens) ==>
                forall t | t in touchscreens :: FollowsItsMonitor(t.uuid, ms, builtin, primary)
    {
      hide Handled, ChosenFor, Single, Cleared, Sound, Agrees, IsReal, DistinctDevices, TouchManager.FollowsItsMonitor;
      HandleAll(ms, builtin, primary);
      if |touchscreens| == |ms| == 1 {
        var t := touchscreens[0];
        assert touchscreens == [t] && ms == [ms[0]];
        SingleGoesToSingle(t, ms[0], builtin, old(SlotOf(t.uuid)));
        assert SlotOf(t.uuid).entry.Some?;
      }
      forall uuid ensures IsReal(touchscreens, uuid, ms, builtin, SlotOf(uuid)) {
        HandledIsReal(touchscreens, uuid, ms, builtin, old(SlotOf(uuid)));
      }
      if old(AllSound()) {
        forall uuid ensures Agrees(SlotOf(uuid)) {
          HandledIsGood(touchscreens, uuid, ms, builtin, old(SlotOf(uuid)));
        }
      }
    }

    /** The last touchscreen takes the place of the one that goes. */
    method RemoveTouchscreenByIdx(i: nat)
      modifies `touchscreens
      ensures touchscreens == WithoutIdx(old(touchscreens), i)
      ensures i < |old(touchscreens)| ==>
                && |touchscreens| == |old(touchscreens)| - 1
                && forall j | 0 <= j < |touchscreens| ::
                     touchscreens[j] == old(touchscreens)[if j == i then |touchscreens| else j]
      ensures forall uuid :: SlotOf(uuid) == old(SlotOf(uuid))
    {
      if |touchscreens| > i {
        touchscreens := touchscreens[i := touchscreens[|touchscreens| - 1]];
        touchscreens := touchscreens[..|touchscreens| - 1];
      }
    }

    /** The last touchscreen with the path goes. */
    method RemoveTouchscreenByPath(path: string)
      modifies `touchscreens
      ensures forall uuid :: SlotOf(uuid) == old(SlotOf(uuid))
      ensures touchscreens == old(touchscreens) ==> forall t | t in touchscreens :: t.path != path
      ensures touchscreens != old(touchscreens) ==>
                exists i: nat ::
                  IsLastWithPath(old(touchscreens), path, i) && touchscreens == WithoutIdx(old(touchscreens), i)
    {
      var i := -1;
      for index := 0 to |touchscreens|
        invariant -1 <= i < index && touchscreens == old(touchscreens)
        invariant forall j | i < j < index :: touchscreens[j].path != path
        invariant i >= 0 ==> touchscreens[i].path == path
      {
        if touchscreens[index].path == path {
          i := index;
        }
      }
      if i == -1 {
        return;
      }
      assert IsLastWithPath(touchscreens, path, i);
      RemoveTouchscreenByIdx(i);
    }

    lemma AgreeMeansSound()
      ensures AllAgree() ==> AllSound()
    {
      forall uuid | AllAgree() ensures Sound(touchscreens, uuid, SlotOf(uuid)) {
        AgreeingIsSound(touchscreens, uuid, SlotOf(uuid));
      }
    }

    /** The first touchscreen with the device node goes. */
    method RemoveTouchscreenByDeviceNode(deviceNode: string)
      modifies `touchscreens
      ensures forall uuid :: SlotOf(uuid) == old(SlotOf(uuid))
      ensures touchscreens == old(touchscreens) ==> forall t | t in touchscreens :: t.deviceNode != deviceNode
      ensures touchscreens != old(touchscreens) ==>
                exists i: nat ::
                  IsFirstWithNode(old(touchscreens), deviceNode, i) && touchscreens == WithoutIdx(old(touchscreens), i)
    {
      for i := 0 to |touchscreens|
        invariant touchscreens == old(touchscreens)
        invariant forall j | 0 <= j < i :: touchscreens[j].deviceNode != deviceNode
      {
        if touchscreens[i].deviceNode == deviceNode {
          assert IsFirstWithNode(touchscreens, deviceNode, i);
          RemoveTouchscreenByIdx(i);
          return;
        }
      }
    }

    /** TouchscreenAdded; `t` is the new touchscreen, if it could be identified. */
    method HandleAdded(path: string, t: Option<Touchscreen>, ms: seq<Monitor>, builtin: Option<Monitor>,
                       primary: string)
      modifies this
      ensures old(AllAgree()) ==> AllAgree()
      ensures t.Some? ==> AllReal(ms, builtin) && t.value in touchscreens
      ensures t.Some? && DistinctDevices(touchscreens) ==>
                forall u | u in touchscreens :: FollowsItsMonitor(u.uuid, ms, builtin, primary)
    {
      RemoveTouchscreenByPath(path);
      if t == None {
        return;
      }
      RemoveTouchscreenByDeviceNode(t.value.deviceNode);
      touchscreens := touchscreens + [t.value];
      assert forall uuid :: SlotOf(uuid) == old(SlotOf(uuid));
      AgreeMeansSound();
      HandleTouchscreenChanged(ms, builtin, primary);
    }

    /** TouchscreenRemoved */
    method HandleRemoved(path: string, ms: seq<Monitor>, builtin: Option<Monitor>, primary: string)
      modifies this
      ensures old(AllAgree()) ==> AllAgree()
      ensures AllReal(ms, builtin)
      ensures DistinctDevices(touchscreens) ==>
                forall u | u in touchscreens :: FollowsItsMonitor(u.uuid, ms, builtin, primary)
    {
      RemoveTouchscreenByPath(path);
      AgreeMeansSound();
      HandleTouchscreenChanged(ms, builtin, primary);
    }

    /** The input device service is gone, and with it all touchscreens. */
    method HandleServiceGone()
      modifies `touchscreens
      ensures touchscreens == []
      ensures old(AllAgree()) ==> AllAgree()
    {
      touchscreens := [];
      assert forall uuid :: SlotOf(uuid) == old(SlotOf(uuid));
    }

    /** initTouchscreens, once the touchscreens are listed. */
    method Init(ts: seq<Touchscreen>, stored: Option<map<string, Entry>>, parsed: bool,
                ms: seq<Monitor>, builtin: Option<Monitor>, primary: string)
      modifies this
      ensures AllAgree() <==> forall uuid :: ReadsWell(ts, uuid, ms, Read(stored, uuid), parsed)
      ensures AllReal(ms, builtin) && touchscreens == ts
    {
      hide Handled, Agrees, Initial, ReadsWell, IsReal, Sound;
      touchscreens := ts;
      InitTouchMap(stored, parsed);
      HandleTouchscreenChanged(ms, builtin, primary);
      forall uuid ensures Agrees(SlotOf(uuid)) <==> ReadsWell(ts, uuid, ms, Read(stored, uuid), parsed) {
        InitialisedAgreesIff(ts, uuid, ms, builtin, Read(stored, uuid), parsed);
      }
    }
  }
}
