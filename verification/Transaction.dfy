/** What editing, applying, saving and resetting do to the stored screens and to the configuration
    kept for the next save (applyChanges, save, markClean and resetChangesWithoutApply in
    display/manager.go), over any run. */
module Transaction {
  import opened Text
  import opened Sorting
  import opened DisplayConfig
  import opened MonitorState

  const MODE_INVALID: int := 0
  const MODE_MIRROR: int := 1
  const MODE_EXTEND: int := 2
  const MODE_ONLY_ONE: int := 3

  /** What an operation reads of a connected monitor. */
  datatype Connected = Connected(uuid: string, uuidV0: string, enabled: bool, changes: Changes)

  /** A set of connected monitors, by their old ids and by their new ones. */
  datatype MonitorsId = MonitorsId(v0: string, v1: string)

  const NO_MONITORS := MonitorsId("", "")

  type Screens = map<string, Option<ScreenConfig>>

  datatype T = T(screens: Screens, futureId: MonitorsId, future: seq<MonitorConfig>,
                 hasChanged: bool, inApply: bool, displayMode: int)

  const EMPTY_SCREEN := ScreenConfig(None, None, None, map[], "")

  // ---- Ids ----

  function Each<X, Y>(f: X -> Y, s: seq<X>): (r: seq<Y>)
    ensures |r| == |s| && forall i | 0 <= i < |s| :: r[i] == f(s[i])
  {
    if s == [] then [] else [f(s[0])] + Each(f, s[1..])
  }

  function IdOf(ms: seq<Connected>): MonitorsId {
    if ms == [] then NO_MONITORS
    else MonitorsId(Join(Sort(Each((m: Connected) => m.uuidV0, ms)), ","),
                    Join(Sort(Each((m: Connected) => m.uuid, ms)), ","))
  }

  lemma JoinOfTwo(a: string, b: string)
    ensures Join([a, b], ",") == a + "," + b
  {
    assert [a, b][1..] == [b];
  }

  /** The id of a single monitor is its own; those of two are put in order, with a comma between them. */
  lemma IdOfTwo(a: Connected, b: Connected)
    requires Leq(a.uuid, b.uuid) && Leq(a.uuidV0, b.uuidV0)
    ensures IdOf([a]) == MonitorsId(a.uuidV0, a.uuid)
    ensures IdOf([b, a]) == MonitorsId(a.uuidV0 + "," + b.uuidV0, a.uuid + "," + b.uuid)
  {
    var v0, v1 := (m: Connected) => m.uuidV0, (m: Connected) => m.uuid;
    assert [b, a][1..] == [a];
    SortOfTwo(a.uuidV0, b.uuidV0);
    SortOfTwo(a.uuid, b.uuid);
    assert Each(v0, [b, a]) == [b.uuidV0, a.uuidV0] && Each(v1, [b, a]) == [b.uuid, a.uuid];
    assert Each(v0, [a]) == [a.uuidV0] && Each(v1, [a]) == [a.uuid];
    JoinOfTwo(a.uuidV0, b.uuidV0);
    JoinOfTwo(a.uuid, b.uuid);
  }

  lemma TakeAway<X>(x: X, a: multiset<X>, b: multiset<X>)
    requires multiset{x} + a == multiset{x} + b
    ensures a == b
  {
    assert a == (multiset{x} + a) - multiset{x};
    assert b == (multiset{x} + b) - multiset{x};
  }

  lemma HeadAndTail<X>(s: seq<X>)
    requires s != []
    ensures multiset(s) == multiset{s[0]} + multiset(s[1..])
  {
    assert s == [s[0]] + s[1..];
  }

  function Remove<X(==)>(s: seq<X>, x: X): seq<X>
    requires x in s
  {
    if s[0] == x then s[1..] else [s[0]] + Remove(s[1..], x)
  }

  lemma {:induction false} RemoveTakesOne<X>(s: seq<X>, x: X)
    requires x in s
    ensures multiset(s) == multiset{x} + multiset(Remove(s, x))
  {
    HeadAndTail(s);
    if s[0] != x {
      RemoveTakesOne(s[1..], x);
    }
  }

  lemma {:induction false} EachOfRest<X, Y>(f: X -> Y, s: seq<X>, x: X)
    requires x in s
    ensures multiset(Each(f, s)) == multiset{f(x)} + multiset(Each(f, Remove(s, x)))
  {
    HeadAndTail(Each(f, s));
    if s[0] != x {
      EachOfRest(f, s[1..], x);
      HeadAndTail(Each(f, Remove(s, x)));
    }
  }

  lemma {:induction false} SameEach<X, Y>(f: X -> Y, s: seq<X>, s': seq<X>)
    requires multiset(s) == multiset(s')
    ensures multiset(Each(f, s)) == multiset(Each(f, s'))
  {
    if s == [] {
      assert |multiset(s')| == 0;
    } else {
      HeadAndTail(s);
      assert s[0] in multiset(s');
      RemoveTakesOne(s', s[0]);
      EachOfRest(f, s', s[0]);
      TakeAway(s[0], multiset(s[1..]), multiset(Remove(s', s[0])));
      SameEach(f, s[1..], Remove(s', s[0]));
      HeadAndTail(Each(f, s));
    }
  }

  /** The id does not depend on the order in which the monitors are listed. */
  lemma IdIgnoresOrder(ms: seq<Connected>, ms': seq<Connected>)
    requires multiset(ms) == multiset(ms')
    ensures IdOf(ms) == IdOf(ms')
  {
    var v0, v1 := (m: Connected) => m.uuidV0, (m: Connected) => m.uuid;
    assert |multiset(ms)| == |ms| && |multiset(ms')| == |ms'|;
    SameEach(v0, ms, ms');
    SameEach(v1, ms, ms');
    SortIsCanonical(Each(v0, ms), Each(v0, ms'));
    SortIsCanonical(Each(v1, ms), Each(v1, ms'));
  }

  // ---- The stored screens ----

  function Stored(screens: Screens, key: string): ScreenConfig {
    if key in screens && screens[key].Some? then screens[key].value else EMPTY_SCREEN
  }

  function ModeConfigs(m: Option<ModeConfig>): seq<MonitorConfig> {
    match m
    case None => []
    case Some(c) => c.monitors
  }

  /** SysScreenConfig.getMonitorConfigs */
  function ConfigsFor(s: ScreenConfig, mode: int, uuid: string): seq<MonitorConfig> {
    if mode == MODE_MIRROR then ModeConfigs(s.mirror)
    else if mode == MODE_EXTEND then ModeConfigs(s.extend)
    else if mode == MODE_ONLY_ONE && uuid != "" && uuid in s.onlyOneMap then ModeConfigs(s.onlyOneMap[uuid])
    else []
  }

  function FirstEnabled(cfgs: seq<MonitorConfig>): (r: Option<MonitorConfig>)
    ensures r == None <==> forall c | c in cfgs :: !c.enabled
    ensures r.Some? ==> r.value in cfgs && r.value.enabled
  {
    if cfgs == [] then None else if cfgs[0].enabled then Some(cfgs[0]) else FirstEnabled(cfgs[1..])
  }

  /** Configuration k is the first enabled one. */
  predicate IsFirstOn(cfgs: seq<MonitorConfig>, k: nat) {
    k < |cfgs| && cfgs[k].enabled && forall l | 0 <= l < k :: !cfgs[l].enabled
  }

  predicate SomeEnabled(cfgs: seq<MonitorConfig>) { exists c :: c in cfgs && c.enabled }

  /** What the only-one mode keeps of several configurations. */
  function OnlyOne(cfgs: seq<MonitorConfig>): seq<MonitorConfig> {
    match FirstEnabled(cfgs)
    case None => cfgs
    case Some(c) => if |cfgs| > 1 then [c] else cfgs
  }

  lemma {:induction false} FirstEnabledIsFirst(cfgs: seq<MonitorConfig>, k: nat)
    requires IsFirstOn(cfgs, k)
    ensures FirstEnabled(cfgs) == Some(cfgs[k])
  {
    if k > 0 {
      assert !cfgs[0].enabled;
      assert forall l | 0 <= l < k - 1 :: cfgs[1..][l] == cfgs[l + 1];
      FirstEnabledIsFirst(cfgs[1..], k - 1);
    }
  }

  /** Of several configurations the first enabled one is kept; a single one, or several disabled ones, stay. */
  lemma OnlyOneKeepsFirst(cfgs: seq<MonitorConfig>)
    ensures |cfgs| <= 1 || !SomeEnabled(cfgs) ==> OnlyOne(cfgs) == cfgs
    ensures forall k: nat | IsFirstOn(cfgs, k) && |cfgs| > 1 :: OnlyOne(cfgs) == [cfgs[k]]
  {
    forall k: nat | IsFirstOn(cfgs, k) && |cfgs| > 1 ensures OnlyOne(cfgs) == [cfgs[k]] {
      FirstEnabledIsFirst(cfgs, k);
    }
  }

  /** SysScreenConfig.setMonitorConfigs */
  function WithConfigs(s: ScreenConfig, mode: int, uuid: string, cfgs: seq<MonitorConfig>): ScreenConfig {
    if mode == MODE_MIRROR then s.(mirror := Some(ModeConfig(cfgs)))
    else if mode == MODE_EXTEND then s.(extend := Some(ModeConfig(cfgs)))
    else if mode == MODE_ONLY_ONE && uuid != "" then
      s.(onlyOneMap := s.onlyOneMap[uuid := Some(ModeConfig(OnlyOne(cfgs)))])
    else s
  }

  function OnlyOneUuid(mode: int, ms: seq<Connected>): string {
    if mode != MODE_ONLY_ONE || ms == [] then "" else if ms[0].enabled then ms[0].uuid else OnlyOneUuid(mode, ms[1..])
  }

  /** The stored configuration that suits the connected monitors. */
  function Suitable(screens: Screens, mode: int, ms: seq<Connected>): seq<MonitorConfig> {
    var s := Stored(screens, IdOf(ms).v1);
    if ms == [] then [] else if |ms| == 1 then ModeConfigs(s.single) else ConfigsFor(s, mode, OnlyOneUuid(mode, ms))
  }

  /** The stored screen with the configuration that suits the connected monitors replaced. */
  function WithSuitable(screens: Screens, mode: int, ms: seq<Connected>, cfgs: seq<MonitorConfig>): ScreenConfig {
    var s := Stored(screens, IdOf(ms).v1);
    if |ms| == 1 then s.(single := Some(ModeConfig(cfgs))) else WithConfigs(s, mode, OnlyOneUuid(mode, ms), cfgs)
  }

  // ---- One step ----

  function GetByUuid(ms: seq<Connected>, uuid: string): Option<Connected> {
    if ms == [] then None
    else if uuid == ms[0].uuid || uuid == ms[0].uuidV0 then Some(ms[0])
    else GetByUuid(ms[1..], uuid)
  }

  function ModifiedOne(ms: seq<Connected>, c: MonitorConfig): MonitorConfig {
    match GetByUuid(ms, c.uuid)
    case None => c
    case Some(m) => Modified(c, m.changes)
  }

  /** The configurations with the recorded changes of the monitors they name. */
  function ModifiedAll(ms: seq<Connected>, cfgs: seq<MonitorConfig>): (r: seq<MonitorConfig>)
    ensures |r| == |cfgs| && forall i | 0 <= i < |cfgs| :: r[i] == ModifiedOne(ms, cfgs[i])
  {
    if cfgs == [] then [] else [ModifiedOne(ms, cfgs[0])] + ModifiedAll(ms, cfgs[1..])
  }

  predicate BearsId(m: Connected, uuid: string) { m.uuid == uuid || m.uuidV0 == uuid }

  /** Monitor k is the first of the list with this id, old or new. */
  predicate IsFirstWith(ms: seq<Connected>, uuid: string, k: nat) {
    k < |ms| && BearsId(ms[k], uuid) && forall l | 0 <= l < k :: !BearsId(ms[l], uuid)
  }

  predicate NoneWith(ms: seq<Connected>, uuid: string) { forall m | m in ms :: !BearsId(m, uuid) }

  predicate IsOr<X(==)>(value: X, change: Option<X>, stored: X) {
    match change
    case None => value == stored
    case Some(v) => value == v
  }

  /** Every property recorded has the recorded value, and every other one is the stored one. */
  predicate HasChanges(stored: MonitorConfig, changes: Changes, asked: MonitorConfig) {
    && IsOr(asked.enabled, changes.enabled, stored.enabled)
    && IsOr(asked.x, changes.x, stored.x) && IsOr(asked.y, changes.y, stored.y)
    && IsOr(asked.width, changes.width, stored.width) && IsOr(asked.height, changes.height, stored.height)
    && IsOr(asked.rotation, changes.rotation, stored.rotation)
    && IsOr(asked.refreshRate, changes.refreshRate, stored.refreshRate)
    && asked.uuid == stored.uuid && asked.name == stored.name && asked.reflect == stored.reflect
    && asked.brightness == stored.brightness && asked.primary == stored.primary
  }

  /** Each entry has the changes recorded by the first monitor that bears its id; an entry no monitor bears is the
      stored one. */
  ghost predicate AreChanged(ms: seq<Connected>, stored: seq<MonitorConfig>, asked: seq<MonitorConfig>) {
    && |asked| == |stored|
    && forall i | 0 <= i < |stored| ::
         && (forall k: nat | IsFirstWith(ms, stored[i].uuid, k) :: HasChanges(stored[i], ms[k].changes, asked[i]))
         && (NoneWith(ms, stored[i].uuid) ==> asked[i] == stored[i])
  }

  lemma {:induction false} GetByUuidFinds(ms: seq<Connected>, uuid: string, k: nat)
    requires IsFirstWith(ms, uuid, k)
    ensures GetByUuid(ms, uuid) == Some(ms[k])
  {
    if k > 0 {
      assert !BearsId(ms[0], uuid);
      assert forall l | 0 <= l < k - 1 :: ms[1..][l] == ms[l + 1];
      GetByUuidFinds(ms[1..], uuid, k - 1);
    }
  }

  lemma {:induction false} GetByUuidFindsNone(ms: seq<Connected>, uuid: string)
    requires NoneWith(ms, uuid)
    ensures GetByUuid(ms, uuid) == None
  {
    if ms != [] {
      assert !BearsId(ms[0], uuid);
      GetByUuidFindsNone(ms[1..], uuid);
    }
  }

  lemma ModifiedHasChanges(stored: MonitorConfig, changes: Changes)
    ensures HasChanges(stored, changes, Modified(stored, changes))
  {
  }

  lemma ModifiedAreChanged(ms: seq<Connected>, stored: seq<MonitorConfig>)
    ensures AreChanged(ms, stored, ModifiedAll(ms, stored))
  {
    hide HasChanges, Modified, GetByUuid, NoneWith;
    var asked := ModifiedAll(ms, stored);
    forall i, k: nat | 0 <= i < |stored| && IsFirstWith(ms, stored[i].uuid, k)
      ensures HasChanges(stored[i], ms[k].changes, asked[i])
    {
      GetByUuidFinds(ms, stored[i].uuid, k);
      ModifiedHasChanges(stored[i], ms[k].changes);
    }
    forall i | 0 <= i < |stored| && NoneWith(ms, stored[i].uuid) ensures asked[i] == stored[i] {
      GetByUuidFindsNone(ms, stored[i].uuid);
    }
  }

  predicate Active(t: T) { t.hasChanged && !t.inApply }

  /** The configuration applyChanges asks for. */
  function ToApply(t: T, ms: seq<Connected>): seq<MonitorConfig> {
    ModifiedAll(ms, Suitable(t.screens, t.displayMode, ms))
  }

  /** What is asked for is what is stored, with the recorded changes. */
  lemma AskedAreChanged(t: T, ms: seq<Connected>)
    ensures AreChanged(ms, Suitable(t.screens, t.displayMode, ms), ToApply(t, ms))
  {
    ModifiedAreChanged(ms, Suitable(t.screens, t.displayMode, ms));
  }

  /** Whether applyChanges applies a configuration, `applyOk` being what becomes of the X requests. */
  predicate Applies(t: T, ms: seq<Connected>, applyOk: bool) {
    Active(t) && applyOk && SomeEnabled(ToApply(t, ms))
  }

  lemma ChangesDescribe(stored: MonitorConfig, changes: Changes, asked: MonitorConfig, s: State)
    requires HasChanges(stored, changes, asked) && Describes(Modified(stored, changes), s)
    ensures Describes(asked, s)
  {
  }

  /** The edits of a monitor are what is asked for: once it has been edited, in any way, from a state its stored entry
      described, the entry asked for describes the edited monitor. */
  lemma EditsAreAskedFor(t: T, ms: seq<Connected>, i: nat, k: nat, d: Device, s: State, es: seq<Edit>)
    requires var stored := Suitable(t.screens, t.displayMode, ms);
             i < |stored| && IsFirstWith(ms, stored[i].uuid, k) && Describes(stored[i], s)
    requires s.changes == NO_CHANGES && ms[k].changes == RunEdits(d, s, es).changes
    ensures |ToApply(t, ms)| == |Suitable(t.screens, t.displayMode, ms)|
    ensures Describes(ToApply(t, ms)[i], RunEdits(d, s, es))
  {
    hide Describes, HasChanges, ToApply, Suitable, Modified, RunEdits, NoneWith, IsOr;
    var stored := Suitable(t.screens, t.displayMode, ms);
    AskedAreChanged(t, ms);
    EditsReachConfig(d, s, es, stored[i]);
    ChangesDescribe(stored[i], ms[k].changes, ToApply(t, ms)[i], RunEdits(d, s, es));
  }

  function Cleared(t: T): T { t.(futureId := NO_MONITORS, future := []) }

  function ChangesApplied(t: T, ms: seq<Connected>, applyOk: bool): T {
    if !Active(t) then t
    else if Applies(t, ms, applyOk) then t.(futureId := IdOf(ms), future := ToApply(t, ms))
    else Cleared(t)
  }

  /** Whether save stores anything. */
  predicate Stores(t: T, ms: seq<Connected>) {
    Active(t) && ms != [] && t.futureId == IdOf(ms) && t.future != []
  }

  function MarkedClean(t: T): T { Cleared(t).(hasChanged := false) }

  function SavedScreens(t: T, ms: seq<Connected>): Screens {
    t.screens[IdOf(ms).v1 := Some(WithSuitable(t.screens, t.displayMode, ms, t.future))]
  }

  /** `writeOk` tells whether the file could be written. */
  function Saved(t: T, ms: seq<Connected>, writeOk: bool): T {
    if !Stores(t, ms) then t
    else
      var t' := t.(screens := SavedScreens(t, ms));
      if writeOk then MarkedClean(t') else t'
  }

  datatype Event =
    | EditMonitor
    | ApplyChanges(ms: seq<Connected>, applyOk: bool)
    | Save(ms: seq<Connected>, writeOk: bool)
    | ResetChanges
    | MarkClean
    | SetInApply(inApply: bool)
    // A change of the display mode, the primary monitor or the brightness: stores a screen of its own.
    | Store(key: string, screen: ScreenConfig, displayMode: int)
    // The configuration of the system service, or the same screens under new monitor ids, takes the place of all.
    | Replace(screens: Screens, displayMode: int)

  function Next(t: T, e: Event): T {
    match e
    case EditMonitor => t.(hasChanged := true)
    case ApplyChanges(ms, applyOk) => ChangesApplied(t, ms, applyOk)
    case Save(ms, writeOk) => Saved(t, ms, writeOk)
    case ResetChanges => t.(hasChanged := false)
    case MarkClean => MarkedClean(t)
    case SetInApply(inApply) => t.(inApply := inApply)
    case Store(key, screen, mode) => t.(screens := t.screens[key := Some(screen)], displayMode := mode)
    case Replace(screens, mode) => t.(screens := screens, displayMode := mode)
  }

  predicate IsStoring(e: Event) { e.Store? || e.Replace? }

  // ---- Runs ----

  ghost predicate IsRun(ts: seq<T>, es: seq<Event>) {
    && |ts| == |es| + 1
    && ts[0].future == []
    && forall i | 0 <= i < |es| :: ts[i + 1] == Next(ts[i], es[i])
  }

  /** The step put this configuration of these monitors on the screen. */
  predicate IsGoodApply(t: T, e: Event, id: MonitorsId, cfgs: seq<MonitorConfig>) {
    e.ApplyChanges? && Applies(t, e.ms, e.applyOk) && id == IdOf(e.ms) && cfgs == ToApply(t, e.ms)
  }

  /** The step ends the life of what was applied: an apply that went through or failed, or a clean. */
  predicate Supersedes(t: T, e: Event) {
    || e.MarkClean?
    || (e.ApplyChanges? && Active(t))
    || (e.Save? && Stores(t, e.ms) && e.writeOk)
  }

  /** Step j applied what is kept before step i, and nothing has superseded it since. */
  ghost predicate Justifies(ts: seq<T>, es: seq<Event>, j: int, i: int)
    requires |ts| == |es| + 1 && 0 <= j < i <= |es|
  {
    && IsGoodApply(ts[j], es[j], ts[i].futureId, ts[i].future)
    && forall k | j < k < i :: !Supersedes(ts[k], es[k])
  }

  lemma KeptUnlessSuperseded(t: T, e: Event)
    requires !Supersedes(t, e)
    ensures Next(t, e).future == t.future && Next(t, e).futureId == t.futureId
  {
  }

  /** Whatever is kept for the next save was applied, and is the latest that was. */
  lemma {:induction false} FutureIsJustified(ts: seq<T>, es: seq<Event>, i: nat) returns (j: int)
    requires IsRun(ts, es) && i <= |es| && ts[i].future != []
    ensures 0 <= j < i && Justifies(ts, es, j, i)
  {
    hide IdOf, ToApply, SavedScreens;
    assert i > 0;
    assert ts[i] == Next(ts[i - 1], es[i - 1]);
    if Supersedes(ts[i - 1], es[i - 1]) {
      j := i - 1;
    } else {
      KeptUnlessSuperseded(ts[i - 1], es[i - 1]);
      j := FutureIsJustified(ts, es, i - 1);
    }
  }

  /** Only a save, the operations that store a screen of their own and a replacement of the whole configuration change
      the stored screens; edits, applies, resets and cleans never do. */
  lemma StoredOnlyBySave(t: T, e: Event)
    ensures Next(t, e).screens != t.screens ==> IsStoring(e) || (e.Save? && Stores(t, e.ms))
  {
  }

  /** A save changes at most the screen of the connected monitors. */
  lemma SaveTouchesOneScreen(t: T, ms: seq<Connected>, writeOk: bool, key: string)
    requires key != IdOf(ms).v1
    ensures (key in Saved(t, ms, writeOk).screens <==> key in t.screens)
    ensures key in t.screens ==> Saved(t, ms, writeOk).screens[key] == t.screens[key]
  {
  }

  /** Save safety: whatever a save stores for a set of monitors is the configuration that was last
      applied, successfully and for that very set; and from that apply to the save no step has touched
      the stored screens, other than saves whose file could not be written, the operations that store a
      screen of their own and replacements of the whole configuration. */
  lemma SaveSafety(ts: seq<T>, es: seq<Event>, i: nat) returns (j: int)
    requires IsRun(ts, es) && i < |es| && es[i].Save? && Stores(ts[i], es[i].ms)
    ensures 0 <= j < i && Justifies(ts, es, j, i)
    ensures IdOf(es[j].ms) == IdOf(es[i].ms)
    ensures ts[i + 1].screens ==
              ts[i].screens[IdOf(es[i].ms).v1 :=
                Some(WithSuitable(ts[i].screens, ts[i].displayMode, es[i].ms, ToApply(ts[j], es[j].ms)))]
    ensures forall k | j <= k < i && ts[k + 1].screens != ts[k].screens ::
              IsStoring(es[k]) || (es[k].Save? && !es[k].writeOk)
  {
    j := FutureIsJustified(ts, es, i);
    assert ts[i + 1] == Next(ts[i], es[i]);
    forall k | j <= k < i && ts[k + 1].screens != ts[k].screens
      ensures IsStoring(es[k]) || (es[k].Save? && !es[k].writeOk)
    {
      StoredOnlyBySave(ts[k], es[k]);
      assert ts[k + 1] == Next(ts[k], es[k]);
    }
  }

  // ---- What keeps what was applied ----

  /** Resetting does not drop what was applied: after a reset and a later edit, a save stores what it would have
      stored before them, exactly when the apply went through. */
  lemma ResetKeepsFuture(t: T, ms: seq<Connected>, applyOk: bool, writeOk: bool)
    requires ms != [] && Active(t)
    ensures var u := Next(Next(Next(t, ApplyChanges(ms, applyOk)), ResetChanges), EditMonitor);
            && (Stores(u, ms) <==> Applies(t, ms, applyOk))
            && Next(u, Save(ms, writeOk)).screens ==
                 if Applies(t, ms, applyOk)
                 then t.screens[IdOf(ms).v1 := Some(WithSuitable(t.screens, t.displayMode, ms, ToApply(t, ms)))]
                 else t.screens
  {
    hide IdOf, WithSuitable, ModifiedAll, Suitable;
  }
}
