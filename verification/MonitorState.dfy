/** What edits, resets and stored configurations do to one monitor (display/monitor.go and the
    monitor loop of applySysMonitorConfigs in display/manager.go). */
module MonitorState {
  import opened Ints
  import opened RandR
  import opened Modes
  import opened DisplayConfig

  datatype Device = Device(uuid: string, name: string, modes: seq<ModeInfo>, bestMode: ModeInfo)

  datatype Backup = Backup(
    enabled: bool, mode: ModeInfo, x: int16, y: int16, reflect: bv16, rotation: bv16, brightness: real)

  /** The recorded edits: one optional new value per property. */
  datatype Changes = Changes(
    enabled: Option<bool>, x: Option<int16>, y: Option<int16>, width: Option<uint16>, height: Option<uint16>,
    rotation: Option<bv16>, refreshRate: Option<real>)

  const NO_CHANGES: Changes := Changes(None, None, None, None, None, None, None)

  const ROTATE_MANUALLY: int := 2

  datatype State = State(
    enabled: bool, x: int16, y: int16, width: uint16, height: uint16, rotation: bv16, reflect: bv16,
    refreshRate: real, brightness: real, currentMode: ModeInfo, oldRotation: bv16, rotateMode: int,
    backup: Option<Backup>, changes: Changes, hasChanged: bool)

  datatype Edit =
    | Enable(enabled: bool)
    | SetMode(mode: uint32)
    | SetModeBySize(width: uint16, height: uint16)
    | SetRefreshRate(rate: real)
    | SetPosition(x: int16, y: int16, inApply: bool)
    | SetReflect(reflect: bv16)
    | SetRotation(rotation: bv16)

  // ---- Edits ----

  function BackupOf(s: State): Backup {
    Backup(s.enabled, s.currentMode, s.x, s.y, s.reflect, s.rotation, s.brightness)
  }

  function MarkChanged(s: State): State {
    s.(hasChanged := true, backup := if s.backup == None then Some(BackupOf(s)) else s.backup)
  }

  function ModeSize(m: ModeInfo): Size { Size(m.width, m.height) }

  function WithMode(s: State, mode: ModeInfo): State {
    var size := SwapWithRotation(s.rotation, ModeSize(mode));
    s.(currentMode := mode, width := size.width, height := size.height, refreshRate := mode.rate)
  }

  function WithRotation(s: State, rotation: bv16): State {
    var size := SwapWithRotation(rotation, ModeSize(s.currentMode));
    s.(rotation := rotation, width := size.width, height := size.height)
  }

  function ModeSet(d: Device, s: State, id: uint32): State {
    var mode := FindMode(d.modes, id);
    if s.currentMode.id == id || mode.IsZero() then s
    else
      var t := WithMode(MarkChanged(s), mode);
      t.(changes := t.changes.(width := Some(t.width), height := Some(t.height), refreshRate := Some(t.refreshRate)))
  }

  function RotationSet(s: State, rotation: bv16): State {
    if s.rotation == rotation then s
    else
      var t := WithRotation(MarkChanged(s.(oldRotation := s.rotation)), rotation);
      t.(changes := t.changes.(width := Some(t.width), height := Some(t.height), rotation := Some(rotation)),
         rotateMode := ROTATE_MANUALLY)
  }

  /** The state after one edit; a rejected edit changes nothing. */
  function Edited(d: Device, s: State, e: Edit): State {
    match e
    case Enable(enabled) =>
      if s.enabled == enabled then s
      else MarkChanged(s).(enabled := enabled, changes := s.changes.(enabled := Some(enabled)))
    case SetMode(id) => ModeSet(d, s, id)
    case SetModeBySize(w, h) =>
      var mode := FirstBySize(d.modes, w, h);
      if mode.IsZero() then s else ModeSet(d, s, mode.id)
    case SetRefreshRate(rate) =>
      var mode := FirstBySizeRate(d.modes, s.width, s.height, rate);
      if s.width == 0 || s.height == 0 || mode.IsZero() then s else ModeSet(d, s, mode.id)
    case SetPosition(x, y, inApply) =>
      if inApply || (s.x == x && s.y == y) then s
      else MarkChanged(s).(x := x, y := y, changes := s.changes.(x := Some(x), y := Some(y)))
    case SetReflect(reflect) => if s.reflect == reflect then s else MarkChanged(s).(reflect := reflect)
    case SetRotation(rotation) => RotationSet(s, rotation)
  }

  /** Monitor.resetChanges: the width and height become the mode's own, whatever the rotation. */
  function Reset(s: State): State {
    match s.backup
    case None => s
    case Some(b) =>
      s.(enabled := b.enabled, x := b.x, y := b.y, rotation := b.rotation, reflect := b.reflect, currentMode := b.mode,
         width := b.mode.width, height := b.mode.height, refreshRate := b.mode.rate, brightness := b.brightness,
         backup := None)
  }

  /** The part of markClean that concerns one monitor. */
  function Clean(s: State): State { s.(backup := None, changes := NO_CHANGES) }

  // ---- Stored configurations ----

  function SelectMode(d: Device, w: uint16, h: uint16, rate: real): ModeInfo {
    if !FirstBySizeRate(d.modes, w, h, rate).IsZero() then FirstBySizeRate(d.modes, w, h, rate)
    else if !FirstBySize(d.modes, w, h).IsZero() then FirstBySize(d.modes, w, h)
    else d.bestMode
  }

  function ToSysConfig(d: Device, s: State): MonitorConfig {
    MonitorConfig(d.uuid, d.name, s.enabled, s.x, s.y, s.width, s.height, s.rotation, s.reflect,
                  s.refreshRate, s.brightness, false)
  }

  /** What applySysMonitorConfigs does to a monitor that has a configuration. */
  function Configured(d: Device, s: State, c: MonitorConfig): State {
    if !c.enabled then s.(enabled := false)
    else
      var size := SwapWithRotation(c.rotation, Size(c.width, c.height));
      var mode := SelectMode(d, size.width, size.height, c.refreshRate);
      WithMode(s.(x := c.x, y := c.y, rotation := c.rotation, reflect := c.reflect, enabled := true), mode)
  }

  function GetOr<T>(o: Option<T>, default: T): T {
    match o
    case None => default
    case Some(v) => v
  }

  /** SysMonitorConfig.modify */
  function Modified(c: MonitorConfig, changes: Changes): MonitorConfig {
    c.(enabled := GetOr(changes.enabled, c.enabled), x := GetOr(changes.x, c.x), y := GetOr(changes.y, c.y),
       width := GetOr(changes.width, c.width), height := GetOr(changes.height, c.height),
       rotation := GetOr(changes.rotation, c.rotation), refreshRate := GetOr(changes.refreshRate, c.refreshRate))
  }

  // ---- What X reports ----

  /** The part of a monitor's report that changes while it stays plugged in. */
  datatype MonitorInfo = MonitorInfo(
    enabled: bool, x: int16, y: int16, width: uint16, height: uint16, rotation: bv16, currentMode: ModeInfo)

  predicate IsRotation(r: bv16) { r in {ROTATE_0, ROTATE_90, ROTATE_180, ROTATE_270} }

  predicate IsReflect(r: bv16) { r in {0, REFLECT_X, REFLECT_Y, REFLECT_X | REFLECT_Y} }

  /** parseCrtcRotation, the rotation. */
  function ParsedRotation(origin: bv16): bv16 { if IsRotation(origin & 0x0f) then origin & 0x0f else ROTATE_0 }

  /** parseCrtcRotation, the reflection. */
  function ParsedReflect(origin: bv16): bv16 { if IsReflect(origin & 0xf0) then origin & 0xf0 else 0 }

  /** Manager.updateMonitor: what was edited or recorded stays, what is shown comes from the report. */
  function Updated(s: State, i: MonitorInfo): State {
    s.(enabled := i.enabled, x := i.x, y := i.y, width := i.width, height := i.height,
       rotation := ParsedRotation(i.rotation), reflect := ParsedReflect(i.rotation),
       currentMode := i.currentMode, refreshRate := i.currentMode.rate)
  }

  /** The report of a monitor that shows what this state asks for. */
  function ReportOf(t: State): MonitorInfo {
    MonitorInfo(t.enabled, t.x, t.y, t.width, t.height, t.rotation | t.reflect, t.currentMode)
  }

  lemma CodeIsParsed(rotation: bv16, reflect: bv16)
    requires IsRotation(rotation) && IsReflect(reflect)
    ensures ParsedRotation(rotation | reflect) == rotation && ParsedReflect(rotation | reflect) == reflect
  {
    assert (rotation | reflect) & 0x0f == rotation;
    assert (rotation | reflect) & 0xf0 == reflect;
  }

  lemma UpdatedShows(s: State, i: MonitorInfo, t: State)
    requires i == MonitorInfo(t.enabled, t.x, t.y, t.width, t.height, i.rotation, t.currentMode)
    requires ParsedRotation(i.rotation) == t.rotation && ParsedReflect(i.rotation) == t.reflect
    ensures Updated(s, i) ==
              s.(enabled := t.enabled, x := t.x, y := t.y, width := t.width, height := t.height, rotation := t.rotation,
                 reflect := t.reflect, currentMode := t.currentMode, refreshRate := t.currentMode.rate)
  {
    hide ParsedRotation, ParsedReflect;
  }

  lemma ReportIs(t: State)
    ensures ReportOf(t).rotation == t.rotation | t.reflect
    ensures ReportOf(t) ==
              MonitorInfo(t.enabled, t.x, t.y, t.width, t.height, ReportOf(t).rotation, t.currentMode)
  {
  }

  lemma ReportIsParsed(t: State)
    requires IsRotation(t.rotation) && IsReflect(t.reflect)
    ensures ParsedRotation(ReportOf(t).rotation) == t.rotation && ParsedReflect(ReportOf(t).rotation) == t.reflect
  {
    hide ParsedRotation, ParsedReflect, IsRotation, IsReflect, ReportOf;
    ReportIs(t);
    CodeIsParsed(t.rotation, t.reflect);
  }

  lemma ConfiguredSets(d: Device, s: State, c: MonitorConfig)
    requires c.enabled
    ensures var t := Configured(d, s, c);
            && t.rotation == c.rotation && t.reflect == c.reflect
            && t == s.(enabled := t.enabled, x := t.x, y := t.y, width := t.width, height := t.height,
                       rotation := t.rotation, reflect := t.reflect, currentMode := t.currentMode,
                       refreshRate := t.currentMode.rate)
  {
    hide SelectMode, SwapWithRotation;
  }

  /** Once X shows what a configuration asks for, the refreshed monitor is as if it had been configured itself, but
      for what was edited and recorded. */
  lemma RefreshShowsConfigured(d: Device, s: State, c: MonitorConfig)
    requires c.enabled && IsRotation(c.rotation) && IsReflect(c.reflect)
    ensures Updated(s, ReportOf(Configured(d, s, c))) == Configured(d, s, c)
  {
    hide Configured, Updated, ReportOf, ParsedRotation, ParsedReflect, IsRotation, IsReflect;
    var t := Configured(d, s, c);
    ConfiguredSets(d, s, c);
    ReportIs(t);
    ReportIsParsed(t);
    UpdatedShows(s, ReportOf(t), t);
  }

  // ---- Runs ----

  datatype Op = Edit(edit: Edit) | Configure(config: MonitorConfig)

  function Step(d: Device, s: State, op: Op): State {
    match op
    case Edit(e) => Edited(d, s, e)
    case Configure(c) => Configured(d, s, c)
  }

  function Run(d: Device, s: State, ops: seq<Op>): State {
    if ops == [] then s else Step(d, Run(d, s, ops[..|ops| - 1]), ops[|ops| - 1])
  }

  function RunEdits(d: Device, s: State, es: seq<Edit>): State {
    if es == [] then s else Edited(d, RunEdits(d, s, es[..|es| - 1]), es[|es| - 1])
  }

  /** The shown size is the mode's, turned when the rotation turns it. */
  predicate Geometry(s: State) {
    Size(s.width, s.height) == SwapWithRotation(s.rotation, ModeSize(s.currentMode))
  }

  lemma EditKeepsGeometry(d: Device, s: State, e: Edit)
    requires Geometry(s)
    ensures Geometry(Edited(d, s, e))
  {
    hide NeedSwapWidthHeight, FindFirst, Modes.FindMode, FirstBySize, FirstBySizeRate;
  }

  lemma ConfigKeepsGeometry(d: Device, s: State, c: MonitorConfig)
    requires Geometry(s)
    ensures Geometry(Configured(d, s, c))
  {
    hide NeedSwapWidthHeight, SelectMode;
  }

  /** What the rotation does to the shown size, bit by bit. */
  predicate ShowsTurned(s: State) {
    && (s.rotation & 15 in {1, 4} ==> s.width == s.currentMode.width && s.height == s.currentMode.height)
    && (s.rotation & 15 in {2, 8} ==> s.width == s.currentMode.height && s.height == s.currentMode.width)
  }

  lemma GeometryShowsTurned(s: State)
    requires Geometry(s)
    ensures ShowsTurned(s)
  {
    TurnedIff(s.rotation);
  }

  /** No edit and no configuration breaks the geometry. */
  lemma {:induction false} RunsKeepGeometry(d: Device, s: State, ops: seq<Op>)
    requires Geometry(s)
    ensures Geometry(Run(d, s, ops)) && ShowsTurned(Run(d, s, ops))
  {
    hide Edited, Configured, Geometry, ShowsTurned;
    assert Geometry(s);
    if ops != [] {
      var before := Run(d, s, ops[..|ops| - 1]);
      RunsKeepGeometry(d, s, ops[..|ops| - 1]);
      match ops[|ops| - 1] {
        case Edit(e) => EditKeepsGeometry(d, before, e);
        case Configure(c) => ConfigKeepsGeometry(d, before, c);
      }
    }
    GeometryShowsTurned(Run(d, s, ops));
  }

  /** A reset breaks it exactly when the restored rotation turns a mode that is not square. */
  lemma ResetKeepsGeometryIff(s: State)
    requires s.backup.Some?
    ensures var b := s.backup.value;
            Geometry(Reset(s)) <==> !NeedSwapWidthHeight(b.rotation) || b.mode.width == b.mode.height
  {
  }

  /** After a change of the rotation the size is that of the mode, exchanged for 90 and 270 degrees. */
  lemma RotationTurns(d: Device, s: State, rotation: bv16)
    requires rotation != s.rotation
    ensures var t := Edited(d, s, SetRotation(rotation));
            t.rotation == rotation && t.currentMode == s.currentMode && ShowsTurned(t)
  {
    var t := Edited(d, s, SetRotation(rotation));
    assert Geometry(t);
    GeometryShowsTurned(t);
  }

  /** A monitor shown upright, its 1920x1080 mode turned, is moved and reset: it comes back with the size of the
      unturned mode, although it is still turned. */
  lemma ResetTurnsSizeBack(d: Device, s: State, x: int16, y: int16)
    requires s.backup == None && Geometry(s) && s.rotation == ROTATE_90
    requires s.currentMode.width == 1920 && s.currentMode.height == 1080 && x != s.x
    ensures var r := Reset(Edited(d, s, SetPosition(x, y, false)));
            && s.width == 1080 && s.height == 1920
            && r.rotation == ROTATE_90 && r.width == 1920 && r.height == 1080 && !Geometry(r)
  {
    assert NeedSwapWidthHeight(ROTATE_90);
    hide NeedSwapWidthHeight;
    ResetKeepsGeometryIff(Edited(d, s, SetPosition(x, y, false)));
  }

  /** What a configuration asks of a monitor, field by field. */
  predicate ShowsConfig(t: State, c: MonitorConfig) {
    && t.enabled && t.x == c.x && t.y == c.y && t.rotation == c.rotation && t.reflect == c.reflect
    && ShowsTurned(t)
  }

  lemma ConfiguredShows(d: Device, s: State, c: MonitorConfig)
    requires c.enabled
    ensures ShowsConfig(Configured(d, s, c), c)
  {
    hide SelectMode, NeedSwapWidthHeight;
    GeometryShowsTurned(Configured(d, s, c));
  }

  lemma SwapTwice(rotation: bv16, size: Size)
    ensures SwapWithRotation(rotation, SwapWithRotation(rotation, size)) == size
  {
  }

  /** The mode selected for a size has it exactly when a mode or the best mode does. */
  lemma SelectModeHasSizeIff(d: Device, w: uint16, h: uint16, rate: real)
    requires ZERO_MODE !in d.modes
    ensures SelectMode(d, w, h, rate).HasSize(w, h) <==>
              d.bestMode.HasSize(w, h) || exists k :: k in d.modes && k.HasSize(w, h)
  {
    var bySize := (k: ModeInfo) => k.HasSize(w, h);
    if k :| k in d.modes && k.HasSize(w, h) {
      FirstExists(d.modes, bySize, k);
    }
  }

  predicate SomeModeIs(d: Device, w: uint16, h: uint16) {
    (d.bestMode.width == w && d.bestMode.height == h) || exists k :: k in d.modes && k.width == w && k.height == h
  }

  /** A configured monitor has the configured size exactly when one of its modes, upright or turned as the rotation
      says, does. */
  lemma ConfiguredHasSizeIff(d: Device, s: State, c: MonitorConfig)
    requires c.enabled && ZERO_MODE !in d.modes
    ensures var t := Configured(d, s, c); var fits := t.width == c.width && t.height == c.height;
            && (c.rotation & 15 in {1, 4} ==> (fits <==> SomeModeIs(d, c.width, c.height)))
            && (c.rotation & 15 in {2, 8} ==> (fits <==> SomeModeIs(d, c.height, c.width)))
  {
    hide SelectMode, NeedSwapWidthHeight;
    TurnedIff(c.rotation);
    SelectModeHasSizeIff(d, c.width, c.height, c.refreshRate);
    SelectModeHasSizeIff(d, c.height, c.width, c.refreshRate);
  }

  lemma SelectModeKeepsRate(d: Device, m: ModeInfo)
    requires ZERO_MODE !in d.modes && m in d.modes
    ensures RateDistance(SelectMode(d, m.width, m.height, m.rate).rate, m.rate) <= 0.01
  {
    FirstExists(d.modes, (k: ModeInfo) => k.HasSize(m.width, m.height) && RateDistance(k.rate, m.rate) <= 0.01, m);
  }

  /** Storing a monitor and applying what was stored, to the monitor in any state, gives the same
      placement; the same size exactly when a mode or the best mode has it. */
  lemma ConfigRoundTrip(d: Device, s: State, s': State)
    requires s.enabled && Geometry(s) && ZERO_MODE !in d.modes
    ensures var r := Configured(d, s', ToSysConfig(d, s)); var m := s.currentMode;
            && r.enabled && r.x == s.x && r.y == s.y && r.rotation == s.rotation && r.reflect == s.reflect
            && Geometry(r)
            && ((r.width == s.width && r.height == s.height) <==>
                  d.bestMode.HasSize(m.width, m.height) || exists k :: k in d.modes && k.HasSize(m.width, m.height))
            && (m in d.modes && s.refreshRate == m.rate ==> RateDistance(r.refreshRate, s.refreshRate) <= 0.01)
  {
    hide NeedSwapWidthHeight, SelectMode;
    var m := s.currentMode;
    SwapTwice(s.rotation, ModeSize(m));
    SelectModeHasSizeIff(d, m.width, m.height, s.refreshRate);
    if m in d.modes && s.refreshRate == m.rate {
      SelectModeKeepsRate(d, m);
    }
  }

  // ---- The backup taken by the first edit ----

  lemma EditBacksUp(d: Device, s: State, e: Edit)
    ensures var r := Edited(d, s, e);
            && (r == s || r.backup == MarkChanged(s).backup)
            && r.brightness == s.brightness
            && (s.hasChanged ==> r.hasChanged)
  {
    hide SwapWithRotation, Modes.FindMode, FirstBySize, FirstBySizeRate;
  }

  /** After any edits from a clean state: either none took effect, or the backup holds the clean state. */
  lemma {:induction false} FirstEditBacksUp(d: Device, s: State, es: seq<Edit>)
    requires s.backup == None
    ensures var r := RunEdits(d, s, es); r == s || r.backup == Some(BackupOf(s))
    ensures RunEdits(d, s, es).brightness == s.brightness
  {
    hide Edited;
    if es != [] {
      FirstEditBacksUp(d, s, es[..|es| - 1]);
      EditBacksUp(d, RunEdits(d, s, es[..|es| - 1]), es[|es| - 1]);
    }
  }

  /** A reset undoes any number of edits; the size comes back exactly when it was the mode's own. */
  lemma ResetUndoesEdits(d: Device, s: State, es: seq<Edit>)
    requires s.backup == None && Geometry(s)
    ensures var e := RunEdits(d, s, es); var r := Reset(e);
            && r.backup == None && BackupOf(r) == BackupOf(s)
            && (e != s ==> r.refreshRate == s.currentMode.rate)
            && (e != s ==> ((r.width == s.width && r.height == s.height) <==>
                  !NeedSwapWidthHeight(s.rotation) || s.currentMode.width == s.currentMode.height))
  {
    FirstEditBacksUp(d, s, es);
  }

  // ---- The recorded changes ----

  /** Every recorded change is the property's present value, and what is not recorded has not changed. */
  predicate Records(s0: State, s: State) {
    && s.enabled == GetOr(s.changes.enabled, s0.enabled)
    && s.x == GetOr(s.changes.x, s0.x) && s.y == GetOr(s.changes.y, s0.y)
    && s.width == GetOr(s.changes.width, s0.width) && s.height == GetOr(s.changes.height, s0.height)
    && s.rotation == GetOr(s.changes.rotation, s0.rotation)
    && s.refreshRate == GetOr(s.changes.refreshRate, s0.refreshRate)
  }

  lemma EditIsRecorded(d: Device, s0: State, s: State, e: Edit)
    requires Records(s0, s)
    ensures Records(s0, Edited(d, s, e))
  {
    hide SwapWithRotation, Modes.FindMode, FirstBySize, FirstBySizeRate;
  }

  lemma {:induction false} EditsAreRecorded(d: Device, s: State, es: seq<Edit>)
    requires s.changes == NO_CHANGES
    ensures Records(s, RunEdits(d, s, es))
  {
    hide Edited;
    if es != [] {
      EditsAreRecorded(d, s, es[..|es| - 1]);
      EditIsRecorded(d, s, RunEdits(d, s, es[..|es| - 1]), es[|es| - 1]);
    }
  }

  /** The configuration describes the monitor, reflection and brightness aside. */
  predicate Describes(c: MonitorConfig, s: State) {
    && c.enabled == s.enabled && c.x == s.x && c.y == s.y && c.width == s.width && c.height == s.height
    && c.rotation == s.rotation && c.refreshRate == s.refreshRate
  }

  /** A configuration that described the monitor before the edits describes it after them once the
      recorded changes are made to it. Reflection is the exception: it is never recorded. */
  lemma EditsReachConfig(d: Device, s: State, es: seq<Edit>, c: MonitorConfig)
    requires s.changes == NO_CHANGES && Describes(c, s)
    ensures var r := RunEdits(d, s, es);
            && Describes(Modified(c, r.changes), r)
            && Modified(c, r.changes).reflect == c.reflect && Modified(c, r.changes).brightness == c.brightness
  {
    EditsAreRecorded(d, s, es);
  }

  /** The two states are the same to a configuration. */
  predicate SameDescription(s: State, t: State) {
    && s.enabled == t.enabled && s.x == t.x && s.y == t.y && s.width == t.width && s.height == t.height
    && s.rotation == t.rotation && s.refreshRate == t.refreshRate
  }

  /** What a reset after any edits comes to, told from before the first edit. */
  predicate ComesBackTo(s: State, e: State) {
    e == s ||
    (&& e.enabled == s.enabled && e.x == s.x && e.y == s.y && e.rotation == s.rotation
     && e.width == s.currentMode.width && e.height == s.currentMode.height && e.refreshRate == s.currentMode.rate)
  }

  /** A reset keeps the recorded changes. So after any edits and a reset, the modified configuration describes
      the monitor exactly when the edits had already come back to what the reset restores. */
  lemma ResetDescribesIff(d: Device, s: State, es: seq<Edit>, c: MonitorConfig)
    requires s.backup == None && s.changes == NO_CHANGES && Describes(c, s)
    ensures var e := RunEdits(d, s, es); var r := Reset(e);
            && (Describes(Modified(c, r.changes), r) <==> SameDescription(e, r))
            && (SameDescription(e, r) <==> ComesBackTo(s, e))
  {
    hide RunEdits;
    EditsReachConfig(d, s, es, c);
    FirstEditBacksUp(d, s, es);
  }

  /** A reset forgets the backup but not the recorded changes, so a later edit brings them back: after
      moving a monitor, resetting and disabling it, the modified configuration has the position of the move. */
  lemma ResetLeavesStaleChanges(d: Device, s: State, x: int16, y: int16, c: MonitorConfig)
    requires s.backup == None && s.changes == NO_CHANGES && s.enabled && Describes(c, s)
    requires x != s.x
    ensures var r := Edited(d, Reset(Edited(d, s, SetPosition(x, y, false))), Enable(false));
            r.x == s.x && Modified(c, r.changes).x == x && !Describes(Modified(c, r.changes), r)
  {
  }
}
