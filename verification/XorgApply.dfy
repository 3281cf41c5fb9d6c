/** xMonitorManager.apply as a client of the X server, and the state it leads to. */
module XorgApply {
  import opened Ints
  import opened RandR
  import opened XorgPlan
  import opened XorgProgram
  import XorgEvents

  // ---- The size of the screen after the change ----

  function Capped(i: int): int { if i > MAX_UINT16 then MAX_UINT16 else i }

  ghost predicate IsScreenSize(ms: MonitorMap, width: int, height: int) {
    && (forall o | o in ms && ms[o].Shown() :: Capped(ms[o].Right()) <= width && Capped(ms[o].Bottom()) <= height)
    && (width == 0 || exists o :: o in ms && ms[o].Shown() && width == Capped(ms[o].Right()))
    && (height == 0 || exists o :: o in ms && ms[o].Shown() && height == Capped(ms[o].Bottom()))
  }

  /** The smaller of an edge and 65535. */
  predicate Reaches(size: uint16, edge: int) { (edge < 65535 ==> edge <= size) && (edge >= 65535 ==> size == 65535) }

  /** The screen reaches the far edges of the monitor as it is turned. */
  predicate CoversTurned(m: Monitor, sw: uint16, sh: uint16) {
    && (m.rotation & 15 in {1, 4} ==> Reaches(sw, m.x + m.modeSize.width) && Reaches(sh, m.y + m.modeSize.height))
    && (m.rotation & 15 in {2, 8} ==> Reaches(sw, m.x + m.modeSize.height) && Reaches(sh, m.y + m.modeSize.width))
  }

  lemma ShownIsCovered(ms: MonitorMap, sw: uint16, sh: uint16, o: Output)
    requires IsScreenSize(ms, sw, sh) && o in ms && ms[o].enabled && ms[o].realConnected
    ensures CoversTurned(ms[o], sw, sh)
  {
    assert ms[o].Shown();
    hide NeedSwapWidthHeight;
    TurnedEdges(ms[o]);
  }

  method GetScreenWidthHeight(ms: MonitorMap) returns (sw: uint16, sh: uint16)
    ensures IsScreenSize(ms, sw, sh)
    ensures forall o | o in ms && ms[o].enabled && ms[o].realConnected :: CoversTurned(ms[o], sw, sh)
    ensures sw == 0 || exists o :: o in ms && ms[o].enabled && ms[o].realConnected && sw == Capped(ms[o].Right())
    ensures sh == 0 || exists o :: o in ms && ms[o].enabled && ms[o].realConnected && sh == Capped(ms[o].Bottom())
  {
    var w, h := 0, 0;
    var todo := ms.Keys;
    while todo != {}
      invariant todo <= ms.Keys
      invariant 0 <= w && 0 <= h
      invariant forall o | o in ms && o !in todo && ms[o].Shown() :: ms[o].Right() <= w && ms[o].Bottom() <= h
      invariant w == 0 || exists o :: o in ms && ms[o].Shown() && w == ms[o].Right()
      invariant h == 0 || exists o :: o in ms && ms[o].Shown() && h == ms[o].Bottom()
    {
      var o :| o in todo;
      todo := todo - {o};
      var monitor := ms[o];
      if !monitor.realConnected || !monitor.enabled {
        continue;
      }
      var size := SwapWithRotation(monitor.rotation, monitor.modeSize);
      var w1 := monitor.x + size.width;
      var h1 := monitor.y + size.height;
      assert monitor.Shown() && w1 == monitor.Right() && h1 == monitor.Bottom();
      if w < w1 {
        w := w1;
      }
      if h < h1 {
        h := h1;
      }
    }
    if w > MAX_UINT16 {
      w := MAX_UINT16;
    }
    if h > MAX_UINT16 {
      h := MAX_UINT16;
    }
    sw, sh := w, h;
    assert IsScreenSize(ms, sw, sh);
    hide IsScreenSize, CoversTurned;
    forall o | o in ms && ms[o].enabled && ms[o].realConnected ensures CoversTurned(ms[o], sw, sh) {
      ShownIsCovered(ms, sw, sh, o);
    }
  }

  lemma OneScreenSize(ms: MonitorMap, w: uint16, h: uint16, w': uint16, h': uint16)
    requires IsScreenSize(ms, w, h) && IsScreenSize(ms, w', h')
    ensures w == w' && h == h'
  {
  }

  /** The server supports the screen computed for the monitors. */
  ghost predicate SizeSupported(s: Server, ms: MonitorMap) {
    exists w: uint16, h: uint16 :: IsScreenSize(ms, w, h) && s.sizes.Has(w, h)
  }

  lemma SizeSupportedIff(s: Server, ms: MonitorMap, w: uint16, h: uint16)
    requires IsScreenSize(ms, w, h)
    ensures SizeSupported(s, ms) <==> s.sizes.Has(w, h)
  {
    hide IsScreenSize;
    if v: uint16, u: uint16 :| IsScreenSize(ms, v, u) && s.sizes.Has(v, u) {
      OneScreenSize(ms, v, u, w, h);
    }
  }

  /** With no monitor shown the screen would have to be empty. */
  lemma NothingShown(s: Server, ms: MonitorMap)
    requires forall o | o in ms :: !ms[o].Shown()
    ensures SizeSupported(s, ms) <==> s.sizes.Has(0, 0)
  {
    SizeSupportedIff(s, ms, 0, 0);
  }

  /** The screen covers every shown monitor unless one of them ends beyond 65535. */
  lemma ScreenCoversIff(ms: MonitorMap, w: int, h: int)
    requires IsScreenSize(ms, w, h)
    ensures (forall o | o in ms && ms[o].Shown() :: ms[o].Right() <= w && ms[o].Bottom() <= h)
       <==> (forall o | o in ms && ms[o].Shown() :: ms[o].Right() <= MAX_UINT16 && ms[o].Bottom() <= MAX_UINT16)
  {
    assert w <= MAX_UINT16 && h <= MAX_UINT16;
    if forall o | o in ms && ms[o].Shown() :: ms[o].Right() <= MAX_UINT16 && ms[o].Bottom() <= MAX_UINT16 {
      forall o | o in ms && ms[o].Shown() ensures ms[o].Right() <= w && ms[o].Bottom() <= h {
        assert Capped(ms[o].Right()) <= w;
      }
    }
  }

  // ---- Requirements on the monitors ----

  /** What makes the computed screen large enough: what is enabled is also connected, its mode has the
      size the server knows, reflection does not turn the picture, and nothing ends beyond 65535. */
  ghost predicate SizesAgree(s: Server, ms: MonitorMap) {
    forall o | o in Enabled(s.outputs, ms) ::
      && ms[o].realConnected
      && ms[o].mode in s.modes && s.modes[ms[o].mode] == ms[o].modeSize
      && NeedSwapWidthHeight(ms[o].rotation | ms[o].reflect) == NeedSwapWidthHeight(ms[o].rotation)
      && ms[o].Right() <= MAX_UINT16 && ms[o].Bottom() <= MAX_UINT16
  }

  /** The reflections parseCrtcRotation lets through leave the picture unturned. */
  lemma ReflectionsDoNotTurn(rotation: bv16, reflect: bv16)
    requires reflect in {0, REFLECT_X, REFLECT_Y, REFLECT_X | REFLECT_Y}
    ensures NeedSwapWidthHeight(rotation | reflect) == NeedSwapWidthHeight(rotation)
  {
    assert (rotation | reflect) & ROTATE_90 == rotation & ROTATE_90;
    assert (rotation | reflect) & ROTATE_270 == rotation & ROTATE_270;
  }

  /** The server can show each enabled monitor's mode in its orientation. */
  ghost predicate Supported(s: Server, ms: MonitorMap) {
    forall o | o in Enabled(s.outputs, ms) ::
      && o in s.outputModes && ms[o].mode in s.outputModes[o]
      && forall c | c in s.crtcs :: ms[o].rotation | ms[o].reflect in s.crtcs[c].rotations
  }

  // ---- CRTCs that must be switched off before the screen can change ----

  /** The first output of the configuration planned for the CRTC, or 0. */
  function PlannedOutput(cfgs: Configs, c: Crtc): Output {
    if c in cfgs && cfgs[c].outputs != [] then cfgs[c].outputs[0] else 0
  }

  method FindOutputInCrtcCfgs(cfgs: Configs, crtc: Crtc) returns (output: Output)
    requires forall c | c in cfgs :: cfgs[c].crtc == c
    ensures output == PlannedOutput(cfgs, crtc)
  {
    var todo := cfgs.Keys;
    while todo != {}
      invariant todo <= cfgs.Keys
      invariant crtc in cfgs && crtc !in todo ==> cfgs[crtc].outputs == []
    {
      var c :| c in todo;
      todo := todo - {c};
      if cfgs[c].crtc == crtc {
        if |cfgs[c].outputs| > 0 {
          return cfgs[c].outputs[0];
        }
      }
    }
    return 0;
  }

  /** A CRTC whose picture is about to change shape, place or orientation. */
  predicate ParametersChange(info: CrtcInfo, m: Monitor) {
    info.GetRect() != Rect(m.x, m.y, m.width, m.height) || info.rotation != m.rotation | m.reflect
  }

  predicate ShouldDisable(info: CrtcInfo, c: Crtc, cfgs: Configs, ms: MonitorMap,
                          optDisableCrtc: bool, width: uint16, height: uint16) {
    || optDisableCrtc
    || !RectFits(info.GetRect(), width, height)
    || var o := PlannedOutput(cfgs, c);
       o != 0 && o in ms && ms[o].Shown() && ParametersChange(info, ms[o])
  }

  /** The size the mode of a CRTC takes: bits 2 and 8 of the rotation turn it. */
  function ShownSize(info: CrtcInfo): Size {
    if info.rotation & 2 != 0 || info.rotation & 8 != 0 then Size(info.size.height, info.size.width) else info.size
  }

  lemma RectHasShownSize(info: CrtcInfo)
    ensures info.GetRect() == Rect(info.x, info.y, ShownSize(info).width, ShownSize(info).height)
  {
  }

  /** The monitor differs from what the CRTC shows: in place, in size, or in rotation and reflection. */
  predicate LooksOther(info: CrtcInfo, m: Monitor) {
    || info.x != m.x || info.y != m.y || ShownSize(info) != Size(m.width, m.height)
    || info.rotation != m.rotation | m.reflect
  }

  /** The first output planned for the CRTC is that of a monitor to be shown, which differs. */
  predicate ShowsOtherwise(info: CrtcInfo, c: Crtc, cfgs: Configs, ms: MonitorMap) {
    && c in cfgs && cfgs[c].outputs != []
    && var o := cfgs[c].outputs[0];
       && o != 0 && o in ms && ms[o].realConnected && ms[o].enabled
       && LooksOther(info, ms[o])
  }

  lemma ParametersChangeIff(info: CrtcInfo, m: Monitor)
    ensures ParametersChange(info, m) <==> LooksOther(info, m)
  {
    hide ShownSize, CrtcInfo.GetRect;
    RectHasShownSize(info);
    if info.rotation != m.rotation | m.reflect {
      assert ParametersChange(info, m);
      assert LooksOther(info, m);
    }
  }

  /** Why a CRTC has to be off before the resize, field by field: all are to be off, it would stick out of the new
      screen, or what it shows is about to change. */
  predicate IsInTheWay(info: CrtcInfo, c: Crtc, cfgs: Configs, ms: MonitorMap,
                       optDisableCrtc: bool, width: uint16, height: uint16) {
    || optDisableCrtc || ShowsOtherwise(info, c, cfgs, ms)
    || info.x + ShownSize(info).width > width || info.y + ShownSize(info).height > height
  }

  lemma ShouldDisableIff(info: CrtcInfo, c: Crtc, cfgs: Configs, ms: MonitorMap,
                         optDisableCrtc: bool, width: uint16, height: uint16)
    ensures ShouldDisable(info, c, cfgs, ms, optDisableCrtc, width, height) <==>
              IsInTheWay(info, c, cfgs, ms, optDisableCrtc, width, height)
  {
    hide ShownSize, CrtcInfo.GetRect, ParametersChange, LooksOther;
    RectHasShownSize(info);
    if c in cfgs && cfgs[c].outputs != [] && cfgs[c].outputs[0] in ms {
      ParametersChangeIff(info, ms[cfgs[c].outputs[0]]);
    }
  }

  function ToDisable(crtcs: CrtcTable, cfgs: Configs, ms: MonitorMap, optDisableCrtc: bool,
                     width: uint16, height: uint16): set<Crtc> {
    set c | c in crtcs && crtcs[c].Active() && ShouldDisable(crtcs[c], c, cfgs, ms, optDisableCrtc, width, height)
  }

  lemma ToDisableAre(crtcs: CrtcTable, cfgs: Configs, ms: MonitorMap, optDisableCrtc: bool,
                     width: uint16, height: uint16)
    ensures forall c :: c in ToDisable(crtcs, cfgs, ms, optDisableCrtc, width, height) <==>
              c in crtcs && crtcs[c].outputs != [] &&
              IsInTheWay(crtcs[c], c, cfgs, ms, optDisableCrtc, width, height)
  {
    hide ShouldDisable, IsInTheWay;
    forall c | c in crtcs
      ensures ShouldDisable(crtcs[c], c, cfgs, ms, optDisableCrtc, width, height) <==>
                IsInTheWay(crtcs[c], c, cfgs, ms, optDisableCrtc, width, height)
    {
      ShouldDisableIff(crtcs[c], c, cfgs, ms, optDisableCrtc, width, height);
    }
  }

  ghost predicate AllFit(history: seq<Server>) { forall s | s in history :: ScreenFits(s) }

  ghost predicate IsPart(part: Configs, all: Configs) {
    part.Keys <= all.Keys && forall c | c in part :: part[c] == all[c]
  }

  lemma PartHasOneOwner(all: Configs, part: Configs)
    requires OneOwner(all) && IsPart(part, all)
    ensures OneOwner(part)
  {
    assert forall c: Crtc, o: Output :: Claims(part, c, o) ==> Claims(all, c, o);
  }

  lemma DisablingFits(s: Server, cs: set<Crtc>, f: Server)
    requires ScreenFits(s) && IsProgrammed(s, DisableAll(cs), f)
    ensures ScreenFits(f)
  {
    ProgramFits(s, DisableAll(cs), f);
  }

  lemma DisablingIsAllowed(s: Server, cs: set<Crtc>, c: Crtc, f: Server)
    requires c in s.crtcs && IsProgrammed(s, DisableAll(cs), f)
    ensures AllowsCrtcConfig(f, DisableConfig(c))
  {
  }

  /** A refused screen size leaves the CRTCs switched off that were in its way. */
  ghost predicate IsLeftOff(s: Server, cfgs: Configs, ms: MonitorMap, optDisableCrtc: bool, f: Server) {
    exists w: uint16, h: uint16 :: IsScreenSize(ms, w, h) &&
      IsProgrammed(s, DisableAll(ToDisable(s.crtcs, cfgs, ms, optDisableCrtc, w, h)), f)
  }

  /** The server is left as it was exactly when no CRTC had to be switched off. */
  lemma UntouchedIff(s: Server, cfgs: Configs, ms: MonitorMap, optDisableCrtc: bool, w: uint16, h: uint16, f: Server)
    requires IsScreenSize(ms, w, h) && IsLeftOff(s, cfgs, ms, optDisableCrtc, f)
    ensures f == s <==> ToDisable(s.crtcs, cfgs, ms, optDisableCrtc, w, h) == {}
  {
    hide IsScreenSize, ShouldDisable;
    var v: uint16, u: uint16 :| IsScreenSize(ms, v, u) &&
      IsProgrammed(s, DisableAll(ToDisable(s.crtcs, cfgs, ms, optDisableCrtc, v, u)), f);
    OneScreenSize(ms, v, u, w, h);
    var off := ToDisable(s.crtcs, cfgs, ms, optDisableCrtc, w, h);
    if off == {} {
      forall o: Output ensures Unclaimed(DisableAll(off), o) {}
    } else {
      var c :| c in off;
      assert s.crtcs[c].Active() && !f.crtcs[c].Active();
    }
  }

  lemma ClonedIsFreed(m: Monitor)
    requires !m.enabled
    ensures var s := Cloned(); IsPlan(s.crtcs, s.outputs, map[8 := m, 9 := m], map[], map[1 := DisableConfig(1)])
  {
    var s, ms := Cloned(), map[8 := m, 9 := m];
    assert Disabled(s.outputs, ms) == {8, 9} && Enabled(s.outputs, ms) == {};
    assert Free(s.crtcs, s.outputs, ms) == {1} && Newcomers(s.outputs, ms) == {};
  }

  lemma ClonedIsInTheWay(ms: MonitorMap, plan: Configs)
    ensures ToDisable(Cloned().crtcs, plan, ms, false, 0, 0) == {1}
  {
    var s := Cloned();
    assert s.crtcs[1].GetRect() == Rect(0, 0, 800, 600);
    assert ShouldDisable(s.crtcs[1], 1, plan, ms, false, 0, 0);
  }

  lemma LeftOffIsOff(s: Server, cfgs: Configs, ms: MonitorMap, w: uint16, h: uint16, f: Server, c: Crtc)
    requires IsScreenSize(ms, w, h) && IsLeftOff(s, cfgs, ms, false, f)
    requires c in ToDisable(s.crtcs, cfgs, ms, false, w, h)
    ensures c in f.crtcs && !f.crtcs[c].Active() && f != s
  {
    hide IsScreenSize, ShouldDisable;
    var v: uint16, u: uint16 :| IsScreenSize(ms, v, u) &&
      IsProgrammed(s, DisableAll(ToDisable(s.crtcs, cfgs, ms, false, v, u)), f);
    OneScreenSize(ms, v, u, w, h);
    assert s.crtcs[c].Active();
  }

  /** The server of the cloned monitors, whose screen is at least 8x8: with both monitors switched off the new screen
      would be empty, the server refuses it, and CRTC 1 is left off. */
  lemma RefusedSizeLeavesOff(m: Monitor, f: Server)
    requires !m.enabled
    ensures var s := Cloned(); var ms := map[8 := m, 9 := m]; var plan := map[1 := DisableConfig(1)];
            && IsPlan(s.crtcs, s.outputs, ms, map[], plan) && !SizeSupported(s, ms)
            && ToDisable(s.crtcs, plan, ms, false, 0, 0) == {1}
            && (IsLeftOff(s, plan, ms, false, f) ==> 1 in f.crtcs && !f.crtcs[1].Active() && f != s)
  {
    hide IsLeftOff, SizeSupported;
    var s, ms, plan := Cloned(), map[8 := m, 9 := m], map[1 := DisableConfig(1)];
    NothingShown(s, ms);
    ClonedIsFreed(m);
    ClonedIsInTheWay(ms, plan);
    if IsLeftOff(s, plan, ms, false, f) {
      LeftOffIsOff(s, plan, ms, 0, 0, f, 1);
    }
  }

  // ---- The outcome of a successful apply ----

  ghost predicate CrtcMatches(crtcs: CrtcTable, outputs: OutputTable, cfgs: Configs, c: Crtc)
    requires c in cfgs && c in crtcs
  {
    var cfg, info := cfgs[c], crtcs[c];
    if cfg.outputs == [] then info.outputs == [] && info.mode == 0 && info.size == Size(0, 0)
    else
      && cfg.x == info.x && cfg.y == info.y && cfg.mode == info.mode
      && cfg.rotation == info.rotation && cfg.outputs == info.outputs
      && cfg.outputs[0] in outputs && outputs[cfg.outputs[0]] == cfg.crtc
  }

  ghost predicate Matches(crtcs: CrtcTable, outputs: OutputTable, cfgs: Configs, disabled: set<Output>) {
    && (forall c | c in cfgs :: c in crtcs && CrtcMatches(crtcs, outputs, cfgs, c))
    && (forall o | o in disabled :: o in outputs && outputs[o] == 0)
  }

  /** What it means that compareAll succeeds: a CRTC planned for a monitor shows it, where and how it asks to be shown,
      and what is to be off is off. */
  lemma MatchingIsShown(crtcs: CrtcTable, outputs: OutputTable, cfgs: Configs, disabled: set<Output>,
                        c: Crtc, o: Output, m: Monitor)
    requires Matches(crtcs, outputs, cfgs, disabled) && c in cfgs && cfgs[c] == EnableConfig(c, o, m)
    ensures c in crtcs && crtcs[c].outputs == [o] && o in outputs && outputs[o] == c
    ensures crtcs[c].x == m.x && crtcs[c].y == m.y && crtcs[c].mode == m.mode
    ensures crtcs[c].rotation == m.rotation | m.reflect
    ensures forall d | d in disabled :: d in outputs && outputs[d] == 0
  {
    assert CrtcMatches(crtcs, outputs, cfgs, c);
  }

  /** The state in which the CRTCs are programmed: some switched off, the screen resized. */
  ghost predicate IsBetween(s: Server, off: set<Crtc>, width: uint16, height: uint16, b: Server) {
    && b.width == width && b.height == height
    && IsProgrammed(s, DisableAll(off), b.(width := s.width, height := s.height))
  }

  /** The monitor is alone on its CRTC, with the requested position, mode and rotation. */
  ghost predicate Reached(s: Server, ms: MonitorMap, o: Output)
    requires o in ms
  {
    && o in s.outputs && s.outputs[o] in s.crtcs
    && var info := s.crtcs[s.outputs[o]];
       && info.outputs == [o] && info.x == ms[o].x && info.y == ms[o].y && info.mode == ms[o].mode
       && info.rotation == ms[o].rotation | ms[o].reflect
  }

  /** What holds after apply returned without an error and every request was granted: the tables agree,
      the screen has the computed size, compareAll succeeds, and every enabled monitor is reached
      exactly when no enabled monitor shared its CRTC beforehand. */
  ghost predicate IsOutcome(s0: Server, ms: MonitorMap, alloc: map<Output, Crtc>,
                            plan: Configs, s: Server) {
    && Consistent(s) && s.outputs.Keys == s0.outputs.Keys && s.crtcs.Keys == s0.crtcs.Keys
    && IsScreenSize(ms, s.width, s.height) && ScreenFits(s)
    && Matches(s.crtcs, s.outputs, plan, Disabled(s0.outputs, ms))
    && ((forall o | o in Enabled(s0.outputs, ms) :: Reached(s, ms, o)) <==> NoSharing(s0.outputs, ms))
    && (forall o | o in Enabled(s0.outputs, ms) && Reached(s, ms, o) && s0.outputs[o] != 0 ::
          s.outputs[o] == s0.outputs[o])
    && (forall c | c in s.crtcs && c !in plan :: s.crtcs[c] == s0.crtcs[c] || !s.crtcs[c].Active())
  }

  lemma BetweenOutputs(s: Server, off: set<Crtc>, width: uint16, height: uint16, b: Server)
    requires IsBetween(s, off, width, height, b)
    ensures b.modes == s.modes && b.outputModes == s.outputModes
    ensures b.outputs.Keys == s.outputs.Keys && b.crtcs.Keys == s.crtcs.Keys
    ensures forall o | o in s.outputs :: b.outputs[o] == if s.outputs[o] in off then 0 else s.outputs[o]
    ensures forall c | c in s.crtcs ::
              && b.crtcs[c].possibleOutputs == s.crtcs[c].possibleOutputs
              && b.crtcs[c].rotations == s.crtcs[c].rotations
              && if c in off then !b.crtcs[c].Active() else b.crtcs[c] == s.crtcs[c]
  {
    forall o: Output ensures Unclaimed(DisableAll(off), o) {}
  }

  lemma BetweenConsistent(s: Server, off: set<Crtc>, width: uint16, height: uint16, b: Server)
    requires Consistent(s) && off <= s.crtcs.Keys && IsBetween(s, off, width, height, b)
    ensures Consistent(b)
  {
    hide IsProgrammed;
    var p := b.(width := s.width, height := s.height);
    ProgramStaysConsistent(s, DisableAll(off), p);
    assert forall c | c in b.crtcs :: CrtcConsistent(p, c) ==> CrtcConsistent(b, c);
  }

  lemma RoomIsMade(s: Server, off: set<Crtc>, b: Server, width: uint16, height: uint16)
    requires IsProgrammed(s, DisableAll(off), b)
    requires forall c | c in s.crtcs && s.crtcs[c].Active() && !RectFits(s.crtcs[c].GetRect(), width, height) ::
               c in off
    ensures CrtcsFit(b.crtcs, width, height)
  {
  }

  lemma PlannedConfig(s: Server, ms: MonitorMap, alloc: map<Output, Crtc>, cfgs: Configs, c: Crtc)
    requires Consistent(s) && IsPlan(s.crtcs, s.outputs, ms, alloc, cfgs) && c in cfgs
    ensures c in s.crtcs && cfgs[c].crtc == c
    ensures if cfgs[c].outputs == [] then cfgs[c] == DisableConfig(c)
            else cfgs[c].outputs == [cfgs[c].outputs[0]] &&
                 IsConfiguredFor(s.outputs, ms, alloc, cfgs, c, cfgs[c].outputs[0])
  {
    if c !in Free(s.crtcs, s.outputs, ms) - alloc.Values {
      var o: Output :| IsConfiguredFor(s.outputs, ms, alloc, cfgs, c, o);
    }
  }

  lemma PlannedOutputFits(s: Server, ms: MonitorMap, alloc: map<Output, Crtc>, cfgs: Configs, c: Crtc, o: Output)
    requires Consistent(s) && IsPlan(s.crtcs, s.outputs, ms, alloc, cfgs) && c in cfgs && c in s.crtcs
    requires IsConfiguredFor(s.outputs, ms, alloc, cfgs, c, o)
    ensures o in s.crtcs[c].possibleOutputs
  {
    hide Free;
    if s.outputs[o] != 0 {
      assert CrtcConsistent(s, c);
    }
  }

  lemma PlanIsWellFormed(s: Server, ms: MonitorMap, alloc: map<Output, Crtc>, cfgs: Configs)
    requires Consistent(s) && IsPlan(s.crtcs, s.outputs, ms, alloc, cfgs)
    ensures 0 !in s.crtcs && alloc.Keys == Newcomers(s.outputs, ms)
    ensures OneOwner(cfgs) && forall c | c in cfgs :: c in s.crtcs
    ensures forall c: Crtc, o: Output | Claims(cfgs, c, o) ::
              IsConfiguredFor(s.outputs, ms, alloc, cfgs, c, o) && o in s.crtcs[c].possibleOutputs
    ensures forall c | c in cfgs && cfgs[c].outputs != [] ::
              cfgs[c].outputs == [cfgs[c].outputs[0]] && Claims(cfgs, c, cfgs[c].outputs[0])
    ensures forall c | c in cfgs && cfgs[c].outputs == [] :: cfgs[c] == DisableConfig(c)
  {
    assert 0 !in s.crtcs && alloc.Keys == Newcomers(s.outputs, ms);
    hide Consistent, IsPlan, Newcomers, Enabled;
    forall c | c in cfgs
      ensures c in s.crtcs && cfgs[c].crtc == c
      ensures if cfgs[c].outputs == [] then cfgs[c] == DisableConfig(c)
              else cfgs[c].outputs == [cfgs[c].outputs[0]] &&
                   IsConfiguredFor(s.outputs, ms, alloc, cfgs, c, cfgs[c].outputs[0])
    {
      PlannedConfig(s, ms, alloc, cfgs, c);
    }
    forall c: Crtc, o: Output | Claims(cfgs, c, o)
      ensures IsConfiguredFor(s.outputs, ms, alloc, cfgs, c, o) && o in s.crtcs[c].possibleOutputs
    {
      assert o == cfgs[c].outputs[0];
      PlannedOutputFits(s, ms, alloc, cfgs, c, o);
    }
  }

  /** A planned CRTC ends up as configured. */
  lemma FinalCrtc(s: Server, cfgs: Configs, off: set<Crtc>, width: uint16, height: uint16, b: Server, f: Server,
                  c: Crtc)
    requires IsBetween(s, off, width, height, b) && IsProgrammed(b, cfgs, f)
    requires c in cfgs && c in s.crtcs
    ensures c in f.crtcs
    ensures var info := f.crtcs[c];
            && info.outputs == cfgs[c].outputs && info.x == cfgs[c].x && info.y == cfgs[c].y
            && info.mode == cfgs[c].mode && info.rotation == cfgs[c].rotation
            && (cfgs[c].mode !in s.modes ==> info.size == Size(0, 0))
  {
  }

  lemma PlannedStaysInside(s: Server, ms: MonitorMap, alloc: map<Output, Crtc>, cfgs: Configs,
                           width: uint16, height: uint16, b: Server, c: Crtc, o: Output)
    requires SizesAgree(s, ms) && IsScreenSize(ms, width, height) && b.modes == s.modes
    requires c in cfgs && alloc.Keys == Newcomers(s.outputs, ms) && IsConfiguredFor(s.outputs, ms, alloc, cfgs, c, o)
    ensures RectFits(ConfigRect(b, cfgs[c]), width, height)
  {
    hide NeedSwapWidthHeight, Newcomers, Target;
    assert ms[o].Shown() && Capped(ms[o].Right()) <= width && Capped(ms[o].Bottom()) <= height;
  }

  lemma PlanStaysInside(s: Server, ms: MonitorMap, alloc: map<Output, Crtc>, cfgs: Configs,
                        off: set<Crtc>, width: uint16, height: uint16, b: Server)
    requires Consistent(s) && IsPlan(s.crtcs, s.outputs, ms, alloc, cfgs)
    requires SizesAgree(s, ms) && IsScreenSize(ms, width, height)
    requires IsBetween(s, off, width, height, b)
    ensures AllInside(b, cfgs)
  {
    hide NeedSwapWidthHeight, IsAllotment, Free, Newcomers, Target, Consistent, IsPlan;
    PlanIsWellFormed(s, ms, alloc, cfgs);
    assert b.modes == s.modes && b.width == width && b.height == height;
    hide IsBetween, IsProgrammed, SizesAgree, IsScreenSize, Claims;
    forall c | c in cfgs && cfgs[c].outputs != [] ensures RectFits(ConfigRect(b, cfgs[c]), width, height) {
      PlannedStaysInside(s, ms, alloc, cfgs, width, height, b, c, cfgs[c].outputs[0]);
    }
  }

  lemma PlanClaimsOnlyFree(s: Server, ms: MonitorMap, alloc: map<Output, Crtc>, cfgs: Configs,
                           off: set<Crtc>, width: uint16, height: uint16, b: Server)
    requires Consistent(s) && IsPlan(s.crtcs, s.outputs, ms, alloc, cfgs)
    requires IsBetween(s, off, width, height, b)
    ensures ClaimsOnlyFree(b, cfgs)
  {
    PlanIsWellFormed(s, ms, alloc, cfgs);
    BetweenOutputs(s, off, width, height, b);
    forall c: Crtc, o: Output | Claims(cfgs, c, o)
      ensures o in b.outputs && (b.outputs[o] == 0 || b.outputs[o] == c)
    {
      assert IsConfiguredFor(s.outputs, ms, alloc, cfgs, c, o);
    }
  }

  lemma PlanIsAllowed(s: Server, ms: MonitorMap, alloc: map<Output, Crtc>, cfgs: Configs,
                      off: set<Crtc>, width: uint16, height: uint16, b: Server)
    requires Consistent(s) && IsPlan(s.crtcs, s.outputs, ms, alloc, cfgs) && off <= s.crtcs.Keys
    requires SizesAgree(s, ms) && Supported(s, ms) && IsScreenSize(ms, width, height)
    requires IsBetween(s, off, width, height, b)
    ensures AllRequestsAllowed(b, cfgs)
  {
    hide NeedSwapWidthHeight, IsAllotment, Free, Newcomers, Target, Consistent, IsPlan, IsProgrammed;
    PlanIsWellFormed(s, ms, alloc, cfgs);
    PlanStaysInside(s, ms, alloc, cfgs, off, width, height, b);
    PlanClaimsOnlyFree(s, ms, alloc, cfgs, off, width, height, b);
    BetweenOutputs(s, off, width, height, b);
    forall c | c in cfgs ensures AllowsCrtcConfig(b, cfgs[c]) {
      if cfgs[c].outputs != [] {
        var o := cfgs[c].outputs[0];
        assert Claims(cfgs, c, o);
        assert IsConfiguredFor(s.outputs, ms, alloc, cfgs, c, o);
      }
    }
  }

  lemma FinalOutputs(s: Server, ms: MonitorMap, alloc: map<Output, Crtc>, cfgs: Configs,
                     off: set<Crtc>, width: uint16, height: uint16, b: Server, f: Server, o: Output)
    requires Consistent(s) && IsPlan(s.crtcs, s.outputs, ms, alloc, cfgs)
    requires IsBetween(s, off, width, height, b) && IsProgrammed(b, cfgs, f)
    requires o in Known(s.outputs, ms)
    ensures o in f.outputs
    ensures o in Disabled(s.outputs, ms) ==> f.outputs[o] == 0
    ensures o in Enabled(s.outputs, ms) ==>
              f.outputs[o] == if Keeps(ms, cfgs, o) then Target(s.outputs, alloc, o) else 0
  {
    PlanIsWellFormed(s, ms, alloc, cfgs);
    BetweenOutputs(s, off, width, height, b);
    if o in Enabled(s.outputs, ms) && Keeps(ms, cfgs, o) {
      KeptAtTarget(s.crtcs, s.outputs, ms, alloc, cfgs, o);
      assert Claims(cfgs, Target(s.outputs, alloc, o), o);
    } else {
      forall c: Crtc ensures !Claims(cfgs, c, o) {
      }
      assert Unclaimed(cfgs, o);
      if o in Enabled(s.outputs, ms) && s.outputs[o] != 0 {
        assert Target(s.outputs, alloc, o) == s.outputs[o];
      }
    }
  }

  lemma DisabledAreKnown(outputs: OutputTable, ms: MonitorMap)
    ensures Disabled(outputs, ms) <= Known(outputs, ms)
  {
  }

  lemma ConfiguredIsKept(outputs: OutputTable, ms: MonitorMap, alloc: map<Output, Crtc>, cfgs: Configs, c: Crtc,
                         o: Output)
    requires c in cfgs && alloc.Keys == Newcomers(outputs, ms) && IsConfiguredFor(outputs, ms, alloc, cfgs, c, o)
    ensures Keeps(ms, cfgs, o) && c == Target(outputs, alloc, o)
  {
  }

  lemma FinalCrtcMatches(s: Server, ms: MonitorMap, alloc: map<Output, Crtc>, cfgs: Configs,
                         off: set<Crtc>, width: uint16, height: uint16, b: Server, f: Server, c: Crtc)
    requires Consistent(s) && IsPlan(s.crtcs, s.outputs, ms, alloc, cfgs)
    requires IsBetween(s, off, width, height, b) && IsProgrammed(b, cfgs, f)
    requires c in cfgs
    ensures c in f.crtcs && CrtcMatches(f.crtcs, f.outputs, cfgs, c)
  {
    assert 0 !in s.modes && alloc.Keys == Newcomers(s.outputs, ms);
    hide IsPlan, Consistent, IsBetween, IsProgrammed, Newcomers, Keeps;
    PlannedConfig(s, ms, alloc, cfgs, c);
    FinalCrtc(s, cfgs, off, width, height, b, f, c);
    if cfgs[c].outputs != [] {
      var o := cfgs[c].outputs[0];
      ConfiguredIsKept(s.outputs, ms, alloc, cfgs, c, o);
      FinalOutputs(s, ms, alloc, cfgs, off, width, height, b, f, o);
    }
  }

  lemma FinalMatches(s: Server, ms: MonitorMap, alloc: map<Output, Crtc>, cfgs: Configs,
                     off: set<Crtc>, width: uint16, height: uint16, b: Server, f: Server)
    requires Consistent(s) && IsPlan(s.crtcs, s.outputs, ms, alloc, cfgs)
    requires IsBetween(s, off, width, height, b) && IsProgrammed(b, cfgs, f)
    ensures Matches(f.crtcs, f.outputs, cfgs, Disabled(s.outputs, ms))
  {
    hide IsPlan, Consistent, IsBetween, IsProgrammed, CrtcMatches, Disabled;
    forall c | c in cfgs ensures c in f.crtcs && CrtcMatches(f.crtcs, f.outputs, cfgs, c) {
      FinalCrtcMatches(s, ms, alloc, cfgs, off, width, height, b, f, c);
    }
    DisabledAreKnown(s.outputs, ms);
    forall o | o in Disabled(s.outputs, ms) ensures o in f.outputs && f.outputs[o] == 0 {
      FinalOutputs(s, ms, alloc, cfgs, off, width, height, b, f, o);
    }
  }

  lemma FinalKeys(s: Server, cfgs: Configs, off: set<Crtc>, width: uint16, height: uint16, b: Server, f: Server)
    requires IsBetween(s, off, width, height, b) && IsProgrammed(b, cfgs, f)
    ensures f.crtcs.Keys == s.crtcs.Keys && f.outputs.Keys == s.outputs.Keys
  {
  }

  lemma ReachedIffKept(s: Server, ms: MonitorMap, alloc: map<Output, Crtc>, cfgs: Configs,
                       off: set<Crtc>, width: uint16, height: uint16, b: Server, f: Server, o: Output)
    requires Consistent(s) && IsPlan(s.crtcs, s.outputs, ms, alloc, cfgs)
    requires IsBetween(s, off, width, height, b) && IsProgrammed(b, cfgs, f)
    requires o in Enabled(s.outputs, ms)
    ensures Reached(f, ms, o) <==> Keeps(ms, cfgs, o)
    ensures Reached(f, ms, o) ==> f.outputs[o] == Target(s.outputs, alloc, o)
  {
    hide IsAllotment, Free, Consistent, IsPlan, IsBetween, IsProgrammed, Keeps;
    PlanIsWellFormed(s, ms, alloc, cfgs);
    FinalKeys(s, cfgs, off, width, height, b, f);
    FinalOutputs(s, ms, alloc, cfgs, off, width, height, b, f, o);
    if Keeps(ms, cfgs, o) {
      KeptAtTarget(s.crtcs, s.outputs, ms, alloc, cfgs, o);
      FinalCrtc(s, cfgs, off, width, height, b, f, Target(s.outputs, alloc, o));
    }
  }

  lemma ReadyToProgram(s: Server, ms: MonitorMap, alloc: map<Output, Crtc>, cfgs: Configs,
                       off: set<Crtc>, width: uint16, height: uint16, b: Server)
    requires Consistent(s) && IsPlan(s.crtcs, s.outputs, ms, alloc, cfgs) && off <= s.crtcs.Keys
    requires IsScreenSize(ms, width, height)
    requires IsBetween(s, off, width, height, b)
    ensures 0 !in b.crtcs && b.crtcs.Keys == s.crtcs.Keys
    ensures SizesAgree(s, ms) ==> AllInside(b, cfgs)
    ensures SizesAgree(s, ms) && Supported(s, ms) ==> AllRequestsAllowed(b, cfgs)
  {
    if SizesAgree(s, ms) {
      PlanStaysInside(s, ms, alloc, cfgs, off, width, height, b);
      if Supported(s, ms) {
        PlanIsAllowed(s, ms, alloc, cfgs, off, width, height, b);
      }
    }
  }

  lemma PlanStaysWellFormed(s: Server, ms: MonitorMap, alloc: map<Output, Crtc>, cfgs: Configs,
                            off: set<Crtc>, width: uint16, height: uint16, b: Server)
    requires Consistent(s) && IsPlan(s.crtcs, s.outputs, ms, alloc, cfgs)
    requires SizesAgree(s, ms) && IsBetween(s, off, width, height, b)
    ensures forall c | c in cfgs :: cfgs[c].crtc == c && c in b.crtcs && WellFormedConfig(b, cfgs[c])
  {
    PlanIsWellFormed(s, ms, alloc, cfgs);
    BetweenOutputs(s, off, width, height, b);
    forall c | c in cfgs ensures WellFormedConfig(b, cfgs[c]) {
      if cfgs[c].outputs != [] {
        assert IsConfiguredFor(s.outputs, ms, alloc, cfgs, c, cfgs[c].outputs[0]);
      }
    }
  }

  lemma ConsistentTablesAgree(s: Server)
    requires Consistent(s)
    ensures TablesAgree(s.crtcs, s.outputs)
  {
    forall c, o | c in s.crtcs && o in s.crtcs[c].outputs ensures o in s.outputs && s.outputs[o] == c {
      assert CrtcConsistent(s, c);
    }
  }

  lemma FinalConsistent(s: Server, ms: MonitorMap, alloc: map<Output, Crtc>, cfgs: Configs,
                        off: set<Crtc>, width: uint16, height: uint16, b: Server, f: Server)
    requires Consistent(s) && IsPlan(s.crtcs, s.outputs, ms, alloc, cfgs) && off <= s.crtcs.Keys
    requires SizesAgree(s, ms)
    requires IsBetween(s, off, width, height, b) && IsProgrammed(b, cfgs, f)
    ensures Consistent(f)
  {
    PlanIsWellFormed(s, ms, alloc, cfgs);
    BetweenConsistent(s, off, width, height, b);
    PlanClaimsOnlyFree(s, ms, alloc, cfgs, off, width, height, b);
    PlanStaysWellFormed(s, ms, alloc, cfgs, off, width, height, b);
    ProgramStaysConsistent(b, cfgs, f);
  }

  lemma OutcomeOf(s: Server, ms: MonitorMap, alloc: map<Output, Crtc>, cfgs: Configs,
                  off: set<Crtc>, width: uint16, height: uint16, b: Server, f: Server)
    requires Consistent(s) && IsPlan(s.crtcs, s.outputs, ms, alloc, cfgs) && off <= s.crtcs.Keys
    requires SizesAgree(s, ms) && IsScreenSize(ms, width, height)
    requires IsBetween(s, off, width, height, b) && IsProgrammed(b, cfgs, f)
    requires CrtcsFit(b.crtcs, width, height)
    ensures IsOutcome(s, ms, alloc, cfgs, f)
  {
    PlanStaysInside(s, ms, alloc, cfgs, off, width, height, b);
    ProgramFits(b, cfgs, f);
    BetweenOutputs(s, off, width, height, b);
    FinalConsistent(s, ms, alloc, cfgs, off, width, height, b, f);
    FinalMatches(s, ms, alloc, cfgs, off, width, height, b, f);
    ConsistentTablesAgree(s);
    PlanKeepsEveryMonitorIff(s.crtcs, s.outputs, ms, alloc, cfgs);
    forall o | o in Enabled(s.outputs, ms)
      ensures Reached(f, ms, o) <==> Keeps(ms, cfgs, o)
      ensures Reached(f, ms, o) ==> f.outputs[o] == Target(s.outputs, alloc, o)
    {
      ReachedIffKept(s, ms, alloc, cfgs, off, width, height, b, f, o);
    }
  }

  // ---- The X monitor manager ----

  class XMonitorManager {
    const server: XServer
    var crtcs: CrtcTable
    var outputs: OutputTable

    constructor (server: XServer)
      ensures this.server == server && UpToDate()
    {
      this.server := server;
      crtcs, outputs := server.st.crtcs, server.st.outputs;
    }

    /** The cached tables are those of the server. */
    ghost predicate UpToDate()
      reads this, server
    {
      crtcs == server.st.crtcs && outputs == server.st.outputs
    }

    /** Whether apply decides that a CRTC must be switched off first. */
    method DecideDisable(crtc: Crtc, cfgs: Configs, ms: MonitorMap, optDisableCrtc: bool, width: uint16, height: uint16)
      returns (shouldDisable: bool)
      requires crtc in crtcs
      requires forall c | c in cfgs :: cfgs[c].crtc == c
      ensures shouldDisable == ShouldDisable(crtcs[crtc], crtc, cfgs, ms, optDisableCrtc, width, height)
      ensures shouldDisable <==> IsInTheWay(crtcs[crtc], crtc, cfgs, ms, optDisableCrtc, width, height)
    {
      hide IsInTheWay;
      ShouldDisableIff(crtcs[crtc], crtc, cfgs, ms, optDisableCrtc, width, height);
      var info := crtcs[crtc];
      var rect := info.GetRect();
      shouldDisable := false;
      if optDisableCrtc {
        shouldDisable := true;
      } else if rect.x + rect.width > width || rect.y + rect.height > height {
        shouldDisable := true;
      } else {
        var output := FindOutputInCrtcCfgs(cfgs, crtc);
        if output != 0 && output in ms && ms[output].realConnected && ms[output].enabled {
          shouldDisable := ParametersChange(info, ms[output]);
        }
      }
    }

    /** One round of the loop below: `off` are the CRTCs switched off so far. */
    method DisableOne(crtc: Crtc, cfgs: Configs, ms: MonitorMap, optDisableCrtc: bool,
                      width: uint16, height: uint16, ghost s0: Server, ghost off: set<Crtc>)
      returns (ok: bool, ghost off': set<Crtc>)
      requires 0 !in s0.crtcs && crtc in s0.crtcs && crtc !in off && crtcs == s0.crtcs
      requires forall c | c in cfgs :: cfgs[c].crtc == c
      requires IsProgrammed(s0, DisableAll(off), server.st) && server.Recorded()
      modifies server
      ensures server.Recorded() && old(server.history) <= server.history
      ensures IsProgrammed(s0, DisableAll(off'), server.st)
      ensures off' == if ok && crtc in ToDisable(crtcs, cfgs, ms, optDisableCrtc, width, height) then off + {crtc}
                      else off
      ensures server.obedient ==> ok
      ensures ScreenFits(s0) && AllFit(old(server.history)) ==> AllFit(server.history)
    {
      hide IsProgrammed, DisableAll, ScreenFits, ShouldDisable, ApplyCrtcConfig, IsInTheWay;
      ok, off' := true, off;
      var shouldDisable := DecideDisable(crtc, cfgs, ms, optDisableCrtc, width, height);
      if shouldDisable && |crtcs[crtc].outputs| > 0 {
        DisableOneMore(s0, off, crtc, server.st);
        DisablingIsAllowed(s0, off, crtc, server.st);
        ok := server.SetCrtcConfig(DisableConfig(crtc));
        off' := if ok then off + {crtc} else off;
        if ScreenFits(s0) {
          DisablingFits(s0, off', server.st);
        }
      }
    }

    /** Switches off the CRTCs that stand in the way; stops at the first refusal. */
    method DisableCrtcs(cfgs: Configs, ms: MonitorMap, optDisableCrtc: bool, width: uint16, height: uint16)
      returns (ok: bool, ghost off: set<Crtc>)
      requires UpToDate() && 0 !in crtcs && server.Recorded()
      requires forall c | c in cfgs :: cfgs[c].crtc == c
      modifies server
      ensures server.Recorded() && old(server.history) <= server.history
      ensures off <= crtcs.Keys
      ensures IsProgrammed(old(server.st), DisableAll(off), server.st)
      ensures ok ==> off == ToDisable(crtcs, cfgs, ms, optDisableCrtc, width, height)
      ensures ok ==> forall c :: c in off <==> c in crtcs && crtcs[c].outputs != [] &&
                                               IsInTheWay(crtcs[c], c, cfgs, ms, optDisableCrtc, width, height)
      ensures server.obedient ==> ok
      ensures ScreenFits(old(server.st)) && AllFit(old(server.history)) ==> AllFit(server.history)
    {
      hide ShouldDisable, IsProgrammed, DisableAll, ScreenFits, AllFit, IsInTheWay;
      ToDisableAre(crtcs, cfgs, ms, optDisableCrtc, width, height);
      off, ok := {}, true;
      ghost var s0 := server.st;
      DisableNone(s0);
      var todo := crtcs.Keys;
      while todo != {} && ok
        invariant server.Recorded() && old(server.history) <= server.history
        invariant todo <= crtcs.Keys && off <= crtcs.Keys - todo
        invariant IsProgrammed(s0, DisableAll(off), server.st)
        invariant ok ==> off == ToDisable(crtcs, cfgs, ms, optDisableCrtc, width, height) - todo
        invariant server.obedient ==> ok
        invariant ScreenFits(s0) && AllFit(old(server.history)) ==> AllFit(server.history)
      {
        var crtc :| crtc in todo;
        todo := todo - {crtc};
        ok, off := DisableOne(crtc, cfgs, ms, optDisableCrtc, width, height, s0, off);
      }
    }

    /** One round of the loop below: `accepted` are the requests granted so far. */
    method ProgramOne(crtc: Crtc, cfgs: Configs, ghost s0: Server, ghost accepted: Configs)
      returns (ghost accepted': Configs)
      requires 0 !in s0.crtcs && OneOwner(cfgs) && crtc in cfgs && crtc in s0.crtcs
      requires IsPart(accepted, cfgs) && crtc !in accepted
      requires IsProgrammed(s0, accepted, server.st) && server.Recorded()
      modifies server
      ensures server.Recorded() && old(server.history) <= server.history
      ensures accepted' == accepted || accepted' == accepted[crtc := cfgs[crtc]]
      ensures IsProgrammed(s0, accepted', server.st)
      ensures server.obedient && AllRequestsAllowed(s0, cfgs) ==> crtc in accepted'
      ensures AllInside(s0, cfgs) && ScreenFits(s0) && AllFit(old(server.history)) ==> AllFit(server.history)
    {
      hide IsProgrammed, ApplyCrtcConfig, AllowsCrtcConfig, RectFits, ConfigRect, ScreenFits, XServer.Recorded;
      if AllRequestsAllowed(s0, cfgs) {
        StillAllowed(s0, cfgs, accepted, server.st, crtc);
      }
      PartHasOneOwner(cfgs, accepted[crtc := cfgs[crtc]]);
      ProgramOneMore(s0, accepted, cfgs[crtc], server.st);
      var ok := server.SetCrtcConfig(cfgs[crtc]);
      accepted' := if ok then accepted[crtc := cfgs[crtc]] else accepted;
      if AllInside(s0, cfgs) && ScreenFits(s0) {
        ProgramFits(s0, accepted', server.st);
      }
    }

    /** Programs every planned CRTC, in any order; refusals are only logged. */
    method ProgramCrtcs(cfgs: Configs) returns (ghost accepted: Configs)
      requires 0 !in server.st.crtcs && OneOwner(cfgs) && server.Recorded()
      requires forall c | c in cfgs :: c in server.st.crtcs
      modifies server
      ensures server.Recorded() && old(server.history) <= server.history
      ensures IsPart(accepted, cfgs)
      ensures IsProgrammed(old(server.st), accepted, server.st)
      ensures server.obedient && AllRequestsAllowed(old(server.st), cfgs) ==> accepted == cfgs
      ensures AllInside(old(server.st), cfgs) && ScreenFits(old(server.st)) && AllFit(old(server.history)) ==>
                AllFit(server.history)
    {
      hide ScreenFits, AllFit, AllInside, AllRequestsAllowed, XServer.Recorded, OneOwner;
      ghost var s0 := server.st;
      accepted := map[];
      ProgramNone(s0);
      var todo := cfgs.Keys;
      while todo != {}
        invariant server.Recorded() && old(server.history) <= server.history
        invariant todo <= cfgs.Keys
        invariant IsPart(accepted, cfgs) && accepted.Keys <= cfgs.Keys - todo
        invariant IsProgrammed(s0, accepted, server.st)
        invariant server.obedient && AllRequestsAllowed(s0, cfgs) ==> accepted.Keys == cfgs.Keys - todo
        invariant AllInside(s0, cfgs) && ScreenFits(s0) && AllFit(old(server.history)) ==> AllFit(server.history)
      {
        var crtc :| crtc in todo;
        todo := todo - {crtc};
        accepted := ProgramOne(crtc, cfgs, s0, accepted);
      }
    }

    /** Switches off what would not fit and resizes the screen. */
    method MakeRoom(ms: MonitorMap, cfgs: Configs, optDisableCrtc: bool)
      returns (ok: bool, ghost off: set<Crtc>, ghost width: uint16, ghost height: uint16)
      requires UpToDate() && 0 !in crtcs && server.Recorded()
      requires forall c | c in cfgs :: cfgs[c].crtc == c
      modifies server
      ensures server.Recorded() && old(server.history) <= server.history
      ensures off <= crtcs.Keys && IsScreenSize(ms, width, height)
      ensures ok ==> IsBetween(old(server.st), off, width, height, server.st) && ScreenFits(server.st)
      ensures server.obedient ==> (ok <==> old(server.st).sizes.Has(width, height))
      ensures server.obedient && !ok ==> IsLeftOff(old(server.st), cfgs, ms, optDisableCrtc, server.st)
      ensures ScreenFits(old(server.st)) && AllFit(old(server.history)) ==> AllFit(server.history)
    {
      ghost var s0 := server.st;
      var w, h := GetScreenWidthHeight(ms);
      width, height := w, h;
      ok, off := DisableCrtcs(cfgs, ms, optDisableCrtc, w, h);
      if !ok {
        return;
      }
      RoomIsMade(s0, off, server.st, w, h);
      if ScreenFits(s0) {
        DisablingFits(s0, off, server.st);
      }
      ok := server.SetScreenSize(w, h);
    }

    /** Makes room and programs the CRTCs; an error means the server refused to make room. */
    method Commit(ms: MonitorMap, cfgs: Configs, optDisableCrtc: bool, ghost alloc: map<Output, Crtc>)
      returns (err: bool)
      requires UpToDate() && Consistent(server.st) && server.Recorded()
      requires IsPlan(crtcs, outputs, ms, alloc, cfgs)
      modifies server
      ensures server.Recorded() && old(server.history) <= server.history
      ensures SizesAgree(old(server.st), ms) && ScreenFits(old(server.st)) && AllFit(old(server.history)) ==>
                AllFit(server.history)
      ensures server.obedient ==> (err <==> !SizeSupported(old(server.st), ms))
      ensures server.obedient && err ==> IsLeftOff(old(server.st), cfgs, ms, optDisableCrtc, server.st)
      ensures server.obedient && !err && SizesAgree(old(server.st), ms) && Supported(old(server.st), ms) ==>
                IsOutcome(old(server.st), ms, alloc, cfgs, server.st)
    {
      hide IsPlan, SizesAgree, Supported, AllInside, AllRequestsAllowed, IsBetween, IsOutcome, ScreenFits, AllFit,
        IsLeftOff, SizeSupported, XServer.Recorded, OneOwner;
      ghost var s0 := server.st;
      PlanIsWellFormed(s0, ms, alloc, cfgs);
      var ok; ghost var off, width, height;
      ok, off, width, height := MakeRoom(ms, cfgs, optDisableCrtc);
      SizeSupportedIff(s0, ms, width, height);
      if !ok {
        return true;
      }
      ghost var s2 := server.st;
      ReadyToProgram(s0, ms, alloc, cfgs, off, width, height, s2);
      ghost var accepted := ProgramCrtcs(cfgs);
      err := false;
      if server.obedient && SizesAgree(s0, ms) && Supported(s0, ms) {
        OutcomeOf(s0, ms, alloc, cfgs, off, width, height, s2, server.st);
      }
    }

    /** Brings the server to the state `ms` asks for. Returns an error when a monitor finds no CRTC or
        the server refuses to make room. */
    method Apply(ms: MonitorMap, optDisableCrtc: bool)
      returns (err: bool, ghost plan: Configs, ghost alloc: map<Output, Crtc>)
      requires UpToDate() && Consistent(server.st) && server.Recorded()
      modifies server
      ensures server.Recorded() && old(server.history) <= server.history
      ensures IsHistory(old(server.st), server.history[|old(server.history)| - 1..], server.st)
      ensures SizesAgree(old(server.st), ms) && ScreenFits(old(server.st)) && AllFit(old(server.history)) ==>
                AllFit(server.history)
      ensures !err ==> IsPlan(crtcs, outputs, ms, alloc, plan)
      ensures server.obedient && err ==>
                || (IsStuck(crtcs, outputs, ms, alloc) && server.st == old(server.st))
                || (&& IsPlan(crtcs, outputs, ms, alloc, plan) && !SizeSupported(old(server.st), ms)
                    && IsLeftOff(old(server.st), plan, ms, optDisableCrtc, server.st))
      ensures server.obedient && !err ==> SizeSupported(old(server.st), ms)
      ensures server.obedient && !err && SizesAgree(old(server.st), ms) && Supported(old(server.st), ms) ==>
                IsOutcome(old(server.st), ms, alloc, plan, server.st)
    {
      assert 0 !in crtcs;
      ghost var before, s := server.history, server.st;
      assert before != [] && IsHistory(before[0], before, s);
      hide IsPlan, IsStuck, IsOutcome, SizesAgree, Supported, ScreenFits, AllFit, IsLeftOff, SizeSupported, IsHistory,
        Consistent, XServer.Recorded, AnyFreeCrtcDrivesAnyNewcomer, Newcomers, FreeCount, Disabled;
      server.HistorySince(before, s);
      var ok, cfgs, disabled;
      ok, cfgs, disabled, alloc := PlanCrtcs(crtcs, outputs, ms);
      plan := cfgs;
      if !ok {
        return true, plan, alloc;
      }
      err := Commit(ms, cfgs, optDisableCrtc, alloc);
      server.HistorySince(before, s);
    }

    /** Brings the cached tables in line with one announcement of the server. */
    method HandleEvent(e: XorgEvents.Event)
      modifies this
      ensures (crtcs, outputs) == XorgEvents.HandleEvent(server.st, old(crtcs), old(outputs), e)
    {
      match e {
        case CrtcChange(crtc, _, _, _, _, _) =>
          if crtc in server.st.crtcs {
            var reply := server.st.crtcs[crtc];
            crtcs := crtcs[crtc := reply.(x := e.x, y := e.y, size := e.size, rotation := e.rotation, mode := e.mode)];
          }
        case OutputChange(output, crtc) =>
          if output !in outputs {
            if output in server.st.outputs {
              outputs := outputs[output := server.st.outputs[output]];
            }
          } else {
            outputs := outputs[output := crtc];
          }
      }
    }

    /** Whether the cached tables show what was asked for. */
    method CompareAll(cfgs: Configs, disabled: set<Output>) returns (equal: bool)
      requires forall c | c in cfgs :: c in crtcs && forall o | o in cfgs[c].outputs :: o in outputs
      requires disabled <= outputs.Keys
      ensures equal <==> Matches(crtcs, outputs, cfgs, disabled)
    {
      var todo := cfgs.Keys;
      while todo != {}
        invariant todo <= cfgs.Keys
        invariant forall c | c in cfgs && c !in todo :: CrtcMatches(crtcs, outputs, cfgs, c)
      {
        var crtc :| crtc in todo;
        todo := todo - {crtc};
        var cfg, info := cfgs[crtc], crtcs[crtc];
        if |cfg.outputs| > 0 {
          if !(cfg.x == info.x && cfg.y == info.y && cfg.mode == info.mode &&
               cfg.rotation == info.rotation && cfg.outputs == info.outputs) {
            assert !CrtcMatches(crtcs, outputs, cfgs, crtc);
            return false;
          }
        } else {
          if !(|info.outputs| == 0 && info.mode == 0 && info.size.width == 0 && info.size.height == 0) {
            assert !CrtcMatches(crtcs, outputs, cfgs, crtc);
            return false;
          }
        }
        if |cfg.outputs| > 0 {
          assert cfg.outputs[0] in cfg.outputs;
          if cfg.crtc != outputs[cfg.outputs[0]] {
            assert !CrtcMatches(crtcs, outputs, cfgs, crtc);
            return false;
          }
        }
      }
      var rest := disabled;
      while rest != {}
        invariant rest <= disabled
        invariant forall o | o in disabled && o !in rest :: outputs[o] == 0
      {
        var output :| output in rest;
        rest := rest - {output};
        if outputs[output] != 0 {
          return false;
        }
      }
      return true;
    }
  }

  // ---- Confirmation ----

  lemma OutcomeMatches(s: Server, ms: MonitorMap, alloc: map<Output, Crtc>, plan: Configs, s': Server)
    requires IsOutcome(s, ms, alloc, plan, s')
    ensures Matches(s'.crtcs, s'.outputs, plan, Disabled(s.outputs, ms))
  {
  }

  /** Once apply has made its requests, compareAll succeeds as soon as every announcement has been handled,
      however requests and announcements are interleaved; and no interleaving keeps that from coming about. */
  lemma ApplyIsConfirmed(s: Server, history: seq<Server>, s': Server, run: seq<XorgEvents.World>,
                         ms: MonitorMap, alloc: map<Output, Crtc>, plan: Configs)
    returns (rest: seq<XorgEvents.World>)
    requires IsHistory(s, history, s') && IsOutcome(s, ms, alloc, plan, s')
    requires XorgEvents.IsRunOf(run, history)
    ensures XorgEvents.IsOver(run, history) ==>
              Matches(run[|run| - 1].crtcs, run[|run| - 1].outputs, plan, Disabled(s.outputs, ms))
    ensures XorgEvents.IsRunOf(run + rest, history) && XorgEvents.IsOver(run + rest, history)
  {
    hide IsOutcome, Matches;
    rest := XorgEvents.RunCanEnd(s, history, s', run);
    if XorgEvents.IsOver(run, history) {
      XorgEvents.OverMeansUpToDate(run, history);
      OutcomeMatches(s, ms, alloc, plan, s');
    }
  }
}
