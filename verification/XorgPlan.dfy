/** Planning in xMonitorManager.apply: which CRTC each monitor gets, which CRTCs are switched off,
    and how large the screen must be. */
module XorgPlan {
  import opened Ints
  import opened RandR
  import opened XorgProgram

  /** The fields of a display monitor that apply reads, keyed by output id in a MonitorMap. */
  datatype Monitor = Monitor(
    enabled: bool, realConnected: bool, x: int16, y: int16, width: uint16, height: uint16,
    rotation: bv16, reflect: bv16, mode: ModeId, modeSize: Size)
  {
    predicate Shown() { enabled && realConnected }

    function Right(): int { x + SwapWithRotation(rotation, modeSize).width }

    function Bottom(): int { y + SwapWithRotation(rotation, modeSize).height }
  }

  /** Where a monitor ends: its mode lies upright for 0 and 180 degrees and turned for 90 and 270. */
  lemma TurnedEdges(m: Monitor)
    ensures m.rotation & 15 in {1, 4} ==> m.Right() == m.x + m.modeSize.width && m.Bottom() == m.y + m.modeSize.height
    ensures m.rotation & 15 in {2, 8} ==> m.Right() == m.x + m.modeSize.height && m.Bottom() == m.y + m.modeSize.width
  {
    TurnedIff(m.rotation);
  }

  type MonitorMap = map<Output, Monitor>
  type CrtcTable = map<Crtc, CrtcInfo>
  type OutputTable = map<Output, Crtc>

  function EnableConfig(c: Crtc, o: Output, m: Monitor): CrtcConfig {
    CrtcConfig(c, [o], m.x, m.y, m.rotation | m.reflect, m.mode)
  }

  /** The monitors the server still knows; apply skips the others. */
  function Known(outputs: OutputTable, ms: MonitorMap): set<Output> {
    set o | o in ms && o in outputs
  }

  function Enabled(outputs: OutputTable, ms: MonitorMap): set<Output> {
    set o | o in Known(outputs, ms) && ms[o].enabled
  }

  function Disabled(outputs: OutputTable, ms: MonitorMap): set<Output> {
    set o | o in Known(outputs, ms) && !ms[o].enabled
  }

  /** Enabled monitors that no CRTC drives yet. */
  function Newcomers(outputs: OutputTable, ms: MonitorMap): set<Output> {
    set o | o in Enabled(outputs, ms) && outputs[o] == 0
  }

  /** CRTCs without outputs, and those of monitors about to be disabled. */
  function Free(crtcs: CrtcTable, outputs: OutputTable, ms: MonitorMap): set<Crtc> {
    (set c | c in crtcs && crtcs[c].outputs == []) +
    (set o | o in Disabled(outputs, ms) && outputs[o] != 0 :: outputs[o])
  }

  /** Where an enabled monitor ends up: it stays on the CRTC it has, or takes the allotted one. */
  function Target(outputs: OutputTable, alloc: map<Output, Crtc>, o: Output): Crtc
    requires o in outputs && (outputs[o] == 0 ==> o in alloc)
  {
    if outputs[o] != 0 then outputs[o] else alloc[o]
  }

  ghost predicate Injective(m: map<Output, Crtc>) {
    forall o, o' | o in m && o' in m && o != o' :: m[o] != m[o']
  }

  /** An allotment hands distinct free CRTCs to newcomers, each able to drive its monitor. */
  ghost predicate IsAllotment(crtcs: CrtcTable, outputs: OutputTable, ms: MonitorMap, alloc: map<Output, Crtc>) {
    && alloc.Keys <= Newcomers(outputs, ms)
    && Injective(alloc)
    && forall o | o in alloc ::
         alloc[o] in crtcs && alloc[o] in Free(crtcs, outputs, ms) && o in crtcs[alloc[o]].possibleOutputs
  }

  /** Some newcomer is left over and no CRTC that is still free can drive it. */
  ghost predicate IsStuck(crtcs: CrtcTable, outputs: OutputTable, ms: MonitorMap, alloc: map<Output, Crtc>) {
    && IsAllotment(crtcs, outputs, ms, alloc)
    && exists o | o in Newcomers(outputs, ms) - alloc.Keys ::
         forall c | c in crtcs && c in Free(crtcs, outputs, ms) - alloc.Values :: o !in crtcs[c].possibleOutputs
  }

  ghost predicate IsConfiguredFor(outputs: OutputTable, ms: MonitorMap, alloc: map<Output, Crtc>,
                                  cfgs: Configs, c: Crtc, o: Output)
    requires c in cfgs
    requires alloc.Keys == Newcomers(outputs, ms)
  {
    o in Enabled(outputs, ms) && Target(outputs, alloc, o) == c && cfgs[c] == EnableConfig(c, o, ms[o])
  }

  /** What the planning loops leave in crtcCfgs. */
  ghost predicate IsPlan(crtcs: CrtcTable, outputs: OutputTable, ms: MonitorMap,
                         alloc: map<Output, Crtc>, cfgs: Configs) {
    && IsAllotment(crtcs, outputs, ms, alloc)
    && alloc.Keys == Newcomers(outputs, ms)
    && (forall o | o in Enabled(outputs, ms) :: Target(outputs, alloc, o) in cfgs)
    && (forall c | c in Free(crtcs, outputs, ms) :: c in cfgs)
    && (forall c | c in Free(crtcs, outputs, ms) - alloc.Values :: cfgs[c] == DisableConfig(c))
    && (forall c | c in cfgs && c !in Free(crtcs, outputs, ms) - alloc.Values ::
          exists o: Output :: IsConfiguredFor(outputs, ms, alloc, cfgs, c, o))
  }

  method GetFreeCrtcMap(crtcs: CrtcTable) returns (result: map<Crtc, bool>)
    ensures result == map c | c in crtcs && crtcs[c].outputs == [] :: true
  {
    result := map[];
    var todo := crtcs.Keys;
    while todo != {}
      invariant todo <= crtcs.Keys
      invariant result == map c | c in crtcs && c !in todo && crtcs[c].outputs == [] :: true
    {
      var c :| c in todo;
      todo := todo - {c};
      if crtcs[c].outputs == [] {
        result := result[c := true];
      }
    }
  }

  /** Returns 0 when no free CRTC can drive the output; otherwise takes one out of `free`. */
  method FindFreeCrtc(crtcs: CrtcTable, output: Output, free: map<Crtc, bool>)
    returns (crtc: Crtc, free': map<Crtc, bool>)
    requires 0 !in crtcs
    ensures crtc == 0 ==>
      && free' == free
      && forall c | c in crtcs && c in free && free[c] :: output !in crtcs[c].possibleOutputs
    ensures crtc != 0 ==>
      && free' == free[crtc := false]
      && crtc in crtcs && crtc in free && free[crtc] && output in crtcs[crtc].possibleOutputs
  {
    var todo := crtcs.Keys;
    while todo != {}
      invariant todo <= crtcs.Keys
      invariant forall c | c in crtcs && c !in todo && c in free && free[c] :: output !in crtcs[c].possibleOutputs
    {
      var c :| c in todo;
      todo := todo - {c};
      if c in free && free[c] && output in crtcs[c].possibleOutputs {
        return c, free[c := false];
      }
    }
    return 0, free;
  }

  ghost predicate IsFrom(outputs: OutputTable, ms: MonitorMap, alloc: map<Output, Crtc>,
                         cfg: CrtcConfig, c: Crtc, done: set<Output>, o: Output)
    requires alloc.Keys == Newcomers(outputs, ms) * done
  {
    o in Enabled(outputs, ms) * done && Target(outputs, alloc, o) == c && cfg == EnableConfig(c, o, ms[o])
  }

  /** Every enabled monitor among `done` has a configuration, and there are no others. */
  ghost predicate ConfiguresExactly(outputs: OutputTable, ms: MonitorMap, alloc: map<Output, Crtc>,
                                    cfgs: Configs, done: set<Output>)
    requires alloc.Keys == Newcomers(outputs, ms) * done
  {
    && (forall o | o in Enabled(outputs, ms) * done :: Target(outputs, alloc, o) in cfgs)
    && (forall c | c in cfgs :: exists o: Output :: IsFrom(outputs, ms, alloc, cfgs[c], c, done, o))
  }

  /** What holds while the second loop of apply has handled the monitors in `done`. */
  ghost predicate Planning(crtcs: CrtcTable, outputs: OutputTable, ms: MonitorMap, alloc: map<Output, Crtc>,
                           cfgs: Configs, free: map<Crtc, bool>, done: set<Output>) {
    && IsAllotment(crtcs, outputs, ms, alloc)
    && alloc.Keys == Newcomers(outputs, ms) * done
    && ConfiguresExactly(outputs, ms, alloc, cfgs, done)
    && free == map c | c in Free(crtcs, outputs, ms) :: c !in alloc.Values
  }

  lemma SkipConfigures(outputs: OutputTable, ms: MonitorMap, alloc: map<Output, Crtc>,
                       cfgs: Configs, done: set<Output>, o: Output)
    requires alloc.Keys == Newcomers(outputs, ms) * done
    requires ConfiguresExactly(outputs, ms, alloc, cfgs, done)
    requires o !in Enabled(outputs, ms)
    ensures alloc.Keys == Newcomers(outputs, ms) * (done + {o})
    ensures ConfiguresExactly(outputs, ms, alloc, cfgs, done + {o})
  {
    assert Newcomers(outputs, ms) * (done + {o}) == Newcomers(outputs, ms) * done;
    forall c | c in cfgs ensures exists p: Output :: IsFrom(outputs, ms, alloc, cfgs[c], c, done + {o}, p) {
      var p: Output :| IsFrom(outputs, ms, alloc, cfgs[c], c, done, p);
      assert IsFrom(outputs, ms, alloc, cfgs[c], c, done + {o}, p);
    }
  }

  lemma ExtendConfigures(outputs: OutputTable, ms: MonitorMap, alloc: map<Output, Crtc>, alloc': map<Output, Crtc>,
                         cfgs: Configs, done: set<Output>, o: Output, c: Crtc)
    requires alloc.Keys == Newcomers(outputs, ms) * done
    requires ConfiguresExactly(outputs, ms, alloc, cfgs, done)
    requires o in Enabled(outputs, ms) && o !in done
    requires if outputs[o] == 0 then alloc' == alloc[o := c] else alloc' == alloc && c == outputs[o]
    ensures alloc'.Keys == Newcomers(outputs, ms) * (done + {o})
    ensures ConfiguresExactly(outputs, ms, alloc', cfgs[c := EnableConfig(c, o, ms[o])], done + {o})
  {
    var cfgs' := cfgs[c := EnableConfig(c, o, ms[o])];
    assert alloc'.Keys == Newcomers(outputs, ms) * (done + {o});
    forall d | d in cfgs' ensures exists p: Output :: IsFrom(outputs, ms, alloc', cfgs'[d], d, done + {o}, p) {
      if d == c {
        assert IsFrom(outputs, ms, alloc', cfgs'[d], d, done + {o}, o);
      } else {
        var p: Output :| IsFrom(outputs, ms, alloc, cfgs[d], d, done, p);
        assert IsFrom(outputs, ms, alloc', cfgs'[d], d, done + {o}, p);
      }
    }
    forall p | p in Enabled(outputs, ms) * (done + {o}) ensures Target(outputs, alloc', p) in cfgs' {
      if p != o {
        assert Target(outputs, alloc', p) == Target(outputs, alloc, p);
      }
    }
  }

  ghost function Allot(crtcs: CrtcTable, outputs: OutputTable, ms: MonitorMap,
                       alloc: map<Output, Crtc>, o: Output, c: Crtc): (alloc': map<Output, Crtc>)
    requires IsAllotment(crtcs, outputs, ms, alloc)
    requires o in Newcomers(outputs, ms) - alloc.Keys && c !in alloc.Values
    requires c in crtcs && c in Free(crtcs, outputs, ms) && o in crtcs[c].possibleOutputs
    ensures IsAllotment(crtcs, outputs, ms, alloc')
    ensures alloc' == alloc[o := c] && alloc'.Values == alloc.Values + {c}
  {
    var alloc' := alloc[o := c];
    assert alloc'.Values == alloc.Values + {c} by {
      assert alloc'[o] == c;
      forall d | d in alloc.Values ensures d in alloc'.Values {
        var p :| p in alloc && alloc[p] == d;
        assert alloc'[p] == d;
      }
    }
    alloc'
  }

  method PlanOne(crtcs: CrtcTable, outputs: OutputTable, ms: MonitorMap, cfgs: Configs,
                 free: map<Crtc, bool>, output: Output, ghost alloc: map<Output, Crtc>, ghost done: set<Output>)
    returns (ok: bool, cfgs': Configs, free': map<Crtc, bool>, ghost alloc': map<Output, Crtc>)
    requires 0 !in crtcs
    requires Planning(crtcs, outputs, ms, alloc, cfgs, free, done)
    requires output in ms && output !in done
    ensures if ok then Planning(crtcs, outputs, ms, alloc', cfgs', free', done + {output})
            else IsStuck(crtcs, outputs, ms, alloc')
  {
    ok, cfgs', free', alloc' := true, cfgs, free, alloc;
    if output !in outputs || !ms[output].enabled {
      SkipConfigures(outputs, ms, alloc, cfgs, done, output);
      return;
    }
    var crtc := outputs[output];
    if crtc == 0 {
      crtc, free' := FindFreeCrtc(crtcs, output, free);
      assert output in Newcomers(outputs, ms) - alloc.Keys;
      if crtc == 0 {
        ok := false;
        return;
      }
      alloc' := Allot(crtcs, outputs, ms, alloc, output, crtc);
    }
    ExtendConfigures(outputs, ms, alloc, alloc', cfgs, done, output, crtc);
    cfgs' := cfgs[crtc := EnableConfig(crtc, output, ms[output])];
  }

  /** The second loop of apply: a configuration for every enabled monitor. */
  method PlanEnabled(crtcs: CrtcTable, outputs: OutputTable, ms: MonitorMap, free: map<Crtc, bool>)
    returns (ok: bool, cfgs: Configs, free': map<Crtc, bool>, ghost alloc: map<Output, Crtc>)
    requires 0 !in crtcs
    requires free == map c | c in Free(crtcs, outputs, ms) :: true
    ensures if ok then Planning(crtcs, outputs, ms, alloc, cfgs, free', ms.Keys) else IsStuck(crtcs, outputs, ms, alloc)
  {
    ok, cfgs, alloc, free' := true, map[], map[], free;
    var todo := ms.Keys;
    while todo != {} && ok
      invariant todo <= ms.Keys
      invariant ok ==> Planning(crtcs, outputs, ms, alloc, cfgs, free', ms.Keys - todo)
      invariant !ok ==> IsStuck(crtcs, outputs, ms, alloc)
    {
      var output :| output in todo;
      ghost var done := ms.Keys - todo;
      todo := todo - {output};
      assert ms.Keys - todo == done + {output};
      ok, cfgs, free', alloc := PlanOne(crtcs, outputs, ms, cfgs, free', output, alloc, done);
    }
    assert todo == {} ==> ms.Keys - todo == ms.Keys;
  }

  /** The third loop of apply: CRTCs that are still free are switched off, whatever was planned for them. */
  method AddDisabled(enabledCfgs: Configs, free: map<Crtc, bool>)
    returns (cfgs: Configs)
    ensures cfgs.Keys == enabledCfgs.Keys + set c | c in free && free[c]
    ensures forall c | c in cfgs :: cfgs[c] == if c in free && free[c] then DisableConfig(c) else enabledCfgs[c]
  {
    cfgs := enabledCfgs;
    var todo := free.Keys;
    while todo != {}
      invariant todo <= free.Keys
      invariant cfgs.Keys == enabledCfgs.Keys + set c | c in free && c !in todo && free[c]
      invariant forall c | c in cfgs ::
                  cfgs[c] == if c in free && c !in todo && free[c] then DisableConfig(c) else enabledCfgs[c]
    {
      var crtc :| crtc in todo;
      todo := todo - {crtc};
      if free[crtc] {
        cfgs := cfgs[crtc := DisableConfig(crtc)];
      }
    }
  }

  lemma PlanComplete(crtcs: CrtcTable, outputs: OutputTable, ms: MonitorMap, alloc: map<Output, Crtc>,
                     enabledCfgs: Configs, cfgs: Configs)
    requires IsAllotment(crtcs, outputs, ms, alloc)
    requires alloc.Keys == Newcomers(outputs, ms)
    requires ConfiguresExactly(outputs, ms, alloc, enabledCfgs, ms.Keys)
    requires cfgs.Keys == enabledCfgs.Keys + (Free(crtcs, outputs, ms) - alloc.Values)
    requires forall c | c in cfgs ::
               cfgs[c] == if c in Free(crtcs, outputs, ms) - alloc.Values then DisableConfig(c) else enabledCfgs[c]
    ensures IsPlan(crtcs, outputs, ms, alloc, cfgs)
  {
    forall c | c in Free(crtcs, outputs, ms) ensures c in cfgs {
      if c in alloc.Values {
        var o :| o in alloc && alloc[o] == c;
        assert Target(outputs, alloc, o) == c;
      }
    }
    forall c | c in cfgs && c !in Free(crtcs, outputs, ms) - alloc.Values
      ensures exists o: Output :: IsConfiguredFor(outputs, ms, alloc, cfgs, c, o)
    {
      var o: Output :| IsFrom(outputs, ms, alloc, enabledCfgs[c], c, ms.Keys, o);
      assert IsConfiguredFor(outputs, ms, alloc, cfgs, c, o);
    }
  }

  lemma PlanIsComplete(crtcs: CrtcTable, outputs: OutputTable, ms: MonitorMap, alloc: map<Output, Crtc>,
                       enabledCfgs: Configs, free: map<Crtc, bool>, cfgs: Configs)
    requires Planning(crtcs, outputs, ms, alloc, enabledCfgs, free, ms.Keys)
    requires cfgs.Keys == enabledCfgs.Keys + set c | c in free && free[c]
    requires forall c | c in cfgs :: cfgs[c] == if c in free && free[c] then DisableConfig(c) else enabledCfgs[c]
    ensures IsPlan(crtcs, outputs, ms, alloc, cfgs)
    ensures IsAllotment(crtcs, outputs, ms, alloc) && alloc.Keys == Newcomers(outputs, ms)
  {
    hide IsPlan, IsAllotment, ConfiguresExactly, Free;
    assert Newcomers(outputs, ms) * ms.Keys == Newcomers(outputs, ms);
    PlanComplete(crtcs, outputs, ms, alloc, enabledCfgs, cfgs);
  }

  function Freed(outputs: OutputTable, disabled: set<Output>): set<Crtc> {
    set o | o in disabled && o in outputs && outputs[o] != 0 :: outputs[o]
  }

  lemma FreedOneMore(outputs: OutputTable, disabled: set<Output>, o: Output)
    requires o in outputs
    ensures Freed(outputs, disabled + {o}) == Freed(outputs, disabled) + if outputs[o] != 0 then {outputs[o]} else {}
  {
  }

  lemma FreedNone(outputs: OutputTable)
    ensures Freed(outputs, {}) == {}
  {
  }

  lemma FreedIsFree(crtcs: CrtcTable, outputs: OutputTable, ms: MonitorMap, free: map<Crtc, bool>)
    requires free == map c | c in crtcs && crtcs[c].outputs == [] :: true
    ensures free.Keys + Freed(outputs, Disabled(outputs, ms)) == Free(crtcs, outputs, ms)
  {
  }

  /** The first loop of apply: the CRTCs of monitors about to be disabled become free. */
  method FreeDisabled(crtcs: CrtcTable, outputs: OutputTable, ms: MonitorMap, free: map<Crtc, bool>)
    returns (free': map<Crtc, bool>, disabled: set<Output>)
    requires free == map c | c in crtcs && crtcs[c].outputs == [] :: true
    ensures free' == map c | c in Free(crtcs, outputs, ms) :: true
    ensures disabled == Disabled(outputs, ms)
  {
    hide Freed, Free;
    free', disabled := free, {};
    FreedNone(outputs);
    var todo := ms.Keys;
    while todo != {}
      invariant todo <= ms.Keys
      invariant disabled == Disabled(outputs, ms) - todo
      invariant free'.Keys == free.Keys + Freed(outputs, disabled)
      invariant forall c | c in free' :: free'[c]
    {
      var output :| output in todo;
      todo := todo - {output};
      if output in outputs && !ms[output].enabled {
        FreedOneMore(outputs, disabled, output);
        disabled := disabled + {output};
        var crtc := outputs[output];
        if crtc != 0 {
          free' := free'[crtc := true];
        }
      }
    }
    assert disabled == Disabled(outputs, ms);
    FreedIsFree(crtcs, outputs, ms, free);
    assert free'.Keys == Free(crtcs, outputs, ms);
    assert free' == map c | c in free'.Keys :: true;
  }

  // ---- What a plan is worth ----

  /** The two tables describe the same wiring. */
  ghost predicate TablesAgree(crtcs: CrtcTable, outputs: OutputTable) {
    && 0 !in crtcs
    && (forall c, o | c in crtcs && o in crtcs[c].outputs :: o in outputs && outputs[o] == c)
    && (forall o | o in outputs && outputs[o] != 0 :: outputs[o] in crtcs && o in crtcs[outputs[o]].outputs)
  }

  /** No monitor that is to be enabled shares its CRTC with another monitor. */
  ghost predicate NoSharing(outputs: OutputTable, ms: MonitorMap) {
    forall o, p | o in Enabled(outputs, ms) && p in Known(outputs, ms) && o != p && outputs[o] != 0 ::
      outputs[p] != outputs[o]
  }

  ghost predicate Keeps(ms: MonitorMap, cfgs: Configs, o: Output)
    requires o in ms
  {
    exists c :: c in cfgs && cfgs[c] == EnableConfig(c, o, ms[o])
  }

  lemma KeptAtTarget(crtcs: CrtcTable, outputs: OutputTable, ms: MonitorMap, alloc: map<Output, Crtc>,
                     cfgs: Configs, o: Output)
    requires IsPlan(crtcs, outputs, ms, alloc, cfgs)
    requires o in Enabled(outputs, ms) && Keeps(ms, cfgs, o)
    ensures Target(outputs, alloc, o) in cfgs
    ensures cfgs[Target(outputs, alloc, o)] == EnableConfig(Target(outputs, alloc, o), o, ms[o])
    ensures Target(outputs, alloc, o) !in Free(crtcs, outputs, ms) - alloc.Values
  {
    var c :| c in cfgs && cfgs[c] == EnableConfig(c, o, ms[o]);
    assert cfgs[c].outputs == [o] && DisableConfig(c).outputs == [];
    assert c !in Free(crtcs, outputs, ms) - alloc.Values;
    var p: Output :| IsConfiguredFor(outputs, ms, alloc, cfgs, c, p);
    assert cfgs[c].outputs == [p] && p == o;
  }

  /** A monitor that is alone on its CRTC, or has none yet, is the only one whose target is that CRTC. */
  lemma AloneMeansKept(crtcs: CrtcTable, outputs: OutputTable, ms: MonitorMap, alloc: map<Output, Crtc>,
                       cfgs: Configs, o: Output)
    requires TablesAgree(crtcs, outputs) && NoSharing(outputs, ms)
    requires IsPlan(crtcs, outputs, ms, alloc, cfgs)
    requires o in Enabled(outputs, ms)
    ensures Keeps(ms, cfgs, o)
  {
    var c := Target(outputs, alloc, o);
    assert c !in Free(crtcs, outputs, ms) - alloc.Values;
    var p: Output :| IsConfiguredFor(outputs, ms, alloc, cfgs, c, p);
    assert p == o;
  }

  lemma SharingLosesOne(crtcs: CrtcTable, outputs: OutputTable, ms: MonitorMap, alloc: map<Output, Crtc>,
                        cfgs: Configs, o: Output, p: Output)
    requires IsPlan(crtcs, outputs, ms, alloc, cfgs)
    requires o in Enabled(outputs, ms) && p in Known(outputs, ms) && o != p
    requires outputs[o] != 0 && outputs[p] == outputs[o]
    ensures exists q :: q in Enabled(outputs, ms) && !Keeps(ms, cfgs, q)
  {
    var c := outputs[o];
    if Keeps(ms, cfgs, o) {
      KeptAtTarget(crtcs, outputs, ms, alloc, cfgs, o);
      if ms[p].enabled {
        if Keeps(ms, cfgs, p) {
          KeptAtTarget(crtcs, outputs, ms, alloc, cfgs, p);
          assert false;
        }
      } else {
        assert c in Free(crtcs, outputs, ms);
        var q :| q in alloc && alloc[q] == c;
        if Keeps(ms, cfgs, q) {
          KeptAtTarget(crtcs, outputs, ms, alloc, cfgs, q);
          assert false;
        }
      }
    }
  }

  /** A plan configures every enabled monitor exactly when none of them shares its CRTC with another
      monitor: sharing with a disabled one switches the CRTC off, sharing with an enabled one
      overwrites one of the two configurations. */
  lemma PlanKeepsEveryMonitorIff(crtcs: CrtcTable, outputs: OutputTable, ms: MonitorMap,
                                 alloc: map<Output, Crtc>, cfgs: Configs)
    requires TablesAgree(crtcs, outputs)
    requires IsPlan(crtcs, outputs, ms, alloc, cfgs)
    ensures (forall o | o in Enabled(outputs, ms) :: Keeps(ms, cfgs, o)) <==> NoSharing(outputs, ms)
  {
    if NoSharing(outputs, ms) {
      forall o | o in Enabled(outputs, ms) ensures Keeps(ms, cfgs, o) {
        AloneMeansKept(crtcs, outputs, ms, alloc, cfgs, o);
      }
    } else {
      var o, p :| && o in Enabled(outputs, ms) && p in Known(outputs, ms) && o != p
                  && outputs[o] != 0 && outputs[p] == outputs[o];
      SharingLosesOne(crtcs, outputs, ms, alloc, cfgs, o, p);
    }
  }

  /** CRTC allocation is injective and compatible. */
  lemma AllocationIsSound(crtcs: CrtcTable, outputs: OutputTable, ms: MonitorMap,
                          alloc: map<Output, Crtc>, cfgs: Configs, o: Output, p: Output)
    requires TablesAgree(crtcs, outputs) && NoSharing(outputs, ms)
    requires forall c, q | c in crtcs && q in crtcs[c].outputs :: q in crtcs[c].possibleOutputs
    requires IsPlan(crtcs, outputs, ms, alloc, cfgs)
    requires o in Enabled(outputs, ms) && p in Enabled(outputs, ms) && o != p
    ensures Target(outputs, alloc, o) != Target(outputs, alloc, p)
    ensures outputs[o] != 0 ==> Target(outputs, alloc, o) == outputs[o]
    ensures Target(outputs, alloc, o) in crtcs && o in crtcs[Target(outputs, alloc, o)].possibleOutputs
  {
    AloneMeansKept(crtcs, outputs, ms, alloc, cfgs, o);
    AloneMeansKept(crtcs, outputs, ms, alloc, cfgs, p);
    KeptAtTarget(crtcs, outputs, ms, alloc, cfgs, o);
    KeptAtTarget(crtcs, outputs, ms, alloc, cfgs, p);
    assert EnableConfig(Target(outputs, alloc, o), o, ms[o]).outputs == [o];
    assert EnableConfig(Target(outputs, alloc, p), p, ms[p]).outputs == [p];
  }

  lemma {:induction false} InjectiveKeepsSize(m: map<Output, Crtc>)
    requires Injective(m)
    ensures |m.Values| == |m.Keys|
  {
    if m.Keys != {} {
      var o :| o in m;
      var rest := m - {o};
      InjectiveKeepsSize(rest);
      assert rest.Keys == m.Keys - {o};
      assert m.Values == rest.Values + {m[o]} by {
        forall c | c in m.Values ensures c in rest.Values + {m[o]} {
          var p :| p in m && m[p] == c;
          assert p != o ==> rest[p] == c;
        }
      }
    } else {
      assert m.Values == {};
    }
  }

  lemma SubsetSize(a: set<nat>, b: set<nat>)
    requires a <= b
    ensures |a| <= |b|
    ensures a != b ==> |a| < |b|
  {
    assert b == a + (b - a);
    assert a != b ==> b - a != {};
  }

  ghost predicate AnyFreeCrtcDrivesAnyNewcomer(crtcs: CrtcTable, outputs: OutputTable, ms: MonitorMap) {
    forall c, o | c in crtcs && c in Free(crtcs, outputs, ms) && o in Newcomers(outputs, ms) ::
      o in crtcs[c].possibleOutputs
  }

  /** The number of CRTCs the search can hand out. */
  function FreeCount(crtcs: CrtcTable, outputs: OutputTable, ms: MonitorMap): nat {
    |Free(crtcs, outputs, ms) * crtcs.Keys|
  }

  /** "failed to find free crtc" means that newcomers outnumber free CRTCs. */
  lemma StuckMeansTooMany(crtcs: CrtcTable, outputs: OutputTable, ms: MonitorMap, alloc: map<Output, Crtc>)
    requires IsStuck(crtcs, outputs, ms, alloc)
    requires AnyFreeCrtcDrivesAnyNewcomer(crtcs, outputs, ms)
    ensures FreeCount(crtcs, outputs, ms) < |Newcomers(outputs, ms)|
  {
    InjectiveKeepsSize(alloc);
    var free := Free(crtcs, outputs, ms) * crtcs.Keys;
    assert free <= alloc.Values;
    SubsetSize(free, alloc.Values);
    SubsetSize(alloc.Keys, Newcomers(outputs, ms));
  }

  /** The converse: a plan can exist only if there are enough free CRTCs. */
  lemma PlanMeansEnough(crtcs: CrtcTable, outputs: OutputTable, ms: MonitorMap, alloc: map<Output, Crtc>)
    requires IsAllotment(crtcs, outputs, ms, alloc) && alloc.Keys == Newcomers(outputs, ms)
    ensures |Newcomers(outputs, ms)| <= FreeCount(crtcs, outputs, ms)
  {
    InjectiveKeepsSize(alloc);
    SubsetSize(alloc.Values, Free(crtcs, outputs, ms) * crtcs.Keys);
  }

  /** CRTC planning. `alloc` records who was allotted what. */
  method PlanCrtcs(crtcs: CrtcTable, outputs: OutputTable, ms: MonitorMap)
    returns (ok: bool, cfgs: Configs, disabled: set<Output>, ghost alloc: map<Output, Crtc>)
    requires 0 !in crtcs
    ensures disabled == Disabled(outputs, ms)
    ensures ok ==> IsPlan(crtcs, outputs, ms, alloc, cfgs)
    ensures !ok ==> IsStuck(crtcs, outputs, ms, alloc)
    ensures AnyFreeCrtcDrivesAnyNewcomer(crtcs, outputs, ms) ==>
              (ok <==> |Newcomers(outputs, ms)| <= FreeCount(crtcs, outputs, ms))
  {
    hide IsPlan, IsStuck, AnyFreeCrtcDrivesAnyNewcomer, FreeCount, Disabled, Free, Newcomers, Planning, IsAllotment;
    var free := GetFreeCrtcMap(crtcs);
    free, disabled := FreeDisabled(crtcs, outputs, ms, free);
    var enabledCfgs;
    ok, enabledCfgs, free, alloc := PlanEnabled(crtcs, outputs, ms, free);
    if !ok {
      if AnyFreeCrtcDrivesAnyNewcomer(crtcs, outputs, ms) {
        StuckMeansTooMany(crtcs, outputs, ms, alloc);
      }
      return false, map[], disabled, alloc;
    }
    cfgs := AddDisabled(enabledCfgs, free);
    PlanIsComplete(crtcs, outputs, ms, alloc, enabledCfgs, free, cfgs);
    PlanMeansEnough(crtcs, outputs, ms, alloc);
  }

  function FreeCrtc(possible: set<Output>): CrtcInfo {
    CrtcInfo(0, 0, Size(0, 0), 0, ROTATE_0, [], possible, {})
  }

  /** Without that freedom the greedy search can fail although another allotment serves everyone:
      CRTC 1 drives both outputs, CRTC 2 only the first, and the first monitor takes CRTC 1. */
  lemma GreedyCanFailNeedlessly(m: Monitor)
    requires m.enabled
    ensures var crtcs := map[1 := FreeCrtc({8, 9}), 2 := FreeCrtc({8})];
            var outputs := map[8 := 0, 9 := 0];
            var ms := map[8 := m, 9 := m];
            && IsStuck(crtcs, outputs, ms, map[8 := 1])
            && IsAllotment(crtcs, outputs, ms, map[8 := 2, 9 := 1])
            && Newcomers(outputs, ms) == {8, 9}
  {
    var crtcs := map[1 := FreeCrtc({8, 9}), 2 := FreeCrtc({8})];
    var outputs: OutputTable := map[8 := 0, 9 := 0];
    var ms := map[8 := m, 9 := m];
    assert Free(crtcs, outputs, ms) == {1, 2};
    assert Newcomers(outputs, ms) == {8, 9};
    var alloc: map<Output, Crtc> := map[8 := 1];
    assert alloc[8] == 1;
    assert 9 in Newcomers(outputs, ms) - alloc.Keys;
  }

  /** CRTC 1 shows the same 800x600 picture on outputs 8 and 9. */
  function Cloned(): Server {
    Server(map[1 := CrtcInfo(0, 0, Size(800, 600), 5, ROTATE_0, [8, 9], {8, 9}, {ROTATE_0})], map[8 := 1, 9 := 1],
           800, 600, map[5 := Size(800, 600)], map[8 := {5}, 9 := {5}], SizeRange(Size(8, 8), Size(8192, 8192)))
  }

  lemma ClonedIsConsistent()
    ensures Consistent(Cloned()) && ScreenFits(Cloned())
  {
    var s := Cloned();
    assert CrtcConsistent(s, 1);
    assert s.crtcs[1].GetRect() == Rect(0, 0, 800, 600);
  }

  lemma ClonedHasPlan(m: Monitor)
    requires m.enabled
    ensures var s := Cloned(); var ms := map[8 := m, 9 := m];
            && Enabled(s.outputs, ms) == {8, 9}
            && IsPlan(s.crtcs, s.outputs, ms, map[], map[1 := EnableConfig(1, 8, m)])
  {
    var s := Cloned();
    var ms := map[8 := m, 9 := m];
    assert Enabled(s.outputs, ms) == {8, 9} && Newcomers(s.outputs, ms) == {} && Free(s.crtcs, s.outputs, ms) == {};
    assert IsConfiguredFor(s.outputs, ms, map[], map[1 := EnableConfig(1, 8, m)], 1, 8);
  }

  /** On that server, two monitors that are both to stay enabled share a CRTC. There is a plan for them, and
      every plan forgets one of them. */
  lemma ClonedMonitorsLoseOne(m: Monitor)
    requires m.enabled
    ensures var s := Cloned(); var ms := map[8 := m, 9 := m];
            && Consistent(s) && ScreenFits(s) && !NoSharing(s.outputs, ms)
            && IsPlan(s.crtcs, s.outputs, ms, map[], map[1 := EnableConfig(1, 8, m)])
            && forall alloc, cfgs | IsPlan(s.crtcs, s.outputs, ms, alloc, cfgs) ::
                 exists o :: o in Enabled(s.outputs, ms) && !Keeps(ms, cfgs, o)
  {
    hide IsPlan, Consistent, ScreenFits, Enabled, Keeps;
    var s := Cloned();
    var ms := map[8 := m, 9 := m];
    ClonedIsConsistent();
    ClonedHasPlan(m);
    assert 8 in Enabled(s.outputs, ms) && 9 in Known(s.outputs, ms) && s.outputs[8] == s.outputs[9] == 1;
    forall alloc, cfgs | IsPlan(s.crtcs, s.outputs, ms, alloc, cfgs)
      ensures exists o :: o in Enabled(s.outputs, ms) && !Keeps(ms, cfgs, o)
    {
      SharingLosesOne(s.crtcs, s.outputs, ms, alloc, cfgs, 8, 9);
    }
  }
}
