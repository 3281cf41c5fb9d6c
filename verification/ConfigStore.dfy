/** The stored screens as the program holds them: pointers to structs that hold pointers. Everything
    that leaves or enters the store is deeply cloned (clone, get/setSysScreenConfig and
    get/setMonitorConfigs in display/displayconf.go). */
module ConfigStore {
  import opened DisplayConfig
  import opened Transaction

  /** *SysMonitorConfig */
  class ConfigCell {
    var c: MonitorConfig

    constructor (c: MonitorConfig)
      ensures this.c == c
    {
      this.c := c;
    }
  }

  /** *SysMonitorModeConfig */
  class ModeCell {
    var monitors: seq<ConfigCell>

    constructor (monitors: seq<ConfigCell>)
      ensures this.monitors == monitors
    {
      this.monitors := monitors;
    }
  }

  /** *SysScreenConfig */
  class ScreenCell {
    var mirror: ModeCell?
    var extend: ModeCell?
    var single: ModeCell?
    var onlyOneMap: OnlyOneMap
    var onlyOneUuid: string

    constructor ()
      ensures mirror == null && extend == null && single == null && onlyOneMap == map[] && onlyOneUuid == ""
    {
      mirror, extend, single, onlyOneMap, onlyOneUuid := null, null, null, map[], "";
    }
  }

  // ---- What lies behind the pointers, given a set of objects that holds all of it ----

  ghost function Configs(cs: seq<ConfigCell>): (r: seq<MonitorConfig>)
    reads cs
    ensures |r| == |cs| && forall i | 0 <= i < |cs| :: r[i] == cs[i].c
  {
    if cs == [] then [] else [cs[0].c] + Configs(cs[1..])
  }

  ghost predicate ConfigsIn(cs: seq<ConfigCell>, repr: set<object>) { forall c | c in cs :: c in repr }

  /** The set holds nothing but configuration objects. */
  ghost predicate OnlyCells(repr: set<object>) {
    forall o | o in repr :: o is ConfigCell || o is ModeCell || o is ScreenCell
  }

  ghost function CellsOf(cs: seq<ConfigCell>): (r: set<object>)
    ensures OnlyCells(r) && ConfigsIn(cs, r) && forall o | o in r :: o in cs
  {
    set c | c in cs
  }

  ghost predicate ModeIn(m: ModeCell?, repr: set<object>)
    reads repr
  {
    m != null ==> m in repr && ConfigsIn(m.monitors, repr)
  }

  ghost function ModeValue(m: ModeCell?, repr: set<object>): Option<ModeConfig>
    requires ModeIn(m, repr)
    reads repr
  {
    if m == null then None else Some(ModeConfig(Configs(m.monitors)))
  }

  type OnlyOneMap = map<string, ModeCell?>

  ghost predicate OnlyOneIn(m: OnlyOneMap, repr: set<object>)
    reads repr
  {
    forall u | u in m :: ModeIn(m[u], repr)
  }

  ghost function OnlyOneValue(m: OnlyOneMap, repr: set<object>): map<string, Option<ModeConfig>>
    requires OnlyOneIn(m, repr)
    reads repr
  {
    map u | u in m :: ModeValue(m[u], repr)
  }

  ghost predicate ScreenIn(s: ScreenCell?, repr: set<object>)
    reads repr
  {
    s != null ==>
      && s in repr && ModeIn(s.mirror, repr) && ModeIn(s.extend, repr) && ModeIn(s.single, repr)
      && OnlyOneIn(s.onlyOneMap, repr)
  }

  ghost function ScreenValue(s: ScreenCell?, repr: set<object>): Option<ScreenConfig>
    requires ScreenIn(s, repr)
    reads repr
  {
    if s == null then None
    else Some(ScreenConfig(ModeValue(s.mirror, repr), ModeValue(s.extend, repr), ModeValue(s.single, repr),
                           OnlyOneValue(s.onlyOneMap, repr), s.onlyOneUuid))
  }

  type ScreenCells = map<string, ScreenCell?>

  ghost predicate ScreensIn(m: ScreenCells, repr: set<object>)
    reads repr
  {
    forall k | k in m :: ScreenIn(m[k], repr)
  }

  ghost function ScreensValue(m: ScreenCells, repr: set<object>): map<string, Option<ScreenConfig>>
    requires ScreensIn(m, repr)
    reads repr
  {
    map k | k in m :: ScreenValue(m[k], repr)
  }

  // ---- Clones share nothing with the original ----

  method CloneConfigs(cs: seq<ConfigCell>) returns (r: seq<ConfigCell>)
    ensures forall c | c in r :: fresh(c)
    ensures forall i, j | 0 <= i < j < |r| :: r[i] != r[j]
    ensures Configs(r) == Configs(cs)
  {
    r := [];
    for i := 0 to |cs|
      invariant |r| == i
      invariant forall c | c in r :: fresh(c)
      invariant forall j, k | 0 <= j < k < i :: r[j] != r[k]
      invariant forall j | 0 <= j < i :: r[j].c == cs[j].c
    {
      var configCp := new ConfigCell(cs[i].c);
      r := r + [configCp];
    }
  }

  method CloneMode(m: ModeCell?, ghost repr: set<object>) returns (r: ModeCell?, ghost fr: set<object>)
    requires ModeIn(m, repr)
    ensures fresh(fr) && ModeIn(r, fr) && ModeValue(r, fr) == ModeValue(m, repr)
    ensures OnlyCells(fr) && (r != null ==> fresh(r))
  {
    if m == null {
      return null, {};
    }
    var monitors := CloneConfigs(m.monitors);
    r := new ModeCell(monitors);
    ghost var cells: set<object> := set c | c in monitors;
    fr := cells + {r};
  }

  lemma ModeInMore(m: ModeCell?, repr: set<object>, more: set<object>)
    requires ModeIn(m, repr) && repr <= more
    ensures ModeIn(m, more) && ModeValue(m, more) == ModeValue(m, repr)
  {
  }

  lemma OnlyOneInMore(m: OnlyOneMap, repr: set<object>, more: set<object>)
    requires OnlyOneIn(m, repr) && repr <= more
    ensures OnlyOneIn(m, more) && OnlyOneValue(m, more) == OnlyOneValue(m, repr)
  {
    forall u | u in m ensures ModeIn(m[u], more) && ModeValue(m[u], more) == ModeValue(m[u], repr) {
      ModeInMore(m[u], repr, more);
    }
    assert OnlyOneValue(m, more) == OnlyOneValue(m, repr);
  }

  lemma ScreenInMore(s: ScreenCell?, repr: set<object>, more: set<object>)
    requires ScreenIn(s, repr) && repr <= more
    ensures ScreenIn(s, more) && ScreenValue(s, more) == ScreenValue(s, repr)
  {
    if s != null {
      ModeInMore(s.mirror, repr, more);
      ModeInMore(s.extend, repr, more);
      ModeInMore(s.single, repr, more);
      OnlyOneInMore(s.onlyOneMap, repr, more);
    }
  }

  twostate predicate AllFresh(new m: OnlyOneMap) { forall u | u in m && m[u] != null :: fresh(m[u]) }

  /** No two entries point to the same object. */
  ghost predicate NoSharing(m: OnlyOneMap) {
    forall u, v | u in m && v in m && u != v && m[u] != null :: m[u] != m[v]
  }

  method CloneOnlyOneMap(m: OnlyOneMap, ghost repr: set<object>) returns (r: OnlyOneMap, ghost fr: set<object>)
    requires OnlyOneIn(m, repr)
    ensures fresh(fr) && OnlyCells(fr)
    ensures OnlyOneIn(r, fr) && OnlyOneValue(r, fr) == OnlyOneValue(m, repr)
    ensures AllFresh(r) && NoSharing(r)
  {
    r, fr := map[], {};
    var todo := m.Keys;
    while todo != {}
      invariant todo <= m.Keys && r.Keys == m.Keys - todo
      invariant fresh(fr) && OnlyCells(fr)
      invariant OnlyOneIn(r, fr)
      invariant forall u | u in r :: ModeValue(r[u], fr) == ModeValue(m[u], repr)
      invariant AllFresh(r) && NoSharing(r)
    {
      var u :| u in todo;
      todo := todo - {u};
      var config; ghost var configRepr;
      config, configRepr := CloneMode(m[u], repr);
      ModeInMore(config, configRepr, fr + configRepr);
      forall v | v in r
        ensures ModeIn(r[v], fr + configRepr) && ModeValue(r[v], fr + configRepr) == ModeValue(m[v], repr)
      {
        ModeInMore(r[v], fr, fr + configRepr);
      }
      r := r[u := config];
      fr := fr + configRepr;
    }
  }

  method CloneTwoModes(m0: ModeCell?, m1: ModeCell?, ghost repr: set<object>)
    returns (r0: ModeCell?, r1: ModeCell?, ghost fr: set<object>)
    requires ModeIn(m0, repr) && ModeIn(m1, repr)
    ensures fresh(fr) && OnlyCells(fr)
    ensures ModeIn(r0, fr) && ModeValue(r0, fr) == ModeValue(m0, repr)
    ensures ModeIn(r1, fr) && ModeValue(r1, fr) == ModeValue(m1, repr)
    ensures r0 != null ==> fresh(r0) && r0 != r1
    ensures r1 != null ==> fresh(r1)
  {
    hide ModeIn, ModeValue;
    ghost var fr0, fr1;
    r0, fr0 := CloneMode(m0, repr);
    r1, fr1 := CloneMode(m1, repr);
    fr := fr0 + fr1;
    ModeInMore(r0, fr0, fr);
    ModeInMore(r1, fr1, fr);
  }

  method CloneModeAndMap(m: ModeCell?, onlyOneMap: OnlyOneMap, ghost repr: set<object>)
    returns (r: ModeCell?, r1: OnlyOneMap, ghost fr: set<object>)
    requires ModeIn(m, repr) && OnlyOneIn(onlyOneMap, repr)
    ensures fresh(fr) && OnlyCells(fr)
    ensures ModeIn(r, fr) && ModeValue(r, fr) == ModeValue(m, repr)
    ensures OnlyOneIn(r1, fr) && OnlyOneValue(r1, fr) == OnlyOneValue(onlyOneMap, repr)
    ensures r != null ==> fresh(r) && forall u | u in r1 :: r1[u] != r
    ensures AllFresh(r1) && NoSharing(r1)
  {
    hide ModeIn, ModeValue, OnlyOneIn, OnlyOneValue;
    ghost var fr0, fr1;
    r, fr0 := CloneMode(m, repr);
    r1, fr1 := CloneOnlyOneMap(onlyOneMap, repr);
    fr := fr0 + fr1;
    ModeInMore(r, fr0, fr);
    OnlyOneInMore(r1, fr1, fr);
  }

  /** The modes of the screen are different objects. */
  ghost predicate Apart(s: ScreenCell)
    reads s
  {
    && (s.mirror != null ==> s.mirror != s.extend && s.mirror != s.single)
    && (s.extend != null ==> s.extend != s.single)
    && NoSharing(s.onlyOneMap)
    && forall u | u in s.onlyOneMap && s.onlyOneMap[u] != null ::
         s.onlyOneMap[u] != s.mirror && s.onlyOneMap[u] != s.extend && s.onlyOneMap[u] != s.single
  }

  method NewScreen(mirror: ModeCell?, extend: ModeCell?, single: ModeCell?, onlyOneMap: OnlyOneMap, onlyOneUuid: string,
                   ghost repr: set<object>) returns (r: ScreenCell)
    requires ModeIn(mirror, repr) && ModeIn(extend, repr) && ModeIn(single, repr) && OnlyOneIn(onlyOneMap, repr)
    ensures fresh(r) && ScreenIn(r, {r} + repr)
    ensures r.mirror == mirror && r.extend == extend && r.single == single && r.onlyOneMap == onlyOneMap
    ensures ScreenValue(r, {r} + repr) ==
              Some(ScreenConfig(ModeValue(mirror, repr), ModeValue(extend, repr), ModeValue(single, repr),
                                OnlyOneValue(onlyOneMap, repr), onlyOneUuid))
  {
    r := new ScreenCell();
    r.mirror, r.extend, r.single, r.onlyOneMap, r.onlyOneUuid := mirror, extend, single, onlyOneMap, onlyOneUuid;
    ModeInMore(mirror, repr, {r} + repr);
    ModeInMore(extend, repr, {r} + repr);
    ModeInMore(single, repr, {r} + repr);
    OnlyOneInMore(onlyOneMap, repr, {r} + repr);
  }

  method CloneScreen(s: ScreenCell?, ghost repr: set<object>) returns (r: ScreenCell?, ghost fr: set<object>)
    requires ScreenIn(s, repr)
    ensures fresh(fr) && OnlyCells(fr) && ScreenIn(r, fr) && ScreenValue(r, fr) == ScreenValue(s, repr)
    ensures r != null ==> Apart(r) && fresh(r)
    ensures r == null <==> s == null
  {
    hide ModeIn, ModeValue, OnlyOneIn, OnlyOneValue;
    if s == null {
      return null, {};
    }
    var mirror, extend, single, onlyOneMap;
    ghost var fr1, fr2;
    mirror, extend, fr1 := CloneTwoModes(s.mirror, s.extend, repr);
    single, onlyOneMap, fr2 := CloneModeAndMap(s.single, s.onlyOneMap, repr);
    ghost var all := fr1 + fr2;
    ModeInMore(mirror, fr1, all);
    ModeInMore(extend, fr1, all);
    ModeInMore(single, fr2, all);
    OnlyOneInMore(onlyOneMap, fr2, all);
    r := NewScreen(mirror, extend, single, onlyOneMap, s.onlyOneUuid, all);
    fr := {r} + all;
  }

  method EmptyScreen() returns (r: ScreenCell)
    ensures fresh(r) && Apart(r) && ScreenIn(r, {r}) && ScreenValue(r, {r}) == Some(EMPTY_SCREEN)
  {
    r := new ScreenCell();
  }

  // ---- Reading and replacing the configurations of a screen ----

  method MonitorsOf(m: ModeCell?, ghost repr: set<object>) returns (r: seq<ConfigCell>)
    requires ModeIn(m, repr)
    ensures ConfigsIn(r, repr) && Configs(r) == ModeConfigs(ModeValue(m, repr))
    ensures r == if m == null then [] else m.monitors
  {
    r := if m == null then [] else m.monitors;
  }

  method GetSingleMonitorConfigs(s: ScreenCell, ghost repr: set<object>) returns (r: seq<ConfigCell>)
    requires ScreenIn(s, repr)
    ensures ConfigsIn(r, repr) && Configs(r) == ModeConfigs(ScreenValue(s, repr).value.single)
  {
    r := MonitorsOf(s.single, repr);
  }

  method GetMonitorConfigs(s: ScreenCell, mode: int, uuid: string, ghost repr: set<object>) returns (r: seq<ConfigCell>)
    requires ScreenIn(s, repr)
    ensures ConfigsIn(r, repr) && Configs(r) == ConfigsFor(ScreenValue(s, repr).value, mode, uuid)
    ensures mode == 1 ==> r == if s.mirror == null then [] else s.mirror.monitors
    ensures mode == 2 ==> r == if s.extend == null then [] else s.extend.monitors
    ensures mode == 3 && uuid != "" && uuid in s.onlyOneMap && s.onlyOneMap[uuid] != null ==>
              r == s.onlyOneMap[uuid].monitors
  {
    hide ModeIn, ModeValue, ModeConfigs;
    r := [];
    if mode == MODE_MIRROR {
      r := MonitorsOf(s.mirror, repr);
    } else if mode == MODE_EXTEND {
      r := MonitorsOf(s.extend, repr);
    } else if mode == MODE_ONLY_ONE {
      if uuid != "" && uuid in s.onlyOneMap {
        r := MonitorsOf(s.onlyOneMap[uuid], repr);
      }
    }
  }

  /** Gives a mode its configurations, in place; a missing mode is created. */
  method PutMonitors(m: ModeCell?, configs: seq<ConfigCell>) returns (r: ModeCell)
    modifies m
    ensures if m == null then fresh(r) else r == m
    ensures r.monitors == configs
  {
    if m == null {
      r := new ModeCell(configs);
    } else {
      r := m;
      r.monitors := configs;
    }
  }

  lemma PutIsIn(r: ModeCell, configs: seq<ConfigCell>, repr: set<object>)
    requires r.monitors == configs && r in repr && ConfigsIn(configs, repr)
    ensures ModeIn(r, repr) && ModeValue(r, repr) == Some(ModeConfig(Configs(configs)))
  {
  }

  twostate predicate Untouched(m: ModeCell?)
    reads m, if m == null then [] else m.monitors
  {
    m != null ==> m.monitors == old(m.monitors) && forall c | c in m.monitors :: c.c == old(c.c)
  }

  /** A mode, or a map of modes, together with the objects that hold it. */
  datatype Held<M> = Held(m: M, repr: set<object>)

  /** A mode whose own objects did not change has the value it had. */
  twostate lemma ModeKept(h: Held<ModeCell?>)
    requires old(ModeIn(h.m, h.repr)) && Untouched(h.m)
    ensures ModeIn(h.m, h.repr) && ModeValue(h.m, h.repr) == old(ModeValue(h.m, h.repr))
  {
    if h.m != null {
      assert Configs(h.m.monitors) == old(Configs(h.m.monitors));
    }
  }

  twostate lemma OnlyOneKept(h: Held<OnlyOneMap>)
    requires old(OnlyOneIn(h.m, h.repr)) && forall u | u in h.m :: Untouched(h.m[u])
    ensures OnlyOneIn(h.m, h.repr) && OnlyOneValue(h.m, h.repr) == old(OnlyOneValue(h.m, h.repr))
  {
    forall u | u in h.m
      ensures ModeIn(h.m[u], h.repr) && ModeValue(h.m[u], h.repr) == old(ModeValue(h.m[u], h.repr))
    {
      if h.m[u] != null {
        assert Configs(h.m[u].monitors) == old(Configs(h.m[u].monitors));
      }
    }
  }

  lemma ModeIsThere(m: ModeCell?, repr: set<object>)
    requires ModeIn(m, repr)
    ensures m != null ==> m in repr
  {
  }

  lemma ModesAreThere(s: ScreenCell, repr: set<object>)
    requires ScreenIn(s, repr)
    ensures s in repr
    ensures s.mirror != null ==> s.mirror in repr
    ensures s.extend != null ==> s.extend in repr
    ensures s.single != null ==> s.single in repr
    ensures forall u | u in s.onlyOneMap && s.onlyOneMap[u] != null :: s.onlyOneMap[u] in repr
  {
  }

  method SetSingleMonitorConfigs(s: ScreenCell, configs: seq<ConfigCell>, ghost repr: set<object>)
    returns (ghost repr': set<object>)
    requires ScreenIn(s, repr) && Apart(s) && ConfigsIn(configs, repr) && OnlyCells(repr)
    modifies s, s.single
    ensures repr <= repr' && fresh(repr' - repr) && OnlyCells(repr') && ScreenIn(s, repr')
    ensures ScreenValue(s, repr') ==
              Some(old(ScreenValue(s, repr)).value.(single := Some(ModeConfig(old(Configs(configs))))))
  {
    hide ModeIn, ModeValue, OnlyOneIn, OnlyOneValue;
    var mode := PutMonitors(s.single, configs);
    ModeIsThere(s.single, repr);
    s.single := mode;
    repr' := repr + {mode};
    PutIsIn(mode, configs, repr');
    ModeKept(Held(s.mirror, repr));
    ModeKept(Held(s.extend, repr));
    OnlyOneKept(Held(s.onlyOneMap, repr));
    ModeInMore(s.mirror, repr, repr');
    ModeInMore(s.extend, repr, repr');
    OnlyOneInMore(s.onlyOneMap, repr, repr');
  }

  method SetMirrorMonitorConfigs(s: ScreenCell, configs: seq<ConfigCell>, ghost repr: set<object>)
    returns (ghost repr': set<object>)
    requires ScreenIn(s, repr) && Apart(s) && ConfigsIn(configs, repr) && OnlyCells(repr)
    modifies s, s.mirror
    ensures repr <= repr' && fresh(repr' - repr) && OnlyCells(repr') && ScreenIn(s, repr')
    ensures ScreenValue(s, repr') ==
              Some(old(ScreenValue(s, repr)).value.(mirror := Some(ModeConfig(old(Configs(configs))))))
  {
    hide ModeIn, ModeValue, OnlyOneIn, OnlyOneValue;
    var mode := PutMonitors(s.mirror, configs);
    ModeIsThere(s.mirror, repr);
    s.mirror := mode;
    repr' := repr + {mode};
    PutIsIn(mode, configs, repr');
    ModeKept(Held(s.extend, repr));
    ModeKept(Held(s.single, repr));
    OnlyOneKept(Held(s.onlyOneMap, repr));
    ModeInMore(s.extend, repr, repr');
    ModeInMore(s.single, repr, repr');
    OnlyOneInMore(s.onlyOneMap, repr, repr');
  }

  method SetExtendMonitorConfigs(s: ScreenCell, configs: seq<ConfigCell>, ghost repr: set<object>)
    returns (ghost repr': set<object>)
    requires ScreenIn(s, repr) && Apart(s) && ConfigsIn(configs, repr) && OnlyCells(repr)
    modifies s, s.extend
    ensures repr <= repr' && fresh(repr' - repr) && OnlyCells(repr') && ScreenIn(s, repr')
    ensures ScreenValue(s, repr') ==
              Some(old(ScreenValue(s, repr)).value.(extend := Some(ModeConfig(old(Configs(configs))))))
  {
    hide ModeIn, ModeValue, OnlyOneIn, OnlyOneValue;
    var mode := PutMonitors(s.extend, configs);
    ModeIsThere(s.extend, repr);
    s.extend := mode;
    repr' := repr + {mode};
    PutIsIn(mode, configs, repr');
    ModeKept(Held(s.mirror, repr));
    ModeKept(Held(s.single, repr));
    OnlyOneKept(Held(s.onlyOneMap, repr));
    ModeInMore(s.mirror, repr, repr');
    ModeInMore(s.single, repr, repr');
    OnlyOneInMore(s.onlyOneMap, repr, repr');
  }

  /** The first enabled configuration, if there are several and one is enabled. */
  method KeepOne(configs: seq<ConfigCell>) returns (r: seq<ConfigCell>)
    ensures Configs(r) == OnlyOne(Configs(configs)) && forall c | c in r :: c in configs
  {
    r := configs;
    if |configs| > 1 {
      for i := 0 to |configs|
        invariant FirstEnabled(Configs(configs)) == FirstEnabled(Configs(configs)[i..])
      {
        assert Configs(configs)[i..][1..] == Configs(configs)[i + 1..];
        if configs[i].c.enabled {
          return [configs[i]];
        }
      }
    }
  }

  lemma OnlyOneExtended(m: OnlyOneMap, repr: set<object>, uuid: string, mode: ModeCell, repr': set<object>)
    requires OnlyOneIn(m - {uuid}, repr) && repr <= repr' && ModeIn(mode, repr')
    ensures OnlyOneIn(m[uuid := mode], repr')
    ensures OnlyOneValue(m[uuid := mode], repr') == OnlyOneValue(m - {uuid}, repr)[uuid := ModeValue(mode, repr')]
  {
    hide ModeIn, ModeValue;
    forall u | u in m && u != uuid
      ensures ModeIn(m[u], repr) && ModeIn(m[u], repr') && ModeValue(m[u], repr') == ModeValue(m[u], repr)
    {
      assert ModeIn((m - {uuid})[u], repr);
      ModeInMore(m[u], repr, repr');
    }
  }

  method PutInMap(m: OnlyOneMap, uuid: string, configs: seq<ConfigCell>, ghost repr: set<object>)
    returns (r: OnlyOneMap, ghost repr': set<object>)
    requires OnlyOneIn(m, repr) && NoSharing(m) && ConfigsIn(configs, repr) && OnlyCells(repr)
    modifies if uuid in m then {m[uuid]} else {}
    ensures repr <= repr' && fresh(repr' - repr) && OnlyCells(repr') && OnlyOneIn(r, repr')
    ensures OnlyOneValue(r, repr') == old(OnlyOneValue(m, repr))[uuid := Some(ModeConfig(old(Configs(configs))))]
  {
    ghost var others := m - {uuid};
    var previous := if uuid in m then m[uuid] else null;
    ModeIsThere(previous, repr);
    var mode := PutMonitors(previous, configs);
    r := m[uuid := mode];
    repr' := repr + {mode};
    PutIsIn(mode, configs, repr');
    OnlyOneKept(Held(others, repr));
    OnlyOneExtended(m, repr, uuid, mode, repr');
  }

  /** setMonitorConfigsOnlyOne */
  method SetOnlyOneMonitorConfigs(s: ScreenCell, uuid: string, configs: seq<ConfigCell>, ghost repr: set<object>)
    returns (ghost repr': set<object>)
    requires ScreenIn(s, repr) && Apart(s) && ConfigsIn(configs, repr) && OnlyCells(repr)
    modifies s, if uuid in s.onlyOneMap then {s.onlyOneMap[uuid]} else {}
    ensures repr <= repr' && fresh(repr' - repr) && OnlyCells(repr') && ScreenIn(s, repr')
    ensures ScreenValue(s, repr') ==
              Some(WithConfigs(old(ScreenValue(s, repr)).value, MODE_ONLY_ONE, uuid, old(Configs(configs))))
  {
    hide ModeIn, ModeValue, OnlyOneIn, OnlyOneValue, OnlyOne;
    repr' := repr;
    if uuid == "" {
      return;
    }
    var kept := KeepOne(configs);
    var onlyOneMap;
    onlyOneMap, repr' := PutInMap(s.onlyOneMap, uuid, kept, repr);
    label L:
    s.onlyOneMap := onlyOneMap;
    OnlyOneKept@L(Held(onlyOneMap, repr'));
    ModeKept(Held(s.mirror, repr));
    ModeKept(Held(s.extend, repr));
    ModeKept(Held(s.single, repr));
    ModeInMore(s.mirror, repr, repr');
    ModeInMore(s.extend, repr, repr');
    ModeInMore(s.single, repr, repr');
  }

  method SetMonitorConfigs(s: ScreenCell, mode: int, uuid: string, configs: seq<ConfigCell>, ghost repr: set<object>)
    returns (ghost repr': set<object>)
    requires ScreenIn(s, repr) && Apart(s) && ConfigsIn(configs, repr) && OnlyCells(repr)
    modifies s, s.mirror, s.extend, if uuid in s.onlyOneMap then {s.onlyOneMap[uuid]} else {}
    ensures repr <= repr' && fresh(repr' - repr) && OnlyCells(repr') && ScreenIn(s, repr')
    ensures ScreenValue(s, repr') ==
              Some(WithConfigs(old(ScreenValue(s, repr)).value, mode, uuid, old(Configs(configs))))
    ensures var was, now, put := old(ScreenValue(s, repr)).value, ScreenValue(s, repr').value, old(Configs(configs));
            && (mode == 1 ==> now == was.(mirror := Some(ModeConfig(put))))
            && (mode == 2 ==> now == was.(extend := Some(ModeConfig(put))))
            && (mode == 3 && uuid != "" && |put| <= 1 ==>
                  now == was.(onlyOneMap := was.onlyOneMap[uuid := Some(ModeConfig(put))]))
  {
    hide ScreenIn, ModeIn, ModeValue, OnlyOneIn, OnlyOneValue;
    if mode == MODE_MIRROR {
      repr' := SetMirrorMonitorConfigs(s, configs, repr);
    } else if mode == MODE_EXTEND {
      repr' := SetExtendMonitorConfigs(s, configs, repr);
    } else if mode == MODE_ONLY_ONE {
      repr' := SetOnlyOneMonitorConfigs(s, uuid, configs, repr);
    } else {
      repr' := repr;
    }
  }
}
