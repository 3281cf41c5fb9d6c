/** The display manager and its monitors as objects (display/manager.go, display/monitor.go): each
    method is one step of MonitorState or Transaction, carried out in place. */
module DisplayManager {
  import opened Ints
  import opened RandR
  import opened Text
  import opened Sorting
  import opened Modes
  import opened DisplayConfig
  import opened MonitorState
  import opened Transaction
  import opened ConfigStore

  // ---- One monitor ----

  function ConfiguredOrOff(d: Device, s: State, c: Option<MonitorConfig>): State {
    match c
    case None => s.(enabled := false)
    case Some(config) => Configured(d, s, config)
  }

  class Monitor {
    const manager: Manager
    const id: uint32
    const uuid: string
    const uuidV0: string
    const name: string
    const modes: seq<ModeInfo>
    const bestMode: ModeInfo
    var realConnected: bool
    var enabled: bool
    var x: int16
    var y: int16
    var width: uint16
    var height: uint16
    var rotation: bv16
    var reflect: bv16
    var refreshRate: real
    var brightness: real
    var currentMode: ModeInfo
    var oldRotation: bv16
    var rotateMode: int
    var backup: Option<Backup>
    var changes: Changes

    /** A copy without the backup. */
    constructor Clone(m: Monitor)
      ensures manager == m.manager && id == m.id && uuid == m.uuid && uuidV0 == m.uuidV0 && Dev() == m.Dev()
      ensures realConnected == m.realConnected && View() == m.View().(backup := None)
    {
      manager, id, uuid, uuidV0, name := m.manager, m.id, m.uuid, m.uuidV0, m.name;
      modes, bestMode, realConnected, enabled := m.modes, m.bestMode, m.realConnected, m.enabled;
      x, y, width, height, rotation, reflect := m.x, m.y, m.width, m.height, m.rotation, m.reflect;
      refreshRate, brightness, currentMode := m.refreshRate, m.brightness, m.currentMode;
      oldRotation, rotateMode, backup, changes := m.oldRotation, m.rotateMode, None, m.changes;
    }

    function Dev(): Device { Device(uuid, name, modes, bestMode) }

    ghost function View(): State
      reads this, manager`hasChanged
    {
      State(enabled, x, y, width, height, rotation, reflect, refreshRate, brightness, currentMode,
            oldRotation, rotateMode, backup, changes, manager.hasChanged)
    }

    /** What a manager operation reads of the monitor. */
    function Facts(): Connected
      reads this
    {
      Connected(uuid, uuidV0, enabled, changes)
    }

    method MarkAsChanged()
      modifies `backup, manager`hasChanged
      ensures View() == MarkChanged(old(View()))
    {
      manager.hasChanged := true;
      if backup == None {
        backup := Some(Backup(enabled, currentMode, x, y, reflect, rotation, brightness));
      }
    }

    method Enable(enabled: bool)
      modifies this, manager`hasChanged
      ensures View() == Edited(Dev(), old(View()), Edit.Enable(enabled)) && realConnected == old(realConnected)
      ensures this.enabled == enabled
    {
      if this.enabled == enabled {
        return;
      }
      MarkAsChanged();
      this.enabled := enabled;
      changes := changes.(enabled := Some(enabled));
    }

    /** setMode and setModeNoEmitChanged */
    method UseMode(mode: ModeInfo)
      modifies `currentMode, `width, `height, `refreshRate
      ensures View() == WithMode(old(View()), mode)
    {
      currentMode := mode;
      var size := SwapWithRotation(rotation, Size(mode.width, mode.height));
      width, height, refreshRate := size.width, size.height, mode.rate;
    }

    method SetMode(mode: uint32) returns (err: bool)
      modifies this, manager`hasChanged
      ensures View() == Edited(Dev(), old(View()), Edit.SetMode(mode)) && realConnected == old(realConnected)
      ensures err <==> old(currentMode).id != mode && FindMode(modes, mode).IsZero()
      ensures !err ==> currentMode.id == mode
    {
      hide SwapWithRotation;
      if currentMode.id == mode {
        return false;
      }
      var newMode := FindMode(modes, mode);
      if newMode.IsZero() {
        return true;
      }
      MarkAsChanged();
      UseMode(newMode);
      changes := changes.(width := Some(width), height := Some(height), refreshRate := Some(refreshRate));
      err := false;
    }

    method SetModeBySize(width: uint16, height: uint16) returns (err: bool)
      modifies this, manager`hasChanged
      ensures View() == Edited(Dev(), old(View()), Edit.SetModeBySize(width, height))
      ensures realConnected == old(realConnected)
    {
      hide ModeSet, FirstBySize;
      var mode := FirstBySize(modes, width, height);
      if mode.IsZero() {
        return true;
      }
      err := SetMode(mode.id);
    }

    method SetRefreshRate(rate: real) returns (err: bool)
      modifies this, manager`hasChanged
      ensures View() == Edited(Dev(), old(View()), Edit.SetRefreshRate(rate)) && realConnected == old(realConnected)
    {
      hide ModeSet, FirstBySizeRate;
      if width == 0 || height == 0 {
        return true;
      }
      var mode := FirstBySizeRate(modes, width, height, rate);
      if mode.IsZero() {
        return true;
      }
      err := SetMode(mode.id);
    }

    method SetPosition(x: int16, y: int16)
      modifies this, manager`hasChanged
      ensures View() == Edited(Dev(), old(View()), Edit.SetPosition(x, y, manager.inApply))
      ensures realConnected == old(realConnected)
      ensures !manager.inApply ==> this.x == x && this.y == y
    {
      if manager.inApply || (this.x == x && this.y == y) {
        return;
      }
      MarkAsChanged();
      this.x, this.y := x, y;
      changes := changes.(x := Some(x), y := Some(y));
    }

    method SetReflect(reflect: bv16)
      modifies this, manager`hasChanged
      ensures View() == Edited(Dev(), old(View()), Edit.SetReflect(reflect)) && realConnected == old(realConnected)
      ensures this.reflect == reflect
    {
      if this.reflect == reflect {
        return;
      }
      MarkAsChanged();
      this.reflect := reflect;
    }

    /** setRotation */
    method UseRotation(rotation: bv16)
      modifies `rotation, `width, `height
      ensures View() == WithRotation(old(View()), rotation)
    {
      var size := SwapWithRotation(rotation, Size(currentMode.width, currentMode.height));
      this.rotation, width, height := rotation, size.width, size.height;
    }

    method SetRotation(rotation: bv16)
      modifies this, manager`hasChanged
      ensures View() == Edited(Dev(), old(View()), Edit.SetRotation(rotation)) && realConnected == old(realConnected)
      ensures this.rotation == rotation
      ensures rotation != old(this.rotation) && rotation & 15 in {1, 4} ==>
                width == currentMode.width && height == currentMode.height
      ensures rotation != old(this.rotation) && rotation & 15 in {2, 8} ==>
                width == currentMode.height && height == currentMode.width
    {
      hide SwapWithRotation;
      if this.rotation != rotation {
        RotationTurns(Dev(), View(), rotation);
      }
      if this.rotation == rotation {
        return;
      }
      oldRotation := this.rotation;
      MarkAsChanged();
      UseRotation(rotation);
      changes := changes.(width := Some(width), height := Some(height), rotation := Some(rotation));
      rotateMode := ROTATE_MANUALLY;
    }

    method RestorePlacement(b: Backup)
      modifies `enabled, `x, `y, `rotation, `reflect
      ensures View() ==
                old(View()).(enabled := b.enabled, x := b.x, y := b.y, rotation := b.rotation, reflect := b.reflect)
    {
      enabled, x, y, rotation, reflect := b.enabled, b.x, b.y, b.rotation, b.reflect;
    }

    /** The size becomes the mode's own, whatever the rotation. */
    method RestoreMode(mode: ModeInfo)
      modifies `currentMode, `width, `height, `refreshRate
      ensures View() == old(View()).(currentMode := mode, width := mode.width, height := mode.height,
                                     refreshRate := mode.rate)
    {
      currentMode, width, height, refreshRate := mode, mode.width, mode.height, mode.rate;
    }

    method ResetChanges()
      modifies this
      ensures View() == Reset(old(View())) && realConnected == old(realConnected)
    {
      if backup == None {
        return;
      }
      var b := backup.value;
      RestorePlacement(b);
      RestoreMode(b.mode);
      brightness, backup := b.brightness, None;
    }

    method MarkAsClean()
      modifies `backup, `changes
      ensures View() == Clean(old(View()))
      ensures backup == None && changes == Changes(None, None, None, None, None, None, None)
    {
      backup, changes := None, NO_CHANGES;
    }

    method UpdatePlacement(info: MonitorInfo)
      modifies `enabled, `x, `y, `width, `height, `rotation, `reflect
      ensures enabled == info.enabled && x == info.x && y == info.y && width == info.width && height == info.height
      ensures rotation == ParsedRotation(info.rotation) && reflect == ParsedReflect(info.rotation)
    {
      hide ParsedRotation, ParsedReflect;
      x, y, width, height, enabled := info.x, info.y, info.width, info.height, info.enabled;
      rotation, reflect := ParsedRotation(info.rotation), ParsedReflect(info.rotation);
    }

    /** The part of Manager.updateMonitor that sets what the monitor shows. */
    method Update(info: MonitorInfo)
      modifies this
      ensures View() == Updated(old(View()), info) && realConnected == old(realConnected)
      ensures enabled == info.enabled && x == info.x && y == info.y && width == info.width && height == info.height
      ensures currentMode == info.currentMode && refreshRate == info.currentMode.rate
    {
      hide ParsedRotation, ParsedReflect;
      UpdatePlacement(info);
      currentMode, refreshRate := info.currentMode, info.currentMode.rate;
    }

    /** What applySysMonitorConfigs does to one monitor; `c` is its configuration, if there is one. */
    method UseConfig(c: ConfigCell?)
      modifies this
      ensures View() == ConfiguredOrOff(Dev(), old(View()), if c == null then None else Some(c.c))
    {
      hide SwapWithRotation, SelectMode;
      if c == null || !c.c.enabled {
        enabled := false;
        return;
      }
      x, y, rotation, reflect := c.c.x, c.c.y, c.c.rotation, c.c.reflect;
      var size := SwapWithRotation(c.c.rotation, Size(c.c.width, c.c.height));
      UseMode(SelectMode(Dev(), size.width, size.height, c.c.refreshRate));
      enabled := true;
    }
  }

  type MonitorMap = map<uint32, Monitor>

  /** Each monitor is filed under its id. */
  ghost predicate Filed(m: MonitorMap) { forall id | id in m :: m[id].id == id }

  ghost function FactsOf(m: MonitorMap, ids: seq<uint32>): (r: seq<Connected>)
    requires forall id | id in ids :: id in m
    reads m.Values
    ensures |r| == |ids| && forall i | 0 <= i < |ids| :: r[i] == m[ids[i]].Facts()
  {
    if ids == [] then [] else [m[ids[0]].Facts()] + FactsOf(m, ids[1..])
  }

  /** The ids are those of the connected monitors, each once, in any order. */
  ghost predicate IsListing(m: MonitorMap, ids: seq<uint32>)
    reads m.Values
  {
    && (forall i | 0 <= i < |ids| :: ids[i] in m && m[ids[i]].realConnected)
    && (forall id | id in m && m[id].realConnected :: id in ids)
    && (forall i, j | 0 <= i < j < |ids| :: ids[i] != ids[j])
  }

  ghost predicate AreThose(m: MonitorMap, ids: seq<uint32>, ms: seq<Monitor>) {
    |ms| == |ids| && forall i | 0 <= i < |ids| :: ids[i] in m && m[ids[i]] == ms[i]
  }

  /** getConnectedMonitors: a map has no order of its own. */
  method GetConnectedMonitors(m: MonitorMap) returns (ms: seq<Monitor>, ghost ids: seq<uint32>)
    ensures forall x | x in ms :: x in m.Values && x.realConnected
    ensures forall id | id in m && m[id].realConnected :: m[id] in ms
    ensures AreThose(m, ids, ms) && IsListing(m, ids)
  {
    ms, ids := [], [];
    var todo := m.Keys;
    while todo != {}
      invariant todo <= m.Keys
      invariant AreThose(m, ids, ms)
      invariant forall i | 0 <= i < |ids| :: ids[i] in m && ids[i] !in todo && m[ids[i]].realConnected
      invariant forall id | id in m && id !in todo && m[id].realConnected :: id in ids
      invariant forall i, j | 0 <= i < j < |ids| :: ids[i] != ids[j]
    {
      var id :| id in todo;
      todo := todo - {id};
      if m[id].realConnected {
        ms := ms + [m[id]];
        ids := ids + [id];
      }
    }
  }

  ghost function Views(ms: seq<Monitor>): (r: seq<Connected>)
    reads ms
    ensures |r| == |ms| && forall i | 0 <= i < |ms| :: r[i] == ms[i].Facts()
  {
    if ms == [] then [] else [ms[0].Facts()] + Views(ms[1..])
  }

  /** Monitors.getMonitorsId */
  method GetMonitorsId(ms: seq<Monitor>) returns (id: MonitorsId)
    ensures id == IdOf(Views(ms))
  {
    if |ms| == 0 {
      return NO_MONITORS;
    }
    var idsV0: seq<string>, idsV1: seq<string> := [], [];
    for i := 0 to |ms|
      invariant |idsV0| == |idsV1| == i
      invariant forall j | 0 <= j < i :: idsV0[j] == ms[j].uuidV0 && idsV1[j] == ms[j].uuid
    {
      idsV0 := idsV0 + [ms[i].uuidV0];
      idsV1 := idsV1 + [ms[i].uuid];
    }
    assert idsV0 == Each((m: Connected) => m.uuidV0, Views(ms));
    assert idsV1 == Each((m: Connected) => m.uuid, Views(ms));
    id := MonitorsId(Join(Sort(idsV0), ","), Join(Sort(idsV1), ","));
  }

  predicate IsFirstEnabled(ms: seq<Monitor>, k: nat)
    requires k < |ms|
    reads ms
  {
    ms[k].enabled && forall l | 0 <= l < k :: !ms[l].enabled
  }

  /** The uuid of the first enabled monitor, in the only-one mode. */
  method GetOnlyOneMonitorUuid(mode: int, ms: seq<Monitor>) returns (uuid: string)
    ensures uuid == OnlyOneUuid(mode, Views(ms))
    ensures mode != 3 || (forall m | m in ms :: !m.enabled) ==> uuid == ""
    ensures uuid != "" ==> exists k | 0 <= k < |ms| :: IsFirstEnabled(ms, k) && uuid == ms[k].uuid
  {
    if mode == MODE_ONLY_ONE {
      for i := 0 to |ms|
        invariant OnlyOneUuid(mode, Views(ms)) == OnlyOneUuid(mode, Views(ms)[i..])
        invariant forall l | 0 <= l < i :: !ms[l].enabled
      {
        assert Views(ms)[i..][1..] == Views(ms)[i + 1..];
        if ms[i].enabled {
          assert IsFirstEnabled(ms, i);
          return ms[i].uuid;
        }
      }
    }
    uuid := "";
  }

  /** Monitors.GetByUuid: old and new ids are both accepted. */
  method GetMonitorByUuid(ms: seq<Monitor>, uuid: string) returns (m: Monitor?)
    ensures m == null ==> Transaction.GetByUuid(Views(ms), uuid) == None
    ensures m != null ==> m in ms && Transaction.GetByUuid(Views(ms), uuid) == Some(m.Facts())
  {
    for i := 0 to |ms|
      invariant Transaction.GetByUuid(Views(ms), uuid) == Transaction.GetByUuid(Views(ms)[i..], uuid)
    {
      assert Views(ms)[i..][1..] == Views(ms)[i + 1..];
      if uuid == ms[i].uuid || uuid == ms[i].uuidV0 {
        return ms[i];
      }
    }
    m := null;
  }

  method ModifyConfig(config: ConfigCell, ms: seq<Monitor>)
    modifies config
    ensures config.c == ModifiedOne(Views(ms), old(config.c))
  {
    var monitor := GetMonitorByUuid(ms, config.c.uuid);
    if monitor != null {
      config.c := Modified(config.c, monitor.changes);
    }
  }

  lemma ModifiedTwice(ms: seq<Connected>, c: MonitorConfig)
    ensures ModifiedOne(ms, ModifiedOne(ms, c)) == ModifiedOne(ms, c)
  {
  }

  /** The loop of applyChanges: each configuration gets the changes of its monitor, in place. */
  method ModifyConfigs(configs: seq<ConfigCell>, ms: seq<Monitor>)
    modifies CellsOf(configs)
    ensures Configs(configs) == ModifiedAll(Views(ms), old(Configs(configs)))
    ensures AreChanged(Views(ms), old(Configs(configs)), Configs(configs))
  {
    hide ModifiedOne, ModifiedAll, CellsOf, AreChanged, Views, Monitor.Facts;
    ghost var facts := Views(ms);
    for i := 0 to |configs|
      invariant Views(ms) == facts
      invariant forall c | c in configs ::
                  c.c == if c in configs[..i] then ModifiedOne(facts, old(c.c)) else old(c.c)
    {
      ModifiedTwice(facts, old(configs[i].c));
      ModifyConfig(configs[i], ms);
    }
    ModifiedAreChanged(facts, old(Configs(configs)));
  }

  /** Copies are listed under the same ids and show the same facts. */
  lemma SameListing(m: MonitorMap, m': MonitorMap, ids: seq<uint32>, ms: seq<Monitor>)
    requires m.Keys == m'.Keys
    requires forall id | id in m :: m'[id].Facts() == m[id].Facts() && m'[id].realConnected == m[id].realConnected
    requires IsListing(m, ids) && AreThose(m, ids, ms)
    ensures IsListing(m', ids) && Views(ms) == FactsOf(m', ids)
  {
  }

  // ---- Configuring the monitors ----

  function Lookup(cfgs: seq<MonitorConfig>, uuid: string): Option<MonitorConfig> {
    if cfgs == [] then None else if cfgs[0].uuid == uuid then Some(cfgs[0]) else Lookup(cfgs[1..], uuid)
  }

  /** Configuration k is the first of the list with this id. */
  predicate IsFirstConfig(cfgs: seq<MonitorConfig>, uuid: string, k: nat) {
    k < |cfgs| && cfgs[k].uuid == uuid && forall l | 0 <= l < k :: cfgs[l].uuid != uuid
  }

  predicate HasNoConfig(cfgs: seq<MonitorConfig>, uuid: string) { forall c | c in cfgs :: c.uuid != uuid }

  /** The state asked for by the first configuration with the id; without one, or when it is disabled, the monitor is
      switched off and otherwise left as it was. */
  ghost predicate ShowsItsConfig(t: State, s: State, cfgs: seq<MonitorConfig>, uuid: string) {
    && (forall k: nat | IsFirstConfig(cfgs, uuid, k) ::
          if cfgs[k].enabled then ShowsConfig(t, cfgs[k]) else t == s.(enabled := false))
    && (HasNoConfig(cfgs, uuid) ==> t == s.(enabled := false))
  }

  lemma {:induction false} LookupFinds(cfgs: seq<MonitorConfig>, uuid: string, k: nat)
    requires IsFirstConfig(cfgs, uuid, k)
    ensures Lookup(cfgs, uuid) == Some(cfgs[k])
  {
    if k > 0 {
      assert cfgs[0].uuid != uuid;
      assert forall l | 0 <= l < k - 1 :: cfgs[1..][l] == cfgs[l + 1];
      LookupFinds(cfgs[1..], uuid, k - 1);
    }
  }

  lemma {:induction false} LookupFindsNone(cfgs: seq<MonitorConfig>, uuid: string)
    requires HasNoConfig(cfgs, uuid)
    ensures Lookup(cfgs, uuid) == None
  {
    if cfgs != [] {
      assert cfgs[0].uuid != uuid;
      LookupFindsNone(cfgs[1..], uuid);
    }
  }

  lemma ConfiguredShowsItsConfig(d: Device, s: State, cfgs: seq<MonitorConfig>, uuid: string)
    ensures ShowsItsConfig(ConfiguredOrOff(d, s, Lookup(cfgs, uuid)), s, cfgs, uuid)
  {
    hide ShowsConfig, SwapWithRotation, SelectMode, HasNoConfig;
    forall k: nat | IsFirstConfig(cfgs, uuid, k)
      ensures var t := ConfiguredOrOff(d, s, Lookup(cfgs, uuid));
              if cfgs[k].enabled then ShowsConfig(t, cfgs[k]) else t == s.(enabled := false)
    {
      LookupFinds(cfgs, uuid, k);
      if cfgs[k].enabled {
        ConfiguredShows(d, s, cfgs[k]);
      }
    }
    if HasNoConfig(cfgs, uuid) {
      LookupFindsNone(cfgs, uuid);
    }
  }

  /** SysMonitorConfigs.getByUuid */
  method GetConfigByUuid(configs: seq<ConfigCell>, uuid: string) returns (c: ConfigCell?)
    ensures Lookup(Configs(configs), uuid) == if c == null then None else Some(c.c)
    ensures c == null ==> HasNoConfig(Configs(configs), uuid)
    ensures c != null ==> exists k: nat :: IsFirstConfig(Configs(configs), uuid, k) && c == configs[k]
  {
    for i := 0 to |configs|
      invariant forall j | 0 <= j < i :: configs[j].c.uuid != uuid
      invariant Lookup(Configs(configs), uuid) == Lookup(Configs(configs)[i..], uuid)
    {
      assert Configs(configs)[i..][1..] == Configs(configs)[i + 1..];
      if uuid == configs[i].c.uuid {
        assert IsFirstConfig(Configs(configs), uuid, i);
        return configs[i];
      }
    }
    c := null;
  }

  method CountEnabled(configs: seq<ConfigCell>) returns (n: nat)
    ensures n == 0 <==> !SomeEnabled(Configs(configs))
  {
    n := 0;
    for i := 0 to |configs|
      invariant n == 0 <==> forall j | 0 <= j < i :: !configs[j].c.enabled
    {
      if configs[i].c.enabled {
        n := n + 1;
        assert Configs(configs)[i] in Configs(configs);
      }
    }
  }

  ghost function StatesOf(m: MonitorMap): (r: map<uint32, State>)
    reads m.Values, (set id | id in m :: m[id].manager)`hasChanged
  {
    map id | id in m :: m[id].View()
  }

  /** The monitors in `done` have their configurations, starting from these states. */
  ghost predicate AllConfigured(m: MonitorMap, before: map<uint32, State>, cfgs: seq<MonitorConfig>, done: set<uint32>)
    requires before.Keys == m.Keys
    reads m.Values, (set id | id in m :: m[id].manager)`hasChanged
  {
    forall id | id in m ::
      m[id].View() == if id in done then ConfiguredOrOff(m[id].Dev(), before[id], Lookup(cfgs, m[id].uuid))
                      else before[id]
  }

  /** Every monitor shows what its configuration asks for. */
  ghost predicate AllShowTheirs(m: MonitorMap, before: map<uint32, State>, cfgs: seq<MonitorConfig>)
    requires before.Keys == m.Keys
    reads m.Values, (set id | id in m :: m[id].manager)`hasChanged
  {
    forall id | id in m :: ShowsItsConfig(m[id].View(), before[id], cfgs, m[id].uuid)
  }

  lemma AllConfiguredShow(m: MonitorMap, before: map<uint32, State>, cfgs: seq<MonitorConfig>)
    requires before.Keys == m.Keys && AllConfigured(m, before, cfgs, m.Keys)
    ensures AllShowTheirs(m, before, cfgs)
  {
    hide Lookup, ConfiguredOrOff, ShowsItsConfig, Monitor.View;
    forall id | id in m ensures ShowsItsConfig(m[id].View(), before[id], cfgs, m[id].uuid) {
      ConfiguredShowsItsConfig(m[id].Dev(), before[id], cfgs, m[id].uuid);
    }
  }

  method ConfigureOne(m: MonitorMap, configs: seq<ConfigCell>, id: uint32,
                      ghost before: map<uint32, State>, ghost done: set<uint32>)
    requires Filed(m) && before.Keys == m.Keys && id in m && id !in done
    requires AllConfigured(m, before, Configs(configs), done)
    modifies m[id]
    ensures AllConfigured(m, before, Configs(configs), done + {id})
  {
    hide ConfiguredOrOff, Lookup, IsFirstConfig, HasNoConfig;
    var monitorCfg := GetConfigByUuid(configs, m[id].uuid);
    m[id].UseConfig(monitorCfg);
  }

  /** The loop of applySysMonitorConfigs, on a copy of the monitors. */
  method ConfigureMonitors(m: MonitorMap, configs: seq<ConfigCell>)
    requires Filed(m)
    modifies m.Values
    ensures AllConfigured(m, old(StatesOf(m)), Configs(configs), m.Keys)
    ensures AllShowTheirs(m, old(StatesOf(m)), Configs(configs))
  {
    hide ConfiguredOrOff, Lookup, Monitor.View, AllShowTheirs;
    ghost var before := StatesOf(m);
    var todo := m.Keys;
    while todo != {}
      invariant todo <= m.Keys
      invariant AllConfigured(m, before, Configs(configs), m.Keys - todo)
    {
      var id :| id in todo;
      assert m.Keys - (todo - {id}) == (m.Keys - todo) + {id};
      ConfigureOne(m, configs, id, before, m.Keys - todo);
      todo := todo - {id};
    }
    assert m.Keys - todo == m.Keys;
    AllConfiguredShow(m, before, Configs(configs));
  }

  /** The monitors in `done` show what was reported of them, starting from these states. */
  ghost predicate AllUpdated(m: MonitorMap, before: map<uint32, State>, infos: map<uint32, MonitorInfo>,
                             done: set<uint32>)
    requires before.Keys == m.Keys
    reads m.Values, (set id | id in m :: m[id].manager)`hasChanged
  {
    forall id | id in m ::
      m[id].View() == if id in done && id in infos then Updated(before[id], infos[id]) else before[id]
  }

  /** The end of mm.apply: every monitor is updated from the report X gives of it, if there is one. */
  method UpdateMonitors(m: MonitorMap, infos: map<uint32, MonitorInfo>)
    requires Filed(m)
    modifies m.Values
    ensures AllUpdated(m, old(StatesOf(m)), infos, m.Keys)
  {
    hide Updated, Monitor.View;
    ghost var before := StatesOf(m);
    var todo := m.Keys;
    while todo != {}
      invariant todo <= m.Keys
      invariant AllUpdated(m, before, infos, m.Keys - todo)
    {
      var id :| id in todo;
      todo := todo - {id};
      if id in infos {
        m[id].Update(infos[id]);
      }
    }
    assert m.Keys - todo == m.Keys;
  }

  lemma NothingDone(m: MonitorMap, configs: seq<ConfigCell>)
    ensures AllConfigured(m, StatesOf(m), Configs(configs), {})
    ensures AllUpdated(m, StatesOf(m), map[], m.Keys)
  {
  }

  /** Both: the copies `m` are configured, and `live` is updated afterwards. */
  method ConfigureThenUpdate(m: MonitorMap, live: MonitorMap, configs: seq<ConfigCell>, infos: map<uint32, MonitorInfo>)
    requires Filed(m) && Filed(live) && m.Values !! live.Values
    modifies m.Values, live.Values
    ensures AllConfigured(m, old(StatesOf(m)), Configs(configs), m.Keys)
    ensures AllShowTheirs(m, old(StatesOf(m)), Configs(configs))
    ensures AllUpdated(live, old(StatesOf(live)), infos, live.Keys)
  {
    hide ConfiguredOrOff, Lookup, Monitor.View, Updated, Configs, ShowsItsConfig;
    ConfigureMonitors(m, configs);
    assert StatesOf(live) == old(StatesOf(live));
    label configured:
    UpdateMonitors(live, infos);
    assert forall id | id in m :: m[id].View() == old@configured(m[id].View());
  }

  /** The configurations take the place, in the screen, that suits the monitors. */
  method SetSuitable(s: ScreenCell, mode: int, ms: seq<Monitor>, configs: seq<ConfigCell>, ghost repr: set<object>)
    returns (ghost repr': set<object>)
    requires ScreenIn(s, repr) && Apart(s) && ConfigsIn(configs, repr) && OnlyCells(repr)
    modifies repr
    ensures fresh(repr' - repr) && OnlyCells(repr') && ScreenIn(s, repr')
    ensures var old0 := old(ScreenValue(s, repr)).value; var cfgs := old(Configs(configs));
            ScreenValue(s, repr') ==
              Some(if |ms| == 1 then old0.(single := Some(ModeConfig(cfgs)))
                   else WithConfigs(old0, mode, OnlyOneUuid(mode, Views(ms)), cfgs))
  {
    hide ScreenIn, WithConfigs, ModeIn, ModeValue, OnlyOneIn, OnlyOneValue, OnlyOneUuid, ScreenValue, OnlyCells,
      ConfigsIn, Views, Monitor.Facts, IsFirstEnabled;
    ModesAreThere(s, repr);
    if |ms| == 1 {
      repr' := SetSingleMonitorConfigs(s, configs, repr);
    } else {
      var uuid := GetOnlyOneMonitorUuid(mode, ms);
      repr' := SetMonitorConfigs(s, mode, uuid, configs, repr);
    }
  }

  // ---- Cleaning and resetting the monitors ----

  /** The monitors in `done` have gone through `f`, starting from these states. */
  ghost predicate EachBecame(m: MonitorMap, before: map<uint32, State>, f: State -> State, done: set<uint32>)
    requires before.Keys == m.Keys
    reads m.Values, (set id | id in m :: m[id].manager)`hasChanged
  {
    forall id | id in m :: m[id].View() == if id in done then f(before[id]) else before[id]
  }

  method CleanMonitors(m: MonitorMap)
    requires Filed(m)
    modifies m.Values
    ensures EachBecame(m, old(StatesOf(m)), Clean, m.Keys)
  {
    hide Clean, Monitor.View;
    ghost var before := StatesOf(m);
    var todo := m.Keys;
    while todo != {}
      invariant todo <= m.Keys
      invariant EachBecame(m, before, Clean, m.Keys - todo)
    {
      var id :| id in todo;
      todo := todo - {id};
      m[id].MarkAsClean();
    }
    assert m.Keys - todo == m.Keys;
  }

  method ResetMonitors(m: MonitorMap)
    requires Filed(m)
    modifies m.Values
    ensures EachBecame(m, old(StatesOf(m)), Reset, m.Keys)
  {
    hide Reset, Monitor.View;
    ghost var before := StatesOf(m);
    var todo := m.Keys;
    while todo != {}
      invariant todo <= m.Keys
      invariant EachBecame(m, before, Reset, m.Keys - todo)
    {
      var id :| id in todo;
      todo := todo - {id};
      m[id].ResetChanges();
    }
    assert m.Keys - todo == m.Keys;
  }

  // ---- The manager ----

  lemma ScreensExtended(m: ScreenCells, repr: set<object>, key: string, s: ScreenCell?, fr: set<object>)
    requires ScreensIn(m, repr) && ScreenIn(s, fr)
    ensures ScreensIn(m[key := s], repr + fr)
    ensures ScreensValue(m[key := s], repr + fr) == ScreensValue(m, repr)[key := ScreenValue(s, fr)]
  {
    hide ScreenIn, ScreenValue;
    ScreenInMore(s, fr, repr + fr);
    forall k | k in m ensures ScreenIn(m[k], repr + fr) && ScreenValue(m[k], repr + fr) == ScreenValue(m[k], repr) {
      ScreenInMore(m[k], repr, repr + fr);
    }
  }

  /** The same monitor, without the backup. */
  ghost predicate IsCopy(m: Monitor, original: Monitor)
    reads m, original, m.manager, original.manager
  {
    && m.manager == original.manager && m.Dev() == original.Dev() && m.realConnected == original.realConnected
    && m.View() == original.View().(backup := None) && m.Facts() == original.Facts()
  }

  method CloneMonitor(m: Monitor) returns (r: Monitor)
    ensures fresh(r) && r.id == m.id && IsCopy(r, m)
  {
    r := new Monitor.Clone(m);
  }

  class Manager {
    var screens: ScreenCells
    var futureId: MonitorsId
    var future: seq<ConfigCell>
    var hasChanged: bool
    var inApply: bool
    var displayMode: int
    var monitors: MonitorMap
    ghost var repr: set<object>        // the objects of the stored screens
    ghost var futureRepr: set<object>  // those of the configuration kept for the next save

    /** The stored screens and the kept configuration share nothing with each other. */
    ghost predicate Valid()
      reads this, repr
    {
      && OnlyCells(repr) && OnlyCells(futureRepr) && repr !! futureRepr && this !in repr && this !in futureRepr
      && ScreensIn(screens, repr) && ConfigsIn(future, futureRepr)
    }

    ghost function View(): T
      requires Valid()
      reads this, repr, futureRepr
    {
      T(ScreensValue(screens, repr), futureId, Configs(future), hasChanged, inApply, displayMode)
    }

    constructor ()
      ensures Valid() && View() == T(map[], NO_MONITORS, [], false, false, 0) && monitors == map[]
    {
      screens, futureId, future, hasChanged, inApply, displayMode := map[], NO_MONITORS, [], false, false, 0;
      monitors, repr, futureRepr := map[], {}, {};
    }

    /** A deep clone of what is stored for these monitors. */
    method GetSysScreenConfig(id: MonitorsId) returns (r: ScreenCell, ghost fr: set<object>)
      requires Valid()
      ensures fresh(fr) && fresh(r) && OnlyCells(fr) && ScreenIn(r, fr) && Apart(r)
      ensures ScreenValue(r, fr) == Some(Stored(View().screens, id.v1))
    {
      hide ModeIn, ModeValue, OnlyOneIn, OnlyOneValue;
      if id.v1 in screens && screens[id.v1] != null {
        r, fr := CloneScreen(screens[id.v1], repr);
        return;
      }
      r := EmptyScreen();
      fr := {r};
    }

    /** Stores a deep clone. */
    method SetSysScreenConfig(id: MonitorsId, screen: ScreenCell?, ghost fr: set<object>)
      requires Valid() && ScreenIn(screen, fr) && OnlyCells(fr)
      modifies `screens, `repr
      ensures Valid() && old(repr) <= repr && fresh(repr - old(repr))
      ensures View() == old(View()).(screens := old(View().screens)[id.v1 := ScreenValue(screen, fr)])
    {
      hide ScreenIn, ScreenValue;
      var clone; ghost var cloneRepr;
      clone, cloneRepr := CloneScreen(screen, fr);
      ScreensExtended(screens, repr, id.v1, clone, cloneRepr);
      screens := screens[id.v1 := clone];
      repr := repr + cloneRepr;
    }

    /** monitorsFutureConfig.setConfigs */
    method SetFuture(id: MonitorsId, configs: seq<ConfigCell>)
      requires Valid()
      modifies `futureId, `future, `futureRepr
      ensures Valid() && View() == old(View()).(futureId := id, future := Configs(configs))
    {
      hide ScreensIn, ScreensValue, OnlyCells, ConfigsIn, CellsOf;
      var clone := CloneConfigs(configs);
      assert repr !! CellsOf(clone);
      futureId, future, futureRepr := id, clone, CellsOf(clone);
    }

    /** monitorsFutureConfig.getConfigs */
    method GetFuture(id: MonitorsId) returns (r: seq<ConfigCell>)
      ensures forall c | c in r :: fresh(c)
      ensures Configs(r) == if futureId == id then Configs(future) else []
    {
      if futureId != id {
        return [];
      }
      r := CloneConfigs(future);
    }

    /** monitorsFutureConfig.clear */
    method ClearFuture()
      requires Valid()
      modifies `futureId, `future
      ensures Valid() && View() == Cleared(old(View()))
      ensures future == [] && futureId == MonitorsId("", "")
    {
      futureId, future := NO_MONITORS, [];
    }

    /** A clone of the stored configuration that suits the monitors. */
    method GetSuitableSysMonitorConfigs(mode: int, id: MonitorsId, ms: seq<Monitor>)
      returns (configs: seq<ConfigCell>, ghost fr: set<object>)
      requires Valid() && id == IdOf(Views(ms))
      ensures fresh(fr) && OnlyCells(fr) && ConfigsIn(configs, fr) && fresh(CellsOf(configs))
      ensures Configs(configs) == Suitable(View().screens, mode, Views(ms))
    {
      hide ScreenIn, ScreenValue, IdOf, Stored, Configs, OnlyOneUuid;
      var screenCfg;
      screenCfg, fr := GetSysScreenConfig(id);
      if |ms| == 0 {
        configs := [];
      } else if |ms| == 1 {
        configs := GetSingleMonitorConfigs(screenCfg, fr);
      } else {
        var uuid := GetOnlyOneMonitorUuid(mode, ms);
        configs := GetMonitorConfigs(screenCfg, mode, uuid, fr);
      }
    }

    /** Fresh copies of the monitors, without their backups. */
    method CloneMonitorMap() returns (r: MonitorMap)
      requires Filed(monitors)
      ensures r.Keys == monitors.Keys && Filed(r) && fresh(r.Values)
      ensures forall id | id in r :: IsCopy(r[id], monitors[id])
    {
      hide IsCopy;
      r := map[];
      var todo := monitors.Keys;
      while todo != {}
        invariant todo <= monitors.Keys && r.Keys == monitors.Keys - todo
        invariant Filed(r) && forall id | id in r :: fresh(r[id])
        invariant forall id | id in r :: IsCopy(r[id], monitors[id])
      {
        var id :| id in todo;
        todo := todo - {id};
        var clone := CloneMonitor(monitors[id]);
        r := r[id := clone];
      }
    }

    /** The connected monitors, listed in some order, as an operation sees them. */
    method ListConnected() returns (m: MonitorMap, ms: seq<Monitor>, id: MonitorsId, ghost ids: seq<uint32>)
      requires Filed(monitors)
      ensures Filed(m) && fresh(m.Values)
      ensures (forall id | id in ids :: id in monitors)
      ensures IsListing(monitors, ids) && Views(ms) == old(FactsOf(monitors, ids)) && id == IdOf(Views(ms))
    {
      hide IdOf;
      m := CloneMonitorMap();
      ms, ids := GetConnectedMonitors(m);
      SameListing(m, monitors, ids, ms);
      id := GetMonitorsId(ms);
    }

    /** The suitable configuration with the changes of copies of the monitors made to it. */
    method ConfigsToApply()
      returns (m: MonitorMap, ms: seq<Monitor>, id: MonitorsId, configs: seq<ConfigCell>, ghost ids: seq<uint32>)
      requires Valid() && Filed(monitors)
      ensures Filed(m) && fresh(m.Values) && fresh(CellsOf(configs)) && (forall id | id in ids :: id in monitors)
      ensures IsListing(monitors, ids) && Views(ms) == old(FactsOf(monitors, ids)) && id == IdOf(Views(ms))
      ensures Configs(configs) == ToApply(old(View()), Views(ms))
    {
      hide Suitable, ModifiedAll, IdOf, ScreensIn, ScreensValue, IsListing, FactsOf, CellsOf, Views, Monitor.Facts,
        AreChanged;
      ghost var fr;
      m, ms, id, ids := ListConnected();
      configs, fr := GetSuitableSysMonitorConfigs(displayMode, id, ms);
      ModifyConfigs(configs, ms);
    }

    /** Manager.apply, once the copies `m` of the monitors are configured: `infos` is what X reports after the requests
        that went well. */
    method Apply(m: MonitorMap, configs: seq<ConfigCell>, infos: map<uint32, MonitorInfo>)
      requires Valid() && Filed(m) && Filed(monitors) && m.Values !! monitors.Values
      modifies `inApply, m.Values, monitors.Values
      ensures Valid() && View() == old(View()).(inApply := false)
      ensures AllConfigured(m, old(StatesOf(m)), Configs(configs), m.Keys)
      ensures AllShowTheirs(m, old(StatesOf(m)), Configs(configs))
      ensures AllUpdated(monitors, old(StatesOf(monitors)), infos, monitors.Keys)
    {
      hide AllConfigured, AllShowTheirs, AllUpdated, StatesOf, Configs, Filed, ScreensIn, ScreensValue, ConfigsIn;
      inApply := true;
      ConfigureThenUpdate(m, monitors, configs, infos);
      inApply := false;
    }

    method SetPropDisplayMode(mode: int)
      requires Valid()
      modifies `displayMode
      ensures Valid() && View() == old(View()).(displayMode := mode)
    {
      hide ScreensIn, ScreensValue, ConfigsIn;
      displayMode := mode;
    }

    /** applySysMonitorConfigs, on copies `m` of the monitors: `applyOk` is what becomes of the requests to X, and
        `infos` what X reports after them. */
    method ApplySysMonitorConfigs(mode: int, m: MonitorMap, configs: seq<ConfigCell>, applyOk: bool,
                                  infos: map<uint32, MonitorInfo>)
      returns (err: bool)
      requires Valid() && Filed(m) && Filed(monitors) && m.Values !! monitors.Values
      modifies `displayMode, `inApply, m.Values, monitors.Values
      ensures err <==> !(SomeEnabled(Configs(configs)) && applyOk)
      ensures Valid()
      ensures View() == old(View()).(displayMode := if err || mode == MODE_INVALID then old(displayMode) else mode,
                                     inApply := old(inApply) && !SomeEnabled(Configs(configs)))
      ensures AllConfigured(m, old(StatesOf(m)), Configs(configs), if SomeEnabled(Configs(configs)) then m.Keys else {})
      ensures SomeEnabled(Configs(configs)) ==> AllShowTheirs(m, old(StatesOf(m)), Configs(configs))
      ensures AllUpdated(monitors, old(StatesOf(monitors)), if err then map[] else infos, monitors.Keys)
    {
      hide AllConfigured, AllUpdated, StatesOf, SomeEnabled, Configs, Filed, Manager.Valid, ScreensValue,
        AllShowTheirs;
      var enabledCount := CountEnabled(configs);
      if enabledCount == 0 {
        NothingDone(m, configs);
        NothingDone(monitors, configs);
        return true;
      }
      Apply(m, configs, if applyOk then infos else map[]);
      err := !applyOk;
      if err {
        return;
      }
      if mode != MODE_INVALID {
        SetPropDisplayMode(mode);
      }
    }

    method TryChanges(applyOk: bool, infos: map<uint32, MonitorInfo>)
      returns (err: bool, id: MonitorsId, configs: seq<ConfigCell>, ghost ids: seq<uint32>)
      requires Valid() && Filed(monitors) && !inApply
      modifies `displayMode, `inApply, monitors.Values
      ensures Valid() && View() == old(View())
      ensures (forall id | id in ids :: id in monitors) && old(IsListing(monitors, ids)) && fresh(CellsOf(configs))
      ensures var facts := old(FactsOf(monitors, ids));
              && id == IdOf(facts) && Configs(configs) == ToApply(old(View()), facts)
              && AreChanged(facts, Suitable(old(View().screens), old(displayMode), facts), Configs(configs))
      ensures err <==> !(applyOk && SomeEnabled(Configs(configs)))
      ensures AllUpdated(monitors, old(StatesOf(monitors)), if err then map[] else infos, monitors.Keys)
    {
      hide ToApply, IdOf, ScreensIn, ScreensValue, SomeEnabled, IsListing, FactsOf, CellsOf, Updated, ConfiguredOrOff,
        Lookup, Monitor.View, Filed, AllConfigured, AllUpdated, StatesOf, Manager.Valid, AreChanged, Suitable,
        AllShowTheirs;
      var m, ms;
      m, ms, id, configs, ids := ConfigsToApply();
      AskedAreChanged(old(View()), Views(ms));
      err := ApplySysMonitorConfigs(MODE_INVALID, m, configs, applyOk, infos);
    }

    method ApplyChanges(applyOk: bool, infos: map<uint32, MonitorInfo>) returns (err: bool, ghost ids: seq<uint32>)
      requires Valid() && Filed(monitors)
      modifies `futureId, `future, `futureRepr, `displayMode, `inApply, monitors.Values
      ensures Valid() && (forall id | id in ids :: id in monitors)
      ensures Active(old(View())) ==> old(IsListing(monitors, ids))
      ensures old(inApply) || !old(hasChanged) ==> !err && View() == old(View())
      ensures View() == ChangesApplied(old(View()), old(FactsOf(monitors, ids)), applyOk)
      ensures err <==> Active(old(View())) && !Applies(old(View()), old(FactsOf(monitors, ids)), applyOk)
      ensures var facts := old(FactsOf(monitors, ids));
              Applies(old(View()), facts, applyOk) ==>
                AreChanged(facts, Suitable(old(View().screens), old(displayMode), facts), View().future)
      ensures AllUpdated(monitors, old(StatesOf(monitors)),
                         if Applies(old(View()), old(FactsOf(monitors, ids)), applyOk) then infos else map[],
                         monitors.Keys)
    {
      hide ToApply, IdOf, ScreensIn, ScreensValue, SomeEnabled, FactsOf, Updated, IsListing, Monitor.View, AreChanged,
        Suitable, Configs, ConfigsIn, CellsOf, OnlyCells, Filed, StatesOf, Stored, AllUpdated;
      NothingDone(monitors, []);
      if inApply || !hasChanged {
        return false, [];
      }
      var id, configs;
      err, id, configs, ids := TryChanges(applyOk, infos);
      if err {
        ClearFuture();
      } else {
        SetFuture(id, configs);
      }
    }

    /** The monitors belong to this manager. */
    ghost predicate OwnsMonitors()
      reads this
    {
      Filed(monitors) && forall id | id in monitors :: monitors[id].manager == this
    }

    method LowerFlag()
      requires Valid() && OwnsMonitors()
      modifies `hasChanged
      ensures Valid() && View() == old(View()).(hasChanged := false)
      ensures forall id | id in monitors :: monitors[id].View() == old(monitors[id].View()).(hasChanged := false)
    {
      hide ScreensIn, ScreensValue, ConfigsIn, Configs;
      hasChanged := false;
    }

    method MarkClean()
      requires Valid() && OwnsMonitors()
      modifies `hasChanged, `futureId, `future, monitors.Values
      ensures Valid() && View() == MarkedClean(old(View()))
      ensures !hasChanged && future == []
      ensures forall id | id in monitors ::
                monitors[id].View() == Clean(old(monitors[id].View())).(hasChanged := false)
    {
      hide ScreensIn, ScreensValue, ConfigsIn, Configs, Clean, Monitor.View;
      CleanMonitors(monitors);
      LowerFlag();
      ClearFuture();
    }

    method ResetChangesWithoutApply()
      requires Valid() && OwnsMonitors()
      modifies `hasChanged, monitors.Values
      ensures Valid() && View() == old(View()).(hasChanged := false)
      ensures forall id | id in monitors ::
                monitors[id].View() == if old(hasChanged) then Reset(old(monitors[id].View()).(hasChanged := false))
                                       else old(monitors[id].View())
    {
      hide ScreensIn, ScreensValue, ConfigsIn, Configs, Reset, Monitor.View, Filed;
      if !hasChanged {
        return;
      }
      LowerFlag();
      ResetMonitors(monitors);
    }

    /** Clones of the stored screen and of the kept configuration. */
    method GetBoth(id: MonitorsId) returns (screen: ScreenCell, configs: seq<ConfigCell>, ghost fr: set<object>)
      requires Valid()
      ensures fresh(fr) && OnlyCells(fr) && ScreenIn(screen, fr) && Apart(screen) && ConfigsIn(configs, fr)
      ensures ScreenValue(screen, fr) == Some(Stored(old(View()).screens, id.v1))
      ensures Configs(configs) == if futureId == id then old(View()).future else []
    {
      hide ScreenIn, ScreenValue, ScreensIn, ScreensValue, CellsOf;
      ghost var fr0;
      screen, fr0 := GetSysScreenConfig(id);
      configs := GetFuture(id);
      fr := fr0 + CellsOf(configs);
      ScreenInMore(screen, fr0, fr);
    }

    /** The stored screen of the monitors with what is kept for them, on copies. */
    method ScreenToSave(id: MonitorsId, ms: seq<Monitor>)
      returns (found: bool, screen: ScreenCell, ghost fr: set<object>)
      requires Valid() && id == IdOf(Views(ms))
      ensures found <==> futureId == id && future != []
      ensures fresh(fr) && OnlyCells(fr) && ScreenIn(screen, fr)
      ensures found ==>
                ScreenValue(screen, fr) ==
                  Some(WithSuitable(old(View()).screens, displayMode, old(Views(ms)), old(View()).future))
    {
      hide ScreenIn, ScreenValue, ScreensIn, ScreensValue, WithConfigs, IdOf, Stored, OnlyCells;
      var configs;
      screen, configs, fr := GetBoth(id);
      found := |configs| != 0;
      if found {
        fr := SetSuitable(screen, displayMode, ms, configs, fr);
      }
    }

    /** save, up to the write of the file. */
    method SaveScreen() returns (err: bool, stored: bool, ghost ids: seq<uint32>)
      requires Valid() && Filed(monitors) && Active(View())
      modifies `screens, `repr
      ensures Valid() && (forall id | id in ids :: id in monitors) && old(IsListing(monitors, ids))
      ensures var facts := old(FactsOf(monitors, ids));
              && stored == Stores(old(View()), facts)
              && View() == old(View()).(screens := if stored then SavedScreens(old(View()), facts)
                                                   else old(View().screens))
      ensures err <==> ids == []
    {
      hide ScreensIn, ScreensValue, ConfigsIn, Configs, ScreenIn, ScreenValue, IdOf, FactsOf, IsListing, WithSuitable;
      var m, ms, id;
      m, ms, id, ids := ListConnected();
      if |ms| == 0 {
        return true, false, ids;
      }
      var screenCfg; ghost var fr;
      stored, screenCfg, fr := ScreenToSave(id, ms);
      if stored {
        SetSysScreenConfig(id, screenCfg, fr);
      }
      err := false;
    }

    method Save(writeOk: bool) returns (err: bool, ghost ids: seq<uint32>)
      requires Valid() && OwnsMonitors()
      modifies this, monitors.Values
      ensures Valid() && monitors == old(monitors)
      ensures (forall id | id in ids :: id in monitors) && (Active(old(View())) ==> old(IsListing(monitors, ids)))
      ensures View() == Saved(old(View()), old(FactsOf(monitors, ids)), writeOk)
      ensures old(inApply) || !old(hasChanged) ==> !err && View() == old(View())
      ensures var clean := Stores(old(View()), old(FactsOf(monitors, ids))) && writeOk;
              forall id | id in monitors ::
                monitors[id].View() == if clean then Clean(old(monitors[id].View())).(hasChanged := false)
                                       else old(monitors[id].View())
      ensures err <==>
                && Active(old(View()))
                && (ids == [] || (Stores(old(View()), old(FactsOf(monitors, ids))) && !writeOk))
    {
      hide ScreensIn, ScreensValue, ConfigsIn, Configs, IdOf, FactsOf, IsListing, SavedScreens, Clean, Monitor.View;
      if inApply || !hasChanged {
        return false, [];
      }
      var stored;
      err, stored, ids := SaveScreen();
      if stored {
        if !writeOk {
          return true, ids;
        }
        MarkClean();
      }
    }
  }
}
