/** SysConfig.updateUuid: the whole stored configuration is rewritten to new monitor ids. */
module ConfigMigration {
  import opened Text
  import opened Sorting
  import opened DisplayConfig
  import opened ConfigUuid

  // ---- Screen keys: the sorted ids of the connected monitors, joined by commas ----

  function Uuids(ms: seq<Monitor>): (r: seq<string>)
    ensures |r| == |ms| && forall i | 0 <= i < |ms| :: r[i] == ms[i].uuid
  {
    if ms == [] then [] else [ms[0].uuid] + Uuids(ms[1..])
  }

  /** Monitors.getMonitorsId, the new version. */
  function MonitorsId(ms: seq<Monitor>): string {
    if ms == [] then "" else Join(Sort(Uuids(ms)), ",")
  }

  /** The keys are the sorted new ids with commas between them. */
  lemma TwoMonitorsKey(a: Monitor, b: Monitor)
    requires a.uuid == "eDP-1|v1" && b.uuid == "HDMI-1|v1"
    ensures MonitorsId([a]) == "eDP-1|v1" && MonitorsId([a, b]) == "HDMI-1|v1,eDP-1|v1"
  {
    assert Uuids([a]) == ["eDP-1|v1"];
    assert [a, b][1..] == [b];
    assert Uuids([a, b]) == ["eDP-1|v1", "HDMI-1|v1"];
    assert !Leq("eDP-1|v1", "HDMI-1|v1");
    assert Sort(["eDP-1|v1", "HDMI-1|v1"][1..]) == ["HDMI-1|v1"];
    assert Sort(["eDP-1|v1", "HDMI-1|v1"]) == ["HDMI-1|v1", "eDP-1|v1"];
  }

  /** The monitors that some of the ids name. */
  function PartMonitors(ms: seq<Monitor>, ids: seq<string>): (r: seq<Monitor>)
    ensures |r| <= |ids|
  {
    if ids == [] then []
    else
      match GetByUuid(ms, ids[0])
      case Some(m) => [m] + PartMonitors(ms, ids[1..])
      case None => PartMonitors(ms, ids[1..])
  }

  predicate IsKnownKey(ms: seq<Monitor>, key: string) {
    var ids := Split(key, ",");
    |PartMonitors(ms, ids)| == |ids|
  }

  function NewKey(ms: seq<Monitor>, key: string): string { MonitorsId(PartMonitors(ms, Split(key, ","))) }

  lemma {:induction false} AllKnownIff(ms: seq<Monitor>, ids: seq<string>)
    ensures |PartMonitors(ms, ids)| == |ids| <==> forall i | 0 <= i < |ids| :: IsKnown(ms, ids[i])
    ensures forall m | m in PartMonitors(ms, ids) :: m in ms
  {
    if ids != [] {
      AllKnownIff(ms, ids[1..]);
      assert forall i | 0 < i < |ids| :: ids[i] == ids[1..][i - 1];
      if forall i | 0 <= i < |ids| :: IsKnown(ms, ids[i]) {
        assert forall i | 0 <= i < |ids[1..]| :: IsKnown(ms, ids[1..][i]);
      }
    }
  }

  /** New ids name exactly the monitors that own them. */
  lemma {:induction false} NewIdsNameThemselves(ms: seq<Monitor>, ids: seq<string>)
    requires WellFormed(ms) && forall i | 0 <= i < |ids| :: IsCurrentVersion(ids[i]) && IsKnown(ms, ids[i])
    ensures |PartMonitors(ms, ids)| == |ids| && Uuids(PartMonitors(ms, ids)) == ids
  {
    if ids != [] {
      assert IsKnown(ms, ids[0]);
      CurrentIdIsOwn(ms, ids[0]);
      NewIdsNameThemselves(ms, ids[1..]);
    }
  }

  lemma OwnIdIsKnown(ms: seq<Monitor>, m: Monitor)
    requires m in ms
    ensures IsKnown(ms, m.uuid)
  {
  }

  /** The key of a screen whose monitors are all known is rewritten once and for all. */
  lemma NewKeyTwice(ms: seq<Monitor>, ms': seq<Monitor>, key: string)
    requires SameIds(ms, ms') && IsKnownKey(ms, key)
    ensures NewKey(ms', NewKey(ms, key)) == NewKey(ms, key) && IsKnownKey(ms', NewKey(ms, key))
  {
    hide Split, Text.Join, Sort, IsCurrentVersion, IsKnown, IsSorted, PartMonitors;
    var ids := Split(key, ",");
    var parts := PartMonitors(ms, ids);
    AllKnownIff(ms, ids);
    var sorted := Sort(Uuids(parts));
    SortSorts(Uuids(parts));
    assert |sorted| == |parts| by {
      assert |multiset(sorted)| == |sorted|;
      assert |multiset(Uuids(parts))| == |Uuids(parts)|;
    }
    forall i | 0 <= i < |sorted| ensures IsCurrentVersion(sorted[i]) && IsKnown(ms', sorted[i]) && ',' !in sorted[i] {
      assert sorted[i] in multiset(Uuids(parts));
      var j :| 0 <= j < |parts| && Uuids(parts)[j] == sorted[i];
      assert parts[j] in ms;
      var l :| 0 <= l < |ms| && ms[l] == parts[j];
      OwnIdIsKnown(ms, parts[j]);
    }
    SplitJoin(sorted, ',');
    NewIdsNameThemselves(ms', sorted);
    SortIsIdempotent(Uuids(parts));
  }

  /** The rewritten key is the one the connected monitors will be looked up under, in whatever order
      they are listed. */
  lemma NewKeyIsLookupKey(ms: seq<Monitor>, key: string, connected: seq<Monitor>)
    requires multiset(Uuids(connected)) == multiset(Uuids(PartMonitors(ms, Split(key, ","))))
    ensures MonitorsId(connected) == NewKey(ms, key)
  {
    var parts := PartMonitors(ms, Split(key, ","));
    SortIsCanonical(Uuids(connected), Uuids(parts));
    assert |multiset(Uuids(connected))| == |connected| && |multiset(Uuids(parts))| == |parts|;
  }

  // ---- One screen ----

  type OnlyOneMap = map<string, Option<ModeConfig>>

  ghost predicate OnlyOneRekeyed(ms: seq<Monitor>, m: OnlyOneMap, m': OnlyOneMap) {
    Rekeyed(m, m', (u, c) => true, u => UpdateUuid(ms, u), (c, c') => c' == ModeUpdated(ms, c))
  }

  predicate OnlyOneReports(ms: seq<Monitor>, m: OnlyOneMap) {
    exists u :: u in m && (NeedsUpdate(ms, u) || ModeReports(ms, m[u]))
  }

  ghost predicate ScreenMigrated(ms: seq<Monitor>, c: Option<ScreenConfig>, c': Option<ScreenConfig>) {
    match c
    case None => c' == None
    case Some(a) =>
      && c'.Some?
      && c'.value.mirror == ModeUpdated(ms, a.mirror)
      && c'.value.extend == ModeUpdated(ms, a.extend)
      && c'.value.single == ModeUpdated(ms, a.single)
      && c'.value.onlyOneUuid == UpdateUuid(ms, a.onlyOneUuid)
      && OnlyOneRekeyed(ms, a.onlyOneMap, c'.value.onlyOneMap)
  }

  predicate ScreenReports(ms: seq<Monitor>, c: Option<ScreenConfig>) {
    match c
    case None => false
    case Some(a) =>
      || ModeReports(ms, a.mirror) || ModeReports(ms, a.extend) || ModeReports(ms, a.single)
      || OnlyOneReports(ms, a.onlyOneMap) || NeedsUpdate(ms, a.onlyOneUuid)
  }

  ghost predicate IsRewritten(ms: seq<Monitor>, m: OnlyOneMap, u: string, u': string, c': Option<ModeConfig>) {
    u in m && UpdateUuid(ms, u) == u' && c' == ModeUpdated(ms, m[u])
  }

  lemma AllRewritten(ms: seq<Monitor>, m: OnlyOneMap, m': OnlyOneMap)
    requires forall u | u in m :: UpdateUuid(ms, u) in m'
    requires forall u' | u' in m' :: exists u :: IsRewritten(ms, m, u, u', m'[u'])
    ensures OnlyOneRekeyed(ms, m, m')
  {
    hide UpdateUuid, ModeUpdated;
    forall u' | u' in m'
      ensures MovedTo(m, m', (u, c) => true, u => UpdateUuid(ms, u), (c, c') => c' == ModeUpdated(ms, c), u')
    {
      var u :| IsRewritten(ms, m, u, u', m'[u']);
      assert Fills(m, m'[u'], (u, c) => true, u => UpdateUuid(ms, u), (c, c') => c' == ModeUpdated(ms, c), u', u);
    }
  }

  method UpdateOnlyOneMap(ms: seq<Monitor>, m: OnlyOneMap) returns (m': OnlyOneMap, changed: bool)
    ensures OnlyOneRekeyed(ms, m, m') && changed == OnlyOneReports(ms, m)
  {
    hide UpdateUuid, ModeUpdated, NeedsUpdate, ModeReports, OnlyOneRekeyed;
    m', changed := map[], false;
    var todo := m.Keys;
    while todo != {}
      invariant todo <= m.Keys
      invariant forall u | u in m && u !in todo :: UpdateUuid(ms, u) in m'
      invariant forall u' | u' in m' :: exists u :: IsRewritten(ms, m, u, u', m'[u'])
      invariant changed == exists u :: u in m && u !in todo && (NeedsUpdate(ms, u) || ModeReports(ms, m[u]))
    {
      var u :| u in todo;
      todo := todo - {u};
      var config, configChanged := UpdateMode(ms, m[u]);
      changed := changed || NeedsUpdate(ms, u) || configChanged;
      assert IsRewritten(ms, m, u, UpdateUuid(ms, u), config);
      m' := m'[UpdateUuid(ms, u) := config];
    }
    AllRewritten(ms, m, m');
  }

  method UpdateScreen(ms: seq<Monitor>, c: Option<ScreenConfig>) returns (c': Option<ScreenConfig>, changed: bool)
    ensures ScreenMigrated(ms, c, c') && changed == ScreenReports(ms, c)
  {
    if c == None {
      return None, false;
    }
    var a := c.value;
    var mirror, changed1 := UpdateMode(ms, a.mirror);
    var extend, changed2 := UpdateMode(ms, a.extend);
    var single, changed3 := UpdateMode(ms, a.single);
    var onlyOneMap, changed4 := UpdateOnlyOneMap(ms, a.onlyOneMap);
    c' := Some(ScreenConfig(mirror, extend, single, onlyOneMap, UpdateUuid(ms, a.onlyOneUuid)));
    changed := changed1 || changed2 || changed3 || changed4 || NeedsUpdate(ms, a.onlyOneUuid);
  }

  lemma OnlyOneRekeyedTwice(ms: seq<Monitor>, ms': seq<Monitor>, m: OnlyOneMap, m': OnlyOneMap, m'': OnlyOneMap)
    requires SameIds(ms, ms') && OnlyOneRekeyed(ms, m, m') && OnlyOneRekeyed(ms', m', m'')
    ensures m'' == m'
  {
    hide SameIds, UpdateUuid, ModeUpdated;
    forall u ensures UpdateUuid(ms', UpdateUuid(ms, u)) == UpdateUuid(ms, u) {
      UpdateUuidTwice(ms, ms', u);
    }
    forall c ensures ModeUpdated(ms', ModeUpdated(ms, c)) == ModeUpdated(ms, c) {
      ModeUpdatedTwice(ms, ms', c);
    }
    RekeyedTwice(m, m', m'',
                 (u, c) => true, u => UpdateUuid(ms, u), (c, c') => c' == ModeUpdated(ms, c),
                 (u, c) => true, u => UpdateUuid(ms', u), (c, c') => c' == ModeUpdated(ms', c));
  }

  /** Rewriting a rewritten screen changes nothing. */
  lemma ScreenMigratedTwice(ms: seq<Monitor>, ms': seq<Monitor>, c: Option<ScreenConfig>, c': Option<ScreenConfig>,
                            c'': Option<ScreenConfig>)
    requires SameIds(ms, ms') && ScreenMigrated(ms, c, c') && ScreenMigrated(ms', c', c'')
    ensures c'' == c'
  {
    if c.Some? {
      var a := c.value;
      ModeUpdatedTwice(ms, ms', a.mirror);
      ModeUpdatedTwice(ms, ms', a.extend);
      ModeUpdatedTwice(ms, ms', a.single);
      UpdateUuidTwice(ms, ms', a.onlyOneUuid);
      OnlyOneRekeyedTwice(ms, ms', a.onlyOneMap, c'.value.onlyOneMap, c''.value.onlyOneMap);
    }
  }

  /** Apart from the ids, a rewritten mode is what it was. */
  lemma ModeKeepsSettings(ms: seq<Monitor>, c: ModeConfig, i: nat)
    requires i < |c.monitors|
    ensures var r := ModeUpdated(ms, Some(c));
            && r.Some? && |r.value.monitors| == |c.monitors|
            && r.value.monitors[i].(uuid := "") == c.monitors[i].(uuid := "")
            && r.value.monitors[i].uuid in {c.monitors[i].uuid, UpdateUuid(ms, c.monitors[i].uuid)}
  {
  }

  // ---- All screens and fill modes ----

  type Screens = map<string, Option<ScreenConfig>>

  predicate ScreenMoves(ms: seq<Monitor>, key: string, c: Option<ScreenConfig>) {
    IsKnownKey(ms, key) && (NewKey(ms, key) != key || ScreenReports(ms, c))
  }

  ghost predicate ScreensMigrated(ms: seq<Monitor>, m: Screens, m': Screens) {
    Rekeyed(m, m', (k, c) => ScreenMoves(ms, k, c), k => NewKey(ms, k), (c, c') => ScreenMigrated(ms, c, c'))
  }

  /** A fill mode's key is an id, a colon and a size. */
  predicate HasColon(key: string) { Index(key, ":") != -1 }

  function IdPart(key: string): string
    requires HasColon(key)
  {
    key[..Index(key, ":")]
  }

  function SizePart(key: string): string
    requires HasColon(key)
  {
    key[Index(key, ":") + 1..]
  }

  predicate FillModeMoves(ms: seq<Monitor>, key: string) { HasColon(key) && NeedsUpdate(ms, IdPart(key)) }

  function NewFillModeKey(ms: seq<Monitor>, key: string): string {
    if HasColon(key) then UpdateUuid(ms, IdPart(key)) + ":" + SizePart(key) else key
  }

  /** For a key made of an id and a size, the id is rewritten and the size stays; a key without a colon is no such
      key. */
  lemma NewFillModeKeyIs(ms: seq<Monitor>, id: string, size: string)
    requires ':' !in id
    ensures var key := id + ":" + size;
            && HasColon(key) && (FillModeMoves(ms, key) <==> NeedsUpdate(ms, id))
            && NewFillModeKey(ms, key) == UpdateUuid(ms, id) + ":" + size
    ensures !HasColon(id)
  {
    hide NeedsUpdate, UpdateUuid;
    var key := id + ":" + size;
    IndexIsFirst(key, ":");
    IndexIsFirst(id, ":");
    assert key[|id|..] == ":" + size;
    assert forall i | 0 <= i < |id| :: key[i..][0] == id[i];
    assert forall i | 0 <= i < |id| :: id[i..][0] == id[i];
    assert Index(key, ":") == |id|;
    assert key[..|id|] == id && key[|id| + 1..] == size;
  }

  function WithColon(m: map<string, string>): map<string, string> { map k | k in m && HasColon(k) :: m[k] }

  ghost predicate FillModesMigrated(ms: seq<Monitor>, m: map<string, string>, m': map<string, string>) {
    Rekeyed(WithColon(m), m', (k, v) => FillModeMoves(ms, k), k => NewFillModeKey(ms, k), (v, v') => v' == v)
  }

  predicate SomethingMoves(ms: seq<Monitor>, screens: Screens, fillModes: map<string, string>) {
    || (exists k :: k in screens && ScreenMoves(ms, k, screens[k]))
    || (exists k :: k in fillModes && (!HasColon(k) || FillModeMoves(ms, k)))
  }

  /** First the entries that move are taken out, then they are put in under their new keys. */
  lemma TwoPhases<V(!new)>(m: map<string, V>, kept: map<string, V>, added: map<string, V>,
                           moves: (string, V) -> bool, dest: string -> string, rel: (V, V) -> bool)
    requires forall k :: k in kept <==> k in m && !moves(k, m[k])
    requires forall k | k in kept :: kept[k] == m[k]
    requires forall k | k in m && moves(k, m[k]) :: dest(k) in added
    requires forall k' | k' in added :: exists k :: Fills(m, added[k'], moves, dest, rel, k', k)
    ensures Rekeyed(m, kept + added, moves, dest, rel)
  {
    var m' := kept + added;
    forall k' | k' in m' ensures MovedTo(m, m', moves, dest, rel, k') || StaysAt(m, m', moves, dest, k') {
      if k' in added {
        var k :| Fills(m, added[k'], moves, dest, rel, k', k);
        assert Fills(m, m'[k'], moves, dest, rel, k', k);
      }
    }
    forall k | k in m ensures Destination(m, moves, dest, k) in m' {
      assert moves(k, m[k]) ==> dest(k) in added;
    }
  }

  /** Half-way through the first phase: of the entries not in `todo`, those that move are in `added`. */
  ghost predicate TakingOut<V(!new)>(m: map<string, V>, kept: map<string, V>, added: map<string, V>,
                                     moves: (string, V) -> bool, dest: string -> string, rel: (V, V) -> bool,
                                     todo: set<string>) {
    && (forall k :: k in kept <==> k in m && (k in todo || !moves(k, m[k])))
    && (forall k | k in kept :: kept[k] == m[k])
    && (forall k | k in m && k !in todo && moves(k, m[k]) :: dest(k) in added)
    && (forall k' | k' in added :: exists k :: Fills(m, added[k'], moves, dest, rel, k', k))
  }

  lemma TakeOut<V(!new)>(m: map<string, V>, kept: map<string, V>, added: map<string, V>,
                         moves: (string, V) -> bool, dest: string -> string, rel: (V, V) -> bool,
                         todo: set<string>, k: string, v': V)
    requires TakingOut(m, kept, added, moves, dest, rel, todo)
    requires k in m && k in todo && moves(k, m[k]) && rel(m[k], v')
    ensures TakingOut(m, kept - {k}, added[dest(k) := v'], moves, dest, rel, todo - {k})
  {
    var added' := added[dest(k) := v'];
    assert Fills(m, v', moves, dest, rel, dest(k), k);
    forall k' | k' in added' ensures exists j :: Fills(m, added'[k'], moves, dest, rel, k', j) {
      if k' != dest(k) {
        var j :| Fills(m, added[k'], moves, dest, rel, k', j);
        assert Fills(m, added'[k'], moves, dest, rel, k', j);
      }
    }
  }

  lemma LeaveIn<V(!new)>(m: map<string, V>, kept: map<string, V>, added: map<string, V>,
                         moves: (string, V) -> bool, dest: string -> string, rel: (V, V) -> bool,
                         todo: set<string>, k: string)
    requires TakingOut(m, kept, added, moves, dest, rel, todo)
    requires k in m ==> !moves(k, m[k])
    ensures TakingOut(m, kept, added, moves, dest, rel, todo - {k})
  {
  }

  /** The second phase. */
  method PutIn<V>(kept: map<string, V>, added: map<string, V>) returns (r: map<string, V>)
    ensures r == kept + added
  {
    r := kept;
    var todo := added.Keys;
    while todo != {}
      invariant todo <= added.Keys
      invariant r == kept + (added - todo)
    {
      var key :| key in todo;
      todo := todo - {key};
      r := r[key := added[key]];
    }
    assert added - {} == added;
  }

  lemma WithColonMinus(m: map<string, string>, key: string)
    ensures WithColon(m - {key}) == WithColon(m) - {key}
    ensures !HasColon(key) ==> WithColon(m - {key}) == WithColon(m)
  {
  }

  class SysConfig {
    var screens: Screens
    var fillModes: map<string, string>

    constructor (screens: Screens, fillModes: map<string, string>)
      ensures this.screens == screens && this.fillModes == fillModes
    {
      this.screens, this.fillModes := screens, fillModes;
    }

    method UpdateOneScreen(ms: seq<Monitor>, key: string, c: Option<ScreenConfig>)
      returns (moved: bool, newKey: string, c': Option<ScreenConfig>)
      ensures moved == ScreenMoves(ms, key, c)
      ensures moved ==> newKey == NewKey(ms, key) && ScreenMigrated(ms, c, c')
    {
      moved, newKey, c' := false, key, c;
      var monitorUuids := Split(key, ",");
      var partMonitors := PartMonitors(ms, monitorUuids);
      if |monitorUuids| == |partMonitors| {
        newKey := MonitorsId(partMonitors);
        var screenCfgChanged;
        c', screenCfgChanged := UpdateScreen(ms, c);
        moved := newKey != key || screenCfgChanged;
      }
    }

    method UpdateScreens(ms: seq<Monitor>) returns (changed: bool)
      modifies this`screens
      ensures ScreensMigrated(ms, old(screens), screens)
      ensures changed == exists k :: k in old(screens) && ScreenMoves(ms, k, old(screens)[k])
    {
      ghost var moves := (k: string, c: Option<ScreenConfig>) => ScreenMoves(ms, k, c);
      ghost var dest := (k: string) => NewKey(ms, k);
      ghost var rel := (c: Option<ScreenConfig>, c': Option<ScreenConfig>) => ScreenMigrated(ms, c, c');
      ghost var m := screens;
      changed := false;
      var screensAdditional: Screens := map[];
      var todo := screens.Keys;
      while todo != {}
        invariant todo <= m.Keys
        invariant TakingOut(m, screens, screensAdditional, moves, dest, rel, todo)
        invariant changed == exists k :: k in m && k !in todo && moves(k, m[k])
      {
        var monitorsId :| monitorsId in todo;
        var moved, newMonitorsId, screenCfg := UpdateOneScreen(ms, monitorsId, screens[monitorsId]);
        if moved {
          TakeOut(m, screens, screensAdditional, moves, dest, rel, todo, monitorsId, screenCfg);
          screensAdditional := screensAdditional[newMonitorsId := screenCfg];
          screens := screens - {monitorsId};
          changed := true;
        } else {
          LeaveIn(m, screens, screensAdditional, moves, dest, rel, todo, monitorsId);
        }
        todo := todo - {monitorsId};
      }
      TwoPhases(m, screens, screensAdditional, moves, dest, rel);
      screens := PutIn(screens, screensAdditional);
    }

    method UpdateOneFillMode(ms: seq<Monitor>, key: string) returns (hasColon: bool, moved: bool, newKey: string)
      ensures hasColon == HasColon(key) && moved == FillModeMoves(ms, key)
      ensures moved ==> newKey == NewFillModeKey(ms, key)
    {
      hasColon, moved, newKey := true, false, key;
      var i := Index(key, ":");
      if i == -1 {
        return false, false, key;
      }
      var uuid := key[..i];
      if NeedsUpdate(ms, uuid) {
        moved := true;
        newKey := UpdateUuid(ms, uuid) + ":" + key[i + 1..];
      }
    }

    method UpdateFillModes(ms: seq<Monitor>) returns (changed: bool)
      modifies this`fillModes
      ensures FillModesMigrated(ms, old(fillModes), fillModes)
      ensures changed == exists k :: k in old(fillModes) && (!HasColon(k) || FillModeMoves(ms, k))
    {
      hide FillModeMoves, NewFillModeKey, HasColon;
      ghost var moves := (k: string, v: string) => FillModeMoves(ms, k);
      ghost var dest := (k: string) => NewFillModeKey(ms, k);
      ghost var rel := (v: string, v': string) => v' == v;
      ghost var m := fillModes;
      changed := false;
      var additional: map<string, string> := map[];
      var todo := fillModes.Keys;
      while todo != {}
        invariant todo <= fillModes.Keys <= m.Keys
        invariant forall k | k in fillModes && k !in todo :: HasColon(k)
        invariant TakingOut(WithColon(m), WithColon(fillModes), additional, moves, dest, rel, todo)
        invariant changed == exists k :: k in m && k !in todo && (!HasColon(k) || FillModeMoves(ms, k))
      {
        var key :| key in todo;
        var hasColon, moved, newKey := UpdateOneFillMode(ms, key);
        WithColonMinus(fillModes, key);
        if !hasColon {
          LeaveIn(WithColon(m), WithColon(fillModes), additional, moves, dest, rel, todo, key);
          fillModes := fillModes - {key};
          changed := true;
        } else if moved {
          TakeOut(WithColon(m), WithColon(fillModes), additional, moves, dest, rel, todo, key, fillModes[key]);
          additional := additional[newKey := fillModes[key]];
          fillModes := fillModes - {key};
          changed := true;
        } else {
          LeaveIn(WithColon(m), WithColon(fillModes), additional, moves, dest, rel, todo, key);
        }
        todo := todo - {key};
      }
      assert WithColon(fillModes) == fillModes;
      TwoPhases(WithColon(m), fillModes, additional, moves, dest, rel);
      fillModes := PutIn(fillModes, additional);
    }

    method UpdateUuids(ms: seq<Monitor>) returns (changed: bool)
      modifies this
      ensures ScreensMigrated(ms, old(screens), screens)
      ensures FillModesMigrated(ms, old(fillModes), fillModes)
      ensures changed == SomethingMoves(ms, old(screens), old(fillModes))
    {
      var changed1 := UpdateScreens(ms);
      var changed2 := UpdateFillModes(ms);
      changed := changed1 || changed2;
    }
  }

  // ---- What the migration guarantees ----

  ghost predicate Migrated(ms: seq<Monitor>, screens: Screens, fillModes: map<string, string>,
                           screens': Screens, fillModes': map<string, string>) {
    ScreensMigrated(ms, screens, screens') && FillModesMigrated(ms, fillModes, fillModes')
  }

  lemma ColonAt(a: string, b: string)
    requires ':' !in a
    ensures Index(a + ":" + b, ":") == |a|
  {
    var s := a + ":" + b;
    IndexIsFirst(s, ":");
    assert StartsWith(s[|a|..], ":");
    forall i | 0 <= i < |a| ensures !StartsWith(s[i..], ":") {
      assert s[i..][0] == a[i];
    }
  }

  lemma FillModeKeyParts(ms: seq<Monitor>, key: string)
    requires WellFormed(ms) && FillModeMoves(ms, key)
    ensures HasColon(NewFillModeKey(ms, key)) && IdPart(NewFillModeKey(ms, key)) == UpdateUuid(ms, IdPart(key))
    ensures SizePart(NewFillModeKey(ms, key)) == SizePart(key)
  {
    hide UpdateUuid, WellFormed, Index;
    var id := IdPart(key);
    IndexIsFirst(key, ":");
    assert ':' !in id by {
      forall i | 0 <= i < |id| ensures id[i] != ':' {
        assert !StartsWith(key[i..], ":");
      }
    }
    UpdateUuidTwice(ms, ms, id);
    ColonAt(UpdateUuid(ms, id), SizePart(key));
  }

  lemma FillModeKeyTwice(ms: seq<Monitor>, ms': seq<Monitor>, key: string)
    requires SameIds(ms, ms') && FillModeMoves(ms, key)
    ensures NewFillModeKey(ms', NewFillModeKey(ms, key)) == NewFillModeKey(ms, key)
    ensures HasColon(NewFillModeKey(ms, key))
  {
    hide UpdateUuid, WellFormed, Index;
    FillModeKeyParts(ms, key);
    UpdateUuidTwice(ms, ms', IdPart(key));
  }

  lemma FillModeKeyHasColon(ms: seq<Monitor>, m: map<string, string>, m': map<string, string>, k': string)
    requires WellFormed(ms) && FillModesMigrated(ms, m, m') && k' in m'
    ensures HasColon(k')
  {
    var moves, dest, rel := (k: string, v: string) => FillModeMoves(ms, k),
                            (k: string) => NewFillModeKey(ms, k), (v: string, v': string) => v' == v;
    if MovedTo(WithColon(m), m', moves, dest, rel, k') {
      var k :| Fills(WithColon(m), m'[k'], moves, dest, rel, k', k);
      FillModeKeyTwice(ms, ms, k);
    }
  }

  lemma FillModesMigratedTwice(ms: seq<Monitor>, ms': seq<Monitor>, fillModes: map<string, string>,
                               fillModes': map<string, string>, fillModes'': map<string, string>)
    requires SameIds(ms, ms')
    requires FillModesMigrated(ms, fillModes, fillModes') && FillModesMigrated(ms', fillModes', fillModes'')
    ensures fillModes'' == fillModes'
  {
    hide NewFillModeKey, HasColon;
    forall k | FillModeMoves(ms, k) ensures NewFillModeKey(ms', NewFillModeKey(ms, k)) == NewFillModeKey(ms, k) {
      FillModeKeyTwice(ms, ms', k);
    }
    assert WithColon(fillModes') == fillModes' by {
      forall k' | k' in fillModes' ensures HasColon(k') {
        FillModeKeyHasColon(ms, fillModes, fillModes', k');
      }
    }
    RekeyedTwice(WithColon(fillModes), fillModes', fillModes'',
                 (k, v) => FillModeMoves(ms, k), k => NewFillModeKey(ms, k), (v, v') => v' == v,
                 (k, v) => FillModeMoves(ms', k), k => NewFillModeKey(ms', k), (v, v') => v' == v);
  }

  lemma MovesIsKnown(ms: seq<Monitor>, key: string, c: Option<ScreenConfig>)
    requires ScreenMoves(ms, key, c)
    ensures IsKnownKey(ms, key)
  {
  }

  lemma SameReports(ms: seq<Monitor>, ms': seq<Monitor>, c: Option<ScreenConfig>)
    requires SameIds(ms, ms')
    ensures ScreenReports(ms', c) <==> ScreenReports(ms, c)
  {
    hide WellFormed, IsKnown, IsCurrentVersion;
    assert forall uuid :: NeedsUpdate(ms', uuid) <==> NeedsUpdate(ms, uuid);
    hide NeedsUpdate;
    assert forall c :: ModeReports(ms', c) <==> ModeReports(ms, c);
  }

  /** Which screens move does not depend on the order of the monitors. */
  lemma SameScreensMove(ms: seq<Monitor>, ms': seq<Monitor>, key: string, c: Option<ScreenConfig>)
    requires SameIds(ms, ms')
    ensures ScreenMoves(ms', key, c) <==> ScreenMoves(ms, key, c)
  {
    hide WellFormed, IsKnown, NewKey;
    AllKnownIff(ms, Split(key, ","));
    AllKnownIff(ms', Split(key, ","));
    if IsKnownKey(ms, key) {
      NewKeyTwice(ms, ms', key);
      NewKeyTwice(ms', ms, key);
    }
    SameReports(ms, ms', c);
  }

  lemma ScreensMigratedTwice(ms: seq<Monitor>, ms': seq<Monitor>, m: Screens, m': Screens, m'': Screens)
    requires SameIds(ms, ms') && ScreensMigrated(ms, m, m') && ScreensMigrated(ms', m', m'')
    ensures m'' == m'
  {
    hide SameIds, ScreenMoves, ScreenMigrated, NewKey;
    forall k, c | ScreenMoves(ms', k, c) ensures ScreenMoves(ms, k, c) {
      SameScreensMove(ms, ms', k, c);
    }
    forall k, c | ScreenMoves(ms, k, c) ensures NewKey(ms', NewKey(ms, k)) == NewKey(ms, k) {
      MovesIsKnown(ms, k, c);
      NewKeyTwice(ms, ms', k);
    }
    forall c, c', c'' | ScreenMigrated(ms, c, c') && ScreenMigrated(ms', c', c'') ensures c'' == c' {
      ScreenMigratedTwice(ms, ms', c, c', c'');
    }
    RekeyedTwice(m, m', m'',
                 (k, c) => ScreenMoves(ms, k, c), k => NewKey(ms, k), (c, c') => ScreenMigrated(ms, c, c'),
                 (k, c) => ScreenMoves(ms', k, c), k => NewKey(ms', k), (c, c') => ScreenMigrated(ms', c, c'));
  }

  /** Migrating a migrated configuration changes nothing, in whatever order the maps are visited and the monitors are
      listed. */
  lemma MigrationIsIdempotent(ms: seq<Monitor>, ms': seq<Monitor>, screens: Screens, screens': Screens,
                              screens'': Screens, fillModes: map<string, string>, fillModes': map<string, string>,
                              fillModes'': map<string, string>)
    requires WellFormed(ms) && multiset(ms) == multiset(ms')
    requires Migrated(ms, screens, fillModes, screens', fillModes')
    requires Migrated(ms', screens', fillModes', screens'', fillModes'')
    ensures screens'' == screens' && fillModes'' == fillModes'
  {
    ListedAnew(ms, ms');
    ScreensMigratedTwice(ms, ms', screens, screens', screens'');
    FillModesMigratedTwice(ms, ms', fillModes, fillModes', fillModes'');
  }

  /** A report of no change is right. */
  lemma SilentMeansUnchanged(ms: seq<Monitor>, screens: Screens, fillModes: map<string, string>,
                             screens': Screens, fillModes': map<string, string>)
    requires Migrated(ms, screens, fillModes, screens', fillModes')
    requires !SomethingMoves(ms, screens, fillModes)
    ensures screens' == screens && fillModes' == fillModes
  {
    NothingMoves(screens, screens',
                 (k, c) => ScreenMoves(ms, k, c), k => NewKey(ms, k), (c, c') => ScreenMigrated(ms, c, c'));
    assert WithColon(fillModes) == fillModes;
    NothingMoves(fillModes, fillModes', (k, v) => FillModeMoves(ms, k), k => NewFillModeKey(ms, k), (v, v') => v' == v);
  }

  // ---- When something changes, and when the report is right ----

  predicate OnlyOneChanges(ms: seq<Monitor>, m: OnlyOneMap) {
    exists u :: u in m && (NeedsUpdate(ms, u) || ModeChanges(ms, m[u]))
  }

  predicate ScreenChanges(ms: seq<Monitor>, c: Option<ScreenConfig>) {
    match c
    case None => false
    case Some(a) =>
      || ModeChanges(ms, a.mirror) || ModeChanges(ms, a.extend) || ModeChanges(ms, a.single)
      || OnlyOneChanges(ms, a.onlyOneMap) || NeedsUpdate(ms, a.onlyOneUuid)
  }

  lemma UpdateUuidChangesIff(ms: seq<Monitor>, uuid: string)
    requires WellFormed(ms)
    ensures UpdateUuid(ms, uuid) != uuid <==> NeedsUpdate(ms, uuid)
  {
    if NeedsUpdate(ms, uuid) {
      NeedsUpdateMeansOther(ms, uuid);
    }
  }

  lemma OnlyOneChangesIff(ms: seq<Monitor>, m: OnlyOneMap, m': OnlyOneMap)
    requires WellFormed(ms) && OnlyOneRekeyed(ms, m, m')
    ensures m' != m <==> OnlyOneChanges(ms, m)
  {
    hide UpdateUuid, ModeUpdated, NeedsUpdate, ModeChanges, WellFormed;
    forall u ensures UpdateUuid(ms, UpdateUuid(ms, u)) == UpdateUuid(ms, u) {
      UpdateUuidTwice(ms, ms, u);
    }
    forall u ensures UpdateUuid(ms, u) != u <==> NeedsUpdate(ms, u) {
      UpdateUuidChangesIff(ms, u);
    }
    forall c ensures ModeUpdated(ms, c) != c <==> ModeChanges(ms, c) {
      ModeChangesIff(ms, c);
    }
    var moves, dest, rel, differs :=
      (u: string, c: Option<ModeConfig>) => true, (u: string) => UpdateUuid(ms, u),
      (c: Option<ModeConfig>, c': Option<ModeConfig>) => c' == ModeUpdated(ms, c),
      (c: Option<ModeConfig>) => ModeChanges(ms, c);
    RekeyedChangesIff(m, m', moves, dest, rel, differs);
    if u :| u in m && (NeedsUpdate(ms, u) || ModeChanges(ms, m[u])) {
      assert EntryChanges(m, moves, dest, differs, u);
    }
  }

  /** A screen changes exactly when a mode, an only-one entry or the only-one id does. */
  lemma ScreenChangesIff(ms: seq<Monitor>, c: Option<ScreenConfig>, c': Option<ScreenConfig>)
    requires WellFormed(ms) && ScreenMigrated(ms, c, c')
    ensures c' != c <==> ScreenChanges(ms, c)
  {
    hide ModeUpdated, ModeChanges, OnlyOneRekeyed, OnlyOneChanges, UpdateUuid, NeedsUpdate, WellFormed;
    if c.Some? {
      var a := c.value;
      ModeChangesIff(ms, a.mirror);
      ModeChangesIff(ms, a.extend);
      ModeChangesIff(ms, a.single);
      UpdateUuidChangesIff(ms, a.onlyOneUuid);
      OnlyOneChangesIff(ms, a.onlyOneMap, c'.value.onlyOneMap);
    }
  }

  predicate ScreenEntryChanges(ms: seq<Monitor>, screens: Screens, k: string) {
    k in screens && ScreenMoves(ms, k, screens[k]) && (NewKey(ms, k) != k || ScreenChanges(ms, screens[k]))
  }

  /** The stored screens change exactly when one that is visited moves to another key or changes itself. */
  lemma ScreensChangeIff(ms: seq<Monitor>, m: Screens, m': Screens)
    requires WellFormed(ms) && ScreensMigrated(ms, m, m')
    ensures m' != m <==> exists k :: ScreenEntryChanges(ms, m, k)
  {
    hide ScreenMigrated, ScreenReports, ScreenChanges, NewKey, IsKnownKey, WellFormed;
    var moves, dest, rel, differs :=
      (k: string, c: Option<ScreenConfig>) => ScreenMoves(ms, k, c), (k: string) => NewKey(ms, k),
      (c: Option<ScreenConfig>, c': Option<ScreenConfig>) => ScreenMigrated(ms, c, c'),
      (c: Option<ScreenConfig>) => ScreenChanges(ms, c);
    forall k | k in m && moves(k, m[k]) ensures dest(dest(k)) == dest(k) {
      NewKeyTwice(ms, ms, k);
    }
    forall c, c' | ScreenMigrated(ms, c, c') ensures c' != c <==> ScreenChanges(ms, c) {
      ScreenChangesIff(ms, c, c');
    }
    RekeyedChangesIff(m, m', moves, dest, rel, differs);
    forall k ensures EntryChanges(m, moves, dest, differs, k) <==> ScreenEntryChanges(ms, m, k) {
    }
  }

  predicate FillModeChanges(ms: seq<Monitor>, fillModes: map<string, string>, k: string) {
    k in fillModes && (!HasColon(k) || FillModeMoves(ms, k))
  }

  lemma FillModeKeyChanges(ms: seq<Monitor>, key: string)
    requires WellFormed(ms) && FillModeMoves(ms, key)
    ensures NewFillModeKey(ms, key) != key
  {
    NeedsUpdateMeansOther(ms, IdPart(key));
    FillModeKeyParts(ms, key);
  }

  /** The fill modes change exactly when one is to move or has no colon: there the report is right. */
  lemma FillModesChangeIff(ms: seq<Monitor>, m: map<string, string>, m': map<string, string>)
    requires WellFormed(ms) && FillModesMigrated(ms, m, m')
    ensures m' != m <==> exists k :: FillModeChanges(ms, m, k)
  {
    hide FillModeMoves, NewFillModeKey, HasColon, WellFormed;
    var moves, dest, rel, differs :=
      (k: string, v: string) => FillModeMoves(ms, k), (k: string) => NewFillModeKey(ms, k),
      (v: string, v': string) => v' == v, (v: string) => false;
    forall k | FillModeMoves(ms, k) ensures dest(dest(k)) == dest(k) && dest(k) != k {
      FillModeKeyTwice(ms, ms, k);
      FillModeKeyChanges(ms, k);
    }
    RekeyedChangesIff(WithColon(m), m', moves, dest, rel, differs);
    forall k | k in m' ensures HasColon(k) {
      FillModeKeyHasColon(ms, m, m', k);
    }
    forall k | k in m && HasColon(k)
      ensures EntryChanges(WithColon(m), moves, dest, differs, k) <==> FillModeChanges(ms, m, k) {
    }
    if k :| k in m && !HasColon(k) {
      assert FillModeChanges(ms, m, k);
    } else {
      assert WithColon(m) == m;
    }
  }

  ghost predicate SomethingChanges(ms: seq<Monitor>, screens: Screens, fillModes: map<string, string>) {
    (exists k :: ScreenEntryChanges(ms, screens, k)) || exists k :: FillModeChanges(ms, fillModes, k)
  }

  /** What the migration changes at all, and exactly when its report is right: it reports something that
      moves, and is wrong when all that moves are screens that keep their key and report nothing but modes
      it gives up on. */
  lemma ReportIsRightIff(ms: seq<Monitor>, screens: Screens, fillModes: map<string, string>,
                         screens': Screens, fillModes': map<string, string>)
    requires WellFormed(ms) && Migrated(ms, screens, fillModes, screens', fillModes')
    ensures (screens' != screens || fillModes' != fillModes) <==> SomethingChanges(ms, screens, fillModes)
    ensures (SomethingMoves(ms, screens, fillModes) <==> screens' != screens || fillModes' != fillModes) <==>
              (SomethingMoves(ms, screens, fillModes) ==> SomethingChanges(ms, screens, fillModes))
  {
    hide ScreenMoves, ScreenChanges, FillModeMoves, HasColon, ScreensMigrated, FillModesMigrated;
    ScreensChangeIff(ms, screens, screens');
    FillModesChangeIff(ms, fillModes, fillModes');
    if SomethingChanges(ms, screens, fillModes) {
      if k :| ScreenEntryChanges(ms, screens, k) {
        assert k in screens && ScreenMoves(ms, k, screens[k]);
      } else {
        var k :| FillModeChanges(ms, fillModes, k);
        assert k in fillModes && (!HasColon(k) || FillModeMoves(ms, k));
      }
    }
  }

  lemma SingleKeyIsOwn(ms: seq<Monitor>)
    requires ms == [Monitor("A|v1", "A")]
    ensures IsKnownKey(ms, "A|v1") && NewKey(ms, "A|v1") == "A|v1"
  {
    WithoutChar("A|v1", ',');
    SplitWithout("A|v1", ",");
    assert PartMonitors(ms, ["A|v1"]) == [ms[0]] + PartMonitors(ms, []);
    assert Uuids([ms[0]]) == ["A|v1"];
    assert Sort(["A|v1"]) == ["A|v1"];
  }

  lemma OnlyScreenUnchanged(ms: seq<Monitor>, c: ScreenConfig, screens': Screens)
    requires IsKnownKey(ms, "A|v1") && NewKey(ms, "A|v1") == "A|v1"
    requires ModeUpdated(ms, c.mirror) == c.mirror && c.extend == None && c.single == None
    requires c.onlyOneMap == map[] && c.onlyOneUuid == "" && !NeedsUpdate(ms, "")
    requires ScreensMigrated(ms, map["A|v1" := Some(c)], screens')
    ensures screens' == map["A|v1" := Some(c)]
  {
    hide IsKnownKey, NewKey;
    var m: Screens := map["A|v1" := Some(c)];
    var moves, dest, rel := (k: string, c: Option<ScreenConfig>) => ScreenMoves(ms, k, c), (k: string) => NewKey(ms, k),
                            (c: Option<ScreenConfig>, c': Option<ScreenConfig>) => ScreenMigrated(ms, c, c');
    assert Destination(m, moves, dest, "A|v1") == "A|v1";
    forall k' | k' in screens' ensures k' == "A|v1" && screens'[k'] == Some(c) {
      if MovedTo(m, screens', moves, dest, rel, k') {
        var k :| Fills(m, screens'[k'], moves, dest, rel, k', k);
        assert k == "A|v1";
        var c' := screens'[k'].value;
        assert c'.onlyOneMap == map[] by {
          forall u ensures u !in c'.onlyOneMap {
          }
        }
      }
    }
  }

  /** A report of change can be wrong: a mode that names one known and one unknown monitor by old ids is
      reported but left as it is. */
  lemma ReportCanBeWrong(a: MonitorConfig, b: MonitorConfig)
    requires a.uuid == "A" && b.uuid == "B"
    ensures var ms := [Monitor("A|v1", "A")];
            var c := ScreenConfig(Some(ModeConfig([a, b])), None, None, map[], "");
            var screens: Screens := map["A|v1" := Some(c)];
            && WellFormed(ms) && SomethingMoves(ms, screens, map[])
            && forall screens' | ScreensMigrated(ms, screens, screens') :: screens' == screens
  {
    hide ScreensMigrated, IsKnownKey, NewKey;
    var ms := [Monitor("A|v1", "A")];
    var c := ScreenConfig(Some(ModeConfig([a, b])), None, None, map[], "");
    var screens: Screens := map["A|v1" := Some(c)];
    assert IsCurrentVersion("A|v1");
    assert !IsCurrentVersion("B") && !IsKnown(ms, "B");
    assert NeedsUpdate(ms, "A");
    var cfgs := [a, b];
    assert !AllUpdatable(ms, cfgs) by {
      assert cfgs[1].uuid == "B";
    }
    assert SomeNeedsUpdate(ms, cfgs) by {
      assert cfgs[0].uuid == "A";
    }
    assert ModeUpdated(ms, Some(ModeConfig(cfgs))) == Some(ModeConfig(cfgs));
    SingleKeyIsOwn(ms);
    assert ScreenMoves(ms, "A|v1", screens["A|v1"]);
    forall screens' | ScreensMigrated(ms, screens, screens') ensures screens' == screens {
      OnlyScreenUnchanged(ms, c, screens');
    }
  }

  /** A screen that names an unknown monitor is left exactly as it was. */
  lemma UnknownScreenUntouched(ms: seq<Monitor>, screens: Screens, screens': Screens, key: string)
    requires WellFormed(ms) && ScreensMigrated(ms, screens, screens')
    requires key in screens && !IsKnownKey(ms, key)
    ensures key in screens' && screens'[key] == screens[key]
  {
    var moves, dest, rel := (k: string, c: Option<ScreenConfig>) => ScreenMoves(ms, k, c), (k: string) => NewKey(ms, k),
                            (c: Option<ScreenConfig>, c': Option<ScreenConfig>) => ScreenMigrated(ms, c, c');
    assert Destination(screens, moves, dest, key) == key;
    if MovedTo(screens, screens', moves, dest, rel, key) {
      var k :| Fills(screens, screens'[key], moves, dest, rel, key, k);
      NewKeyTwice(ms, ms, k);
      assert false;
    }
  }

  ghost predicate KeysStayApart(ms: seq<Monitor>, screens: Screens) {
    NoCollision(screens, (k, c) => ScreenMoves(ms, k, c), k => NewKey(ms, k))
  }

  /** Screens are lost exactly when two of them get the same key. */
  lemma ScreensKeptIff(ms: seq<Monitor>, screens: Screens, screens': Screens)
    requires ScreensMigrated(ms, screens, screens')
    ensures |screens'| == |screens| <==> KeysStayApart(ms, screens)
  {
    SizeKeptIff(screens, screens',
                (k, c) => ScreenMoves(ms, k, c), k => NewKey(ms, k), (c, c') => ScreenMigrated(ms, c, c'));
  }

  /** A screen that reports nothing is its own migration. */
  lemma SilentScreenIsMigrated(ms: seq<Monitor>, c: Option<ScreenConfig>)
    requires !ScreenReports(ms, c)
    ensures ScreenMigrated(ms, c, c)
  {
    if c.Some? {
      SilentModeIsUnchanged(ms, c.value.mirror);
      SilentModeIsUnchanged(ms, c.value.extend);
      SilentModeIsUnchanged(ms, c.value.single);
      var m := c.value.onlyOneMap;
      forall u | u in m
        ensures Destination(m, (u, c) => true, u => UpdateUuid(ms, u), u) == u
        ensures Fills(m, m[u], (u, c) => true, u => UpdateUuid(ms, u), (c, c') => c' == ModeUpdated(ms, c), u, u)
      {
        SilentModeIsUnchanged(ms, m[u]);
      }
    }
  }

  /** Otherwise every screen whose monitors are all known is found under the key its connected monitors
      are looked up by, with only ids rewritten. */
  lemma MigratedScreenIsFound(ms: seq<Monitor>, screens: Screens, screens': Screens, key: string,
                              connected: seq<Monitor>)
    requires ScreensMigrated(ms, screens, screens') && KeysStayApart(ms, screens)
    requires key in screens && IsKnownKey(ms, key)
    requires multiset(Uuids(connected)) == multiset(Uuids(PartMonitors(ms, Split(key, ","))))
    ensures MonitorsId(connected) in screens' && ScreenMigrated(ms, screens[key], screens'[MonitorsId(connected)])
  {
    hide ScreenMigrated, ScreenReports;
    if !ScreenReports(ms, screens[key]) {
      SilentScreenIsMigrated(ms, screens[key]);
    }
    NewKeyIsLookupKey(ms, key, connected);
    FoundAtDestination(screens, screens', (k, c) => ScreenMoves(ms, k, c), k => NewKey(ms, k),
                       (c, c') => ScreenMigrated(ms, c, c'), key);
  }
}
