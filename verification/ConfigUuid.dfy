/** Rewriting a stored configuration from old to new monitor ids (display/displayconf.go, updateUuid). */
module ConfigUuid {
  import opened DisplayConfig

  /** A connected monitor's identity: the new id and the old one. */
  datatype Monitor = Monitor(uuid: string, uuidV0: string)

  predicate IsCurrentVersion(uuid: string) { |uuid| >= 3 && uuid[|uuid| - 3..] == "|v1" }

  /** New ids are marked as such and old ones are not; new ids contain no delimiter. */
  predicate WellFormed(ms: seq<Monitor>) {
    forall i | 0 <= i < |ms| ::
      && IsCurrentVersion(ms[i].uuid) && !IsCurrentVersion(ms[i].uuidV0)
      && ',' !in ms[i].uuid && ':' !in ms[i].uuid
  }

  // ---- Where the ids come from; `md5` is the digest of the EDID, empty if there is none ----

  function OutputUuid(name: string, stdName: string, edidLength: nat, md5: string): string {
    if edidLength < 128 || md5 == "" then name + "||v1"
    else (if stdName != "" then "@" + stdName else name) + "|" + md5 + "|v1"
  }

  function OutputUuidV0(name: string, edidLength: nat, md5: string): string {
    if edidLength < 128 || md5 == "" then name else name + md5
  }

  predicate IsHex(s: string) { forall c | c in s :: '0' <= c <= '9' || 'a' <= c <= 'f' }

  predicate WithoutDelimiter(s: string) { ',' !in s && ':' !in s }

  /** The ids of an output are well formed exactly when the name in the new id contains no delimiter and
      the old id, if it is just the name, does not look like a new one. */
  lemma OutputIdsAreWellFormedIff(name: string, stdName: string, edidLength: nat, md5: string)
    requires IsHex(md5) && (md5 == "" || |md5| == 32)
    ensures var known := edidLength >= 128 && md5 != "";
            WellFormed([Monitor(OutputUuid(name, stdName, edidLength, md5), OutputUuidV0(name, edidLength, md5))]) <==>
              if known then WithoutDelimiter(if stdName != "" then stdName else name)
              else WithoutDelimiter(name) && !(|name| >= 3 && name[|name| - 3..] == "|v1")
  {
    var v1, v0 := OutputUuid(name, stdName, edidLength, md5), OutputUuidV0(name, edidLength, md5);
    assert v1[|v1| - 3..] == "|v1";
    if edidLength >= 128 && md5 != "" {
      assert v0[|v0| - 3] == md5[29] && md5[29] in md5;
      assert v0[|v0| - 3..][0] == md5[29];
      var used := if stdName != "" then "@" + stdName else name;
      assert v1 == used + "|" + md5 + "|v1";
      assert ',' !in md5 && ':' !in md5;
    }
    var ms := [Monitor(v1, v0)];
    assert ms[0].uuid == v1 && ms[0].uuidV0 == v0;
  }

  function GetByUuid(ms: seq<Monitor>, uuid: string): (r: Option<Monitor>)
    ensures r.Some? ==> r.value in ms && uuid in {r.value.uuid, r.value.uuidV0}
    ensures r.None? ==> forall m | m in ms :: uuid != m.uuid && uuid != m.uuidV0
  {
    if ms == [] then None
    else if uuid in {ms[0].uuid, ms[0].uuidV0} then Some(ms[0])
    else GetByUuid(ms[1..], uuid)
  }

  predicate IsKnown(ms: seq<Monitor>, uuid: string) { GetByUuid(ms, uuid).Some? }

  predicate NeedsUpdate(ms: seq<Monitor>, uuid: string) { !IsCurrentVersion(uuid) && IsKnown(ms, uuid) }

  function UpdateUuid(ms: seq<Monitor>, uuid: string): string {
    if NeedsUpdate(ms, uuid) then GetByUuid(ms, uuid).value.uuid else uuid
  }

  predicate BearsId(m: Monitor, uuid: string) { m.uuid == uuid || m.uuidV0 == uuid }

  /** An id ending in "|v1" stays; any other becomes the new id of the first monitor that bears it, and stays
      if there is none. */
  ghost predicate IsUpdatedTo(ms: seq<Monitor>, uuid: string, r: string) {
    if |uuid| >= 3 && uuid[|uuid| - 3..] == "|v1" then r == uuid
    else
      && (forall k | 0 <= k < |ms| && BearsId(ms[k], uuid) && (forall l | 0 <= l < k :: !BearsId(ms[l], uuid)) ::
            r == ms[k].uuid)
      && ((forall m | m in ms :: !BearsId(m, uuid)) ==> r == uuid)
  }

  lemma {:induction false} FirstBearerIsFound(ms: seq<Monitor>, uuid: string, k: nat)
    requires k < |ms| && BearsId(ms[k], uuid) && forall l | 0 <= l < k :: !BearsId(ms[l], uuid)
    ensures GetByUuid(ms, uuid) == Some(ms[k])
  {
    if k > 0 {
      assert !BearsId(ms[0], uuid);
      assert forall l | 0 <= l < k - 1 :: ms[1..][l] == ms[l + 1];
      FirstBearerIsFound(ms[1..], uuid, k - 1);
    }
  }

  lemma UpdatedId(ms: seq<Monitor>, uuid: string)
    ensures IsUpdatedTo(ms, uuid, UpdateUuid(ms, uuid))
  {
    forall k | 0 <= k < |ms| && BearsId(ms[k], uuid) && (forall l | 0 <= l < k :: !BearsId(ms[l], uuid))
      ensures GetByUuid(ms, uuid) == Some(ms[k])
    {
      FirstBearerIsFound(ms, uuid, k);
    }
  }

  /** A new id names a monitor that has this very id. */
  lemma CurrentIdIsOwn(ms: seq<Monitor>, uuid: string)
    requires WellFormed(ms) && IsCurrentVersion(uuid) && IsKnown(ms, uuid)
    ensures GetByUuid(ms, uuid).value.uuid == uuid
  {
    var m := GetByUuid(ms, uuid).value;
    var i :| 0 <= i < |ms| && ms[i] == m;
  }

  /** The two lists name the same monitors: each call lists them afresh, in any order. */
  ghost predicate SameIds(ms: seq<Monitor>, ms': seq<Monitor>) {
    WellFormed(ms) && WellFormed(ms') && forall uuid :: IsKnown(ms, uuid) <==> IsKnown(ms', uuid)
  }

  lemma ListedAnew(ms: seq<Monitor>, ms': seq<Monitor>)
    requires WellFormed(ms) && multiset(ms) == multiset(ms')
    ensures SameIds(ms, ms')
  {
    forall m ensures m in ms <==> m in ms' {
      assert m in ms <==> m in multiset(ms);
    }
    forall i | 0 <= i < |ms'| ensures ms'[i] in ms {
      assert ms'[i] in ms';
    }
  }

  /** An id is rewritten once and for all, whoever comes first when the monitors are listed anew. */
  lemma UpdateUuidTwice(ms: seq<Monitor>, ms': seq<Monitor>, uuid: string)
    requires SameIds(ms, ms')
    ensures UpdateUuid(ms', UpdateUuid(ms, uuid)) == UpdateUuid(ms, uuid)
    ensures !NeedsUpdate(ms', UpdateUuid(ms, uuid))
    ensures ':' !in uuid ==> ':' !in UpdateUuid(ms, uuid)
  {
    if NeedsUpdate(ms, uuid) {
      var m := GetByUuid(ms, uuid).value;
      var i :| 0 <= i < |ms| && ms[i] == m;
    }
  }

  // ---- One mode ----

  /** Every old id in the list belongs to a known monitor. */
  predicate AllUpdatable(ms: seq<Monitor>, cfgs: seq<MonitorConfig>) {
    forall i | 0 <= i < |cfgs| :: IsCurrentVersion(cfgs[i].uuid) || IsKnown(ms, cfgs[i].uuid)
  }

  predicate SomeNeedsUpdate(ms: seq<Monitor>, cfgs: seq<MonitorConfig>) {
    exists i :: 0 <= i < |cfgs| && NeedsUpdate(ms, cfgs[i].uuid)
  }

  function WithNewIds(ms: seq<Monitor>, cfgs: seq<MonitorConfig>): (r: seq<MonitorConfig>)
    ensures |r| == |cfgs| && forall i | 0 <= i < |cfgs| :: r[i] == cfgs[i].(uuid := UpdateUuid(ms, cfgs[i].uuid))
  {
    if cfgs == [] then [] else [cfgs[0].(uuid := UpdateUuid(ms, cfgs[0].uuid))] + WithNewIds(ms, cfgs[1..])
  }

  /** All ids are rewritten, or none. */
  function ModeUpdated(ms: seq<Monitor>, c: Option<ModeConfig>): Option<ModeConfig> {
    match c
    case None => None
    case Some(mode) => if AllUpdatable(ms, mode.monitors) then Some(ModeConfig(WithNewIds(ms, mode.monitors))) else c
  }

  /** What the update reports, which is true even when it gave up on a partial update. */
  predicate ModeReports(ms: seq<Monitor>, c: Option<ModeConfig>) {
    c.Some? && SomeNeedsUpdate(ms, c.value.monitors)
  }

  /** The entries that survive the loop: known or current ones, with their new ids. */
  function Survivors(ms: seq<Monitor>, cfgs: seq<MonitorConfig>): (r: seq<MonitorConfig>)
    ensures |r| <= |cfgs|
  {
    if cfgs == [] then []
    else if IsCurrentVersion(cfgs[0].uuid) || IsKnown(ms, cfgs[0].uuid) then
      [cfgs[0].(uuid := UpdateUuid(ms, cfgs[0].uuid))] + Survivors(ms, cfgs[1..])
    else Survivors(ms, cfgs[1..])
  }

  lemma {:induction false} AllSurviveIff(ms: seq<Monitor>, cfgs: seq<MonitorConfig>)
    ensures |Survivors(ms, cfgs)| == |cfgs| <==> AllUpdatable(ms, cfgs)
    ensures AllUpdatable(ms, cfgs) ==> Survivors(ms, cfgs) == WithNewIds(ms, cfgs)
  {
    if cfgs != [] {
      AllSurviveIff(ms, cfgs[1..]);
      if AllUpdatable(ms, cfgs) {
        assert AllUpdatable(ms, cfgs[1..]);
      } else if AllUpdatable(ms, cfgs[1..]) {
        assert forall i | 0 < i < |cfgs| :: cfgs[i] == cfgs[1..][i - 1];
      }
    }
  }

  lemma SurvivorsStep(ms: seq<Monitor>, out: seq<MonitorConfig>, cfgs: seq<MonitorConfig>)
    requires cfgs != []
    ensures out + Survivors(ms, cfgs) ==
              (if IsCurrentVersion(cfgs[0].uuid) || IsKnown(ms, cfgs[0].uuid)
               then out + [cfgs[0].(uuid := UpdateUuid(ms, cfgs[0].uuid))] else out) + Survivors(ms, cfgs[1..])
  {
    hide IsCurrentVersion, IsKnown, UpdateUuid;
  }

  method UpdateMonitors(ms: seq<Monitor>, cfgs: seq<MonitorConfig>) returns (out: seq<MonitorConfig>, hasChanged: bool)
    ensures out == Survivors(ms, cfgs) && hasChanged == SomeNeedsUpdate(ms, cfgs)
  {
    out, hasChanged := [], false;
    for i := 0 to |cfgs|
      invariant out + Survivors(ms, cfgs[i..]) == Survivors(ms, cfgs)
      invariant hasChanged == exists k :: 0 <= k < i && NeedsUpdate(ms, cfgs[k].uuid)
    {
      var cfg := cfgs[i];
      SurvivorsStep(ms, out, cfgs[i..]);
      assert cfgs[i..][1..] == cfgs[i + 1..];
      if !IsCurrentVersion(cfg.uuid) {
        var monitor := GetByUuid(ms, cfg.uuid);
        if monitor.Some? {
          hasChanged := true;
          out := out + [cfg.(uuid := monitor.value.uuid)];
        }
      } else {
        out := out + [cfg];
      }
    }
  }

  lemma SilentModeIsUnchanged(ms: seq<Monitor>, c: Option<ModeConfig>)
    requires !ModeReports(ms, c)
    ensures ModeUpdated(ms, c) == c
  {
    if c.Some? {
      assert forall i | 0 <= i < |c.value.monitors| :: !NeedsUpdate(ms, c.value.monitors[i].uuid);
      assert WithNewIds(ms, c.value.monitors) == c.value.monitors;
    }
  }

  method UpdateMode(ms: seq<Monitor>, c: Option<ModeConfig>) returns (r: Option<ModeConfig>, hasChanged: bool)
    ensures r == ModeUpdated(ms, c) && hasChanged == ModeReports(ms, c)
  {
    if c == None {
      return None, false;
    }
    var cfgs := c.value.monitors;
    var out;
    out, hasChanged := UpdateMonitors(ms, cfgs);
    AllSurviveIff(ms, cfgs);
    if hasChanged && |out| == |cfgs| {
      r := Some(ModeConfig(out));
    } else {
      if !hasChanged {
        SilentModeIsUnchanged(ms, c);
      }
      r := Some(ModeConfig(cfgs));
    }
  }

  lemma ModeUpdatedTwice(ms: seq<Monitor>, ms': seq<Monitor>, c: Option<ModeConfig>)
    requires SameIds(ms, ms')
    ensures ModeUpdated(ms', ModeUpdated(ms, c)) == ModeUpdated(ms, c)
  {
    if c.Some? && AllUpdatable(ms, c.value.monitors) {
      var once := WithNewIds(ms, c.value.monitors);
      forall i | 0 <= i < |once| ensures once[i].(uuid := UpdateUuid(ms', once[i].uuid)) == once[i] {
        UpdateUuidTwice(ms, ms', c.value.monitors[i].uuid);
      }
      assert WithNewIds(ms', once) == once;
    }
  }

  /** Some id is rewritten, and none stands in the way. */
  predicate ModeChanges(ms: seq<Monitor>, c: Option<ModeConfig>) {
    ModeReports(ms, c) && AllUpdatable(ms, c.value.monitors)
  }

  lemma NeedsUpdateMeansOther(ms: seq<Monitor>, uuid: string)
    requires WellFormed(ms) && NeedsUpdate(ms, uuid)
    ensures UpdateUuid(ms, uuid) != uuid
  {
    var m := GetByUuid(ms, uuid).value;
    var i :| 0 <= i < |ms| && ms[i] == m;
  }

  /** A mode changes exactly when one of its ids can be rewritten and every other is new or can be too. */
  lemma ModeChangesIff(ms: seq<Monitor>, c: Option<ModeConfig>)
    requires WellFormed(ms)
    ensures ModeUpdated(ms, c) != c <==> ModeChanges(ms, c)
  {
    if ModeChanges(ms, c) {
      var cfgs := c.value.monitors;
      var i :| 0 <= i < |cfgs| && NeedsUpdate(ms, cfgs[i].uuid);
      NeedsUpdateMeansOther(ms, cfgs[i].uuid);
      assert WithNewIds(ms, cfgs)[i] != cfgs[i];
    } else if !ModeReports(ms, c) {
      SilentModeIsUnchanged(ms, c);
    }
  }

  // ---- Maps whose keys are rewritten ----

  /** The entry goes to another key, or its value becomes another. */
  ghost predicate EntryChanges<V(!new)>(m: map<string, V>, moves: (string, V) -> bool, dest: string -> string,
                                        differs: V -> bool, k: string) {
    k in m && moves(k, m[k]) && (dest(k) != k || differs(m[k]))
  }

  ghost function Destination<V(!new)>(m: map<string, V>, moves: (string, V) -> bool, dest: string -> string,
                                      k: string): string
    requires k in m
  {
    if moves(k, m[k]) then dest(k) else k
  }

  ghost predicate Fills<V(!new)>(m: map<string, V>, v': V, moves: (string, V) -> bool, dest: string -> string,
                                 rel: (V, V) -> bool, k': string, k: string) {
    k in m && moves(k, m[k]) && dest(k) == k' && rel(m[k], v')
  }

  ghost predicate MovedTo<V(!new)>(m: map<string, V>, m': map<string, V>, moves: (string, V) -> bool,
                                   dest: string -> string, rel: (V, V) -> bool, k': string)
    requires k' in m'
  {
    exists k :: Fills(m, m'[k'], moves, dest, rel, k', k)
  }

  ghost predicate StaysAt<V(!new)>(m: map<string, V>, m': map<string, V>, moves: (string, V) -> bool,
                                   dest: string -> string, k': string)
    requires k' in m'
  {
    && k' in m && !moves(k', m[k']) && m'[k'] == m[k']
    && forall k | k in m && moves(k, m[k]) :: dest(k) != k'
  }

  /** `m'` is `m` with some entries moved to a new key and their values rewritten, in any order; when two
      entries meet, a moved one wins over one that stays, and any one of several moved ones. */
  ghost predicate Rekeyed<V(!new)>(m: map<string, V>, m': map<string, V>, moves: (string, V) -> bool,
                                   dest: string -> string, rel: (V, V) -> bool) {
    && (forall k | k in m :: Destination(m, moves, dest, k) in m')
    && (forall k' | k' in m' :: MovedTo(m, m', moves, dest, rel, k') || StaysAt(m, m', moves, dest, k'))
  }

  /** A key that is not its own destination is gone afterwards. */
  lemma LeavesItsKey<V(!new)>(m: map<string, V>, m': map<string, V>, moves: (string, V) -> bool,
                              dest: string -> string, rel: (V, V) -> bool, k: string)
    requires Rekeyed(m, m', moves, dest, rel) && k in m && moves(k, m[k]) && dest(k) != k
    requires forall j | j in m && moves(j, m[j]) :: dest(dest(j)) == dest(j)
    ensures k !in m'
  {
    forall j, v ensures !Fills(m, v, moves, dest, rel, k, j) {
    }
  }

  /** The map changes exactly when some entry does, if new keys stay where they are and move no further. */
  lemma RekeyedChangesIff<V(!new)>(m: map<string, V>, m': map<string, V>, moves: (string, V) -> bool,
                                   dest: string -> string, rel: (V, V) -> bool, differs: V -> bool)
    requires Rekeyed(m, m', moves, dest, rel)
    requires forall k | k in m && moves(k, m[k]) :: dest(dest(k)) == dest(k)
    requires forall k, v | k in m && moves(k, m[k]) && rel(m[k], v) :: v != m[k] <==> differs(m[k])
    ensures m' != m <==> exists k :: EntryChanges(m, moves, dest, differs, k)
  {
    if k :| k in m && moves(k, m[k]) && dest(k) != k {
      LeavesItsKey(m, m', moves, dest, rel, k);
      assert EntryChanges(m, moves, dest, differs, k);
    } else if k :| EntryChanges(m, moves, dest, differs, k) {
      assert Destination(m, moves, dest, k) == k;
      assert MovedTo(m, m', moves, dest, rel, k);
      var j :| Fills(m, m'[k], moves, dest, rel, k, j);
    } else {
      forall k | k in m ensures k in m' && m'[k] == m[k] {
        assert !EntryChanges(m, moves, dest, differs, k);
        assert Destination(m, moves, dest, k) == k;
        if MovedTo(m, m', moves, dest, rel, k) {
          var j :| Fills(m, m'[k], moves, dest, rel, k, j);
          assert !EntryChanges(m, moves, dest, differs, j);
        }
      }
      forall k | k in m' ensures k in m {
        if MovedTo(m, m', moves, dest, rel, k) {
          var j :| Fills(m, m'[k], moves, dest, rel, k, j);
        }
      }
      assert m' == m;
    }
  }

  /** What a second rekeying may do after the first: move nothing that had no reason to move before, leave new keys
      where they are and rewritten values as they are. */
  ghost predicate AddsNothing<V(!new)>(m: map<string, V>, moves: (string, V) -> bool, dest: string -> string,
                                       rel: (V, V) -> bool, moves': (string, V) -> bool, dest': string -> string,
                                       rel': (V, V) -> bool) {
    && (forall k | k in m && moves'(k, m[k]) :: moves(k, m[k]))
    && (forall k | k in m && moves(k, m[k]) :: dest'(dest(k)) == dest(k))
    && (forall k, v, v' | k in m && moves(k, m[k]) && rel(m[k], v) && rel'(v, v') :: v' == v)
  }

  /** Then rekeying twice is rekeying once. */
  lemma RekeyedTwice<V(!new)>(m: map<string, V>, m': map<string, V>, m'': map<string, V>, moves: (string, V) -> bool,
                              dest: string -> string, rel: (V, V) -> bool, moves': (string, V) -> bool,
                              dest': string -> string, rel': (V, V) -> bool)
    requires Rekeyed(m, m', moves, dest, rel) && Rekeyed(m', m'', moves', dest', rel')
    requires AddsNothing(m, moves, dest, rel, moves', dest', rel')
    ensures m'' == m'
  {
    forall k' | k' in m'' ensures k' in m' && m''[k'] == m'[k'] {
      if MovedTo(m', m'', moves', dest', rel', k') {
        var k :| Fills(m', m''[k'], moves', dest', rel', k', k);
        if MovedTo(m, m', moves, dest, rel, k) {
          var j :| Fills(m, m'[k], moves, dest, rel, k, j);
        }
      }
    }
    forall k | k in m' ensures k in m'' {
      if MovedTo(m, m', moves, dest, rel, k) {
        var j :| Fills(m, m'[k], moves, dest, rel, k, j);
        assert Destination(m', moves', dest', k) == k;
      } else {
        assert Destination(m', moves', dest', k) == k;
      }
    }
  }

  lemma NothingMoves<V(!new)>(m: map<string, V>, m': map<string, V>,
                              moves: (string, V) -> bool, dest: string -> string, rel: (V, V) -> bool)
    requires Rekeyed(m, m', moves, dest, rel)
    requires forall k | k in m :: !moves(k, m[k])
    ensures m' == m
  {
    forall k | k in m ensures k in m' && m'[k] == m[k] {
      assert Destination(m, moves, dest, k) == k;
      assert !MovedTo(m, m', moves, dest, rel, k);
    }
    forall k | k in m' ensures k in m {
      assert !MovedTo(m, m', moves, dest, rel, k);
    }
  }

  ghost function Keys<V(!new)>(m: map<string, V>, moves: (string, V) -> bool, dest: string -> string): set<string> {
    set k | k in m :: Destination(m, moves, dest, k)
  }

  /** No two entries go to the same key. */
  ghost predicate NoCollision<V(!new)>(m: map<string, V>, moves: (string, V) -> bool, dest: string -> string) {
    forall j, k | j in m && k in m && j != k :: Destination(m, moves, dest, j) != Destination(m, moves, dest, k)
  }

  lemma {:induction false} ImageSize<V(!new)>(m: map<string, V>, keys: set<string>, moves: (string, V) -> bool,
                                              dest: string -> string)
    requires keys <= m.Keys
    ensures var image := set k | k in keys :: Destination(m, moves, dest, k);
            && |image| <= |keys|
            && (|image| == |keys| <==> forall j, k | j in keys && k in keys && j != k ::
                  Destination(m, moves, dest, j) != Destination(m, moves, dest, k))
  {
    var image := set k | k in keys :: Destination(m, moves, dest, k);
    if keys == {} {
      assert image == {};
    } else {
      var x :| x in keys;
      var rest := keys - {x};
      ImageSize(m, rest, moves, dest);
      var image' := set k | k in rest :: Destination(m, moves, dest, k);
      assert image == image' + {Destination(m, moves, dest, x)};
      if Destination(m, moves, dest, x) in image' {
        var k :| k in rest && Destination(m, moves, dest, k) == Destination(m, moves, dest, x);
        assert image == image';
      }
    }
  }

  /** Entries are lost exactly when two of them go to the same key. */
  lemma SizeKeptIff<V(!new)>(m: map<string, V>, m': map<string, V>,
                             moves: (string, V) -> bool, dest: string -> string, rel: (V, V) -> bool)
    requires Rekeyed(m, m', moves, dest, rel)
    ensures |m'| <= |m|
    ensures |m'| == |m| <==> NoCollision(m, moves, dest)
  {
    assert m'.Keys == Keys(m, moves, dest) by {
      forall k' | k' in m' ensures k' in Keys(m, moves, dest) {
        if MovedTo(m, m', moves, dest, rel, k') {
          var k :| Fills(m, m'[k'], moves, dest, rel, k', k);
          assert Destination(m, moves, dest, k) == k';
        } else {
          assert Destination(m, moves, dest, k') == k';
        }
      }
    }
    ImageSize(m, m.Keys, moves, dest);
    assert |m'| == |m'.Keys| && |m| == |m.Keys|;
  }

  /** Without collisions every entry is found at its destination, rewritten if it moved. */
  lemma FoundAtDestination<V(!new)>(m: map<string, V>, m': map<string, V>, moves: (string, V) -> bool,
                                    dest: string -> string, rel: (V, V) -> bool, k: string)
    requires Rekeyed(m, m', moves, dest, rel) && NoCollision(m, moves, dest) && k in m
    ensures Destination(m, moves, dest, k) in m'
    ensures if moves(k, m[k]) then rel(m[k], m'[dest(k)]) else m'[k] == m[k]
  {
    var k' := Destination(m, moves, dest, k);
    if MovedTo(m, m', moves, dest, rel, k') {
      var j :| Fills(m, m'[k'], moves, dest, rel, k', j);
      assert Destination(m, moves, dest, j) == k';
    } else {
      assert Destination(m, moves, dest, k') == k';
    }
  }
}
