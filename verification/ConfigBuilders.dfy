/** The configurations built for the mirror and the extend mode when nothing is stored
    (display/manager.go, display/util.go). */
module ConfigBuilders {
  import opened Ints
  import opened RandR
  import opened Modes
  import opened DisplayConfig
  import WlRect

  datatype Mon = Mon(id: uint32, name: string, uuid: string, modes: seq<ModeInfo>, bestMode: ModeInfo)

  predicate DistinctIds(ms: seq<Mon>) { forall i, j | 0 <= i < j < |ms| :: ms[i].id != ms[j].id }

  function BestSize(m: Mon): Size { Size(m.bestMode.width, m.bestMode.height) }

  ghost predicate Supports(m: Mon, size: Size) { exists k :: k in m.modes && k.HasSize(size.width, size.height) }

  ghost predicate SupportedByAll(ms: seq<Mon>, size: Size) { forall m | m in ms :: Supports(m, size) }

  predicate SameBestMode(ms: seq<Mon>) { forall m | m in ms :: m.bestMode == ms[0].bestMode }

  // ---- Sizes that every monitor supports ----

  type Counts = map<Size, nat>

  function Count(count: Counts, size: Size): nat { if size in count then count[size] else 0 }

  /** How many of the monitors support the size. */
  ghost function Having(ms: seq<Mon>, size: Size): (n: nat)
    ensures n <= |ms|
  {
    if ms == [] then 0 else Having(ms[..|ms| - 1], size) + if Supports(ms[|ms| - 1], size) then 1 else 0
  }

  lemma {:induction false} AllHaveIff(ms: seq<Mon>, size: Size)
    ensures Having(ms, size) == |ms| <==> SupportedByAll(ms, size)
  {
    if ms != [] {
      AllHaveIff(ms[..|ms| - 1], size);
      assert forall m :: m in ms <==> m in ms[..|ms| - 1] || m == ms[|ms| - 1];
    }
  }

  method GetSizeModeMap(modes: seq<ModeInfo>) returns (result: map<Size, seq<uint32>>)
    ensures forall size :: size in result <==> exists k :: k in modes && k.HasSize(size.width, size.height)
  {
    result := map[];
    for i := 0 to |modes|
      invariant forall size :: size in result <==> exists j :: 0 <= j < i && modes[j].HasSize(size.width, size.height)
    {
      var size := Size(modes[i].width, modes[i].height);
      result := result[size := (if size in result then result[size] else []) + [modes[i].id]];
    }
  }

  method CountSizes(count: Counts, sizes: set<Size>) returns (count': Counts)
    ensures forall size :: Count(count', size) == Count(count, size) + if size in sizes then 1 else 0
  {
    count' := count;
    var todo := sizes;
    while todo != {}
      invariant todo <= sizes
      invariant forall size :: Count(count', size) == Count(count, size) + if size in sizes - todo then 1 else 0
    {
      var size :| size in todo;
      todo := todo - {size};
      count' := count'[size := Count(count', size) + 1];
    }
  }

  method FullCounts(count: Counts, n: nat) returns (sizes: seq<Size>)
    requires n > 0
    ensures forall size :: size in sizes <==> Count(count, size) == n
  {
    sizes := [];
    var todo := count.Keys;
    while todo != {}
      invariant todo <= count.Keys
      invariant forall size :: size in sizes <==> size in count && size !in todo && count[size] == n
    {
      var size :| size in todo;
      todo := todo - {size};
      if count[size] == n {
        sizes := sizes + [size];
      }
    }
  }

  /** The common best size, if the best modes are all the same, whether or not it is among the modes;
      otherwise the sizes that every monitor supports. */
  method GetMonitorsCommonSizes(ms: seq<Mon>) returns (sizes: seq<Size>)
    requires ms != []
    ensures if SameBestMode(ms) then sizes == [BestSize(ms[0])]
            else forall size :: size in sizes <==> SupportedByAll(ms, size)
  {
    var notUseBestMode := false;
    var count: Counts := map[];
    for i := 0 to |ms|
      invariant notUseBestMode <==> exists j :: 0 <= j < i && ms[j].bestMode != ms[0].bestMode
      invariant forall size :: Count(count, size) == Having(ms[..i], size)
    {
      if ms[0].bestMode != ms[i].bestMode {
        notUseBestMode := true;
      }
      var smm := GetSizeModeMap(ms[i].modes);
      count := CountSizes(count, smm.Keys);
      assert ms[..i + 1][..i] == ms[..i];
      assert forall size :: size in smm.Keys <==> Supports(ms[i], size);
    }
    assert ms[..|ms|] == ms;
    if !notUseBestMode {
      return [BestSize(ms[0])];
    }
    sizes := FullCounts(count, |ms|);
    forall size ensures size in sizes <==> SupportedByAll(ms, size) {
      AllHaveIff(ms, size);
    }
  }

  function Area(s: Size): nat { s.width * s.height }

  ghost predicate IsFirstLargest(sizes: seq<Size>, k: int) {
    && 0 <= k < |sizes|
    && (forall j | 0 <= j < |sizes| :: Area(sizes[j]) <= Area(sizes[k]))
    && (forall j | 0 <= j < k :: Area(sizes[j]) < Area(sizes[k]))
  }

  /** The first of the largest sizes. */
  method GetMaxAreaSize(sizes: seq<Size>) returns (r: Size)
    ensures sizes == [] ==> r == Size(0, 0)
    ensures sizes != [] ==> exists k :: IsFirstLargest(sizes, k) && sizes[k] == r
  {
    if |sizes| == 0 {
      return Size(0, 0);
    }
    r := sizes[0];
    ghost var k := 0;
    for i := 1 to |sizes|
      invariant 0 <= k < i && sizes[k] == r
      invariant forall j | 0 <= j < i :: Area(sizes[j]) <= Area(r)
      invariant forall j | 0 <= j < k :: Area(sizes[j]) < Area(r)
    {
      if r.width * r.height < sizes[i].width * sizes[i].height {
        r := sizes[i];
        k := i;
      }
    }
    assert IsFirstLargest(sizes, k);
  }

  // ---- Sorting monitors in place ----

  type Order = (Mon, Mon) -> bool

  ghost predicate IsTransitive(less: Order) { forall a, b, c :: less(a, b) && less(b, c) ==> less(a, c) }

  /** No two monitors of the list come before each other. */
  ghost predicate IsAsymmetric(ms: seq<Mon>, less: Order) {
    forall i, j | 0 <= i < j < |ms| :: !(less(ms[i], ms[j]) && less(ms[j], ms[i]))
  }

  /** No monitor comes before one that is listed earlier. */
  ghost predicate InOrder(ms: seq<Mon>, less: Order) { forall i, j | 0 <= i < j < |ms| :: !less(ms[j], ms[i]) }

  function InsertMonitor(m: Mon, ms: seq<Mon>, less: Order): seq<Mon> {
    if ms == [] then [m] else if less(m, ms[0]) then [m] + ms else [ms[0]] + InsertMonitor(m, ms[1..], less)
  }

  function SortMonitors(ms: seq<Mon>, less: Order): seq<Mon> {
    if ms == [] then [] else InsertMonitor(ms[0], SortMonitors(ms[1..], less), less)
  }

  lemma {:induction false} InsertAdds(m: Mon, ms: seq<Mon>, less: Order)
    ensures multiset(InsertMonitor(m, ms, less)) == multiset(ms) + multiset{m}
  {
    if ms != [] {
      assert ms == [ms[0]] + ms[1..];
      InsertAdds(m, ms[1..], less);
    }
  }

  lemma InsertHas(m: Mon, ms: seq<Mon>, less: Order, k: Mon)
    ensures k in InsertMonitor(m, ms, less) <==> k == m || k in ms
  {
    InsertAdds(m, ms, less);
    assert k in InsertMonitor(m, ms, less) <==> k in multiset(InsertMonitor(m, ms, less));
  }

  lemma {:induction false} InsertKeepsOrder(m: Mon, ms: seq<Mon>, less: Order)
    requires IsTransitive(less) && InOrder(ms, less)
    requires forall k | k in ms :: !(less(m, k) && less(k, m))
    ensures InOrder(InsertMonitor(m, ms, less), less)
  {
    if ms != [] {
      if less(m, ms[0]) {
        forall j | 0 <= j < |ms| ensures !less(ms[j], m) {
          assert j > 0 ==> !less(ms[j], ms[0]);
        }
      } else {
        InsertKeepsOrder(m, ms[1..], less);
        var r := InsertMonitor(m, ms[1..], less);
        forall j | 0 <= j < |r| ensures !less(r[j], ms[0]) {
          InsertHas(m, ms[1..], less, r[j]);
        }
      }
    }
  }

  /** The result of the sort: the same monitors, and in order if the order makes sense for them. */
  lemma {:induction false} SortMonitorsSorts(ms: seq<Mon>, less: Order)
    ensures multiset(SortMonitors(ms, less)) == multiset(ms)
    ensures forall k :: k in SortMonitors(ms, less) <==> k in ms
    ensures IsTransitive(less) && IsAsymmetric(ms, less) ==> InOrder(SortMonitors(ms, less), less)
  {
    if ms != [] {
      hide IsTransitive;
      assert ms == [ms[0]] + ms[1..];
      var rest := SortMonitors(ms[1..], less);
      SortMonitorsSorts(ms[1..], less);
      InsertAdds(ms[0], rest, less);
      if IsTransitive(less) && IsAsymmetric(ms, less) {
        InsertKeepsOrder(ms[0], rest, less);
      }
      forall k ensures k in SortMonitors(ms, less) <==> k in ms {
        InsertHas(ms[0], rest, less, k);
      }
    }
  }

  // ---- The primary monitor ----

  /** How early a monitor comes: by port type, then by the time it was last connected. */
  datatype Rank = Rank(priority: int, time: int) {
    predicate Before(other: Rank) { priority < other.priority || (priority == other.priority && time < other.time) }
  }

  predicate NoLater(a: Rank, b: Rank) { a.priority < b.priority || (a.priority == b.priority && a.time <= b.time) }

  predicate Outranks(a: Mon, b: Mon, rank: string -> Rank) { rank(a.name).Before(rank(b.name)) }

  function ByRank(rank: string -> Rank): Order { (a: Mon, b: Mon) => Outranks(a, b, rank) }

  lemma RankMakesSense(ms: seq<Mon>, rank: string -> Rank)
    ensures IsTransitive(ByRank(rank)) && IsAsymmetric(ms, ByRank(rank))
  {
    forall a, b, c | ByRank(rank)(a, b) && ByRank(rank)(b, c) ensures ByRank(rank)(a, c) {
      assert Outranks(a, b, rank) && Outranks(b, c, rank);
    }
    forall i, j | 0 <= i < j < |ms| ensures !(ByRank(rank)(ms[i], ms[j]) && ByRank(rank)(ms[j], ms[i])) {
      assert !(Outranks(ms[i], ms[j], rank) && Outranks(ms[j], ms[i], rank));
    }
  }

  /** Sorts the list by rank and takes the first. `sorted` is the list as the call leaves it. */
  method GetPriorMonitor(ms: seq<Mon>, rank: string -> Rank) returns (r: Mon, sorted: seq<Mon>)
    requires ms != []
    ensures multiset(sorted) == multiset(ms) && InOrder(sorted, ByRank(rank))
    ensures sorted != [] && r == sorted[0]
    ensures r in ms && forall m | m in ms :: NoLater(rank(r.name), rank(m.name))
  {
    RankMakesSense(ms, rank);
    SortMonitorsSorts(ms, ByRank(rank));
    sorted := SortMonitors(ms, ByRank(rank));
    assert |sorted| == |multiset(sorted)| == |ms|;
    r := sorted[0];
    forall m | m in ms ensures NoLater(rank(r.name), rank(m.name)) {
      var k :| 0 <= k < |sorted| && sorted[k] == m;
      assert k > 0 ==> !ByRank(rank)(sorted[k], sorted[0]);
    }
  }

  ghost predicate IsDefaultPrimary(ms: seq<Mon>, builtin: Option<Mon>, rank: string -> Rank, p: Mon) {
    if builtin.Some? && exists m :: m in ms && m.id == builtin.value.id then p == builtin.value
    else p in ms && forall m | m in ms :: NoLater(rank(p.name), rank(m.name))
  }

  /** The list of monitors as the search for the primary monitor leaves it: sorted by rank unless the built-in
      monitor is listed. */
  ghost predicate IsLeft(ms: seq<Mon>, builtin: Option<Mon>, rank: string -> Rank, left: seq<Mon>) {
    if builtin.Some? && exists m :: m in ms && m.id == builtin.value.id then left == ms
    else multiset(left) == multiset(ms) && InOrder(left, ByRank(rank))
  }

  /** The built-in monitor if it is connected, else the one that comes first. */
  method GetDefaultPrimaryMonitor(ms: seq<Mon>, builtin: Option<Mon>, rank: string -> Rank)
    returns (p: Option<Mon>, left: seq<Mon>)
    ensures p == None <==> ms == []
    ensures p.Some? ==> IsDefaultPrimary(ms, builtin, rank, p.value) && exists m :: m in ms && m.id == p.value.id
    ensures builtin.Some? && (exists m :: m in ms && m.id == builtin.value.id) ==> p == builtin && left == ms
    ensures IsLeft(ms, builtin, rank, left)
  {
    if |ms| == 0 {
      return None, ms;
    }
    if builtin.Some? && exists i :: 0 <= i < |ms| && ms[i].id == builtin.value.id {
      return builtin, ms;
    }
    var prior, sorted := GetPriorMonitor(ms, rank);
    return Some(prior), sorted;
  }

  lemma LeftHasAll(ms: seq<Mon>, builtin: Option<Mon>, rank: string -> Rank, left: seq<Mon>)
    requires IsLeft(ms, builtin, rank, left)
    ensures multiset(left) == multiset(ms) && |left| == |ms| && forall m :: m in left <==> m in ms
  {
    assert |multiset(left)| == |left| && |multiset(ms)| == |ms|;
    forall m ensures m in left <==> m in ms {
      assert m in left <==> m in multiset(left);
    }
  }

  // ---- Mirror ----

  function BasicConfig(m: Mon, primary: Mon, mode: ModeInfo, x: int16): MonitorConfig {
    MonitorConfig(m.uuid, m.name, true, x, 0, mode.width, mode.height, ROTATE_0, 0, mode.rate, 1.0, m.id == primary.id)
  }

  function MirrorConfig(m: Mon, primary: Mon, size: Size): MonitorConfig {
    BasicConfig(m, primary, FirstBySize(m.modes, size.width, size.height), 0)
  }

  ghost predicate IsChosenSize(ms: seq<Mon>, size: Size)
    requires ms != []
  {
    if SameBestMode(ms) then size == BestSize(ms[0])
    else
      && SupportedByAll(ms, size)
      && forall other | SupportedByAll(ms, other) :: other.width * other.height <= size.width * size.height
  }

  /** What both modes ask of a monitor, field by field: it is on, upright, not reflected, at full brightness and at
      the top; it is the primary one exactly when it has the id of the primary monitor. */
  predicate IsBuiltFor(c: MonitorConfig, m: Mon, primary: Mon) {
    && c.uuid == m.uuid && c.name == m.name && c.enabled && (c.primary <==> m.id == primary.id)
    && c.y == 0 && c.rotation == 1 && c.reflect == 0 && c.brightness == 1.0
  }

  /** In mirror mode the monitors lie on each other, at the chosen size if they have it. */
  lemma MirrorIsBuilt(m: Mon, primary: Mon, size: Size)
    ensures var c := MirrorConfig(m, primary, size);
            && IsBuiltFor(c, m, primary) && c.x == 0
            && (Supports(m, size) && ZERO_MODE !in m.modes ==> c.width == size.width && c.height == size.height)
  {
    if Supports(m, size) {
      var k :| k in m.modes && k.HasSize(size.width, size.height);
      FirstExists(m.modes, (k: ModeInfo) => k.HasSize(size.width, size.height), k);
    }
  }

  /** The loop over the monitors. */
  method ConfigureMirrored(left: seq<Mon>, primaryMonitor: Mon, size: Size) returns (result: seq<MonitorConfig>)
    ensures |result| == |left| && forall i | 0 <= i < |left| :: result[i] == MirrorConfig(left[i], primaryMonitor, size)
    ensures forall i | 0 <= i < |left| :: IsBuiltFor(result[i], left[i], primaryMonitor)
  {
    result := [];
    for i := 0 to |left|
      invariant |result| == i
      invariant forall j | 0 <= j < i :: result[j] == MirrorConfig(left[j], primaryMonitor, size)
    {
      var cfg := MonitorConfig(left[i].uuid, left[i].name, true, 0, 0, 0, 0, 0, 0, 0.0, 0.0, false);
      if left[i].id == primaryMonitor.id {
        cfg := cfg.(primary := true);
      }
      var mode := FirstBySize(left[i].modes, size.width, size.height);
      cfg := cfg.(width := mode.width, height := mode.height, refreshRate := mode.rate, x := 0, y := 0,
                  rotation := ROTATE_0, reflect := 0, brightness := 1.0);
      result := result + [cfg];
    }
    forall i | 0 <= i < |left| ensures IsBuiltFor(result[i], left[i], primaryMonitor) {
      MirrorIsBuilt(left[i], primaryMonitor, size);
    }
  }

  /** `left` is the list of monitors as the call leaves it; the configurations come in its order. */
  method BuildConfigForModeMirror(ms: seq<Mon>, builtin: Option<Mon>, rank: string -> Rank)
    returns (cfgs: Option<seq<MonitorConfig>>, left: seq<Mon>, ghost size: Size, ghost primary: Mon)
    requires ms != []
    ensures cfgs == None <==> !SameBestMode(ms) && forall s :: !SupportedByAll(ms, s)
    ensures if cfgs == None then left == ms else IsLeft(ms, builtin, rank, left)
    ensures cfgs.Some? ==> IsChosenSize(ms, size) && IsDefaultPrimary(ms, builtin, rank, primary)
    ensures cfgs.Some? ==> |cfgs.value| == |left| == |ms|
    ensures cfgs.Some? ==> forall i | 0 <= i < |left| :: cfgs.value[i] == MirrorConfig(left[i], primary, size)
    ensures cfgs.Some? ==> forall i | 0 <= i < |left| :: IsBuiltFor(cfgs.value[i], left[i], primary)
    ensures cfgs.Some? && builtin.Some? && (exists m :: m in ms && m.id == builtin.value.id) ==>
              primary == builtin.value && left == ms
  {
    hide IsLeft, IsDefaultPrimary, MirrorConfig, IsBuiltFor, SupportedByAll;
    primary, left := ms[0], ms;
    var commonSizes := GetMonitorsCommonSizes(ms);
    if |commonSizes| == 0 {
      size := Size(0, 0);
      return None, left, size, primary;
    }
    assert commonSizes[0] in commonSizes;
    var maxSize := GetMaxAreaSize(commonSizes);
    size := maxSize;
    var primaryMonitor;
    primaryMonitor, left := GetDefaultPrimaryMonitor(ms, builtin, rank);
    LeftHasAll(ms, builtin, rank, left);
    primary := primaryMonitor.value;
    var result := ConfigureMirrored(left, primaryMonitor.value, maxSize);
    cfgs := Some(result);
  }

  function MirrorSize(m: Mon, primary: Mon, size: Size): Size {
    var c := MirrorConfig(m, primary, size);
    Size(c.width, c.height)
  }

  /** The monitors all show the chosen size exactly when they all support it; a best size that is missing
      from a monitor's modes leaves that monitor without a size. */
  lemma MirrorSizesIff(ms: seq<Mon>, primary: Mon, size: Size)
    requires size != Size(0, 0) && forall m | m in ms :: ZERO_MODE !in m.modes
    ensures (forall m | m in ms :: MirrorSize(m, primary, size) == size) <==> SupportedByAll(ms, size)
    ensures forall m | m in ms :: MirrorSize(m, primary, size) == size || MirrorSize(m, primary, size) == Size(0, 0)
  {
    forall m | m in ms
      ensures MirrorSize(m, primary, size) == size <==> Supports(m, size)
      ensures MirrorSize(m, primary, size) == size || MirrorSize(m, primary, size) == Size(0, 0)
    {
      var k := FirstBySize(m.modes, size.width, size.height);
      if k == ZERO_MODE && Supports(m, size) {
        var mode :| mode in m.modes && mode.HasSize(size.width, size.height);
        FirstExists(m.modes, (k: ModeInfo) => k.HasSize(size.width, size.height), mode);
      }
    }
  }

  /** Two monitors with the same best mode, 1920x1080, and nothing but an 800x600 mode: mirror mode chooses the best
      size, and shows neither monitor at any size. */
  lemma BestSizeCanBeMissing(a: Mon, b: Mon, primary: Mon)
    requires a.modes == b.modes == [ModeInfo(1, "800x600", 800, 600, 60.0)]
    requires a.bestMode == b.bestMode == ModeInfo(2, "1920x1080", 1920, 1080, 60.0)
    ensures IsChosenSize([a, b], Size(1920, 1080)) && !SupportedByAll([a, b], Size(1920, 1080))
    ensures MirrorSize(a, primary, Size(1920, 1080)) == MirrorSize(b, primary, Size(1920, 1080)) == Size(0, 0)
  {
    var ms, size := [a, b], Size(1920, 1080);
    assert !Supports(a, size) && a in ms && b in ms;
    assert MirrorSize(a, primary, size) == MirrorSize(b, primary, size);
    MirrorSizesIff(ms, primary, size);
  }

  /** With the best mode among the modes, the chosen size is supported by all. */
  lemma ChosenSizeIsSupported(ms: seq<Mon>, size: Size)
    requires ms != [] && IsChosenSize(ms, size)
    requires forall m | m in ms :: m.bestMode in m.modes
    ensures SupportedByAll(ms, size)
  {
    forall m | m in ms ensures Supports(m, size) {
      if SameBestMode(ms) {
        assert m.bestMode.HasSize(size.width, size.height);
      }
    }
  }

  /** Distinct ids make exactly one configuration primary. */
  lemma OnePrimary(ms: seq<Mon>, primary: Mon, cfgs: seq<MonitorConfig>) returns (p: nat)
    requires DistinctIds(ms) && |cfgs| == |ms|
    requires forall i | 0 <= i < |ms| :: cfgs[i].primary == (ms[i].id == primary.id)
    requires exists m :: m in ms && m.id == primary.id
    ensures p < |cfgs| && forall i | 0 <= i < |cfgs| :: cfgs[i].primary <==> i == p
  {
    var m :| m in ms && m.id == primary.id;
    p :| 0 <= p < |ms| && ms[p] == m;
  }

  // ---- Extend ----

  /** The order of sortMonitorsByPrimaryAndId: the primary monitor, then by id. */
  predicate Less(a: Mon, b: Mon, primary: Option<Mon>) {
    if primary == None then a.id < b.id
    else if a.name == primary.value.name then true
    else if b.name == primary.value.name then false
    else a.id < b.id
  }

  function ByPrimaryAndId(primary: Option<Mon>): Order { (a: Mon, b: Mon) => Less(a, b, primary) }

  predicate DistinctNames(ms: seq<Mon>) { forall i, j | 0 <= i < j < |ms| :: ms[i].name != ms[j].name }

  /** Two monitors come before each other exactly when both bear the primary monitor's name. */
  lemma OrderMakesSense(ms: seq<Mon>, primary: Option<Mon>)
    ensures IsTransitive(ByPrimaryAndId(primary))
    ensures DistinctNames(ms) ==> IsAsymmetric(ms, ByPrimaryAndId(primary))
  {
  }

  /** The widths of the best modes of the first n monitors. */
  function WidthBefore(ms: seq<Mon>, n: nat): nat
    requires n <= |ms|
  {
    if n == 0 then 0 else WidthBefore(ms, n - 1) + ms[n - 1].bestMode.width
  }

  function Capped(x: nat): int16 { if x > MAX_INT16 then MAX_INT16 else x }

  /** Where a monitor starts: int16 ends at 32767, and so do the offsets. */
  function StartOf(ms: seq<Mon>, n: nat): int16
    requires n <= |ms|
  {
    Capped(WidthBefore(ms, n))
  }

  function ExtendConfig(ms: seq<Mon>, i: nat, primary: Mon): MonitorConfig
    requires i < |ms|
  {
    BasicConfig(ms[i], primary, ms[i].bestMode, StartOf(ms, i))
  }

  /** The monitors after the primary one, which leads, come by their ids. */
  predicate PrimaryThenById(ms: seq<Mon>, primary: Mon) {
    && (forall i | 0 < i < |ms| :: ms[i].name != primary.name)
    && (forall i, j | 0 <= i < j < |ms| && ms[i].name != primary.name :: ms[i].id <= ms[j].id)
  }

  lemma SortedIsById(ms: seq<Mon>, primary: Mon)
    requires InOrder(ms, ByPrimaryAndId(Some(primary))) && DistinctNames(ms)
    ensures PrimaryThenById(ms, primary)
  {
    forall i | 0 < i < |ms| ensures ms[i].name != primary.name {
      assert !ByPrimaryAndId(Some(primary))(ms[i], ms[0]);
    }
    forall i, j | 0 <= i < j < |ms| && ms[i].name != primary.name ensures ms[i].id <= ms[j].id {
      assert !ByPrimaryAndId(Some(primary))(ms[j], ms[i]);
    }
  }

  /** In extend mode each monitor has its best mode, and starts where the one before it ends, or at 32767. */
  lemma ExtendIsBuilt(ms: seq<Mon>, i: nat, primary: Mon)
    requires i < |ms|
    ensures var c := ExtendConfig(ms, i, primary); var best := ms[i].bestMode;
            && IsBuiltFor(c, ms[i], primary)
            && c.width == best.width && c.height == best.height && c.refreshRate == best.rate
    ensures i == 0 ==> ExtendConfig(ms, i, primary).x == 0
    ensures i > 0 ==>
              var before := ExtendConfig(ms, i - 1, primary);
              ExtendConfig(ms, i, primary).x ==
                if before.x + before.width > 32767 then 32767 else before.x + before.width
  {
    if i > 0 {
      assert WidthBefore(ms, i) == WidthBefore(ms, i - 1) + ms[i - 1].bestMode.width;
    }
  }

  lemma {:induction false} ListedOnce(ms: seq<Mon>, m: Mon)
    requires DistinctNames(ms)
    ensures multiset(ms)[m] <= 1
  {
    if ms != [] {
      assert ms == [ms[0]] + ms[1..];
      ListedOnce(ms[1..], m);
      assert m == ms[0] ==> m !in ms[1..];
    }
  }

  lemma NamesStayDistinct(ms: seq<Mon>, left: seq<Mon>)
    requires multiset(left) == multiset(ms)
    ensures DistinctNames(ms) ==> DistinctNames(left)
  {
    if DistinctNames(ms) {
      forall i, j | 0 <= i < j < |left| ensures left[i].name != left[j].name {
        ListedOnce(ms, left[i]);
        assert left == left[..j] + left[j..];
        assert left[i] in left[..j] && left[j] in left[j..];
        assert left[i] in multiset(ms) && left[j] in multiset(ms);
      }
    }
  }

  /** Finds the primary monitor and sorts the list, once more if the search has already sorted it by rank. */
  method SortForExtend(ms: seq<Mon>, builtin: Option<Mon>, rank: string -> Rank)
    returns (primary: Option<Mon>, sorted: seq<Mon>)
    ensures primary == None <==> ms == []
    ensures primary.Some? ==> IsDefaultPrimary(ms, builtin, rank, primary.value)
    ensures builtin.Some? && (exists m :: m in ms && m.id == builtin.value.id) ==> primary == builtin
    ensures multiset(sorted) == multiset(ms) && (sorted == [] <==> ms == [])
    ensures DistinctNames(ms) ==> InOrder(sorted, ByPrimaryAndId(primary))
  {
    hide SortMonitors, IsDefaultPrimary, InOrder, IsLeft, IsTransitive, ByPrimaryAndId;
    var left;
    primary, left := GetDefaultPrimaryMonitor(ms, builtin, rank);
    LeftHasAll(ms, builtin, rank, left);
    NamesStayDistinct(ms, left);
    OrderMakesSense(left, primary);
    SortMonitorsSorts(left, ByPrimaryAndId(primary));
    sorted := SortMonitors(left, ByPrimaryAndId(primary));
    assert ms != [] ==> ms[0] in left && left[0] in ms;
  }

  lemma StartsAtZero(ms: seq<Mon>)
    ensures StartOf(ms, 0) == 0
  {
  }

  /** Capping every offset amounts to capping the sum. */
  lemma NextStart(ms: seq<Mon>, i: nat)
    requires i < |ms|
    ensures StartOf(ms, i) >= 0 && Capped(StartOf(ms, i) + ms[i].bestMode.width) == StartOf(ms, i + 1)
  {
  }

  /** `sorted` is the list of monitors as the call leaves it. */
  method BuildConfigForModeExtend(ms: seq<Mon>, builtin: Option<Mon>, rank: string -> Rank)
    returns (cfgs: seq<MonitorConfig>, sorted: seq<Mon>, ghost primary: Option<Mon>)
    ensures primary == None <==> ms == []
    ensures primary.Some? ==> IsDefaultPrimary(ms, builtin, rank, primary.value)
    ensures multiset(sorted) == multiset(ms) && (sorted == [] <==> ms == [])
    ensures DistinctNames(ms) ==> InOrder(sorted, ByPrimaryAndId(primary))
    ensures ms != [] && DistinctNames(ms) ==> PrimaryThenById(sorted, primary.value)
    ensures builtin.Some? && (exists m :: m in ms && m.id == builtin.value.id) ==> primary == builtin
    ensures |cfgs| == |sorted| && forall i | 0 <= i < |cfgs| :: cfgs[i] == ExtendConfig(sorted, i, primary.value)
    ensures forall i | 0 <= i < |cfgs| :: IsBuiltFor(cfgs[i], sorted[i], primary.value)
  {
    hide IsDefaultPrimary, InOrder, DistinctNames, ByPrimaryAndId, WidthBefore, StartOf, ToInt16, IsBuiltFor,
      PrimaryThenById;
    var primaryMonitor;
    primaryMonitor, sorted := SortForExtend(ms, builtin, rank);
    primary := primaryMonitor;
    if ms != [] && DistinctNames(ms) {
      NamesStayDistinct(ms, sorted);
      SortedIsById(sorted, primary.value);
    }
    StartsAtZero(sorted);
    var xOffset := 0;
    cfgs := [];
    for i := 0 to |sorted|
      invariant |cfgs| == i && 0 <= xOffset
      invariant forall j | 0 <= j < i :: cfgs[j] == ExtendConfig(sorted, j, primary.value)
      invariant Capped(xOffset) == StartOf(sorted, i)
    {
      var cfg := MonitorConfig(sorted[i].uuid, sorted[i].name, true, 0, 0, 0, 0, 0, 0, 0.0, 0.0, false);
      if sorted[i].id == primaryMonitor.value.id {
        cfg := cfg.(primary := true);
      }
      var mode := sorted[i].bestMode;
      cfg := cfg.(width := mode.width, height := mode.height, refreshRate := mode.rate);
      if xOffset > MAX_INT16 {
        xOffset := MAX_INT16;
      }
      cfg := cfg.(x := ToInt16(xOffset), rotation := ROTATE_0, brightness := 1.0);
      NextStart(sorted, i);
      xOffset := xOffset + cfg.width;
      cfgs := cfgs + [cfg];
    }
    forall i | 0 <= i < |cfgs| ensures IsBuiltFor(cfgs[i], sorted[i], primary.value) {
      ExtendIsBuilt(sorted, i, primary.value);
    }
  }

  /** The primary monitor comes first and starts at zero, if it is one of the monitors. */
  lemma PrimaryIsFirst(sorted: seq<Mon>, primary: Mon)
    requires InOrder(sorted, ByPrimaryAndId(Some(primary))) && primary in sorted
    ensures sorted[0] == primary && ExtendConfig(sorted, 0, primary).primary && ExtendConfig(sorted, 0, primary).x == 0
  {
    var k :| 0 <= k < |sorted| && sorted[k] == primary;
    assert forall j | 0 < j < |sorted| :: !ByPrimaryAndId(Some(primary))(sorted[j], sorted[0]);
  }

  lemma {:induction false} WidthsGrow(ms: seq<Mon>, i: nat, j: nat)
    requires i <= j <= |ms|
    ensures WidthBefore(ms, i) <= WidthBefore(ms, j)
    decreases j - i
  {
    if i < j {
      WidthsGrow(ms, i, j - 1);
    }
  }

  /** Positions never wrap: from left to right they only grow. */
  lemma PositionsGrow(ms: seq<Mon>, primary: Mon, i: nat, j: nat)
    requires i <= j < |ms|
    ensures 0 <= ExtendConfig(ms, i, primary).x <= ExtendConfig(ms, j, primary).x
  {
    WidthsGrow(ms, i, j);
  }

  predicate Overlaps(a: MonitorConfig, b: MonitorConfig) {
    WlRect.Overlap(a.x, a.width, b.x, b.width) && WlRect.Overlap(a.y, a.height, b.y, b.height)
  }

  /** The first monitor that would start beyond int16. */
  lemma {:induction false} FirstBeyond(ms: seq<Mon>, n: nat) returns (j: nat)
    requires n <= |ms| && WidthBefore(ms, n) > MAX_INT16
    ensures 0 < j <= n && WidthBefore(ms, j - 1) <= MAX_INT16 < WidthBefore(ms, j)
  {
    if WidthBefore(ms, n - 1) <= MAX_INT16 {
      j := n;
    } else {
      j := FirstBeyond(ms, n - 1);
    }
  }

  /** No two monitors overlap exactly when all but the last fit into the range of int16. */
  lemma DisjointIff(ms: seq<Mon>, primary: Mon)
    requires |ms| >= 1 && forall m | m in ms :: m.bestMode.width > 0 && m.bestMode.height > 0
    ensures (forall i: nat, j: nat | i < j < |ms| ::
              !Overlaps(ExtendConfig(ms, i, primary), ExtendConfig(ms, j, primary)))
       <==> WidthBefore(ms, |ms| - 1) <= MAX_INT16
  {
    var n := |ms| - 1;
    if WidthBefore(ms, n) <= MAX_INT16 {
      forall i: nat, j: nat | i < j < |ms|
        ensures !Overlaps(ExtendConfig(ms, i, primary), ExtendConfig(ms, j, primary))
      {
        WidthsGrow(ms, i + 1, j);
        WidthsGrow(ms, j, n);
        assert WidthBefore(ms, i + 1) == WidthBefore(ms, i) + ms[i].bestMode.width;
      }
    } else {
      var j := FirstBeyond(ms, n);
      assert ms[j] in ms && ms[j - 1] in ms;
      assert Overlaps(ExtendConfig(ms, j - 1, primary), ExtendConfig(ms, j, primary));
    }
  }

  /** Three monitors, each 16384 wide: the third should start at 32768, starts at 32767, and overlaps the second. */
  lemma ThirdMonitorCanOverlap(a: Mon, b: Mon, c: Mon, primary: Mon)
    requires a.bestMode.width == b.bestMode.width == c.bestMode.width == 16384
    requires b.bestMode.height > 0 && c.bestMode.height > 0
    ensures Overlaps(ExtendConfig([a, b, c], 1, primary), ExtendConfig([a, b, c], 2, primary))
  {
    var ms := [a, b, c];
    assert WidthBefore(ms, 1) == 16384 && WidthBefore(ms, 2) == 32768;
  }
}
