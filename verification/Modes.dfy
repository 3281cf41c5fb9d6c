/** Display modes: lookup and filtering (display/mode.go). */
module Modes {
  import opened Ints

  datatype ModeInfo = ModeInfo(id: uint32, name: string, width: uint16, height: uint16, rate: real) {
    predicate IsZero() { this == ZERO_MODE }

    predicate HasSize(w: uint16, h: uint16) { width == w && height == h }
  }

  const ZERO_MODE: ModeInfo := ModeInfo(0, "", 0, 0, 0.0)

  // ---- Lookup: the first mode that fits, or the zero mode ----

  function FindFirst(modes: seq<ModeInfo>, fn: ModeInfo -> bool): (r: ModeInfo)
    ensures r != ZERO_MODE ==> r in modes && fn(r)
    ensures (forall m | m in modes :: !fn(m)) ==> r == ZERO_MODE
  {
    if modes == [] then ZERO_MODE else if fn(modes[0]) then modes[0] else FindFirst(modes[1..], fn)
  }

  method FindFirstMode(modes: seq<ModeInfo>, fn: ModeInfo -> bool) returns (r: ModeInfo)
    ensures r == FindFirst(modes, fn)
  {
    for i := 0 to |modes|
      invariant FindFirst(modes, fn) == FindFirst(modes[i..], fn)
    {
      if fn(modes[i]) {
        return modes[i];
      }
      assert modes[i..][1..] == modes[i + 1..];
    }
    return ZERO_MODE;
  }

  /** Whatever is found first stays first when more modes are appended. */
  lemma {:induction false} FoundFirstStays(modes: seq<ModeInfo>, more: seq<ModeInfo>, fn: ModeInfo -> bool)
    requires exists m :: m in modes && fn(m)
    ensures FindFirst(modes + more, fn) == FindFirst(modes, fn)
  {
    assert (modes + more)[0] == modes[0];
    if !fn(modes[0]) {
      assert (modes + more)[1..] == modes[1..] + more;
      FoundFirstStays(modes[1..], more, fn);
    }
  }

  function FirstBySize(modes: seq<ModeInfo>, w: uint16, h: uint16): ModeInfo {
    FindFirst(modes, (m: ModeInfo) => m.HasSize(w, h))
  }

  function RateDistance(a: real, b: real): real { if a < b then b - a else a - b }

  function FirstBySizeRate(modes: seq<ModeInfo>, w: uint16, h: uint16, rate: real): ModeInfo {
    FindFirst(modes, (m: ModeInfo) => m.HasSize(w, h) && RateDistance(m.rate, rate) <= 0.01)
  }

  function FindMode(modes: seq<ModeInfo>, id: uint32): ModeInfo { FindFirst(modes, (m: ModeInfo) => m.id == id) }

  // ---- Names ----

  predicate IsDigit(c: char) { '0' <= c <= '9' }

  /** The position of the first character at or after i that is no digit. */
  function AfterDigits(name: string, i: nat): (r: nat)
    requires i <= |name|
    ensures i <= r <= |name|
    decreases |name| - i
  {
    if i < |name| && IsDigit(name[i]) then AfterDigits(name, i + 1) else i
  }

  predicate NoDigits(name: string) { name == "" || (!IsDigit(name[|name| - 1]) && NoDigits(name[..|name| - 1])) }

  /** Digits, an x, digits, then at least one more character and no digit among those. */
  predicate IsVariantName(name: string) {
    var i := AfterDigits(name, 0);
    0 < i < |name| && name[i] == 'x' &&
    var j := AfterDigits(name, i + 1);
    i + 1 < j < |name| && NoDigits(name[j..])
  }

  predicate AllDigits(s: string) { forall k | 0 <= k < |s| :: '0' <= s[k] <= '9' }

  predicate NoneIsDigit(s: string) { forall k | 0 <= k < |s| :: s[k] < '0' || '9' < s[k] }

  lemma {:induction false} AfterDigitsIs(name: string, i: nat, j: nat)
    requires i <= j <= |name| && AllDigits(name[i..j]) && (j == |name| || !IsDigit(name[j]))
    ensures AfterDigits(name, i) == j
    decreases j - i
  {
    if i < j {
      assert name[i..j] == [name[i]] + name[i + 1..j];
      AfterDigitsIs(name, i + 1, j);
    }
  }

  lemma {:induction false} AfterDigitsAreDigits(name: string, i: nat)
    requires i <= |name|
    ensures var j := AfterDigits(name, i); AllDigits(name[i..j]) && (j == |name| || !IsDigit(name[j]))
    decreases |name| - i
  {
    if i < |name| && IsDigit(name[i]) {
      AfterDigitsAreDigits(name, i + 1);
      var j := AfterDigits(name, i);
      assert name[i..j] == [name[i]] + name[i + 1..j];
    }
  }

  lemma {:induction false} NoDigitsIff(name: string)
    ensures NoDigits(name) <==> NoneIsDigit(name)
  {
    if name != "" {
      var init, last := name[..|name| - 1], name[|name| - 1];
      NoDigitsIff(init);
      assert name == init + [last];
    }
  }

  /** The pattern ^(\d+)x(\d+)\D+$: `a` and `b` are the digits, `c` is the rest. */
  ghost predicate IsSpelled(name: string, a: string, b: string, c: string) {
    && name == a + "x" + b + c
    && a != "" && b != "" && c != "" && AllDigits(a) && AllDigits(b) && NoneIsDigit(c)
  }

  lemma SpelledIsVariant(name: string, a: string, b: string, c: string)
    requires IsSpelled(name, a, b, c)
    ensures IsVariantName(name)
  {
    var i := |a|;
    var j := i + 1 + |b|;
    assert name[0..i] == a && name[i] == 'x' && name[i + 1..j] == b && name[j..] == c;
    assert name[j] == c[0];
    AfterDigitsIs(name, 0, i);
    AfterDigitsIs(name, i + 1, j);
    NoDigitsIff(c);
  }

  lemma VariantNameIff(name: string)
    ensures IsVariantName(name) <==> exists a, b, c :: IsSpelled(name, a, b, c)
  {
    if IsVariantName(name) {
      var i := AfterDigits(name, 0);
      var j := AfterDigits(name, i + 1);
      AfterDigitsAreDigits(name, 0);
      AfterDigitsAreDigits(name, i + 1);
      NoDigitsIff(name[j..]);
      assert name == name[..i] + "x" + name[i + 1..j] + name[j..];
      assert name[0..i] == name[..i];
      assert IsSpelled(name, name[..i], name[i + 1..j], name[j..]);
    }
    if a, b, c :| IsSpelled(name, a, b, c) {
      SpelledIsVariant(name, a, b, c);
    }
  }

  predicate EndsInDigit(name: string) { |name| > 0 && IsDigit(name[|name| - 1]) }

  // ---- Filtering ----

  datatype Progress = Progress(result: seq<ModeInfo>, filteredNames: seq<string>)

  /** The parameters of one call of filterModeInfos; formatRate rounds a rate to two decimals. */
  datatype Filter = Filter(modes: seq<ModeInfo>, save: ModeInfo, formatRate: real -> string) {
    predicate IsSaved(m: ModeInfo) { m.id == save.id }

    predicate SameKey(a: ModeInfo, b: ModeInfo) {
      a.HasSize(b.width, b.height) && formatRate(a.rate) == formatRate(b.rate)
    }

    predicate IsTwin(a: ModeInfo, b: ModeInfo) { a.HasSize(b.width, b.height) && EndsInDigit(a.name) }

    /** Some mode of the same size has a plain name. */
    predicate HasTwin(m: ModeInfo) { exists t :: t in modes && IsTwin(t, m) }

    /** The body of the loop. */
    function Step(p: Progress, m: ModeInfo): Progress {
      if IsSaved(m) then p.(result := p.result + [m])
      else if m.name in p.filteredNames then p
      else if IsVariantName(m.name) && HasTwin(m) then p.(filteredNames := p.filteredNames + [m.name])
      else if !FindFirst(p.result, (x: ModeInfo) => SameKey(x, m)).IsZero() then p
      else p.(result := p.result + [m])
    }

    function After(n: nat): Progress
      requires n <= |modes|
    {
      if n == 0 then Progress([], []) else Step(After(n - 1), modes[n - 1])
    }

    function Result(): seq<ModeInfo> { After(|modes|).result }
  }

  predicate Appended(p: Progress, q: Progress, m: ModeInfo) { q == p.(result := p.result + [m]) }

  /** A mode that is filtered, being a variant of a plain mode of the same size. */
  predicate FiltersName(f: Filter, m: ModeInfo) { !f.IsSaved(m) && IsVariantName(m.name) && f.HasTwin(m) }

  predicate HasMatch(f: Filter, ms: seq<ModeInfo>, m: ModeInfo) {
    !FindFirst(ms, (x: ModeInfo) => f.SameKey(x, m)).IsZero()
  }

  /** What one round of the loop does, case by case. */
  lemma StepFacts(f: Filter, p: Progress, m: ModeInfo)
    ensures var q := f.Step(p, m);
            && (Appended(p, q, m) || q.result == p.result)
            && (f.IsSaved(m) ==> Appended(p, q, m))
            && (!f.IsSaved(m) && m.name !in p.filteredNames && !FiltersName(f, m) && !HasMatch(f, p.result, m) ==>
                  Appended(p, q, m))
            && (Appended(p, q, m) && !f.IsSaved(m) ==>
                  m.name !in p.filteredNames && !FiltersName(f, m) && !HasMatch(f, p.result, m))
            && q.filteredNames == if m.name !in p.filteredNames && FiltersName(f, m) then p.filteredNames + [m.name]
                                  else p.filteredNames
  {
  }

  lemma {:induction false} FirstExists(modes: seq<ModeInfo>, fn: ModeInfo -> bool, m: ModeInfo)
    requires m in modes && fn(m)
    ensures FindFirst(modes, fn) in modes && fn(FindFirst(modes, fn))
  {
    if !fn(modes[0]) {
      assert m in modes[1..];
      FirstExists(modes[1..], fn, m);
    }
  }

  lemma TwinIsFound(f: Filter, m: ModeInfo)
    ensures FindFirst(f.modes, (x: ModeInfo) => f.IsTwin(x, m)).IsZero() <==> !f.HasTwin(m)
  {
    var fn := (x: ModeInfo) => f.IsTwin(x, m);
    if t :| t in f.modes && fn(t) {
      FirstExists(f.modes, fn, t);
    }
  }

  method FilterModeInfos(f: Filter) returns (result: seq<ModeInfo>)
    ensures result == f.Result()
  {
    result := [];
    var filteredModeNames: seq<string> := [];
    for idx := 0 to |f.modes|
      invariant Progress(result, filteredModeNames) == f.After(idx)
    {
      var mode := f.modes[idx];
      if mode.id == f.save.id {
        result := result + [mode];
        continue;
      }
      var skip := false;
      if mode.name in filteredModeNames {
        skip := true;
      } else {
        if IsVariantName(mode.name) {
          TwinIsFound(f, mode);
          var m := FindFirstMode(f.modes, (x: ModeInfo) => f.IsTwin(x, mode));
          if !m.IsZero() {
            skip := true;
            filteredModeNames := filteredModeNames + [mode.name];
          }
        }
        if !skip {
          var m := FindFirstMode(result, (x: ModeInfo) => f.SameKey(x, mode));
          if !m.IsZero() {
            skip := true;
          }
        }
      }
      if !skip {
        result := result + [mode];
      }
    }
  }

  // ---- What the filter keeps ----

  /** xs is ys with some elements left out. */
  predicate IsSubsequence(xs: seq<ModeInfo>, ys: seq<ModeInfo>)
    decreases |ys|
  {
    xs == [] ||
    (ys != [] &&
     (IsSubsequence(xs, ys[..|ys| - 1]) ||
      (xs[|xs| - 1] == ys[|ys| - 1] && IsSubsequence(xs[..|xs| - 1], ys[..|ys| - 1]))))
  }

  lemma {:induction false} SubsequenceElements(xs: seq<ModeInfo>, ys: seq<ModeInfo>, m: ModeInfo)
    requires IsSubsequence(xs, ys) && m in xs
    ensures m in ys
    decreases |ys|
  {
    if IsSubsequence(xs, ys[..|ys| - 1]) {
      SubsequenceElements(xs, ys[..|ys| - 1], m);
    } else if m != xs[|xs| - 1] {
      SubsequenceElements(xs[..|xs| - 1], ys[..|ys| - 1], m);
    }
  }

  function OnlySaved(f: Filter, ms: seq<ModeInfo>): seq<ModeInfo> {
    if ms == [] then []
    else OnlySaved(f, ms[..|ms| - 1]) + if f.IsSaved(ms[|ms| - 1]) then [ms[|ms| - 1]] else []
  }

  /** The n-th round: the result grows by the n-th mode or stays. */
  lemma Round(f: Filter, n: nat)
    requires 0 < n <= |f.modes|
    ensures f.modes[..n] == f.modes[..n - 1] + [f.modes[n - 1]]
    ensures f.After(n) == f.Step(f.After(n - 1), f.modes[n - 1])
    ensures f.After(n).result == f.After(n - 1).result || f.After(n).result == f.After(n - 1).result + [f.modes[n - 1]]
    ensures f.IsSaved(f.modes[n - 1]) ==> f.After(n).result == f.After(n - 1).result + [f.modes[n - 1]]
  {
    StepFacts(f, f.After(n - 1), f.modes[n - 1]);
  }

  lemma SubsequenceGrows(xs: seq<ModeInfo>, ys: seq<ModeInfo>, m: ModeInfo)
    requires IsSubsequence(xs, ys)
    ensures IsSubsequence(xs, ys + [m]) && IsSubsequence(xs + [m], ys + [m])
  {
    assert (ys + [m])[..|ys|] == ys && (xs + [m])[..|xs|] == xs;
  }

  lemma {:induction false} ResultIsSubsequence(f: Filter, n: nat)
    requires n <= |f.modes|
    ensures IsSubsequence(f.After(n).result, f.modes[..n])
  {
    hide Filter.Step;
    if n > 0 {
      ResultIsSubsequence(f, n - 1);
      Round(f, n);
      SubsequenceGrows(f.After(n - 1).result, f.modes[..n - 1], f.modes[n - 1]);
    }
  }

  lemma OnlySavedGrows(f: Filter, ms: seq<ModeInfo>, m: ModeInfo)
    ensures OnlySaved(f, ms + [m]) == OnlySaved(f, ms) + if f.IsSaved(m) then [m] else []
  {
    assert (ms + [m])[..|ms|] == ms;
  }

  /** Every mode with the saved id is kept, in order. */
  lemma {:induction false} SavedModesAreKept(f: Filter, n: nat)
    requires n <= |f.modes|
    ensures OnlySaved(f, f.After(n).result) == OnlySaved(f, f.modes[..n])
  {
    hide Filter.Step;
    if n > 0 {
      SavedModesAreKept(f, n - 1);
      Round(f, n);
      OnlySavedGrows(f, f.After(n - 1).result, f.modes[n - 1]);
      OnlySavedGrows(f, f.modes[..n - 1], f.modes[n - 1]);
    }
  }

  lemma FilteredNamesStay(f: Filter, p: Progress, m: ModeInfo)
    requires f.Step(p, m).result == p.result + [m]
    ensures Appended(p, f.Step(p, m), m)
  {
  }

  /** Every kept mode is saved, or nothing kept before it has its key and it is no variant with a twin. */
  lemma {:induction false} KeptBecauseNew(f: Filter, n: nat, j: nat)
    requires n <= |f.modes| && j < |f.After(n).result|
    ensures var r := f.After(n).result;
            f.IsSaved(r[j]) || (!HasMatch(f, r[..j], r[j]) && !FiltersName(f, r[j]))
  {
    hide Filter.Step;
    if n > 0 {
      Round(f, n);
      var before, after := f.After(n - 1).result, f.After(n).result;
      if j < |before| {
        KeptBecauseNew(f, n - 1, j);
        assert after[..j] == before[..j] && after[j] == before[j];
      } else {
        StepFacts(f, f.After(n - 1), f.modes[n - 1]);
        FilteredNamesStay(f, f.After(n - 1), f.modes[n - 1]);
        assert after[..j] == before && after[j] == f.modes[n - 1];
      }
    }
  }

  /** Two kept modes with equal size and rounded rate, the later one not saved, are possible only
      when the zero mode comes first among the modes with that size and rate. */
  lemma DuplicatesNeedZeroMode(f: Filter, i: nat, j: nat)
    requires i < j < |f.Result()|
    requires var r := f.Result(); !f.IsSaved(r[j]) && f.SameKey(r[i], r[j])
    ensures var r := f.Result(); FindFirst(r, (x: ModeInfo) => f.SameKey(x, r[j])) == ZERO_MODE && ZERO_MODE in r
  {
    hide Filter.Step;
    var r := f.Result();
    var fn := (x: ModeInfo) => f.SameKey(x, r[j]);
    KeptBecauseNew(f, |f.modes|, j);
    assert r[i] == r[..j][i] && r[..j][i] in r[..j] && fn(r[..j][i]);
    assert r == r[..j] + r[j..];
    FoundFirstStays(r[..j], r[j..], fn);
    FirstExists(r[..j], fn, r[i]);
  }

  /** So no two kept modes look the same, unless the later one is saved, in any list without the zero mode. */
  lemma NoDuplicates(f: Filter, i: nat, j: nat)
    requires i < j < |f.Result()|
    requires !f.IsSaved(f.Result()[j]) && (ZERO_MODE !in f.modes || !f.Result()[j].HasSize(0, 0))
    ensures var a, b := f.Result()[i], f.Result()[j];
            a.width != b.width || a.height != b.height || f.formatRate(a.rate) != f.formatRate(b.rate)
  {
    hide Filter.Step;
    if f.SameKey(f.Result()[i], f.Result()[j]) {
      DuplicatesNeedZeroMode(f, i, j);
      var r := f.Result();
      FirstExists(r, (x: ModeInfo) => f.SameKey(x, r[j]), r[i]);
      ResultIsSubsequence(f, |f.modes|);
      assert f.modes[..|f.modes|] == f.modes;
      SubsequenceElements(r, f.modes, ZERO_MODE);
      assert false;
    }
  }

  /** toModeInfos: the modes with the ids, as far as they are known. No list that comes from X holds the zero mode. */
  method ToModeInfos(modes: seq<ModeInfo>, modeIds: seq<uint32>) returns (r: seq<ModeInfo>)
    ensures ZERO_MODE !in r
    ensures forall m :: m in r <==> !m.IsZero() && exists id :: id in modeIds && FindMode(modes, id) == m
  {
    hide FindMode;
    r := [];
    for i := 0 to |modeIds|
      invariant forall m :: m in r <==> !m.IsZero() && exists k :: 0 <= k < i && FindMode(modes, modeIds[k]) == m
    {
      var modeInfo := FindMode(modes, modeIds[i]);
      if !modeInfo.IsZero() {
        r := r + [modeInfo];
      }
    }
  }

  lemma {:induction false} OnlyVariantsAreFiltered(f: Filter, n: nat)
    requires n <= |f.modes|
    ensures forall name | name in f.After(n).filteredNames :: IsVariantName(name)
  {
    hide Filter.Step, IsVariantName;
    if n > 0 {
      OnlyVariantsAreFiltered(f, n - 1);
      StepFacts(f, f.After(n - 1), f.modes[n - 1]);
    }
  }

  lemma {:induction false} KeptUpTo(f: Filter, k: nat, n: nat, m: ModeInfo)
    requires k <= n <= |f.modes| && m in f.After(k).result
    ensures m in f.After(n).result
  {
    hide Filter.Step;
    if k < n {
      KeptUpTo(f, k, n - 1, m);
      Round(f, n);
    }
  }

  /** What is always kept, by fields: a mode with the saved id; and a mode whose name is no variant, if no mode before
      it has its width, height and rounded rate. */
  lemma NewModeIsKept(f: Filter, k: nat)
    requires k < |f.modes|
    requires var m := f.modes[k];
             m.id == f.save.id ||
             (!IsVariantName(m.name) && forall j | 0 <= j < k ::
                f.modes[j].width != m.width || f.modes[j].height != m.height ||
                f.formatRate(f.modes[j].rate) != f.formatRate(m.rate))
    ensures f.modes[k] in f.Result()
  {
    hide Filter.Step, IsVariantName;
    var m, p := f.modes[k], f.After(k);
    OnlyVariantsAreFiltered(f, k);
    StepFacts(f, p, m);
    Round(f, k + 1);
    if HasMatch(f, p.result, m) {
      var found := FindFirst(p.result, (x: ModeInfo) => f.SameKey(x, m));
      ResultIsSubsequence(f, k);
      SubsequenceElements(p.result, f.modes[..k], found);
    }
    KeptUpTo(f, k + 1, |f.modes|, m);
  }

  /** What is never kept, by fields: a mode, other than a saved one, with a variant name, if some mode of its width and
      height has a name that ends in a digit. */
  lemma VariantIsDropped(f: Filter, m: ModeInfo, t: ModeInfo)
    requires m.id != f.save.id && IsVariantName(m.name)
    requires t in f.modes && t.width == m.width && t.height == m.height
    requires t.name != "" && '0' <= t.name[|t.name| - 1] <= '9'
    ensures m !in f.Result()
  {
    hide Filter.Step, IsVariantName;
    assert f.IsTwin(t, m);
    if m in f.Result() {
      var j :| 0 <= j < |f.Result()| && f.Result()[j] == m;
      KeptBecauseNew(f, |f.modes|, j);
    }
  }

  // ---- Which resolutions survive ----

  predicate Filters(f: Filter, j: nat, name: string)
    requires j < |f.modes|
  {
    f.modes[j].name == name && FiltersName(f, f.modes[j])
  }

  predicate NameFiltered(f: Filter, name: string, k: nat)
    requires k <= |f.modes|
  {
    exists j :: 0 <= j < k && Filters(f, j, name)
  }

  /** An earlier variant with the same name has been filtered, so this mode is filtered by its name alone. */
  predicate IsShadowed(f: Filter, k: nat)
    requires k <= |f.modes|
  {
    k < |f.modes| && NameFiltered(f, f.modes[k].name, k)
  }

  lemma NameFilteredStep(f: Filter, name: string, n: nat)
    requires 0 < n <= |f.modes|
    ensures NameFiltered(f, name, n) <==> NameFiltered(f, name, n - 1) || Filters(f, n - 1, name)
  {
    hide FiltersName;
    if NameFiltered(f, name, n - 1) {
      var j :| 0 <= j < n - 1 && Filters(f, j, name);
    }
  }

  lemma {:induction false} FilteredNamesAre(f: Filter, n: nat, name: string)
    requires n <= |f.modes|
    ensures name in f.After(n).filteredNames <==> NameFiltered(f, name, n)
  {
    hide Filter.Step, FiltersName;
    if n > 0 {
      FilteredNamesAre(f, n - 1, name);
      StepFacts(f, f.After(n - 1), f.modes[n - 1]);
      NameFilteredStep(f, name, n);
    }
  }

  ghost predicate SizeKept(f: Filter, n: nat, w: uint16, h: uint16)
    requires n <= |f.modes|
  {
    exists m :: m in f.After(n).result && m.HasSize(w, h)
  }

  lemma {:induction false} KeptStaysKept(f: Filter, k: nat, n: nat, w: uint16, h: uint16)
    requires k <= n <= |f.modes| && SizeKept(f, k, w, h)
    ensures SizeKept(f, n, w, h)
  {
    hide Filter.Step;
    if k < n {
      KeptStaysKept(f, k, n - 1, w, h);
      Round(f, n);
      var m :| m in f.After(n - 1).result && m.HasSize(w, h);
      assert m in f.After(n).result;
    }
  }

  /** A mode that is saved, or neither a filtered variant nor filtered by name, keeps its size alive. */
  lemma PlainModeKeepsSize(f: Filter, k: nat)
    requires k < |f.modes|
    requires f.IsSaved(f.modes[k]) || (!IsShadowed(f, k) && !FiltersName(f, f.modes[k]))
    ensures SizeKept(f, |f.modes|, f.modes[k].width, f.modes[k].height)
  {
    hide Filter.Step, FiltersName;
    var m, p := f.modes[k], f.After(k);
    FilteredNamesAre(f, k, m.name);
    StepFacts(f, p, m);
    Round(f, k + 1);
    if HasMatch(f, p.result, m) {
      var found := FindFirst(p.result, (x: ModeInfo) => f.SameKey(x, m));
      assert found in f.After(k + 1).result && found.HasSize(m.width, m.height);
    } else {
      assert m in f.After(k + 1).result;
    }
    KeptStaysKept(f, k + 1, |f.modes|, m.width, m.height);
  }

  lemma {:induction false} NoDigitsAtEnd(name: string)
    requires NoDigits(name)
    ensures !EndsInDigit(name)
  {
  }

  lemma VariantDoesNotEndInDigit(name: string)
    requires IsVariantName(name)
    ensures !EndsInDigit(name)
  {
    var i := AfterDigits(name, 0);
    var j := AfterDigits(name, i + 1);
    NoDigitsAtEnd(name[j..]);
    assert name[j..][|name[j..]| - 1] == name[|name| - 1];
  }

  lemma TwinKeepsSize(f: Filter, m: ModeInfo)
    requires f.HasTwin(m)
    ensures SizeKept(f, |f.modes|, m.width, m.height)
  {
    hide Filter.Step;
    var t :| t in f.modes && f.IsTwin(t, m);
    var l :| 0 <= l < |f.modes| && f.modes[l] == t;
    if IsVariantName(t.name) {
      VariantDoesNotEndInDigit(t.name);
    }
    PlainModeKeepsSize(f, l);
  }

  lemma UnshadowedModeKeepsSize(f: Filter, k: nat)
    requires k < |f.modes| && (f.IsSaved(f.modes[k]) || !IsShadowed(f, k))
    ensures SizeKept(f, |f.modes|, f.modes[k].width, f.modes[k].height)
  {
    if FiltersName(f, f.modes[k]) {
      TwinKeepsSize(f, f.modes[k]);
    } else {
      PlainModeKeepsSize(f, k);
    }
  }

  lemma {:induction false} KeptComesFromUnshadowed(f: Filter, n: nat, m: ModeInfo)
    requires n <= |f.modes| && m in f.After(n).result
    ensures exists k :: 0 <= k < n && f.modes[k] == m && (f.IsSaved(m) || !IsShadowed(f, k))
  {
    hide Filter.Step, FiltersName;
    if n > 0 {
      Round(f, n);
      if m in f.After(n - 1).result {
        KeptComesFromUnshadowed(f, n - 1, m);
      } else {
        FilteredNamesAre(f, n - 1, m.name);
        StepFacts(f, f.After(n - 1), m);
        FilteredNamesStay(f, f.After(n - 1), m);
        assert f.modes[n - 1] == m && (f.IsSaved(m) || !IsShadowed(f, n - 1));
      }
    }
  }

  /** A resolution survives exactly when some mode of that size is saved or not filtered by its name alone. */
  lemma ResolutionSurvivesIff(f: Filter, w: uint16, h: uint16)
    ensures SizeKept(f, |f.modes|, w, h) <==>
              exists k :: 0 <= k < |f.modes| && f.modes[k].HasSize(w, h) && (f.IsSaved(f.modes[k]) || !IsShadowed(f, k))
  {
    hide Filter.Step, FiltersName;
    if SizeKept(f, |f.modes|, w, h) {
      var m :| m in f.After(|f.modes|).result && m.HasSize(w, h);
      KeptComesFromUnshadowed(f, |f.modes|, m);
    }
    if k :| 0 <= k < |f.modes| && f.modes[k].HasSize(w, h) && (f.IsSaved(f.modes[k]) || !IsShadowed(f, k)) {
      UnshadowedModeKeepsSize(f, k);
    }
  }

  predicate NameDeterminesSize(modes: seq<ModeInfo>) {
    forall a, b | a in modes && b in modes && a.name == b.name :: a.HasSize(b.width, b.height)
  }

  /** When a name determines the size, no resolution is lost. */
  lemma NoResolutionIsLost(f: Filter, k: nat)
    requires NameDeterminesSize(f.modes) && k < |f.modes|
    ensures SizeKept(f, |f.modes|, f.modes[k].width, f.modes[k].height)
  {
    hide Filter.Step;
    var m := f.modes[k];
    if IsShadowed(f, k) {
      var j :| 0 <= j < k && Filters(f, j, m.name);
      assert f.modes[j] in f.modes && m in f.modes;
      TwinKeepsSize(f, f.modes[j]);
    } else {
      UnshadowedModeKeepsSize(f, k);
    }
  }

  /** When it does not, one can be: the second "1x1i" is filtered for the sake of the first. */
  lemma ResolutionCanBeLost(save: ModeInfo, formatRate: real -> string)
    requires save.id == 9
    ensures var modes := [ModeInfo(1, "1x1i", 1, 1, 50.0), ModeInfo(2, "1x1", 1, 1, 60.0),
                          ModeInfo(3, "1x1i", 2, 2, 50.0)];
            !SizeKept(Filter(modes, save, formatRate), 3, 2, 2)
  {
    hide Filter.Step;
    var modes := [ModeInfo(1, "1x1i", 1, 1, 50.0), ModeInfo(2, "1x1", 1, 1, 60.0), ModeInfo(3, "1x1i", 2, 2, 50.0)];
    var f := Filter(modes, save, formatRate);
    ResolutionSurvivesIff(f, 2, 2);
    assert modes[1] in modes && f.IsTwin(modes[1], modes[0]);
    assert IsVariantName("1x1i") by {
      assert AfterDigits("1x1i", 0) == 1 && AfterDigits("1x1i", 2) == 3;
      assert "1x1i"[3..] == "i";
    }
    assert Filters(f, 0, "1x1i");
    assert IsShadowed(f, 2);
  }

  // ---- When the zero mode does hide a duplicate ----

  /** The mode is saved, or gets past the filters by name. */
  predicate Passes(f: Filter, k: nat)
    requires k <= |f.modes|
  {
    k < |f.modes| && (f.IsSaved(f.modes[k]) || (!IsShadowed(f, k) && !FiltersName(f, f.modes[k])))
  }

  predicate LooksZero(f: Filter, m: ModeInfo) { f.SameKey(m, ZERO_MODE) }

  ghost predicate HasDuplicate(f: Filter) {
    exists i, j :: 0 <= i < j < |f.Result()| && !f.IsSaved(f.Result()[j]) && f.SameKey(f.Result()[i], f.Result()[j])
  }

  /** Of the modes that look like the zero mode and pass, the first is the zero mode itself, and an unsaved
      one comes after it. */
  ghost predicate ZeroModeLeads(f: Filter, a: nat, b: nat) {
    && a < b < |f.modes| && f.modes[a] == ZERO_MODE
    && Passes(f, b) && !f.IsSaved(f.modes[b]) && LooksZero(f, f.modes[b])
    && forall k: nat | k < a :: !(Passes(f, k) && LooksZero(f, f.modes[k]))
  }

  lemma {:induction false} ResultGrows(f: Filter, n: nat, n': nat)
    requires n <= n' <= |f.modes|
    ensures f.After(n).result <= f.After(n').result
    decreases n' - n
  {
    hide Filter.Step;
    if n < n' {
      ResultGrows(f, n, n' - 1);
      Round(f, n');
    }
  }

  /** The round in which the j-th kept mode was kept. */
  lemma {:induction false} KeptInRound(f: Filter, n: nat, j: nat) returns (k: nat)
    requires n <= |f.modes| && j < |f.After(n).result|
    ensures k < n && |f.After(k).result| == j && f.modes[k] == f.After(n).result[j] && Passes(f, k)
    ensures f.After(k + 1).result == f.After(k).result + [f.modes[k]]
  {
    hide Filter.Step, FiltersName, NameFiltered;
    Round(f, n);
    if j < |f.After(n - 1).result| {
      k := KeptInRound(f, n - 1, j);
    } else {
      k := n - 1;
      FilteredNamesAre(f, k, f.modes[k].name);
      StepFacts(f, f.After(k), f.modes[k]);
      FilteredNamesStay(f, f.After(k), f.modes[k]);
    }
  }

  /** A mode that passes is kept, unless one kept before is found that looks the same. */
  lemma PassingIsKept(f: Filter, k: nat)
    requires k < |f.modes| && Passes(f, k)
    ensures f.IsSaved(f.modes[k]) || !HasMatch(f, f.After(k).result, f.modes[k]) ==>
              f.After(k + 1).result == f.After(k).result + [f.modes[k]]
    ensures exists m :: m in f.After(k + 1).result && f.SameKey(m, f.modes[k])
  {
    hide Filter.Step, FiltersName;
    var m, p := f.modes[k], f.After(k);
    FilteredNamesAre(f, k, m.name);
    StepFacts(f, p, m);
    Round(f, k + 1);
    if !f.IsSaved(m) && HasMatch(f, p.result, m) {
      var found := FindFirst(p.result, (x: ModeInfo) => f.SameKey(x, m));
      assert found in f.After(k + 1).result && f.SameKey(found, m);
    } else {
      assert m in f.After(k + 1).result && f.SameKey(m, m);
    }
  }

  lemma ZeroModePasses(f: Filter, a: nat)
    requires a < |f.modes| && f.modes[a] == ZERO_MODE
    ensures Passes(f, a)
  {
    assert !IsVariantName("");
  }

  /** Before the first passing mode that looks zero, none has been kept. */
  lemma NoneKeptYet(f: Filter, a: nat)
    requires a <= |f.modes| && forall k: nat | k < a :: !(Passes(f, k) && LooksZero(f, f.modes[k]))
    ensures forall m | m in f.After(a).result :: !LooksZero(f, m)
  {
    forall m | m in f.After(a).result ensures !LooksZero(f, m) {
      var j :| 0 <= j < |f.After(a).result| && f.After(a).result[j] == m;
      var k := KeptInRound(f, a, j);
    }
  }

  lemma LeadingZeroModeHides(f: Filter, a: nat, b: nat)
    requires ZeroModeLeads(f, a, b)
    ensures HasDuplicate(f)
  {
    hide Filter.Step, Passes;
    var m := f.modes[b];
    var looks := (x: ModeInfo) => f.SameKey(x, m);
    ZeroModePasses(f, a);
    NoneKeptYet(f, a);
    PassingIsKept(f, a);
    var kept := f.After(a + 1).result;
    assert kept == f.After(a).result + [ZERO_MODE];
    assert forall x | x in kept && looks(x) :: x == ZERO_MODE;
    ResultGrows(f, a + 1, b);
    assert f.After(b).result == kept + f.After(b).result[|kept|..];
    assert ZERO_MODE in kept && looks(ZERO_MODE);
    FoundFirstStays(kept, f.After(b).result[|kept|..], looks);
    PassingIsKept(f, b);
    ResultGrows(f, b + 1, |f.modes|);
    var i, j, r := |f.After(a).result|, |f.After(b).result|, f.Result();
    assert r[i] == kept[i] == ZERO_MODE && r[j] == f.After(b + 1).result[j] == m;
  }

  /** The first position of a mode that looks zero. */
  lemma {:induction false} FirstZeroLooking(f: Filter, r: seq<ModeInfo>, i: nat) returns (p: nat)
    requires i < |r| && LooksZero(f, r[i])
    ensures p <= i && LooksZero(f, r[p]) && forall k | 0 <= k < p :: !LooksZero(f, r[k])
  {
    if k: nat :| k < i && LooksZero(f, r[k]) {
      p := FirstZeroLooking(f, r, k);
    } else {
      p := i;
    }
  }

  lemma FirstIsZeroMode(f: Filter, i: nat, j: nat, p: nat)
    requires i < j < |f.Result()| && !f.IsSaved(f.Result()[j]) && f.SameKey(f.Result()[i], f.Result()[j])
    requires p <= i && LooksZero(f, f.Result()[p]) && forall k | 0 <= k < p :: !LooksZero(f, f.Result()[k])
    requires LooksZero(f, f.Result()[j])
    ensures f.Result()[p] == ZERO_MODE
  {
    hide Filter.Step, Filter.Result;
    var r := f.Result();
    var looks := (x: ModeInfo) => f.SameKey(x, r[j]);
    DuplicatesNeedZeroMode(f, i, j);
    assert r == r[..p + 1] + r[p + 1..];
    assert looks(r[p]) && r[..p + 1][p] == r[p];
    FoundFirstStays(r[..p + 1], r[p + 1..], looks);
    FirstExists(r[..p + 1], looks, r[p]);
  }

  lemma DuplicatesLookZero(f: Filter, i: nat, j: nat)
    requires i < j < |f.Result()| && !f.IsSaved(f.Result()[j]) && f.SameKey(f.Result()[i], f.Result()[j])
    ensures LooksZero(f, f.Result()[i]) && LooksZero(f, f.Result()[j])
  {
    hide Filter.Step, Filter.Result;
    DuplicatesNeedZeroMode(f, i, j);
    FirstExists(f.Result(), (x: ModeInfo) => f.SameKey(x, f.Result()[j]), f.Result()[i]);
  }

  /** No mode that passes before round a looks zero, if nothing kept before does. */
  lemma NonePassedYet(f: Filter, a: nat, k: nat)
    requires k < a <= |f.modes| && forall q | 0 <= q < |f.After(a).result| :: !LooksZero(f, f.After(a).result[q])
    ensures !(Passes(f, k) && LooksZero(f, f.modes[k]))
  {
    hide Filter.Step, Passes;
    if Passes(f, k) && LooksZero(f, f.modes[k]) {
      PassingIsKept(f, k);
      var m :| m in f.After(k + 1).result && f.SameKey(m, f.modes[k]);
      ResultGrows(f, k + 1, a);
      assert false;
    }
  }

  lemma DuplicateNeedsLeadingZeroMode(f: Filter, i: nat, j: nat)
    requires i < j < |f.Result()| && !f.IsSaved(f.Result()[j]) && f.SameKey(f.Result()[i], f.Result()[j])
    ensures exists a: nat, b: nat :: ZeroModeLeads(f, a, b)
  {
    hide Filter.Step, Passes;
    DuplicatesLookZero(f, i, j);
    var p := FirstZeroLooking(f, f.Result(), i);
    FirstIsZeroMode(f, i, j, p);
    var a := KeptInRound(f, |f.modes|, p);
    var b := KeptInRound(f, |f.modes|, j);
    if b <= a {
      ResultGrows(f, b, a);
    }
    ResultGrows(f, a, |f.modes|);
    forall k: nat | k < a ensures !(Passes(f, k) && LooksZero(f, f.modes[k])) {
      NonePassedYet(f, a, k);
    }
    assert ZeroModeLeads(f, a, b);
  }

  /** Duplicates are kept exactly when the zero mode is the first to pass of those that look like it, and an
      unsaved one follows. */
  lemma DuplicatesIff(f: Filter)
    ensures HasDuplicate(f) <==> exists a: nat, b: nat :: ZeroModeLeads(f, a, b)
  {
    hide Filter.Step, ZeroModeLeads;
    if HasDuplicate(f) {
      var i, j :| 0 <= i < j < |f.Result()| && !f.IsSaved(f.Result()[j]) && f.SameKey(f.Result()[i], f.Result()[j]);
      DuplicateNeedsLeadingZeroMode(f, i, j);
    }
    if a: nat, b: nat :| ZeroModeLeads(f, a, b) {
      LeadingZeroModeHides(f, a, b);
    }
  }

  /** For example: all three of these are kept. */
  lemma ZeroModeHidesDuplicates(save: ModeInfo, formatRate: real -> string)
    requires save.id == 9
    ensures var a, b := ModeInfo(1, "a", 0, 0, 0.0), ModeInfo(2, "b", 0, 0, 0.0);
            Filter([ZERO_MODE, a, b], save, formatRate).Result() == [ZERO_MODE, a, b]
  {
    var a, b := ModeInfo(1, "a", 0, 0, 0.0), ModeInfo(2, "b", 0, 0, 0.0);
    var f := Filter([ZERO_MODE, a, b], save, formatRate);
    assert f.After(0) == Progress([], []);
    assert f.After(1) == Progress([ZERO_MODE], []);
    assert f.After(2) == Progress([ZERO_MODE, a], []);
    assert f.After(3) == Progress([ZERO_MODE, a, b], []);
  }

  // ---- Filtering twice ----

  lemma SmallerListHasFewerTwins(f: Filter, m: ModeInfo)
    requires f.(modes := f.Result()).HasTwin(m)
    ensures f.HasTwin(m)
  {
    hide Filter.Step;
    var g := f.(modes := f.Result());
    var t :| t in g.modes && g.IsTwin(t, m);
    ResultIsSubsequence(f, |f.modes|);
    assert f.modes[..|f.modes|] == f.modes;
    SubsequenceElements(f.Result(), f.modes, t);
    assert f.IsTwin(t, m);
  }

  lemma {:induction false} SameMatch(f: Filter, g: Filter, ms: seq<ModeInfo>, m: ModeInfo)
    requires f.formatRate == g.formatRate
    ensures FindFirst(ms, (x: ModeInfo) => g.SameKey(x, m)) == FindFirst(ms, (x: ModeInfo) => f.SameKey(x, m))
  {
    if ms != [] {
      SameMatch(f, g, ms[1..], m);
    }
  }

  lemma {:induction false} SecondPassKeepsAll(f: Filter, n: nat)
    requires n <= |f.Result()|
    ensures f.(modes := f.Result()).After(n) == Progress(f.Result()[..n], [])
  {
    hide Filter.Step;
    var g := f.(modes := f.Result());
    if n > 0 {
      SecondPassKeepsAll(f, n - 1);
      var m := g.modes[n - 1];
      Round(g, n);
      KeptBecauseNew(f, |f.modes|, n - 1);
      SameMatch(f, g, g.modes[..n - 1], m);
      if FiltersName(g, m) {
        SmallerListHasFewerTwins(f, m);
      }
      StepFacts(g, g.After(n - 1), m);
    }
  }

  /** Filtering a filtered list changes nothing. */
  lemma FilterIsIdempotent(f: Filter)
    ensures f.(modes := f.Result()).Result() == f.Result()
  {
    hide Filter.Step;
    SecondPassKeepsAll(f, |f.Result()|);
    assert f.Result()[..|f.Result()|] == f.Result();
  }
}
