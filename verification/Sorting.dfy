/** Sorting strings in lexicographic order, as sort.Strings does. */
module Sorting {
  predicate Leq(a: string, b: string) {
    a == "" || (b != "" && (a[0] < b[0] || (a[0] == b[0] && Leq(a[1..], b[1..]))))
  }

  lemma {:induction false} LeqTotal(a: string, b: string)
    ensures Leq(a, b) || Leq(b, a)
  {
    if a != "" && b != "" && a[0] == b[0] {
      LeqTotal(a[1..], b[1..]);
    }
  }

  lemma {:induction false} LeqAntisymmetric(a: string, b: string)
    requires Leq(a, b) && Leq(b, a)
    ensures a == b
  {
    if a != "" && b != "" {
      LeqAntisymmetric(a[1..], b[1..]);
      assert a == [a[0]] + a[1..] && b == [b[0]] + b[1..];
    }
  }

  lemma {:induction false} LeqTransitive(a: string, b: string, c: string)
    requires Leq(a, b) && Leq(b, c)
    ensures Leq(a, c)
  {
    if a != "" && a[0] == b[0] && b[0] == c[0] {
      LeqTransitive(a[1..], b[1..], c[1..]);
    }
  }

  function Insert(x: string, xs: seq<string>): seq<string> {
    if xs == [] then [x] else if Leq(x, xs[0]) then [x] + xs else [xs[0]] + Insert(x, xs[1..])
  }

  function Sort(xs: seq<string>): seq<string> {
    if xs == [] then [] else Insert(xs[0], Sort(xs[1..]))
  }

  lemma SortOfTwo(a: string, b: string)
    requires Leq(a, b)
    ensures Sort([a]) == [a] && Sort([b, a]) == [a, b]
  {
    assert [b, a][1..] == [a];
    assert Sort([a]) == [a];
    assert Insert(b, [a]) == if Leq(b, a) then [b, a] else [a] + Insert(b, [a][1..]);
    if Leq(b, a) {
      LeqAntisymmetric(a, b);
    }
  }

  predicate IsSorted(xs: seq<string>) { |xs| > 1 ==> Leq(xs[0], xs[1]) && IsSorted(xs[1..]) }

  lemma {:induction false} InsertKeepsSorted(x: string, xs: seq<string>)
    requires IsSorted(xs)
    ensures IsSorted(Insert(x, xs)) && multiset(Insert(x, xs)) == multiset(xs) + multiset{x}
  {
    if xs != [] && !Leq(x, xs[0]) {
      LeqTotal(x, xs[0]);
      InsertKeepsSorted(x, xs[1..]);
      assert xs == [xs[0]] + xs[1..];
      assert Insert(x, xs)[1..] == Insert(x, xs[1..]);
    } else if xs != [] {
      assert ([x] + xs)[1..] == xs;
    }
  }

  lemma {:induction false} SortSorts(xs: seq<string>)
    ensures IsSorted(Sort(xs)) && multiset(Sort(xs)) == multiset(xs)
  {
    if xs != [] {
      SortSorts(xs[1..]);
      InsertKeepsSorted(xs[0], Sort(xs[1..]));
      assert xs == [xs[0]] + xs[1..];
    }
  }

  lemma {:induction false} HeadIsLeast(xs: seq<string>, x: string)
    requires IsSorted(xs) && x in xs
    ensures Leq(xs[0], x)
  {
    if x == xs[0] {
      LeqTotal(x, x);
    } else {
      assert x in xs[1..];
      HeadIsLeast(xs[1..], x);
      LeqTransitive(xs[0], xs[1], x);
    }
  }

  /** A sorted list is determined by its elements. */
  lemma {:induction false} SortedIsUnique(xs: seq<string>, ys: seq<string>)
    requires IsSorted(xs) && IsSorted(ys) && multiset(xs) == multiset(ys)
    ensures xs == ys
  {
    if xs == [] || ys == [] {
      assert |multiset(xs)| == |xs| && |multiset(ys)| == |ys|;
    } else {
      assert xs[0] in multiset(ys) && ys[0] in multiset(xs);
      HeadIsLeast(xs, ys[0]);
      HeadIsLeast(ys, xs[0]);
      LeqAntisymmetric(xs[0], ys[0]);
      assert xs == [xs[0]] + xs[1..] && ys == [ys[0]] + ys[1..];
      assert multiset(xs[1..]) == multiset(xs) - multiset{xs[0]};
      assert multiset(ys[1..]) == multiset(ys) - multiset{ys[0]};
      SortedIsUnique(xs[1..], ys[1..]);
    }
  }

  /** The order of the input does not matter. */
  lemma SortIsCanonical(xs: seq<string>, ys: seq<string>)
    requires multiset(xs) == multiset(ys)
    ensures Sort(xs) == Sort(ys)
  {
    SortSorts(xs);
    SortSorts(ys);
    SortedIsUnique(Sort(xs), Sort(ys));
  }

  lemma SortIsIdempotent(xs: seq<string>)
    ensures Sort(Sort(xs)) == Sort(xs)
  {
    SortSorts(xs);
    SortIsCanonical(Sort(xs), xs);
  }
}
