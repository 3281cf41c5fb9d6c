/** Splitting and joining strings the way Go's strings package does. */
module Text {
  predicate StartsWith(s: string, sep: string) { sep <= s }

  /** The text occurs nowhere in the string. */
  predicate Without(s: string, sep: string) { forall i | 0 <= i <= |s| :: !StartsWith(s[i..], sep) }

  /** strings.Index: the first occurrence, or -1. */
  function Index(s: string, sep: string): (r: int)
    requires sep != ""
    ensures r == -1 || (0 <= r && r + |sep| <= |s|)
  {
    if StartsWith(s, sep) then 0
    else if s == "" then -1
    else
      var r := Index(s[1..], sep);
      if r == -1 then -1 else r + 1
  }

  predicate AbsentBefore(s: string, sep: string, n: nat)
    requires n <= |s|
  {
    forall i | 0 <= i < n :: !StartsWith(s[i..], sep)
  }

  lemma {:induction false} IndexIsFirst(s: string, sep: string)
    requires sep != ""
    ensures var r := Index(s, sep);
            if r == -1 then Without(s, sep) else StartsWith(s[r..], sep) && AbsentBefore(s, sep, r)
  {
    assert s[0..] == s;
    if !StartsWith(s, sep) && s != "" {
      IndexIsFirst(s[1..], sep);
      var n := if Index(s[1..], sep) == -1 then |s| else Index(s[1..], sep) + 1;
      forall i | 0 <= i < n ensures !StartsWith(s[i..], sep) {
        assert i > 0 ==> s[i..] == s[1..][i - 1..];
      }
      assert n < |s| ==> s[n..] == s[1..][n - 1..];
      assert s[|s|..] == "";
    }
  }

  /** strings.Split with a non-empty separator. */
  function Split(s: string, sep: string): (r: seq<string>)
    requires sep != ""
    ensures r != []
    decreases |s|
  {
    var i := Index(s, sep);
    if i == -1 then [s] else [s[..i]] + Split(s[i + |sep|..], sep)
  }

  /** strings.Join */
  function Join(parts: seq<string>, sep: string): string {
    if parts == [] then ""
    else if |parts| == 1 then parts[0]
    else parts[0] + sep + Join(parts[1..], sep)
  }

  lemma SplitWithout(s: string, sep: string)
    requires sep != "" && Without(s, sep)
    ensures Split(s, sep) == [s]
  {
    IndexIsFirst(s, sep);
  }

  /** If the separator's first occurrence in a + sep + rest is right after a, splitting peels off a. */
  lemma SplitFirst(s: string, a: string, sep: string, rest: string)
    requires sep != "" && s == a + sep + rest && AbsentBefore(s, sep, |a|)
    ensures Split(s, sep) == [a] + Split(rest, sep)
  {
    IndexIsFirst(s, sep);
    assert s[|a|..] == sep + rest;
    assert StartsWith(s[|a|..], sep);
    assert Index(s, sep) == |a|;
    assert s[..|a|] == a && s[|a| + |sep|..] == rest;
  }

  lemma SplitFirstChar(a: string, c: char, rest: string)
    requires c !in a
    ensures Split(a + [c] + rest, [c]) == [a] + Split(rest, [c])
  {
    var s := a + [c] + rest;
    forall i | 0 <= i < |a| ensures !StartsWith(s[i..], [c]) {
      assert s[i..][0] == a[i];
    }
    SplitFirst(s, a, [c], rest);
  }

  lemma WithoutChar(s: string, c: char)
    ensures Without(s, [c]) <==> c !in s
  {
    if c in s {
      var i :| 0 <= i < |s| && s[i] == c;
      assert StartsWith(s[i..], [c]);
    } else {
      forall i | 0 <= i <= |s| ensures !StartsWith(s[i..], [c]) {
        assert i < |s| ==> s[i..][0] == s[i];
      }
    }
  }

  lemma PrefixOfSlice(s: string, i: nat, j: nat, sep: string)
    requires j <= i <= |s| && StartsWith(s[..i][j..], sep)
    ensures StartsWith(s[j..], sep) && j + |sep| <= i
  {
    var t := s[..i][j..];
    assert |t| == i - j && t == s[j..][..i - j];
    assert forall k | 0 <= k < |sep| :: s[j..][k] == t[k];
  }

  lemma HeadIsWithout(s: string, sep: string, i: nat)
    requires sep != "" && i <= |s| && AbsentBefore(s, sep, i)
    ensures Without(s[..i], sep)
  {
    forall j | 0 <= j <= i ensures !StartsWith(s[..i][j..], sep) {
      if StartsWith(s[..i][j..], sep) {
        PrefixOfSlice(s, i, j, sep);
        assert false;
      }
    }
  }

  /** The pieces of a split do not contain the separator. */
  lemma {:induction false} PiecesAreWithout(s: string, sep: string)
    requires sep != ""
    ensures forall p | p in Split(s, sep) :: Without(p, sep)
    decreases |s|
  {
    IndexIsFirst(s, sep);
    var i := Index(s, sep);
    if i != -1 {
      PiecesAreWithout(s[i + |sep|..], sep);
      HeadIsWithout(s, sep, i);
    }
  }

  /** Splitting a joined list of pieces without the separator gives the pieces back. */
  lemma {:induction false} SplitJoin(parts: seq<string>, c: char)
    requires parts != [] && forall p | p in parts :: c !in p
    ensures Split(Join(parts, [c]), [c]) == parts
  {
    if |parts| == 1 {
      WithoutChar(parts[0], c);
      SplitWithout(parts[0], [c]);
    } else {
      SplitJoin(parts[1..], c);
      SplitFirstChar(parts[0], c, Join(parts[1..], [c]));
      assert [parts[0]] + parts[1..] == parts;
    }
  }
}
