/** Moving one of two screens so that they touch without overlapping (wl_display/rect.go). */
module WlRect {
  import opened Ints
  import opened RandR

  datatype MonitorsPos = LeftRight | UpDown | Diagonal | Unknown

  datatype Point = Point(x: int, y: int)

  // ---- The int16 arithmetic of the overlap test, one axis at a time ----

  function Abs(i: int): nat { if i < 0 then -i else i }

  /** Go's division by two truncates toward zero. */
  function TruncHalf(i: int): int { if i < 0 then -(-i / 2) else i / 2 }

  function Mid(x: int16, w: uint16): int16 { TruncHalf(ToInt16(ToInt16(x + x) + ToInt16(w))) }

  predicate AxisIntersects(x0: int16, w0: uint16, x1: int16, w1: uint16) {
    Abs(ToInt16(Mid(x0, w0) - Mid(x1, w1))) < ToUint16(w0 + w1) / 2
  }

  predicate Intersects(m0: Rect, m1: Rect) {
    && AxisIntersects(m0.x, m0.width, m1.x, m1.width)
    && AxisIntersects(m0.y, m0.height, m1.y, m1.height)
  }

  /** The two open intervals meet. */
  predicate Overlap(x0: int, w0: int, x1: int, w1: int) { x0 < x1 + w1 && x1 < x0 + w0 }

  /** How far the two intervals reach into each other. */
  function OverlapLength(x0: int, w0: int, x1: int, w1: int): int {
    (if x0 + w0 < x1 + w1 then x0 + w0 else x1 + w1) - (if x0 < x1 then x1 else x0)
  }

  predicate RectsOverlap(r0: Rect, r1: Rect) {
    Overlap(r0.x, r0.width, r1.x, r1.width) && Overlap(r0.y, r0.height, r1.y, r1.height)
  }

  /** Twice the middle fits int16, and so does the sum of the sizes fit uint16. */
  predicate NoWrap(x0: int, w0: int, x1: int, w1: int) {
    -0x8000 <= 2 * x0 + w0 < 0x8000 && -0x8000 <= 2 * x1 + w1 < 0x8000 && w0 + w1 < 0x1_0000
  }

  lemma MidOf(x: int16, w: uint16)
    ensures Mid(x, w) == TruncHalf(ToInt16(2 * x + w))
  {
    ToInt16Inside(ToInt16(x + x), w);
    ToInt16Inside(w, x + x);
  }

  /** Without wrap-around the test compares truncated middles. */
  lemma NoWrapTest(x0: int16, w0: uint16, x1: int16, w1: uint16)
    requires NoWrap(x0, w0, x1, w1)
    ensures AxisIntersects(x0, w0, x1, w1) <==> Abs(TruncHalf(2 * x0 + w0) - TruncHalf(2 * x1 + w1)) < (w0 + w1) / 2
  {
    MidOf(x0, w0);
    MidOf(x1, w1);
  }

  lemma HalfOf(i: int)
    ensures 2 * TruncHalf(i) == if i % 2 == 0 then i else if i < 0 then i + 1 else i - 1
  {
  }

  lemma EvenMiddles(x0: int, w0: int, x1: int, w1: int, m0: int, m1: int, half: int)
    requires 2 * m0 == 2 * x0 + w0 && 2 * m1 == 2 * x1 + w1 && 2 * half == w0 + w1
    ensures Abs(m0 - m1) < half <==> Overlap(x0, w0, x1, w1)
  {
  }

  /** With even sizes and no wrap-around the truncating test is exact. */
  lemma EvenAxisIsExact(x0: int16, w0: uint16, x1: int16, w1: uint16)
    requires NoWrap(x0, w0, x1, w1) && w0 % 2 == 0 && w1 % 2 == 0
    ensures AxisIntersects(x0, w0, x1, w1) <==> Overlap(x0, w0, x1, w1)
  {
    hide AxisIntersects, Overlap;
    NoWrapTest(x0, w0, x1, w1);
    EvenMiddles(x0, w0, x1, w1, TruncHalf(2 * x0 + w0), TruncHalf(2 * x1 + w1), (w0 + w1) / 2);
  }

  lemma EvenIntersectsIsExact(r0: Rect, r1: Rect)
    requires NoWrap(r0.x, r0.width, r1.x, r1.width) && NoWrap(r0.y, r0.height, r1.y, r1.height)
    requires r0.width % 2 == 0 && r1.width % 2 == 0 && r0.height % 2 == 0 && r1.height % 2 == 0
    ensures Intersects(r0, r1) <==> RectsOverlap(r0, r1)
  {
    EvenAxisIsExact(r0.x, r0.width, r1.x, r1.width);
    EvenAxisIsExact(r0.y, r0.height, r1.y, r1.height);
  }

  predicate TowardZero(m: int, i: int) { 2 * m == i || (i < 0 && 2 * m == i + 1) || (i > 0 && 2 * m == i - 1) }

  lemma RoundedMiddles(x0: int, w0: nat, x1: int, w1: nat, m0: int, m1: int, half: int)
    requires TowardZero(m0, 2 * x0 + w0) && TowardZero(m1, 2 * x1 + w1)
    requires 2 * half == w0 + w1 || 2 * half + 1 == w0 + w1
    ensures Abs(m0 - m1) >= half ==> OverlapLength(x0, w0, x1, w1) <= 1
    ensures Abs(m0 - m1) < half ==> OverlapLength(x0, w0, x1, w1) >= 0
  {
  }

  /** With any sizes: a negative answer hides an overlap of at most one pixel, and a positive answer
      is given only to intervals that at least touch. */
  lemma AxisIsOffByAtMostOne(x0: int16, w0: uint16, x1: int16, w1: uint16)
    requires NoWrap(x0, w0, x1, w1)
    ensures !AxisIntersects(x0, w0, x1, w1) ==> OverlapLength(x0, w0, x1, w1) <= 1
    ensures AxisIntersects(x0, w0, x1, w1) ==> OverlapLength(x0, w0, x1, w1) >= 0
  {
    NoWrapTest(x0, w0, x1, w1);
    HalfOf(2 * x0 + w0);
    HalfOf(2 * x1 + w1);
    RoundedMiddles(x0, w0, x1, w1, TruncHalf(2 * x0 + w0), TruncHalf(2 * x1 + w1), (w0 + w1) / 2);
  }

  predicate ApartByAxis(r0: Rect, r1: Rect, length: int) {
    || OverlapLength(r0.x, r0.width, r1.x, r1.width) <= length
    || OverlapLength(r0.y, r0.height, r1.y, r1.height) <= length
  }

  /** For rectangles of any sizes: a negative answer hides at most one pixel on some axis, and a positive one
      is given only to rectangles that at least touch on both. */
  lemma IntersectsIsOffByAtMostOne(r0: Rect, r1: Rect)
    requires NoWrap(r0.x, r0.width, r1.x, r1.width) && NoWrap(r0.y, r0.height, r1.y, r1.height)
    ensures !Intersects(r0, r1) ==> ApartByAxis(r0, r1, 1)
    ensures Intersects(r0, r1) ==> !ApartByAxis(r0, r1, -1)
  {
    hide AxisIntersects, OverlapLength;
    AxisIsOffByAtMostOne(r0.x, r0.width, r1.x, r1.width);
    AxisIsOffByAtMostOne(r0.y, r0.height, r1.y, r1.height);
  }

  // ---- Corner against corner ----

  /** Where r0 starts when its near (or far) edge meets r1's near (or far) edge. */
  function EdgeToEdge(far0: bool, far1: bool, w0: uint16, x1: int16, w1: uint16): int16 {
    ToInt16(x1 + (if far1 then w1 else 0) - (if far0 then w0 else 0))
  }

  predicate Far(corner: nat, vertical: bool) { if vertical then corner / 2 == 1 else corner % 2 == 1 }

  function Corner(r: Rect, corner: nat): Point {
    Point(r.x + if Far(corner, false) then r.width else 0, r.y + if Far(corner, true) then r.height else 0)
  }

  function Offset(r0: Rect, r1: Rect, i: nat, j: nat): Point {
    Point(Corner(r0, i).x - Corner(r1, j).x, Corner(r0, i).y - Corner(r1, j).y)
  }

  function Moved(r: Rect, offset: Point): Rect {
    r.(x := ToInt16(r.x - ToInt16(offset.x)), y := ToInt16(r.y - ToInt16(offset.y)))
  }

  /** The moved rectangle does not depend on where r0 was. */
  lemma MovedIsEdgeToEdge(r0: Rect, r1: Rect, i: nat, j: nat)
    ensures Moved(r0, Offset(r0, r1, i, j)) == r0.(
              x := EdgeToEdge(Far(i, false), Far(j, false), r0.width, r1.x, r1.width),
              y := EdgeToEdge(Far(i, true), Far(j, true), r0.height, r1.y, r1.height))
  {
    var o := Offset(r0, r1, i, j);
    ToInt16Inside(r0.x, o.x);
    ToInt16Inside(r0.y, o.y);
  }

  predicate IsPair(i: int, j: int, a: int, b: int) { (i == a && j == b) || (i == b && j == a) }

  predicate Allowed(pos: MonitorsPos, i: int, j: int) {
    match pos
    case LeftRight => IsPair(i, j, 0, 1) || IsPair(i, j, 2, 3)
    case UpDown => IsPair(i, j, 0, 2) || IsPair(i, j, 1, 3)
    case Diagonal => IsPair(i, j, 1, 2) || IsPair(i, j, 0, 3)
    case Unknown => true
  }

  /** The corners: 0 and 1 at the top, 2 and 3 at the bottom; 0 and 2 on the left, 1 and 3 on the right. */
  predicate OnLeft(corner: nat) { corner == 0 || corner == 2 }

  predicate OnTop(corner: nat) { corner == 0 || corner == 1 }

  lemma CornersAre(r: Rect, corner: nat)
    requires corner < 4
    ensures Corner(r, corner).x == if OnLeft(corner) then r.x as int else r.x + r.width
    ensures Corner(r, corner).y == if OnTop(corner) then r.y as int else r.y + r.height
  {
  }

  /** Side by side, a left corner meets a right one at the same height; one above the other, an upper corner meets a
      lower one on the same side; diagonally, the corners are opposite; otherwise any two corners may meet. */
  predicate MayMeet(pos: MonitorsPos, i: nat, j: nat) {
    match pos
    case LeftRight => OnLeft(i) != OnLeft(j) && OnTop(i) == OnTop(j)
    case UpDown => OnLeft(i) == OnLeft(j) && OnTop(i) != OnTop(j)
    case Diagonal => OnLeft(i) != OnLeft(j) && OnTop(i) != OnTop(j)
    case Unknown => true
  }

  lemma AllowedIffMayMeet(pos: MonitorsPos, i: nat, j: nat)
    requires i < 4 && j < 4
    ensures Allowed(pos, i, j) <==> MayMeet(pos, i, j)
  {
  }

  function Length2(p: Point): int { p.x * p.x + p.y * p.y }

  predicate IsCandidate(pos: MonitorsPos, r0: Rect, r1: Rect, i: nat, j: nat) {
    i < 4 && j < 4 && Allowed(pos, i, j) && !Intersects(Moved(r0, Offset(r0, r1, i, j)), r1)
  }

  lemma CandidateMayMeet(pos: MonitorsPos, r0: Rect, r1: Rect, i: nat, j: nat)
    requires IsCandidate(pos, r0, r1, i, j)
    ensures i < 4 && j < 4 && MayMeet(pos, i, j)
  {
    AllowedIffMayMeet(pos, i, j);
  }

  /** The search order of the two nested loops. */
  predicate Before(i: int, j: int, k: int, l: int) { i < k || (i == k && j < l) }

  const INT_MAX: int := 0x7fff_ffff_ffff_ffff

  lemma MulGrows(a: nat, b: nat, c: nat)
    requires a <= b
    ensures a * c <= b * c
  {
  }

  lemma SquareIsSmall(a: int)
    requires -0x4_0000 <= a <= 0x4_0000
    ensures 0 <= a * a <= 0x4_0000 * 0x4_0000
  {
    var b := Abs(a);
    assert a * a == b * b;
    MulGrows(b, 0x4_0000, b);
    MulGrows(b, 0x4_0000, 0x4_0000);
  }

  lemma Length2IsSmall(r0: Rect, r1: Rect, i: nat, j: nat)
    ensures Length2(Offset(r0, r1, i, j)) < INT_MAX
  {
    var o := Offset(r0, r1, i, j);
    SquareIsSmall(o.x);
    SquareIsSmall(o.y);
  }

  /** A search in loop order over a 4x4 grid has kept the first of the cheapest admissible entries before (i, j). */
  predicate SearchedSoFar(ok: (int, int) -> bool, cost: (int, int) -> int, found: bool, min: int,
                          bi: int, bj: int, i: int, j: int) {
    && (found ==> 0 <= bi < 4 && 0 <= bj < 4 && ok(bi, bj) && Before(bi, bj, i, j) && min == cost(bi, bj))
    && (!found ==> min == INT_MAX)
    && forall k, l | 0 <= k < 4 && 0 <= l < 4 && Before(k, l, i, j) && ok(k, l) ::
         found && (cost(bi, bj) < cost(k, l) || (cost(bi, bj) == cost(k, l) && !Before(k, l, bi, bj)))
  }

  lemma SearchStep(ok: (int, int) -> bool, cost: (int, int) -> int, found: bool, min: int,
                   bi: int, bj: int, i: int, j: int)
    requires 0 <= i < 4 && 0 <= j < 4 && cost(i, j) < INT_MAX
    requires SearchedSoFar(ok, cost, found, min, bi, bj, i, j)
    ensures if ok(i, j) && cost(i, j) < min then SearchedSoFar(ok, cost, true, cost(i, j), i, j, i, j + 1)
            else SearchedSoFar(ok, cost, found, min, bi, bj, i, j + 1)
  {
  }

  lemma SearchNextRow(ok: (int, int) -> bool, cost: (int, int) -> int, found: bool, min: int,
                      bi: int, bj: int, i: int)
    requires SearchedSoFar(ok, cost, found, min, bi, bj, i, 4)
    ensures SearchedSoFar(ok, cost, found, min, bi, bj, i + 1, 0)
  {
  }

  /** (bi, bj) is shorter than (i, j), or as short and found no later. */
  predicate IsNoWorse(r0: Rect, r1: Rect, bi: nat, bj: nat, i: nat, j: nat) {
    var b, c := Length2(Offset(r0, r1, bi, bj)), Length2(Offset(r0, r1, i, j));
    b < c || (b == c && !Before(i, j, bi, bj))
  }

  /** The body of the two nested loops. */
  method TryPair(pos: MonitorsPos, r0: Rect, r1: Rect, i: nat, j: nat, min: int, best: Point)
    returns (better: bool, min': int, best': Point)
    requires i < 4 && j < 4
    ensures better == (IsCandidate(pos, r0, r1, i, j) && Length2(Offset(r0, r1, i, j)) < min)
    ensures best' == if better then Offset(r0, r1, i, j) else best
    ensures min' == if better then Length2(Offset(r0, r1, i, j)) else min
  {
    hide Intersects, Allowed, ToInt16, Corner;
    better, min', best' := false, min, best;
    var p1, p2 := Corner(r0, i), Corner(r1, j);
    var offset := Point(p1.x - p2.x, p1.y - p2.y);
    if !Allowed(pos, i, j) {
      return;
    }
    var mt := offset.x * offset.x + offset.y * offset.y;
    if mt >= min {
      return;
    }
    var rTemp := Rect(ToInt16(r0.x - ToInt16(offset.x)), ToInt16(r0.y - ToInt16(offset.y)), r0.width, r0.height);
    if Intersects(rTemp, r1) {
      return;
    }
    return true, mt, offset;
  }

  /** The search over corner pairs: the first of the shortest admissible moves. */
  method BestMoveOffset(pos: MonitorsPos, r0: Rect, r1: Rect)
    returns (found: bool, best: Point, ghost bi: nat, ghost bj: nat)
    ensures found <==> exists i: nat, j: nat :: IsCandidate(pos, r0, r1, i, j)
    ensures found ==> IsCandidate(pos, r0, r1, bi, bj) && best == Offset(r0, r1, bi, bj)
    ensures forall i: nat, j: nat | IsCandidate(pos, r0, r1, i, j) ::
              found && IsNoWorse(r0, r1, bi, bj, i, j)
  {
    ghost var ok := (i: int, j: int) => 0 <= i && 0 <= j && IsCandidate(pos, r0, r1, i, j);
    ghost var cost := (i: int, j: int) => if 0 <= i && 0 <= j then Length2(Offset(r0, r1, i, j)) else 0;
    found, best, bi, bj := false, Point(0, 0), 0, 0;
    var min := INT_MAX;
    for i := 0 to 4
      invariant SearchedSoFar(ok, cost, found, min, bi, bj, i, 0)
      invariant found ==> best == Offset(r0, r1, bi, bj)
    {
      for j := 0 to 4
        invariant SearchedSoFar(ok, cost, found, min, bi, bj, i, j)
        invariant found ==> best == Offset(r0, r1, bi, bj)
      {
        Length2IsSmall(r0, r1, i, j);
        SearchStep(ok, cost, found, min, bi, bj, i, j);
        var better;
        better, min, best := TryPair(pos, r0, r1, i, j, min, best);
        if better {
          found := true;
          bi, bj := i, j;
        }
      }
      SearchNextRow(ok, cost, found, min, bi, bj, i);
    }
    forall i: nat, j: nat | IsCandidate(pos, r0, r1, i, j) ensures found && IsNoWorse(r0, r1, bi, bj, i, j) {
      assert ok(i, j) && Before(i, j, 4, 0);
    }
  }

  // ---- When the search finds a move at all ----

  predicate AxisTouch(far0: bool, far1: bool, w0: uint16, x1: int16, w1: uint16) {
    AxisIntersects(EdgeToEdge(far0, far1, w0, x1, w1), w0, x1, w1)
  }

  /** Twice r1's middle, as int16. */
  function Middle2(x1: int16, w1: uint16): int16 { ToInt16(2 * x1 + w1) }

  function Delta(far0: bool, far1: bool, w0: int, w1: int): int {
    (if far1 then w1 else -w1) - if far0 then w0 else -w0
  }

  /** The test, in terms of the doubled middle `v` of r1 and the distance `delta` of the doubled middles. */
  predicate Sees(v: int16, delta: int, size: uint16) {
    Abs(TruncHalf(ToInt16(v + delta)) - TruncHalf(v)) < size / 2
  }

  lemma DoubledInside(z: int, w: int)
    ensures ToInt16(2 * ToInt16(z) + w) == ToInt16(2 * z + w)
  {
    ToInt16Inside(ToInt16(z) + w, z);
    ToInt16Inside(z + w, z);
  }

  lemma ShiftedInside(a: int, delta: int)
    ensures ToInt16(ToInt16(a) + delta) == ToInt16(a + delta)
  {
    ToInt16Inside(delta, a);
  }

  lemma HalfOfInt16(i: int16)
    ensures -0x4000 <= TruncHalf(i) < 0x4000
  {
  }

  lemma HalvesDoNotWrap(i: int16, j: int16)
    ensures ToInt16(TruncHalf(i) - TruncHalf(j)) == TruncHalf(i) - TruncHalf(j)
  {
    HalfOfInt16(i);
    HalfOfInt16(j);
  }

  lemma TouchIsSeen(z: int, w0: uint16, x1: int16, w1: uint16, delta: int)
    requires 2 * z + w0 == 2 * x1 + w1 + delta
    ensures AxisIntersects(ToInt16(z), w0, x1, w1) <==> Sees(Middle2(x1, w1), delta, ToUint16(w0 + w1))
  {
    hide ToInt16, ToUint16, TruncHalf, Mid;
    var a: int16, b: int16 := Mid(ToInt16(z), w0), Mid(x1, w1);
    assert a == TruncHalf(ToInt16(Middle2(x1, w1) + delta)) by {
      MidOf(ToInt16(z), w0);
      DoubledInside(z, w0);
      ShiftedInside(2 * x1 + w1, delta);
    }
    assert b == TruncHalf(Middle2(x1, w1)) by {
      MidOf(x1, w1);
    }
    HalvesDoNotWrap(ToInt16(Middle2(x1, w1) + delta), Middle2(x1, w1));
  }

  lemma AxisTouchIsSeen(far0: bool, far1: bool, w0: uint16, x1: int16, w1: uint16)
    ensures AxisTouch(far0, far1, w0, x1, w1) <==>
              Sees(Middle2(x1, w1), Delta(far0, far1, w0, w1), ToUint16(w0 + w1))
  {
    TouchIsSeen(x1 + (if far1 then w1 else 0) - (if far0 then w0 else 0), w0, x1, w1, Delta(far0, far1, w0, w1));
  }

  /** The doubled middle is so near zero that a move by the full size wraps around in both directions:
      next to r1, on either side, the test reads an overlap that is not there. */
  predicate Straddles(v: int16, size: uint16) {
    && size >= 0x8000
    && ((v % 2 != 0 && size % 2 == 0) || -(size - 0x8000) <= v < size - 0x8000)
    && !(size == 0x8001 && v == -1)
  }

  lemma HalfIsTowardZero(i: int)
    ensures TowardZero(TruncHalf(i), i)
  {
    HalfOf(i);
  }

  /** Halving a doubled-middle whose half and parity are known. */
  lemma HalfKnown(h: int, i: int, k: int, odd: int)
    requires TowardZero(h, i) && i == 2 * k + odd && 0 <= odd <= 1
    ensures h == if odd == 1 && i < 0 then k + 1 else k
  {
  }

  lemma BothSidesCore(v: int, s: int, p: int, q: int, hv: int, hp: int, hq: int, half: int, k: int, odd: int, par: int)
    requires -0x8000 <= v < 0x8000 && 0 <= s < 0x1_0000
    requires p == (if v + s < 0x8000 then v + s else v + s - 0x1_0000)
    requires q == (if -0x8000 <= v - s then v - s else v - s + 0x1_0000)
    requires TowardZero(hv, v) && TowardZero(hp, p) && TowardZero(hq, q)
    requires s == 2 * half + odd && 0 <= odd <= 1
    requires v == 2 * k + par && 0 <= par <= 1
    ensures Abs(hp - hv) < half && Abs(hq - hv) < half <==>
              s >= 0x8000 && ((par == 1 && odd == 0) || -(s - 0x8000) <= v < s - 0x8000) && !(s == 0x8001 && v == -1)
  {
    var up, down := if v + s < 0x8000 then 0 else 0x8000, if -0x8000 <= v - s then 0 else 0x8000;
    HalfKnown(hv, v, k, par);
    if par + odd == 2 {
      HalfKnown(hp, p, k + half + 1 - up, 0);
      HalfKnown(hq, q, k - half + down, 0);
    } else if odd == 1 {
      HalfKnown(hp, p, k + half - up, 1);
      HalfKnown(hq, q, k - half - 1 + down, 1);
    } else {
      HalfKnown(hp, p, k + half - up, par);
      HalfKnown(hq, q, k - half + down, par);
    }
  }

  lemma SeesBothSides(v: int16, size: uint16)
    ensures Sees(v, size, size) && Sees(v, 0 - size, size) <==> Straddles(v, size)
  {
    hide TruncHalf;
    var p, q := ToInt16(v + size), ToInt16(v - size);
    HalfIsTowardZero(v);
    HalfIsTowardZero(p);
    HalfIsTowardZero(q);
    BothSidesCore(v, size, p, q, TruncHalf(v), TruncHalf(p), TruncHalf(q), size / 2, v / 2, size % 2, v % 2);
  }

  /** The intervals still read as overlapping when their near edges are aligned and when their far
      edges are: `d` is the difference of the sizes, as int16. */
  predicate StillOverlaps(v: int16, d: int16, size: uint16) {
    var e: int := Abs(d);
    var inRange := -0x8000 <= v + d < 0x8000 && -0x8000 <= v - d < 0x8000;
    if size % 2 != 0 && e == size - 2 then v % 2 == 0 && -e < v < e && inRange
    else e < size && (inRange || 0x1_0000 - e < size)
  }

  /** How far a wrapped sum is from the true one, in halves. */
  function Turn(i: int): int { if i >= 0x8000 then -0x8000 else if i < -0x8000 then 0x8000 else 0 }

  lemma TurnIs(i: int)
    requires -0x1_0000 <= i < 0x1_0000
    ensures ToInt16(i) == i + 2 * Turn(i)
  {
  }

  lemma SeesIs(v: int16, delta: int, size: uint16, half: int)
    requires half == size / 2 && -0x8000 <= delta <= 0x8000
    ensures Sees(v, delta, size) <==> Abs(TruncHalf(v + delta + 2 * Turn(v + delta)) - TruncHalf(v)) < half
  {
    TurnIs(v + delta);
  }

  predicate Aligned(v: int, d: int, s: int, odd: int, par: int) {
    var e: int := Abs(d);
    var inRange := Turn(v + d) == 0 && Turn(v - d) == 0;
    if odd == 1 && e == s - 2 then par == 0 && -e < v < e && inRange
    else e < s && (inRange || 0x1_0000 - e < s)
  }

  lemma StillOverlapsIs(v: int16, d: int16, size: uint16, odd: int, par: int)
    requires odd == size % 2 && par == v % 2
    ensures StillOverlaps(v, d, size) <==> Aligned(v, d, size, odd, par)
  {
  }

  /** Everything in halves and parities: v == 2 vh + par, d == 2 dh + odd, s == 2 half + odd; hv, hp, hq are
      the halves of v and of the wrapped v + d and v - d. */
  predicate Halves(v: int, d: int, s: int, hv: int, hp: int, hq: int,
                   half: int, dh: int, vh: int, odd: int, par: int, k: int, l: int) {
    var p, q := v + d + 2 * Turn(v + d), v - d + 2 * Turn(v - d);
    && -0x8000 <= v < 0x8000 && 0 <= s < 0x1_0000 && -0x8000 <= d < 0x8000
    && s == 2 * half + odd && d == 2 * dh + odd && v == 2 * vh + par && 0 <= odd <= 1 && 0 <= par <= 1
    && s - d == 2 * k && v - k == 2 * l
    && TowardZero(hv, v) && TowardZero(hp, p) && TowardZero(hq, q)
  }

  lemma AlignedEvenEven(v: int, d: int, s: int, hv: int, hp: int, hq: int, half: int, dh: int, vh: int, k: int, l: int)
    requires Halves(v, d, s, hv, hp, hq, half, dh, vh, 0, 0, k, l)
    ensures Abs(hp - hv) < half && Abs(hq - hv) < half <==> Aligned(v, d, s, 0, 0)
  {
    HalfKnown(hv, v, vh, 0);
    HalfKnown(hp, v + d + 2 * Turn(v + d), vh + dh + Turn(v + d), 0);
    HalfKnown(hq, v - d + 2 * Turn(v - d), vh - dh + Turn(v - d), 0);
  }

  predicate OddHalves(v: int, d: int, s: int, hv: int, hp: int, hq: int, half: int, dh: int, vh: int, k: int, l: int) {
    && -0x8000 <= v < 0x8000 && 0 <= s < 0x1_0000 && -0x8000 <= d < 0x8000
    && s == 2 * half && d == 2 * dh && v == 2 * vh + 1 && half - dh == k && v - k == 2 * l
    && hv == (if v < 0 then vh + 1 else vh)
    && hp == vh + dh + Turn(v + d) + (if v + d + 2 * Turn(v + d) < 0 then 1 else 0)
    && hq == vh - dh + Turn(v - d) + (if v - d + 2 * Turn(v - d) < 0 then 1 else 0)
  }

  lemma OddMiddleInRange(v: int, d: int, s: int, hv: int, hp: int, hq: int, half: int, dh: int, vh: int, k: int, l: int)
    requires OddHalves(v, d, s, hv, hp, hq, half, dh, vh, k, l) && Turn(v + d) == 0 && Turn(v - d) == 0
    ensures Abs(hp - hv) < half && Abs(hq - hv) < half <==> Aligned(v, d, s, 0, 1)
  {
  }

  lemma OddMiddleOutOfRange(v: int, d: int, s: int, hv: int, hp: int, hq: int, half: int, dh: int, vh: int, k: int,
                            l: int)
    requires OddHalves(v, d, s, hv, hp, hq, half, dh, vh, k, l) && (Turn(v + d) != 0 || Turn(v - d) != 0)
    ensures Abs(hp - hv) < half && Abs(hq - hv) < half <==> Aligned(v, d, s, 0, 1)
  {
  }

  lemma AlignedEvenOdd(v: int, d: int, s: int, hv: int, hp: int, hq: int, half: int, dh: int, vh: int, k: int, l: int)
    requires Halves(v, d, s, hv, hp, hq, half, dh, vh, 0, 1, k, l)
    ensures Abs(hp - hv) < half && Abs(hq - hv) < half <==> Aligned(v, d, s, 0, 1)
  {
    HalfKnown(hv, v, vh, 1);
    HalfKnown(hp, v + d + 2 * Turn(v + d), vh + dh + Turn(v + d), 1);
    HalfKnown(hq, v - d + 2 * Turn(v - d), vh - dh + Turn(v - d), 1);
    if Turn(v + d) == 0 && Turn(v - d) == 0 {
      OddMiddleInRange(v, d, s, hv, hp, hq, half, dh, vh, k, l);
    } else {
      OddMiddleOutOfRange(v, d, s, hv, hp, hq, half, dh, vh, k, l);
    }
  }

  lemma AlignedOddEven(v: int, d: int, s: int, hv: int, hp: int, hq: int, half: int, dh: int, vh: int, k: int, l: int)
    requires Halves(v, d, s, hv, hp, hq, half, dh, vh, 1, 0, k, l)
    ensures Abs(hp - hv) < half && Abs(hq - hv) < half <==> Aligned(v, d, s, 1, 0)
  {
    HalfKnown(hv, v, vh, 0);
    HalfKnown(hp, v + d + 2 * Turn(v + d), vh + dh + Turn(v + d), 1);
    HalfKnown(hq, v - d + 2 * Turn(v - d), vh - dh - 1 + Turn(v - d), 1);
  }

  lemma AlignedOddOdd(v: int, d: int, s: int, hv: int, hp: int, hq: int, half: int, dh: int, vh: int, k: int, l: int)
    requires Halves(v, d, s, hv, hp, hq, half, dh, vh, 1, 1, k, l)
    ensures Abs(hp - hv) < half && Abs(hq - hv) < half <==> Aligned(v, d, s, 1, 1)
  {
    HalfKnown(hv, v, vh, 1);
    HalfKnown(hp, v + d + 2 * Turn(v + d), vh + dh + 1 + Turn(v + d), 0);
    HalfKnown(hq, v - d + 2 * Turn(v - d), vh - dh + Turn(v - d), 0);
  }

  lemma AlignedCore(v: int, d: int, s: int, hv: int, hp: int, hq: int,
                    half: int, dh: int, vh: int, odd: int, par: int, k: int, l: int)
    requires Halves(v, d, s, hv, hp, hq, half, dh, vh, odd, par, k, l)
    ensures Abs(hp - hv) < half && Abs(hq - hv) < half <==> Aligned(v, d, s, odd, par)
  {
    if odd == 0 {
      if par == 0 {
        AlignedEvenEven(v, d, s, hv, hp, hq, half, dh, vh, k, l);
      } else {
        AlignedEvenOdd(v, d, s, hv, hp, hq, half, dh, vh, k, l);
      }
    } else if par == 0 {
      AlignedOddEven(v, d, s, hv, hp, hq, half, dh, vh, k, l);
    } else {
      AlignedOddOdd(v, d, s, hv, hp, hq, half, dh, vh, k, l);
    }
  }

  lemma SeesAligned(v: int16, d: int16, size: uint16, k: int, l: int)
    requires size - d == 2 * k && v - k == 2 * l
    ensures Sees(v, d, size) && Sees(v, 0 - d, size) <==> StillOverlaps(v, d, size)
  {
    hide ToInt16, TruncHalf, Sees, StillOverlaps, Aligned;
    var half, odd, vh, par := size / 2, size % 2, v / 2, v % 2;
    HalfIsTowardZero(v);
    HalfIsTowardZero(v + d + 2 * Turn(v + d));
    HalfIsTowardZero(v - d + 2 * Turn(v - d));
    AlignedCore(v, d, size, TruncHalf(v), TruncHalf(v + d + 2 * Turn(v + d)), TruncHalf(v - d + 2 * Turn(v - d)),
                half, half - k, vh, odd, par, k, l);
    SeesIs(v, d, size, half);
    SeesIs(v, 0 - d, size, half);
    StillOverlapsIs(v, d, size, odd, par);
  }

  // ---- Exactly when a move is found ----

  /** Beside r1 on this axis, on either side, the test always reads an overlap. */
  predicate BothWays(w0: uint16, x1: int16, w1: uint16) {
    Straddles(Middle2(x1, w1), ToUint16(w0 + w1))
  }

  /** With either pair of edges aligned on this axis, the test reads an overlap. */
  predicate StillTouching(w0: uint16, x1: int16, w1: uint16) {
    StillOverlaps(Middle2(x1, w1), ToInt16(w0 - w1), ToUint16(w0 + w1))
  }

  lemma SeesCongruent(v: int16, a: int, k: int, size: uint16)
    ensures Sees(v, a + 0x1_0000 * k, size) <==> Sees(v, a, size)
  {
    ToInt16Congruent(v + a, k);
    assert v + (a + 0x1_0000 * k) == v + a + 0x1_0000 * k;
  }

  lemma SumTurns(w0: uint16, w1: uint16) returns (k: int)
    ensures w0 + w1 == ToUint16(w0 + w1) + 0x1_0000 * k
  {
    k := if w0 + w1 < 0x1_0000 then 0 else 1;
  }

  lemma AxisBothWays(w0: uint16, x1: int16, w1: uint16)
    ensures AxisTouch(false, true, w0, x1, w1) && AxisTouch(true, false, w0, x1, w1) <==> BothWays(w0, x1, w1)
  {
    hide ToInt16, ToUint16, AxisTouch, Sees, Straddles, Middle2;
    var size: int := ToUint16(w0 + w1);
    var k := SumTurns(w0, w1);
    AxisTouchIsSeen(false, true, w0, x1, w1);
    AxisTouchIsSeen(true, false, w0, x1, w1);
    SeesCongruent(Middle2(x1, w1), size, k, size);
    SeesCongruent(Middle2(x1, w1), 0 - size, -k, size);
    SeesBothSides(Middle2(x1, w1), size);
  }

  lemma AlignedParities(w0: uint16, x1: int16, w1: uint16) returns (b: int, k: int, l: int)
    ensures ToInt16(w0 - w1) == w0 - w1 + 0x1_0000 * b
    ensures ToUint16(w0 + w1) - ToInt16(w0 - w1) == 2 * k && Middle2(x1, w1) - k == 2 * l
  {
    hide ToInt16, ToUint16;
    var a := SumTurns(w0, w1);
    b := ToInt16Turns(w0 - w1);
    var c := ToInt16Turns(2 * x1 + w1);
    k, l := w1 - 0x8000 * (a + b), x1 + 0x8000 * c + 0x4000 * (a + b);
  }

  lemma AxisAligned(w0: uint16, x1: int16, w1: uint16)
    ensures AxisTouch(false, false, w0, x1, w1) && AxisTouch(true, true, w0, x1, w1) <==> StillTouching(w0, x1, w1)
  {
    hide ToInt16, ToUint16, AxisTouch, Sees, StillOverlaps, Middle2;
    var size, v := ToUint16(w0 + w1), Middle2(x1, w1);
    var b, k, l := AlignedParities(w0, x1, w1);
    AxisTouchIsSeen(false, false, w0, x1, w1);
    AxisTouchIsSeen(true, true, w0, x1, w1);
    SeesCongruent(v, w0 - w1, b, size);
    SeesCongruent(v, w1 - w0, -b, size);
    SeesAligned(v, ToInt16(w0 - w1), size, k, l);
  }

  lemma PairIntersects(r0: Rect, r1: Rect, i: nat, j: nat)
    ensures Intersects(Moved(r0, Offset(r0, r1, i, j)), r1) <==>
              && AxisTouch(Far(i, false), Far(j, false), r0.width, r1.x, r1.width)
              && AxisTouch(Far(i, true), Far(j, true), r0.height, r1.y, r1.height)
  {
    MovedIsEdgeToEdge(r0, r1, i, j);
  }

  /** The inputs for which no move is found; r0's own position plays no part. */
  predicate FindsNoMove(pos: MonitorsPos, r0: Rect, r1: Rect) {
    match pos
    case LeftRight => BothWays(r0.width, r1.x, r1.width) && StillTouching(r0.height, r1.y, r1.height)
    case UpDown => StillTouching(r0.width, r1.x, r1.width) && BothWays(r0.height, r1.y, r1.height)
    case Diagonal => BothWays(r0.width, r1.x, r1.width) && BothWays(r0.height, r1.y, r1.height)
    case Unknown =>
      && BothWays(r0.width, r1.x, r1.width) && StillTouching(r0.width, r1.x, r1.width)
      && BothWays(r0.height, r1.y, r1.height) && StillTouching(r0.height, r1.y, r1.height)
  }

  /** Which of the four corner alignments read as overlapping, on one axis. */
  datatype Axis = Axis(nearNear: bool, nearFar: bool, farNear: bool, farFar: bool) {
    predicate At(far0: bool, far1: bool) {
      if far0 then (if far1 then farFar else farNear) else (if far1 then nearFar else nearNear)
    }
  }

  function AxisOf(w0: uint16, x1: int16, w1: uint16): Axis {
    Axis(AxisTouch(false, false, w0, x1, w1), AxisTouch(false, true, w0, x1, w1),
         AxisTouch(true, false, w0, x1, w1), AxisTouch(true, true, w0, x1, w1))
  }

  predicate AllOverlap(pos: MonitorsPos, x: Axis, y: Axis) {
    forall i, j | 0 <= i < 4 && 0 <= j < 4 && Allowed(pos, i, j) ::
      x.At(Far(i, false), Far(j, false)) && y.At(Far(i, true), Far(j, true))
  }

  lemma AllOverlapIff(pos: MonitorsPos, x: Axis, y: Axis)
    ensures AllOverlap(pos, x, y) <==>
      match pos
      case LeftRight => x.nearFar && x.farNear && y.nearNear && y.farFar
      case UpDown => x.nearNear && x.farFar && y.nearFar && y.farNear
      case Diagonal => x.nearFar && x.farNear && y.nearFar && y.farNear
      case Unknown => x == Axis(true, true, true, true) && y == Axis(true, true, true, true)
  {
    if AllOverlap(pos, x, y) {
      assert Allowed(pos, 0, 1) ==> x.At(Far(0, false), Far(1, false)) && y.At(Far(0, true), Far(1, true));
      assert Allowed(pos, 1, 0) ==> x.At(Far(1, false), Far(0, false)) && y.At(Far(1, true), Far(0, true));
      assert Allowed(pos, 2, 3) ==> x.At(Far(2, false), Far(3, false)) && y.At(Far(2, true), Far(3, true));
      assert Allowed(pos, 0, 2) ==> x.At(Far(0, false), Far(2, false)) && y.At(Far(0, true), Far(2, true));
      assert Allowed(pos, 2, 0) ==> x.At(Far(2, false), Far(0, false)) && y.At(Far(2, true), Far(0, true));
      assert Allowed(pos, 1, 3) ==> x.At(Far(1, false), Far(3, false)) && y.At(Far(1, true), Far(3, true));
      assert Allowed(pos, 1, 2) ==> x.At(Far(1, false), Far(2, false)) && y.At(Far(1, true), Far(2, true));
      assert Allowed(pos, 2, 1) ==> x.At(Far(2, false), Far(1, false)) && y.At(Far(2, true), Far(1, true));
    }
  }

  lemma CandidateIs(pos: MonitorsPos, r0: Rect, r1: Rect, i: nat, j: nat)
    requires i < 4 && j < 4 && Allowed(pos, i, j)
    ensures IsCandidate(pos, r0, r1, i, j) <==>
              !(AxisOf(r0.width, r1.x, r1.width).At(Far(i, false), Far(j, false)) &&
                AxisOf(r0.height, r1.y, r1.height).At(Far(i, true), Far(j, true)))
  {
    PairIntersects(r0, r1, i, j);
  }

  lemma CandidatesAre(pos: MonitorsPos, r0: Rect, r1: Rect, x: Axis, y: Axis)
    requires x == AxisOf(r0.width, r1.x, r1.width) && y == AxisOf(r0.height, r1.y, r1.height)
    ensures (forall i: nat, j: nat :: !IsCandidate(pos, r0, r1, i, j)) <==> AllOverlap(pos, x, y)
  {
    if AllOverlap(pos, x, y) {
      forall i: nat, j: nat ensures !IsCandidate(pos, r0, r1, i, j) {
        if i < 4 && j < 4 && Allowed(pos, i, j) {
          CandidateIs(pos, r0, r1, i, j);
        }
      }
    } else {
      var i: nat, j: nat :| i < 4 && j < 4 && Allowed(pos, i, j) &&
                            !(x.At(Far(i, false), Far(j, false)) && y.At(Far(i, true), Far(j, true)));
      CandidateIs(pos, r0, r1, i, j);
    }
  }

  lemma NoCandidateIff(pos: MonitorsPos, r0: Rect, r1: Rect)
    ensures (forall i: nat, j: nat :: !IsCandidate(pos, r0, r1, i, j)) <==> FindsNoMove(pos, r0, r1)
  {
    var x, y := AxisOf(r0.width, r1.x, r1.width), AxisOf(r0.height, r1.y, r1.height);
    AxisBothWays(r0.width, r1.x, r1.width);
    AxisBothWays(r0.height, r1.y, r1.height);
    AxisAligned(r0.width, r1.x, r1.width);
    AxisAligned(r0.height, r1.y, r1.height);
    AllOverlapIff(pos, x, y);
    CandidatesAre(pos, r0, r1, x, y);
  }

  /** Sizes that together stay below 2^15 always leave a move, wherever the screens are. */
  lemma SmallScreensAlwaysMove(pos: MonitorsPos, r0: Rect, r1: Rect)
    requires r0.width + r1.width < 0x8000 && r0.height + r1.height < 0x8000
    ensures !FindsNoMove(pos, r0, r1)
  {
  }

  /** Two screens 20000 wide, side by side mode: no move is found. */
  lemma WideScreensCanFail()
    ensures FindsNoMove(LeftRight, Rect(0, 0, 20000, 10), Rect(-10000, 0, 20000, 10))
  {
    assert Middle2(-10000, 20000) == 0;
    assert ToUint16(40000) == 40000;
  }

  // ---- The result of the move ----

  /** r1 lies so near the origin that nothing placed against it wraps around, on this axis. */
  predicate AxisInRange(w0: int, x1: int, w1: int) {
    -0x8000 <= 2 * x1 - w0 && 2 * x1 + 2 * w1 + w0 < 0x8000
  }

  predicate InRange(r0: Rect, r1: Rect) {
    AxisInRange(r0.width, r1.x, r1.width) && AxisInRange(r0.height, r1.y, r1.height)
  }

  predicate EvenSizes(r0: Rect, r1: Rect) {
    r0.width % 2 == 0 && r1.width % 2 == 0 && r0.height % 2 == 0 && r1.height % 2 == 0
  }

  /** Where the near edge of r0 comes to lie, over the integers. */
  function Place(far0: bool, far1: bool, w0: int, x1: int, w1: int): int {
    x1 + (if far1 then w1 else 0) - (if far0 then w0 else 0)
  }

  predicate OverlapsWhenPlaced(r0: Rect, r1: Rect, i: nat, j: nat) {
    && Overlap(Place(Far(i, false), Far(j, false), r0.width, r1.x, r1.width), r0.width, r1.x, r1.width)
    && Overlap(Place(Far(i, true), Far(j, true), r0.height, r1.y, r1.height), r0.height, r1.y, r1.height)
  }

  lemma InRangePlacement(far0: bool, far1: bool, w0: uint16, x1: int16, w1: uint16)
    requires AxisInRange(w0, x1, w1)
    ensures EdgeToEdge(far0, far1, w0, x1, w1) == Place(far0, far1, w0, x1, w1)
    ensures NoWrap(EdgeToEdge(far0, far1, w0, x1, w1), w0, x1, w1)
  {
  }

  /** In range and with even sizes the candidates are exactly the allowed moves that do not overlap. */
  lemma CandidatesAreExact(pos: MonitorsPos, r0: Rect, r1: Rect, i: nat, j: nat)
    requires InRange(r0, r1) && EvenSizes(r0, r1) && i < 4 && j < 4
    ensures IsCandidate(pos, r0, r1, i, j) <==> Allowed(pos, i, j) && !OverlapsWhenPlaced(r0, r1, i, j)
  {
    PairIntersects(r0, r1, i, j);
    InRangePlacement(Far(i, false), Far(j, false), r0.width, r1.x, r1.width);
    InRangePlacement(Far(i, true), Far(j, true), r0.height, r1.y, r1.height);
    EvenAxisIsExact(EdgeToEdge(Far(i, false), Far(j, false), r0.width, r1.x, r1.width), r0.width, r1.x, r1.width);
    EvenAxisIsExact(EdgeToEdge(Far(i, true), Far(j, true), r0.height, r1.y, r1.height), r0.height, r1.y, r1.height);
  }

  function Min(a: int, b: int): int { if a < b then a else b }

  /** Corner i of r0 is no farther from corner j of r1 than corner k is from corner l. */
  predicate IsNoFarther(r0: Rect, r1: Rect, i: nat, j: nat, k: nat, l: nat) {
    var a, b, c, d := Corner(r0, i), Corner(r1, j), Corner(r0, k), Corner(r1, l);
    (a.x - b.x) * (a.x - b.x) + (a.y - b.y) * (a.y - b.y) <= (c.x - d.x) * (c.x - d.x) + (c.y - d.y) * (c.y - d.y)
  }

  /** What the caller gets: the rectangles keep their sizes, lie against each other corner to corner
      without overlapping, start at the origin, and no allowed move that avoids overlap is shorter. */
  predicate WellPlaced(pos: MonitorsPos, r0: Rect, r1: Rect, rt0: Rect, rt1: Rect, i: nat, j: nat) {
    && i < 4 && j < 4 && MayMeet(pos, i, j)
    && Corner(rt0, i) == Corner(rt1, j)
    && !RectsOverlap(rt0, rt1)
    && Min(rt0.x, rt1.x) == 0 && Min(rt0.y, rt1.y) == 0
    && forall k: nat, l: nat | k < 4 && l < 4 && MayMeet(pos, k, l) && !OverlapsWhenPlaced(r0, r1, k, l) ::
         IsNoFarther(r0, r1, i, j, k, l)
  }

  /** Side by side or one above the other, as the arrangement says, with an edge of one on the line of an edge of
      the other; the unknown arrangement allows everything. */
  predicate StandsBy(pos: MonitorsPos, a: Rect, b: Rect) {
    var beside := a.x + a.width == b.x || b.x + b.width == a.x;
    var above := a.y + a.height == b.y || b.y + b.height == a.y;
    match pos
    case LeftRight => beside && (a.y == b.y || a.y + a.height == b.y + b.height)
    case UpDown => above && (a.x == b.x || a.x + a.width == b.x + b.width)
    case Diagonal => beside && above
    case Unknown => true
  }

  lemma CornersStandBy(pos: MonitorsPos, a: Rect, b: Rect, i: nat, j: nat)
    requires i < 4 && j < 4 && MayMeet(pos, i, j) && Corner(a, i) == Corner(b, j)
    ensures StandsBy(pos, a, b)
  {
    CornersAre(a, i);
    CornersAre(b, j);
  }

  predicate NoSideIsOne(r: Rect) { r.width != 1 && r.height != 1 }

  /** Both rectangles, moved so that the smaller coordinate becomes zero. */
  predicate IsNormalized(a: Rect, b: Rect, rt0: Rect, rt1: Rect) {
    && rt0 == a.(x := ToInt16(a.x - Min(a.x, b.x)), y := ToInt16(a.y - Min(a.y, b.y)))
    && rt1 == b.(x := ToInt16(b.x - Min(a.x, b.x)), y := ToInt16(b.y - Min(a.y, b.y)))
  }

  lemma PlacedAxis(far0: bool, far1: bool, w0: uint16, x1: int16, w1: uint16)
    requires AxisInRange(w0, x1, w1)
    ensures var e := EdgeToEdge(far0, far1, w0, x1, w1); var m := Min(e, x1);
            && ToInt16(e - m) == e - m && ToInt16(x1 - m) == x1 - m
            && Min(e - m, x1 - m) == 0
            && e - m + (if far0 then w0 else 0) == x1 - m + (if far1 then w1 else 0)
            && (Overlap(e - m, w0, x1 - m, w1) <==> Overlap(Place(far0, far1, w0, x1, w1), w0, x1, w1))
  {
    InRangePlacement(far0, far1, w0, x1, w1);
  }

  lemma TouchesWithoutOverlap(pos: MonitorsPos, r0: Rect, r1: Rect, i: nat, j: nat, rt0: Rect, rt1: Rect)
    requires InRange(r0, r1) && EvenSizes(r0, r1)
    requires IsCandidate(pos, r0, r1, i, j)
    requires IsNormalized(Moved(r0, Offset(r0, r1, i, j)), r1, rt0, rt1)
    ensures Corner(rt0, i) == Corner(rt1, j) && !RectsOverlap(rt0, rt1)
    ensures Min(rt0.x, rt1.x) == 0 && Min(rt0.y, rt1.y) == 0
  {
    CandidatesAreExact(pos, r0, r1, i, j);
    MovedIsEdgeToEdge(r0, r1, i, j);
    PlacedAxis(Far(i, false), Far(j, false), r0.width, r1.x, r1.width);
    PlacedAxis(Far(i, true), Far(j, true), r0.height, r1.y, r1.height);
  }

  lemma IsWellPlaced(pos: MonitorsPos, r0: Rect, r1: Rect, i: nat, j: nat, rt0: Rect, rt1: Rect)
    requires InRange(r0, r1) && EvenSizes(r0, r1)
    requires IsCandidate(pos, r0, r1, i, j)
    requires forall k: nat, l: nat | IsCandidate(pos, r0, r1, k, l) :: IsNoWorse(r0, r1, i, j, k, l)
    requires IsNormalized(Moved(r0, Offset(r0, r1, i, j)), r1, rt0, rt1)
    ensures WellPlaced(pos, r0, r1, rt0, rt1, i, j)
  {
    hide Intersects, RectsOverlap, Corner, ToInt16, OverlapsWhenPlaced, Allowed, MayMeet;
    TouchesWithoutOverlap(pos, r0, r1, i, j, rt0, rt1);
    AllowedIffMayMeet(pos, i, j);
    forall k: nat, l: nat | k < 4 && l < 4 && MayMeet(pos, k, l) && !OverlapsWhenPlaced(r0, r1, k, l)
      ensures IsNoFarther(r0, r1, i, j, k, l)
    {
      AllowedIffMayMeet(pos, k, l);
      CandidatesAreExact(pos, r0, r1, k, l);
      assert IsNoWorse(r0, r1, i, j, k, l);
    }
  }

  lemma ShiftedTogether(far0: bool, far1: bool, w0: uint16, x1: int16, w1: uint16)
    requires AxisInRange(w0, x1, w1)
    ensures var e := EdgeToEdge(far0, far1, w0, x1, w1); var a, b := ToInt16(e - Min(e, x1)), ToInt16(x1 - Min(e, x1));
            && OverlapLength(a, w0, b, w1) == OverlapLength(e, w0, x1, w1)
            && (OverlapLength(e, w0, x1, w1) <= 1 && w0 != 1 && w1 != 1 ==> !Overlap(a, w0, b, w1))
  {
    InRangePlacement(far0, far1, w0, x1, w1);
    PlacedAxis(far0, far1, w0, x1, w1);
  }

  /** In range, whatever the parity of the sizes, the placed rectangles share at most one row or column; corner
      lies against corner, so only a side of a single pixel can be shared. */
  lemma OddSizesAreApart(pos: MonitorsPos, r0: Rect, r1: Rect, i: nat, j: nat, rt0: Rect, rt1: Rect)
    requires InRange(r0, r1) && IsCandidate(pos, r0, r1, i, j)
    requires IsNormalized(Moved(r0, Offset(r0, r1, i, j)), r1, rt0, rt1)
    ensures Corner(rt0, i) == Corner(rt1, j) && Min(rt0.x, rt1.x) == 0 && Min(rt0.y, rt1.y) == 0
    ensures ApartByAxis(rt0, rt1, 1)
    ensures NoSideIsOne(r0) && NoSideIsOne(r1) ==> !RectsOverlap(rt0, rt1)
  {
    hide Intersects, OverlapLength, Overlap, ToInt16, Offset;
    MovedIsEdgeToEdge(r0, r1, i, j);
    var m := Moved(r0, Offset(r0, r1, i, j));
    InRangePlacement(Far(i, false), Far(j, false), r0.width, r1.x, r1.width);
    InRangePlacement(Far(i, true), Far(j, true), r0.height, r1.y, r1.height);
    IntersectsIsOffByAtMostOne(m, r1);
    ShiftedTogether(Far(i, false), Far(j, false), r0.width, r1.x, r1.width);
    ShiftedTogether(Far(i, true), Far(j, true), r0.height, r1.y, r1.height);
    PlacedAxis(Far(i, false), Far(j, false), r0.width, r1.x, r1.width);
    PlacedAxis(Far(i, true), Far(j, true), r0.height, r1.y, r1.height);
  }

  /** Two screens apart along the diagonal: the near corner of one meets the far corner of the other. */
  lemma DiagonalKeepsOrder()
    ensures IsCandidate(Diagonal, Rect(0, 0, 100, 100), Rect(150, 150, 100, 100), 3, 0)
    ensures Length2(Offset(Rect(0, 0, 100, 100), Rect(150, 150, 100, 100), 3, 0)) == 5000
  {
    CandidatesAreExact(Diagonal, Rect(0, 0, 100, 100), Rect(150, 150, 100, 100), 3, 0);
  }

  method BestMovePosition(pos: MonitorsPos, r0: Rect, r1: Rect)
    returns (ok: bool, rt0: Rect, rt1: Rect, ghost i: nat, ghost j: nat)
    ensures ok <==> !FindsNoMove(pos, r0, r1)
    ensures ok ==> IsCandidate(pos, r0, r1, i, j) && IsNormalized(Moved(r0, Offset(r0, r1, i, j)), r1, rt0, rt1)
    ensures ok ==> i < 4 && j < 4 && MayMeet(pos, i, j)
    ensures ok ==> forall k: nat, l: nat | IsCandidate(pos, r0, r1, k, l) :: IsNoWorse(r0, r1, i, j, k, l)
    ensures InRange(r0, r1) ==>
              && ok && Corner(rt0, i) == Corner(rt1, j) && Min(rt0.x, rt1.x) == 0 && Min(rt0.y, rt1.y) == 0
              && StandsBy(pos, rt0, rt1)
              && ApartByAxis(rt0, rt1, 1)
              && (NoSideIsOne(r0) && NoSideIsOne(r1) ==> !RectsOverlap(rt0, rt1))
              && (EvenSizes(r0, r1) ==> WellPlaced(pos, r0, r1, rt0, rt1, i, j))
  {
    hide FindsNoMove, IsCandidate, IsNoWorse, WellPlaced, ToInt16, Offset, ApartByAxis, RectsOverlap, Corner;
    hide MayMeet, StandsBy;
    var offset;
    ok, offset, i, j := BestMoveOffset(pos, r0, r1);
    NoCandidateIff(pos, r0, r1);
    if InRange(r0, r1) {
      SmallScreensAlwaysMove(pos, r0, r1);
    }
    if !ok {
      return false, Rect(0, 0, 0, 0), Rect(0, 0, 0, 0), i, j;
    }
    CandidateMayMeet(pos, r0, r1, i, j);
    rt0 := Rect(ToInt16(r0.x - ToInt16(offset.x)), ToInt16(r0.y - ToInt16(offset.y)), r0.width, r0.height);
    rt1 := r1;
    var minX, minY := Min(rt0.x, rt1.x), Min(rt0.y, rt1.y);
    rt0 := rt0.(x := ToInt16(rt0.x - ToInt16(minX)), y := ToInt16(rt0.y - ToInt16(minY)));
    rt1 := rt1.(x := ToInt16(rt1.x - ToInt16(minX)), y := ToInt16(rt1.y - ToInt16(minY)));
    if InRange(r0, r1) {
      OddSizesAreApart(pos, r0, r1, i, j, rt0, rt1);
      CornersStandBy(pos, rt0, rt1, i, j);
    }
    if InRange(r0, r1) && EvenSizes(r0, r1) {
      IsWellPlaced(pos, r0, r1, i, j, rt0, rt1);
    }
  }
}
