/** The transformation matrix of a touchscreen (display/touchscreen.go), over the real numbers. */
module TouchMatrix {
  import opened Ints
  import opened RandR

  const REFLECT_ALL: bv16 := 48

  // ---- What it should be: placement after reflection after rotation ----

  type Matrix = s: seq<real> | |s| == 9 witness UNITY

  const UNITY: seq<real> := [1.0, 0.0, 0.0, 0.0, 1.0, 0.0, 0.0, 0.0, 1.0]

  datatype Point = Point(u: real, v: real)

  function Dot(a: real, b: real, c: real, d: real, e: real, f: real): real { a * d + b * e + c * f }

  function Times(a: Matrix, b: Matrix): Matrix {
    [Dot(a[0], a[1], a[2], b[0], b[3], b[6]), Dot(a[0], a[1], a[2], b[1], b[4], b[7]),
     Dot(a[0], a[1], a[2], b[2], b[5], b[8]),
     Dot(a[3], a[4], a[5], b[0], b[3], b[6]), Dot(a[3], a[4], a[5], b[1], b[4], b[7]),
     Dot(a[3], a[4], a[5], b[2], b[5], b[8]),
     Dot(a[6], a[7], a[8], b[0], b[3], b[6]), Dot(a[6], a[7], a[8], b[1], b[4], b[7]),
     Dot(a[6], a[7], a[8], b[2], b[5], b[8])]
  }

  /** The image of a point, as the matrix takes (u, v, 1). */
  function Image(a: Matrix, p: Point): Point {
    Point(Dot(a[0], a[1], a[2], p.u, p.v, 1.0), Dot(a[3], a[4], a[5], p.u, p.v, 1.0))
  }

  /** A rotation bit together with any of the two reflection bits. */
  predicate IsCode(code: bv16) {
    code & 0xffc0 == 0 && code & 15 in {ROTATE_0, ROTATE_90, ROTATE_180, ROTATE_270}
  }

  /** Rotations of the unit square onto itself. */
  function Rotated(code: bv16, p: Point): Point {
    var r := code & 15;
    if r == ROTATE_90 then Point(1.0 - p.v, p.u)
    else if r == ROTATE_180 then Point(1.0 - p.u, 1.0 - p.v)
    else if r == ROTATE_270 then Point(p.v, 1.0 - p.u)
    else p
  }

  function Reflected(code: bv16, p: Point): Point {
    Point(if code & REFLECT_X != 0 then 1.0 - p.u else p.u, if code & REFLECT_Y != 0 then 1.0 - p.v else p.v)
  }

  function Symmetry(code: bv16, p: Point): Point { Reflected(code, Rotated(code, p)) }

  function RotationMatrix(code: bv16): Matrix {
    var r := code & 15;
    if r == ROTATE_90 then [0.0, -1.0, 1.0, 1.0, 0.0, 0.0, 0.0, 0.0, 1.0]
    else if r == ROTATE_180 then [-1.0, 0.0, 1.0, 0.0, -1.0, 1.0, 0.0, 0.0, 1.0]
    else if r == ROTATE_270 then [0.0, 1.0, 0.0, -1.0, 0.0, 1.0, 0.0, 0.0, 1.0]
    else UNITY
  }

  function ReflectionMatrix(code: bv16): Matrix {
    var x, y := code & REFLECT_X != 0, code & REFLECT_Y != 0;
    [if x then -1.0 else 1.0, 0.0, if x then 1.0 else 0.0,
     0.0, if y then -1.0 else 1.0, if y then 1.0 else 0.0,
     0.0, 0.0, 1.0]
  }

  function PlacementMatrix(x: real, y: real, w: real, h: real): Matrix { [w, 0.0, x, 0.0, h, y, 0.0, 0.0, 1.0] }

  function SymmetryMatrix(code: bv16): Matrix { Times(ReflectionMatrix(code), RotationMatrix(code)) }

  function Product(x: real, y: real, w: real, h: real, code: bv16): Matrix {
    Times(PlacementMatrix(x, y, w, h), SymmetryMatrix(code))
  }

  lemma PlacedDot(w: real, x: real, d: real, e: real)
    ensures Dot(w, 0.0, x, d, e, 0.0) == w * d && Dot(w, 0.0, x, d, e, 1.0) == w * d + x
    ensures Dot(0.0, w, x, e, d, 0.0) == w * d && Dot(0.0, w, x, e, d, 1.0) == w * d + x
    ensures Dot(0.0, 0.0, 1.0, d, e, 0.0) == 0.0 && Dot(0.0, 0.0, 1.0, d, e, 1.0) == 1.0
  {
  }

  lemma Placed(x: real, y: real, w: real, h: real, s: Matrix)
    requires s[6] == 0.0 && s[7] == 0.0 && s[8] == 1.0
    ensures Times(PlacementMatrix(x, y, w, h), s) ==
              [w * s[0], w * s[1], w * s[2] + x, h * s[3], h * s[4], h * s[5] + y, 0.0, 0.0, 1.0]
  {
    hide Dot;
    PlacedDot(w, x, s[0], s[3]);
    PlacedDot(w, x, s[1], s[4]);
    PlacedDot(w, x, s[2], s[5]);
    PlacedDot(h, y, s[3], s[0]);
    PlacedDot(h, y, s[4], s[1]);
    PlacedDot(h, y, s[5], s[2]);
    var t := Times(PlacementMatrix(x, y, w, h), s);
    assert t[0] == w * s[0] && t[1] == w * s[1] && t[2] == w * s[2] + x;
    assert t[3] == h * s[3] && t[4] == h * s[4] && t[5] == h * s[5] + y;
    assert t[6] == 0.0 && t[7] == 0.0 && t[8] == 1.0;
  }

  lemma UprightSymmetries(code: bv16)
    ensures code in {1, 52} ==> SymmetryMatrix(code) == [1.0, 0.0, 0.0, 0.0, 1.0, 0.0, 0.0, 0.0, 1.0]
    ensures code in {17, 36} ==> SymmetryMatrix(code) == [-1.0, 0.0, 1.0, 0.0, 1.0, 0.0, 0.0, 0.0, 1.0]
    ensures code in {33, 20} ==> SymmetryMatrix(code) == [1.0, 0.0, 0.0, 0.0, -1.0, 1.0, 0.0, 0.0, 1.0]
    ensures code in {4, 49} ==> SymmetryMatrix(code) == [-1.0, 0.0, 1.0, 0.0, -1.0, 1.0, 0.0, 0.0, 1.0]
  {
  }

  lemma TurnedSymmetries(code: bv16)
    ensures code in {2, 56} ==> SymmetryMatrix(code) == [0.0, -1.0, 1.0, 1.0, 0.0, 0.0, 0.0, 0.0, 1.0]
    ensures code in {8, 50} ==> SymmetryMatrix(code) == [0.0, 1.0, 0.0, -1.0, 0.0, 1.0, 0.0, 0.0, 1.0]
    ensures code in {18, 40} ==> SymmetryMatrix(code) == [0.0, 1.0, 0.0, 1.0, 0.0, 0.0, 0.0, 0.0, 1.0]
    ensures code in {34, 24} ==> SymmetryMatrix(code) == [0.0, -1.0, 1.0, -1.0, 0.0, 1.0, 0.0, 0.0, 1.0]
  {
  }

  lemma CodesAre(code: bv16)
    ensures IsCode(code) <==>
              code in {1, 17, 33, 49, 2, 18, 34, 50, 4, 20, 36, 52, 8, 24, 40, 56}
  {
  }

  // ---- The matrix as it is written, in place ----

  class TransformationMatrix {
    const m: array<real>

    constructor ()
      ensures fresh(m) && m.Length == 9 && m[..] == [0.0, 0.0, 0.0, 0.0, 0.0, 0.0, 0.0, 0.0, 0.0]
    {
      m := new real[9](_ => 0.0);
    }

    method Put(row: nat, col: nat, v: real)
      requires m.Length == 9 && row < 3 && col < 3
      modifies m
      ensures m[..] == old(m[..])[row * 3 + col := v]
    {
      m[row * 3 + col] := v;
    }

    method SetUnity()
      requires m.Length == 9
      modifies m
      ensures m[..] == old(m[..])[0 := 1.0][4 := 1.0][8 := 1.0]
    {
      Put(0, 0, 1.0);
      Put(1, 1, 1.0);
      Put(2, 2, 1.0);
    }

    method S4(x02: real, x12: real, d1: real, d2: real, mainDiag: bool)
      requires m.Length == 9 && m[..] == UNITY
      modifies m
      ensures m[..] == if mainDiag then [d1, 0.0, x02, 0.0, d2, x12, 0.0, 0.0, 1.0]
                       else [0.0, d1, x02, d2, 0.0, x12, 0.0, 0.0, 1.0]
    {
      Put(0, 2, x02);
      Put(1, 2, x12);
      if mainDiag {
        Put(0, 0, d1);
        Put(1, 1, d2);
      } else {
        Put(0, 0, 0.0);
        Put(1, 1, 0.0);
        Put(0, 1, d1);
        Put(1, 0, d2);
      }
    }

    /** The switch over the sixteen codes. */
    method Spell(x: real, y: real, w: real, h: real, rotation: bv16)
      requires m.Length == 9 && m[..] == UNITY
      modifies m
      ensures m[..] == if IsCode(rotation) then Product(x, y, w, h, rotation) else UNITY
    {
      hide Times, SymmetryMatrix, IsCode;
      CodesAre(rotation);
      UprightSymmetries(rotation);
      TurnedSymmetries(rotation);
      if IsCode(rotation) {
        Placed(x, y, w, h, SymmetryMatrix(rotation));
      }
      if rotation in {ROTATE_0, ROTATE_180 | REFLECT_ALL} {
        S4(x, y, w, h, true);
      } else if rotation in {REFLECT_X | ROTATE_0, REFLECT_Y | ROTATE_180} {
        S4(x + w, y, -w, h, true);
      } else if rotation in {REFLECT_Y | ROTATE_0, REFLECT_X | ROTATE_180} {
        S4(x, y + h, w, -h, true);
      } else if rotation in {ROTATE_90, ROTATE_270 | REFLECT_ALL} {
        S4(x + w, y, -w, h, false);
      } else if rotation in {ROTATE_270, ROTATE_90 | REFLECT_ALL} {
        S4(x, y + h, w, -h, false);
      } else if rotation in {ROTATE_90 | REFLECT_X, ROTATE_270 | REFLECT_Y} {
        S4(x, y, w, h, false);
      } else if rotation in {ROTATE_90 | REFLECT_Y, ROTATE_270 | REFLECT_X} {
        S4(x + w, y + h, -w, -h, false);
      } else if rotation in {ROTATE_180, REFLECT_ALL | ROTATE_0} {
        S4(x + w, y + h, -w, -h, true);
      }
    }
  }

  /** The sixteen spelled-out cases are that product; for any other code the matrix is the identity. A display
      without width or height leaves infinities or NaNs behind in those cases: `finite` is then false, and
      `matrix` says nothing. */
  method GenTransformationMatrixAux(offsetX: int16, offsetY: int16, screenWidth: uint16, screenHeight: uint16,
                                    totalWidth: uint16, totalHeight: uint16, rotation: bv16)
    returns (finite: bool, matrix: TransformationMatrix)
    ensures fresh(matrix) && fresh(matrix.m) && matrix.m.Length == 9
    ensures finite <==> (totalWidth != 0 && totalHeight != 0) || !IsCode(rotation)
    ensures !IsCode(rotation) ==> matrix.m[..] == UNITY
    ensures finite && IsCode(rotation) ==>
              matrix.m[..] ==
              Product(offsetX as real / totalWidth as real, offsetY as real / totalHeight as real,
                      screenWidth as real / totalWidth as real, screenHeight as real / totalHeight as real, rotation)
  {
    hide Product;
    matrix := new TransformationMatrix();
    matrix.SetUnity();
    assert matrix.m[..] == UNITY;
    finite := true;
    if totalWidth == 0 || totalHeight == 0 {
      finite := !IsCode(rotation);
      return;
    }
    var x, y := offsetX as real / totalWidth as real, offsetY as real / totalHeight as real;
    var w, h := screenWidth as real / totalWidth as real, screenHeight as real / totalHeight as real;
    matrix.Spell(x, y, w, h, rotation);
  }

  // ---- What the product does ----

  ghost predicate Affine(a: Matrix) { a[6] == 0.0 && a[7] == 0.0 && a[8] == 1.0 }

  lemma Distribute(c: real, d: real, e: real, b0: real, b1: real, b2: real, b3: real, b4: real, b5: real, u: real,
                   v: real)
    ensures Dot(Dot(c, d, e, b0, b3, 0.0), Dot(c, d, e, b1, b4, 0.0), Dot(c, d, e, b2, b5, 1.0), u, v, 1.0) ==
              Dot(c, d, e, Dot(b0, b1, b2, u, v, 1.0), Dot(b3, b4, b5, u, v, 1.0), 1.0)
  {
  }

  lemma ImageOfTimes(a: Matrix, b: Matrix, p: Point)
    requires Affine(b)
    ensures Image(Times(a, b), p) == Image(a, Image(b, p))
  {
    hide Dot;
    Distribute(a[0], a[1], a[2], b[0], b[1], b[2], b[3], b[4], b[5], p.u, p.v);
    Distribute(a[3], a[4], a[5], b[0], b[1], b[2], b[3], b[4], b[5], p.u, p.v);
  }

  lemma SymmetryMaps(code: bv16, p: Point)
    ensures Image(SymmetryMatrix(code), p) == Symmetry(code, p)
  {
    hide Times;
    ImageOfTimes(ReflectionMatrix(code), RotationMatrix(code), p);
  }

  lemma SymmetryIsAffine(code: bv16)
    ensures Affine(SymmetryMatrix(code))
  {
  }

  /** A touched point goes to the turned and mirrored point of the monitor's part of the screen. */
  lemma ProductMaps(x: real, y: real, w: real, h: real, code: bv16, p: Point)
    ensures var s := Symmetry(code, p);
            Image(Product(x, y, w, h, code), p) == Point(x + w * s.u, y + h * s.v)
  {
    hide Times;
    SymmetryMaps(code, p);
    SymmetryIsAffine(code);
    ImageOfTimes(PlacementMatrix(x, y, w, h), SymmetryMatrix(code), p);
  }

  /** Where a touched point goes, code by code. */
  lemma TurnedPoints(x: real, y: real, w: real, h: real, u: real, v: real)
    ensures Image(Product(x, y, w, h, 1), Point(u, v)) == Point(x + w * u, y + h * v)
    ensures Image(Product(x, y, w, h, 2), Point(u, v)) == Point(x + w * (1.0 - v), y + h * u)
    ensures Image(Product(x, y, w, h, 4), Point(u, v)) == Point(x + w * (1.0 - u), y + h * (1.0 - v))
    ensures Image(Product(x, y, w, h, 8), Point(u, v)) == Point(x + w * v, y + h * (1.0 - u))
    ensures Image(Product(x, y, w, h, 17), Point(u, v)) == Point(x + w * (1.0 - u), y + h * v)
    ensures Image(Product(x, y, w, h, 33), Point(u, v)) == Point(x + w * u, y + h * (1.0 - v))
  {
    hide Image, Product;
    var p := Point(u, v);
    ProductMaps(x, y, w, h, 1, p);
    ProductMaps(x, y, w, h, 2, p);
    ProductMaps(x, y, w, h, 4, p);
    ProductMaps(x, y, w, h, 8, p);
    ProductMaps(x, y, w, h, 17, p);
    ProductMaps(x, y, w, h, 33, p);
  }

  predicate InUnitSquare(p: Point) { 0.0 <= p.u <= 1.0 && 0.0 <= p.v <= 1.0 }

  /** Undoes the symmetry: first the reflection, then the rotation. */
  function Undone(code: bv16, q: Point): Point {
    var p := Reflected(code, q);
    var r := code & 15;
    if r == ROTATE_90 then Rotated(ROTATE_270, p)
    else if r == ROTATE_270 then Rotated(ROTATE_90, p)
    else Rotated(code, p)
  }

  lemma SymmetryIsUndone(code: bv16, q: Point)
    ensures Symmetry(code, Undone(code, q)) == q && Undone(code, Symmetry(code, q)) == q
    ensures InUnitSquare(q) ==> InUnitSquare(Undone(code, q)) && InUnitSquare(Symmetry(code, q))
  {
    assert ROTATE_270 & 15 == ROTATE_270 && ROTATE_90 & 15 == ROTATE_90;
  }

  predicate InPart(x: real, y: real, w: real, h: real, q: Point) { x <= q.u <= x + w && y <= q.v <= y + h }

  lemma Scaled(w: real, a: real, b: real)
    requires w > 0.0 && 0.0 <= a <= 1.0
    ensures 0.0 <= w * a <= w
    ensures w * a == w * b ==> a == b
  {
    if a < b {
      assert w * b - w * a == w * (b - a) > 0.0;
    } else if b < a {
      assert w * a - w * b == w * (a - b) > 0.0;
    }
  }

  /** Every point of the touchscreen is mapped into the monitor's part of the screen, no two to the same. */
  lemma MapsIntoPart(x: real, y: real, w: real, h: real, code: bv16, p: Point, q: Point)
    requires w > 0.0 && h > 0.0 && InUnitSquare(p)
    ensures InPart(x, y, w, h, Image(Product(x, y, w, h, code), p))
    ensures Image(Product(x, y, w, h, code), p) == Image(Product(x, y, w, h, code), q) ==> p == q
  {
    hide Image, Product, Symmetry, Undone;
    var s, t := Symmetry(code, p), Symmetry(code, q);
    ProductMaps(x, y, w, h, code, p);
    ProductMaps(x, y, w, h, code, q);
    SymmetryIsUndone(code, p);
    SymmetryIsUndone(code, q);
    Scaled(w, s.u, t.u);
    Scaled(h, s.v, t.v);
  }

  lemma Unscaled(w: real, d: real)
    requires w > 0.0 && 0.0 <= d <= w
    ensures 0.0 <= d / w <= 1.0 && w * (d / w) == d
  {
  }

  /** Every point of the monitor's part of the screen can be touched. */
  lemma ReachesWholePart(x: real, y: real, w: real, h: real, code: bv16, q: Point) returns (p: Point)
    requires w > 0.0 && h > 0.0 && InPart(x, y, w, h, q)
    ensures InUnitSquare(p) && Image(Product(x, y, w, h, code), p) == q
  {
    hide Image, Product, Symmetry, Undone;
    var s := Point((q.u - x) / w, (q.v - y) / h);
    Unscaled(w, q.u - x);
    Unscaled(h, q.v - y);
    SymmetryIsUndone(code, s);
    p := Undone(code, s);
    ProductMaps(x, y, w, h, code, p);
  }

  /** Half a turn more and both reflections: the same symmetry, written differently. */
  function Twin(code: bv16): bv16 {
    var r := code & 15;
    (if r == ROTATE_0 then ROTATE_180 else if r == ROTATE_180 then ROTATE_0 else if r == ROTATE_90 then ROTATE_270
     else ROTATE_90) | ((code & REFLECT_ALL) ^ REFLECT_ALL)
  }

  /** Two codes stand for the same symmetry exactly when they are equal or twins; so the sixteen codes are
      eight symmetries, each spelled in two ways. */
  lemma SameSymmetryIff(code: bv16, other: bv16)
    requires IsCode(code) && IsCode(other)
    ensures IsCode(Twin(code)) && Twin(Twin(code)) == code
    ensures SymmetryMatrix(code) == SymmetryMatrix(other) <==> other == code || other == Twin(code)
  {
    hide SymmetryMatrix;
    CodesAre(code);
    CodesAre(other);
    CodesAre(Twin(code));
    UprightSymmetries(code);
    UprightSymmetries(other);
    TurnedSymmetries(code);
    TurnedSymmetries(other);
  }
}
