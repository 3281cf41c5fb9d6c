/** Go's fixed-width integers, as ranges of the mathematical integers. */
module Ints {
  type uint8 = i: int | 0 <= i < 0x100
  type int16 = i: int | -0x8000 <= i < 0x8000
  type uint16 = i: int | 0 <= i < 0x1_0000
  type int32 = i: int | -0x8000_0000 <= i < 0x8000_0000
  type uint32 = i: int | 0 <= i < 0x1_0000_0000

  const MAX_INT16: int := 0x7fff
  const MAX_UINT16: int := 0xffff

  /** Conversion to int16: wraps modulo 2^16. */
  function ToInt16(i: int): (r: int16)
    ensures -0x8000 <= i < 0x8000 ==> r == i
    decreases if i < 0 then -2 * i else 2 * i + 1
  {
    if i < -0x8000 then ToInt16(i + 0x1_0000) else if 0x8000 <= i then ToInt16(i - 0x1_0000) else i
  }

  /** Conversion to uint16: wraps modulo 2^16. */
  function ToUint16(i: nat): (r: uint16)
    ensures i < 0x1_0000 ==> r == i
  {
    if 0x1_0000 <= i then ToUint16(i - 0x1_0000) else i
  }

  lemma {:induction false} ToInt16Wraps(a: int)
    ensures ToInt16(a + 0x1_0000) == ToInt16(a)
    decreases if a < 0 then -2 * a else 2 * a + 1
  {
    if a < -0x8000 {
      ToInt16Wraps(a + 0x1_0000);
    }
  }

  /** Values a multiple of 2^16 apart become the same int16. */
  lemma {:induction false} ToInt16Congruent(a: int, k: int)
    ensures ToInt16(a + 0x1_0000 * k) == ToInt16(a)
    decreases if k < 0 then -k else k
  {
    if k > 0 {
      ToInt16Congruent(a, k - 1);
      ToInt16Wraps(a + 0x1_0000 * (k - 1));
    } else if k < 0 {
      ToInt16Congruent(a, k + 1);
      ToInt16Wraps(a + 0x1_0000 * k);
    }
  }

  /** How often the conversion wraps. */
  lemma {:induction false} ToInt16Turns(a: int) returns (k: int)
    ensures ToInt16(a) == a + 0x1_0000 * k
    decreases if a < 0 then -2 * a else 2 * a + 1
  {
    if a < -0x8000 {
      k := ToInt16Turns(a + 0x1_0000);
      k := k + 1;
    } else if 0x8000 <= a {
      k := ToInt16Turns(a - 0x1_0000);
      k := k - 1;
    } else {
      k := 0;
    }
  }

  /** Conversion inside a conversion can be left out. */
  lemma ToInt16Inside(a: int, b: int)
    ensures ToInt16(a + ToInt16(b)) == ToInt16(a + b)
    ensures ToInt16(a - ToInt16(b)) == ToInt16(a - b)
  {
    var k := ToInt16Turns(b);
    ToInt16Congruent(a + b, k);
    ToInt16Congruent(a - b, -k);
  }

  /** Conversion to uint32: wraps modulo 2^32. */
  function ToUint32(i: int): (r: uint32)
    ensures 0 <= i < 0x1_0000_0000 ==> r == i
  {
    i % 0x1_0000_0000
  }
}
