/** Reading a store of which only the first n bytes can be had: GetProperty returns no more than it was
    asked for, and a field that is cut reads as zeros. */
module XSettingsCut {
  import opened Ints
  import opened XSettingsCodec

  /** The first n bytes. */
  function Cut(data: bytes, n: nat): bytes { if n <= |data| then data[..n] else data }

  predicate AllZero(b: bytes) { forall i | 0 <= i < |b| :: b[i] == 0 }

  // ---- One field after another ----

  type Fields = seq<bytes>

  function Flat(fs: Fields): bytes { if fs == [] then [] else fs[0] + Flat(fs[1..]) }

  /** What a read of the field yields when n bytes are left. */
  function Seen(f: bytes, n: nat): (r: bytes)
    ensures |r| == |f|
  {
    if |f| <= n then f else Zeros(|f|)
  }

  /** How many bytes are left after it. */
  function Left(f: bytes, n: nat): nat { if |f| <= n then n - |f| else 0 }

  /** Every field reads as what was written. */
  predicate Survives(fs: Fields, n: nat) { fs == [] || (Seen(fs[0], n) == fs[0] && Survives(fs[1..], Left(fs[0], n))) }

  function LeftAfter(fs: Fields, n: nat): nat { if fs == [] then n else LeftAfter(fs[1..], Left(fs[0], n)) }

  /** How many bytes the leading fields fill that lie wholly within the first n bytes. */
  function WholeFields(fs: Fields, n: nat): nat {
    if fs == [] || |fs[0]| > n then 0 else |fs[0]| + WholeFields(fs[1..], n - |fs[0]|)
  }

  predicate ZeroFrom(data: bytes, k: nat) { forall i | k <= i < |data| :: data[i] == 0 }

  lemma TakeCut(f: bytes, rest: bytes, n: nat)
    ensures Take(Cut(f + rest, n), |f|) == (Seen(f, n), Cut(rest, Left(f, n)))
  {
    var data := Cut(f + rest, n);
    if |f| <= n {
      assert |data| >= |f| && data[..|f|] == f;
      assert data[|f|..] == Cut(rest, n - |f|);
    } else {
      assert Cut(rest, 0) == [];
    }
  }

  lemma ZeroFromAppend(a: bytes, b: bytes, k: nat)
    ensures ZeroFrom(a + b, |a| + k) <==> ZeroFrom(b, k)
    ensures ZeroFrom(a + b, 0) <==> AllZero(a) && ZeroFrom(b, 0)
  {
    if ZeroFrom(a + b, |a| + k) {
      forall i | k <= i < |b| ensures b[i] == 0 {
        assert (a + b)[|a| + i] == b[i];
      }
    }
    if ZeroFrom(a + b, 0) {
      forall i | 0 <= i < |a| ensures a[i] == 0 {
        assert (a + b)[i] == a[i];
      }
      forall i | 0 <= i < |b| ensures b[i] == 0 {
        assert (a + b)[|a| + i] == b[i];
      }
    }
  }

  lemma SeenIff(f: bytes, n: nat)
    ensures Seen(f, n) == f <==> |f| <= n || AllZero(f)
  {
    if |f| > n && AllZero(f) {
      assert Zeros(|f|) == f;
    }
  }

  lemma {:induction false} NothingWhole(fs: Fields)
    ensures WholeFields(fs, 0) == 0
  {
    if fs != [] && |fs[0]| == 0 {
      NothingWhole(fs[1..]);
    }
  }

  /** All fields survive exactly when every byte from the first cut field on is zero. */
  lemma {:induction false} SurvivesIff(fs: Fields, n: nat)
    ensures Survives(fs, n) <==> ZeroFrom(Flat(fs), WholeFields(fs, n))
    decreases |fs|
  {
    if fs != [] {
      SeenIff(fs[0], n);
      SurvivesIff(fs[1..], Left(fs[0], n));
      if |fs[0]| <= n {
        ZeroFromAppend(fs[0], Flat(fs[1..]), WholeFields(fs[1..], n - |fs[0]|));
      } else {
        NothingWhole(fs[1..]);
        ZeroFromAppend(fs[0], Flat(fs[1..]), 0);
      }
    }
  }

  lemma {:induction false} SurvivesAppend(a: Fields, b: Fields, n: nat)
    ensures Survives(a + b, n) <==> Survives(a, n) && Survives(b, LeftAfter(a, n))
    ensures LeftAfter(a + b, n) == LeftAfter(b, LeftAfter(a, n))
    ensures Flat(a + b) == Flat(a) + Flat(b)
    decreases |a|
  {
    if a == [] {
      assert a + b == b;
    } else {
      assert (a + b)[1..] == a[1..] + b;
      SurvivesAppend(a[1..], b, Left(a[0], n));
    }
  }

  /** Nothing is cut from what fits. */
  lemma {:induction false} WholeSurvives(fs: Fields, n: nat)
    requires |Flat(fs)| <= n
    ensures Survives(fs, n) && LeftAfter(fs, n) == n - |Flat(fs)| && WholeFields(fs, n) == |Flat(fs)|
    decreases |fs|
  {
    if fs != [] {
      WholeSurvives(fs[1..], n - |fs[0]|);
    }
  }

  // ---- The fields of a store ----

  function HeaderFields(h: Header): Fields {
    [[h.sType], Zeros(1), PutU16(h.nameLen), h.name, Zeros(Pad(h.nameLen)), PutU32(h.lastChangeSerial)]
  }

  function ValueFields(v: Value): Fields {
    match v
    case IntegerValue(i) => [PutI32(i)]
    case StringValue(length, str) => [PutU32(length), str, Zeros(Pad(length))]
    case ColorValue(red, green, blue, alpha) => [PutU16(red), PutU16(green), PutU16(blue), PutU16(alpha)]
    case NoValue => []
  }

  function ItemFields(item: Item): Fields { HeaderFields(item.header) + ValueFields(item.value) }

  function ItemsFields(items: seq<Item>): Fields {
    if items == [] then [] else ItemFields(items[0]) + ItemsFields(items[1..])
  }

  function InfoFields(info: Info): Fields {
    [[info.byteOrder], Zeros(3), PutU32(info.serial), PutU32(info.numSettings)] + ItemsFields(info.items)
  }

  lemma FlatOf3(a: bytes, b: bytes, c: bytes)
    ensures Flat([a, b, c]) == a + b + c
  {
    assert [a, b, c][1..] == [b, c] && [b, c][1..] == [c] && [c][1..] == [];
    assert Flat([c]) == c;
    assert Flat([b, c]) == b + c;
  }

  lemma FlatOf6(a: bytes, b: bytes, c: bytes, d: bytes, e: bytes, f: bytes)
    ensures Flat([a, b, c, d, e, f]) == a + b + c + d + e + f
  {
    FlatOf3(a, b, c);
    FlatOf3(d, e, f);
    SurvivesAppend([a, b, c], [d, e, f], 0);
    assert [a, b, c] + [d, e, f] == [a, b, c, d, e, f];
  }

  lemma HeaderIsItsFields(h: Header)
    ensures Flat(HeaderFields(h)) == EncodeHeader(h)
  {
    FlatOf6([h.sType], Zeros(1), PutU16(h.nameLen), h.name, Zeros(Pad(h.nameLen)), PutU32(h.lastChangeSerial));
  }

  lemma OneIsItself(f: bytes)
    ensures Flat([f]) == f
  {
    assert [f][1..] == [];
  }

  lemma ValueIsItsFields(v: Value)
    ensures Flat(ValueFields(v)) == EncodeValue(v)
  {
    match v
    case IntegerValue(i) => assert [PutI32(i)][1..] == [];
    case StringValue(length, str) => FlatOf3(PutU32(length), str, Zeros(Pad(length)));
    case ColorValue(red, green, blue, alpha) =>
      FlatOf3(PutU16(red), PutU16(green), PutU16(blue));
      SurvivesAppend([PutU16(red), PutU16(green), PutU16(blue)], [PutU16(alpha)], 0);
      assert [PutU16(alpha)][1..] == [];
      assert [PutU16(red), PutU16(green), PutU16(blue)] + [PutU16(alpha)] == ValueFields(v);
    case NoValue =>
  }

  lemma ItemIsItsFields(item: Item)
    ensures Flat(ItemFields(item)) == EncodeItem(item)
  {
    HeaderIsItsFields(item.header);
    ValueIsItsFields(item.value);
    SurvivesAppend(HeaderFields(item.header), ValueFields(item.value), 0);
  }

  lemma {:induction false} ItemsAreTheirFields(items: seq<Item>)
    ensures Flat(ItemsFields(items)) == EncodeItems(items)
  {
    if items != [] {
      ItemsAreTheirFields(items[1..]);
      ItemIsItsFields(items[0]);
      SurvivesAppend(ItemFields(items[0]), ItemsFields(items[1..]), 0);
    }
  }

  // ---- Reading the fields that are left ----

  lemma SeenU16(x: uint16, n: nat)
    ensures GetU16(Seen(PutU16(x), n)) == x <==> Seen(PutU16(x), n) == PutU16(x)
  {
    U16RoundTrip(x);
    var a, b := Seen(PutU16(x), n), PutU16(x);
    if GetU16(a) == GetU16(b) {
      assert a[0] == b[0] && a[1] == b[1];
      assert a == b;
    }
  }

  lemma SeenU32(x: uint32, n: nat)
    ensures GetU32(Seen(PutU32(x), n)) == x <==> Seen(PutU32(x), n) == PutU32(x)
  {
    U32RoundTrip(x);
    var a, b := Seen(PutU32(x), n), PutU32(x);
    if GetU32(a) == GetU32(b) {
      assert a[0] == b[0] && a[1] == b[1] && a[2] == b[2] && a[3] == b[3];
      assert a == b;
    }
  }

  lemma SeenI32(x: int32, n: nat)
    ensures GetI32(Seen(PutI32(x), n)) == x <==> Seen(PutI32(x), n) == PutI32(x)
  {
    SeenU32(if x < 0 then x + 0x1_0000_0000 else x, n);
  }

  lemma ThreeSurvive(f0: bytes, f1: bytes, f2: bytes, n: nat)
    ensures var n1 := Left(f0, n); var n2 := Left(f1, n1);
            && LeftAfter([f0, f1, f2], n) == Left(f2, n2)
            && (Survives([f0, f1, f2], n) <==> Seen(f0, n) == f0 && Seen(f1, n1) == f1 && Seen(f2, n2) == f2)
  {
    assert [f0, f1, f2][1..] == [f1, f2] && [f1, f2][1..] == [f2] && [f2][1..] == [];
    var n1 := Left(f0, n);
    var n2 := Left(f1, n1);
    assert LeftAfter([f2], n2) == Left(f2, n2);
    assert LeftAfter([f1, f2], n1) == Left(f2, n2);
    assert Survives([f2], n2) <==> Seen(f2, n2) == f2;
    assert Survives([f1, f2], n1) <==> Seen(f1, n1) == f1 && Seen(f2, n2) == f2;
  }

  lemma SixSurvive(f0: bytes, f1: bytes, f2: bytes, f3: bytes, f4: bytes, f5: bytes, n: nat)
    ensures var n1 := Left(f0, n); var n2 := Left(f1, n1); var n3 := Left(f2, n2);
            var n4 := Left(f3, n3); var n5 := Left(f4, n4);
            && LeftAfter([f0, f1, f2, f3, f4, f5], n) == Left(f5, n5)
            && (Survives([f0, f1, f2, f3, f4, f5], n) <==>
                  && Seen(f0, n) == f0 && Seen(f1, n1) == f1 && Seen(f2, n2) == f2
                  && Seen(f3, n3) == f3 && Seen(f4, n4) == f4 && Seen(f5, n5) == f5)
  {
    ThreeSurvive(f0, f1, f2, n);
    ThreeSurvive(f3, f4, f5, LeftAfter([f0, f1, f2], n));
    SurvivesAppend([f0, f1, f2], [f3, f4, f5], n);
    assert [f0, f1, f2] + [f3, f4, f5] == [f0, f1, f2, f3, f4, f5];
  }

  lemma HeaderCut(h: Header, rest: bytes, n: nat)
    requires h.nameLen == |h.name|
    ensures var r := DecodeHeader(Cut(EncodeHeader(h) + rest, n));
            if Survives(HeaderFields(h), n) then r == (h, Cut(rest, LeftAfter(HeaderFields(h), n))) else r.0 != h
  {
    var f0, f1, f2, f3, f4, f5 := [h.sType], Zeros(1), PutU16(h.nameLen), h.name, Zeros(Pad(h.nameLen)),
                                  PutU32(h.lastChangeSerial);
    var r5 := f5 + rest;
    var r4 := f4 + r5;
    var r3 := f3 + r4;
    var r2 := f2 + r3;
    var r1 := f1 + r2;
    assert EncodeHeader(h) + rest == f0 + r1;
    var n1 := Left(f0, n);
    var n2 := Left(f1, n1);
    var n3 := Left(f2, n2);
    var n4 := Left(f3, n3);
    var n5 := Left(f4, n4);
    TakeCut(f0, r1, n);
    TakeCut(f1, r2, n1);
    TakeCut(f2, r3, n2);
    TakeCut(f3, r4, n3);
    TakeCut(f4, r5, n4);
    TakeCut(f5, rest, n5);
    SeenU16(h.nameLen, n2);
    SeenU32(h.lastChangeSerial, n5);
    SixSurvive(f0, f1, f2, f3, f4, f5, n);
    SeenIff(f1, n1);
    SeenIff(f4, n4);
  }

  lemma OneSurvives(f: bytes, n: nat)
    ensures LeftAfter([f], n) == Left(f, n) && (Survives([f], n) <==> Seen(f, n) == f)
  {
    assert [f][1..] == [];
  }

  lemma StringCut(length: uint32, str: bytes, rest: bytes, n: nat)
    requires length == |str|
    ensures var v := StringValue(length, str); var r := DecodeValue(TYPE_STRING, Cut(EncodeValue(v) + rest, n));
            if Survives(ValueFields(v), n) then r == (v, Cut(rest, LeftAfter(ValueFields(v), n))) else r.0 != v
  {
    var f0, f1, f2 := PutU32(length), str, Zeros(Pad(length));
    var r2 := f2 + rest;
    var r1 := f1 + r2;
    assert EncodeValue(StringValue(length, str)) + rest == f0 + r1;
    var n1 := Left(f0, n);
    var n2 := Left(f1, n1);
    TakeCut(f0, r1, n);
    TakeCut(f1, r2, n1);
    TakeCut(f2, rest, n2);
    SeenU32(length, n);
    SeenIff(f2, n2);
    ThreeSurvive(f0, f1, f2, n);
  }

  lemma ColorCut(red: uint16, green: uint16, blue: uint16, alpha: uint16, rest: bytes, n: nat)
    ensures var v := ColorValue(red, green, blue, alpha);
            var r := DecodeValue(TYPE_COLOR, Cut(EncodeValue(v) + rest, n));
            if Survives(ValueFields(v), n) then r == (v, Cut(rest, LeftAfter(ValueFields(v), n))) else r.0 != v
  {
    var v := ColorValue(red, green, blue, alpha);
    var f0, f1, f2, f3 := PutU16(red), PutU16(green), PutU16(blue), PutU16(alpha);
    var r3 := f3 + rest;
    var r2 := f2 + r3;
    var r1 := f1 + r2;
    assert EncodeValue(v) + rest == f0 + r1;
    var n1 := Left(f0, n);
    var n2 := Left(f1, n1);
    var n3 := Left(f2, n2);
    TakeCut(f0, r1, n);
    TakeCut(f1, r2, n1);
    TakeCut(f2, r3, n2);
    TakeCut(f3, rest, n3);
    SeenU16(red, n);
    SeenU16(green, n1);
    SeenU16(blue, n2);
    SeenU16(alpha, n3);
    ThreeSurvive(f0, f1, f2, n);
    OneSurvives(f3, n3);
    SurvivesAppend([f0, f1, f2], [f3], n);
    assert [f0, f1, f2] + [f3] == ValueFields(v);
  }

  lemma ValueCut(item: Item, rest: bytes, n: nat)
    requires WellFormedItem(item)
    ensures var r := DecodeValue(item.header.sType, Cut(EncodeValue(item.value) + rest, n));
            if Survives(ValueFields(item.value), n)
            then r == (item.value, Cut(rest, LeftAfter(ValueFields(item.value), n)))
            else r.0 != item.value
  {
    match item.value
    case IntegerValue(v) =>
      TakeCut(PutI32(v), rest, n);
      SeenI32(v, n);
      OneSurvives(PutI32(v), n);
    case StringValue(length, str) => StringCut(length, str, rest, n);
    case ColorValue(red, green, blue, alpha) => ColorCut(red, green, blue, alpha, rest, n);
    case NoValue => assert EncodeValue(item.value) + rest == rest;
  }

  lemma ItemCut(item: Item, rest: bytes, n: nat)
    requires WellFormedItem(item)
    ensures var r := DecodeItem(Cut(EncodeItem(item) + rest, n));
            if Survives(ItemFields(item), n) then r == (item, Cut(rest, LeftAfter(ItemFields(item), n)))
            else r.0 != item
  {
    hide DecodeHeader, DecodeValue, EncodeHeader, EncodeValue, HeaderFields, ValueFields;
    var h, v := item.header, item.value;
    assert EncodeItem(item) + rest == EncodeHeader(h) + (EncodeValue(v) + rest);
    HeaderCut(h, EncodeValue(v) + rest, n);
    ValueCut(item, rest, LeftAfter(HeaderFields(h), n));
    SurvivesAppend(HeaderFields(h), ValueFields(v), n);
  }

  lemma {:induction false} ItemsCut(items: seq<Item>, n: nat)
    requires WellFormedItems(items)
    ensures DecodeItems(Cut(EncodeItems(items), n), |items|).0 == items <==> Survives(ItemsFields(items), n)
    decreases |items|
  {
    hide DecodeItem, EncodeItem, ItemFields;
    if items != [] {
      var rest := EncodeItems(items[1..]);
      assert EncodeItems(items) == EncodeItem(items[0]) + rest;
      ItemCut(items[0], rest, n);
      SurvivesAppend(ItemFields(items[0]), ItemsFields(items[1..]), n);
      ItemsCut(items[1..], LeftAfter(ItemFields(items[0]), n));
      var r, data := DecodeItem(Cut(EncodeItems(items), n)), Cut(EncodeItems(items), n);
      var more := DecodeItems(r.1, |items| - 1).0;
      assert DecodeItems(data, |items|).0 == [r.0] + more;
      assert ([r.0] + more)[0] == r.0 && ([r.0] + more)[1..] == more;
      assert items == [items[0]] + items[1..];
    }
  }

  lemma StoreSurvives(info: Info, n: nat)
    requires n >= 12
    ensures Survives(ItemsFields(info.items), n - 12) <==> ZeroFrom(Encode(info), WholeFields(InfoFields(info), n))
  {
    hide ItemsFields, EncodeItems;
    var f0, f1, f2, f3 := [info.byteOrder], Zeros(3), PutU32(info.serial), PutU32(info.numSettings);
    ItemsAreTheirFields(info.items);
    ThreeSurvive(f0, f1, f2, n);
    OneSurvives(f3, n - 8);
    FlatOf3(f0, f1, f2);
    OneIsItself(f3);
    SurvivesAppend([f0, f1, f2], [f3], n);
    SurvivesAppend([f0, f1, f2, f3], ItemsFields(info.items), n);
    assert [f0, f1, f2] + [f3] == [f0, f1, f2, f3];
    SurvivesIff(InfoFields(info), n);
  }

  /** A store of which only the first n bytes can be had reads back exactly when every byte is zero from
      the start of the first field on that is not wholly among them. */
  lemma CutReadsBackIff(info: Info, n: nat)
    requires WellFormed(info) && n >= 12
    ensures Decode(Cut(Encode(info), n)) == info <==> ZeroFrom(Encode(info), WholeFields(InfoFields(info), n))
  {
    hide DecodeItem, EncodeItem, ItemsFields;
    var f0, f1, f2, f3 := [info.byteOrder], Zeros(3), PutU32(info.serial), PutU32(info.numSettings);
    var r4 := EncodeItems(info.items);
    var r3 := f3 + r4;
    var r2 := f2 + r3;
    var r1 := f1 + r2;
    assert Encode(info) == f0 + r1;
    TakeCut(f0, r1, n);
    TakeCut(f1, r2, n - 1);
    TakeCut(f2, r3, n - 4);
    TakeCut(f3, r4, n - 8);
    U32RoundTrip(info.serial);
    U32RoundTrip(info.numSettings);
    ItemsCut(info.items, n - 12);
    StoreSurvives(info, n);
  }
}
