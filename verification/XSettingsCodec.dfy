/** The binary form of the settings: "_XSETTINGS_SETTINGS Format" in the XSETTINGS specification,
    as xsettings_writer.go writes it and xsettings_reader.go reads it. */
module XSettingsCodec {
  import opened Ints

  type bytes = seq<uint8>

  const TYPE_INTEGER: uint8 := 0
  const TYPE_STRING: uint8 := 1
  const TYPE_COLOR: uint8 := 2

  datatype Value =
    | IntegerValue(value: int32)
    | StringValue(length: uint32, str: bytes)
    | ColorValue(red: uint16, green: uint16, blue: uint16, alpha: uint16)
    | NoValue

  datatype Header = Header(sType: uint8, nameLen: uint16, name: bytes, lastChangeSerial: uint32)

  datatype Item = Item(header: Header, value: Value)

  datatype Info = Info(byteOrder: uint8, serial: uint32, numSettings: uint32, items: seq<Item>)

  // ---- Sequences of things, one after another ----

  function Concat<T>(enc: T -> bytes, xs: seq<T>): bytes {
    if xs == [] then [] else enc(xs[0]) + Concat(enc, xs[1..])
  }

  function Repeat<T>(dec: bytes -> (T, bytes), data: bytes, n: nat): (seq<T>, bytes)
    decreases n
  {
    if n == 0 then ([], data)
    else
      var (x, d1) := dec(data);
      var (xs, d2) := Repeat(dec, d1, n - 1);
      ([x] + xs, d2)
  }

  lemma {:induction false} ConcatAppend<T>(enc: T -> bytes, xs: seq<T>, x: T)
    ensures Concat(enc, xs + [x]) == Concat(enc, xs) + enc(x)
  {
    if xs == [] {
      assert xs + [x] == [x] && [x][1..] == [];
    } else {
      assert (xs + [x])[1..] == xs[1..] + [x];
      ConcatAppend(enc, xs[1..], x);
    }
  }

  lemma {:induction false} RepeatAppend<T>(dec: bytes -> (T, bytes), data: bytes, n: nat)
    ensures var (xs, rest) := Repeat(dec, data, n); var (x, rest') := dec(rest);
            Repeat(dec, data, n + 1) == (xs + [x], rest')
    decreases n
  {
    var (first, d1) := dec(data);
    if n == 0 {
      var none: seq<T> := [];
      assert Repeat(dec, data, 1) == ([first] + none, d1);
      assert [first] + none == none + [first];
    } else {
      RepeatAppend(dec, d1, n - 1);
      var (xs, rest) := Repeat(dec, d1, n - 1);
      var (x, rest') := dec(rest);
      assert Repeat(dec, data, n + 1) == ([first] + (xs + [x]), rest');
      assert [first] + (xs + [x]) == [first] + xs + [x];
    }
  }

  /** If each thing can be read back, so can all of them. */
  lemma {:induction false} RepeatRoundTrip<T>(enc: T -> bytes, dec: bytes -> (T, bytes), xs: seq<T>, rest: bytes)
    requires forall i, r | 0 <= i < |xs| :: dec(enc(xs[i]) + r) == (xs[i], r)
    ensures Repeat(dec, Concat(enc, xs) + rest, |xs|) == (xs, rest)
  {
    if xs == [] {
      assert Concat(enc, xs) + rest == rest;
    } else {
      var r1 := Concat(enc, xs[1..]) + rest;
      assert Concat(enc, xs) + rest == enc(xs[0]) + r1;
      RepeatRoundTrip(enc, dec, xs[1..], rest);
      assert dec(enc(xs[0]) + r1) == (xs[0], r1);
      assert [xs[0]] + xs[1..] == xs;
    }
  }

  // ---- Little-endian integers ----

  /** Bytes missing to the next multiple of four. */
  function Pad(n: nat): nat { if n >= 4 then Pad(n - 4) else if n == 0 then 0 else 4 - n }

  function Zeros(n: nat): (r: bytes)
    ensures |r| == n && forall i | 0 <= i < n :: r[i] == 0
  {
    seq(n, _ => 0)
  }

  /** The i-th byte of n, the lowest first. */
  function ByteOf(n: nat, i: nat): uint8 { if i == 0 then n % 0x100 else ByteOf(n / 0x100, i - 1) }

  function PutU16(n: uint16): (r: bytes)
    ensures |r| == 2
  {
    seq(2, i requires 0 <= i => ByteOf(n, i))
  }

  function PutU32(n: uint32): (r: bytes)
    ensures |r| == 4
  {
    seq(4, i requires 0 <= i => ByteOf(n, i))
  }

  function PutI32(n: int32): bytes { PutU32(if n < 0 then n + 0x1_0000_0000 else n) }

  function GetU16(b: bytes): uint16
    requires |b| == 2
  {
    var low: int, high: int := b[0], b[1];
    low + 0x100 * high
  }

  function GetU32(b: bytes): uint32
    requires |b| == 4
  {
    var b0: int, b1: int, b2: int, b3: int := b[0], b[1], b[2], b[3];
    b0 + 0x100 * b1 + 0x1_0000 * b2 + 0x100_0000 * b3
  }

  function GetI32(b: bytes): int32
    requires |b| == 4
  {
    var n: int := GetU32(b);
    if n < 0x8000_0000 then n else n - 0x1_0000_0000
  }

  lemma U16RoundTrip(n: uint16)
    ensures GetU16(PutU16(n)) == n
  {
    assert ByteOf(n, 1) == ByteOf(n / 0x100, 0) == n / 0x100;
  }

  lemma U32RoundTrip(n: uint32)
    ensures GetU32(PutU32(n)) == n
  {
    var n1 := n / 0x100;
    var n2 := n1 / 0x100;
    var n3 := n2 / 0x100;
    assert ByteOf(n, 0) == n % 0x100;
    assert ByteOf(n, 1) == ByteOf(n1, 0) == n1 % 0x100;
    assert ByteOf(n, 2) == ByteOf(n1, 1) == ByteOf(n2, 0) == n2 % 0x100;
    assert ByteOf(n, 3) == ByteOf(n1, 2) == ByteOf(n2, 1) == ByteOf(n3, 0) == n3;
  }

  lemma I32RoundTrip(n: int32)
    ensures GetI32(PutI32(n)) == n
  {
    U32RoundTrip(if n < 0 then n + 0x1_0000_0000 else n);
  }

  // ---- Encoding ----

  function EncodeHeader(h: Header): bytes {
    [h.sType] + Zeros(1) + PutU16(h.nameLen) + h.name + Zeros(Pad(h.nameLen)) + PutU32(h.lastChangeSerial)
  }

  /** The writer's type assertions: the value has the shape the header's type promises, and an unknown
      type carries none. */
  predicate ValueMatchesType(item: Item) {
    && (item.header.sType == TYPE_INTEGER ==> item.value.IntegerValue?)
    && (item.header.sType == TYPE_STRING ==> item.value.StringValue?)
    && (item.header.sType == TYPE_COLOR ==> item.value.ColorValue?)
    && (item.header.sType > TYPE_COLOR ==> item.value.NoValue?)
  }

  /** The bytes of a value; a type without a value of its own writes none. */
  function EncodeValue(value: Value): bytes {
    match value
    case IntegerValue(v) => PutI32(v)
    case StringValue(length, str) => PutU32(length) + str + Zeros(Pad(length))
    case ColorValue(red, green, blue, alpha) => PutU16(red) + PutU16(green) + PutU16(blue) + PutU16(alpha)
    case NoValue => []
  }

  function EncodeItem(item: Item): bytes { EncodeHeader(item.header) + EncodeValue(item.value) }

  predicate AllValuesMatch(items: seq<Item>) { forall i | 0 <= i < |items| :: ValueMatchesType(items[i]) }

  function EncodeItems(items: seq<Item>): bytes { Concat(EncodeItem, items) }

  function Encode(info: Info): bytes {
    [info.byteOrder] + Zeros(3) + PutU32(info.serial) + PutU32(info.numSettings) + EncodeItems(info.items)
  }

  // ---- Decoding: a read past the end yields zeros and uses up what is left ----

  function Take(data: bytes, n: nat): (r: (bytes, bytes))
    ensures |r.0| == n
  {
    if n <= |data| then (data[..n], data[n..]) else (Zeros(n), [])
  }

  function DecodeHeader(data: bytes): (Header, bytes) {
    var (sType, d1) := Take(data, 1);
    var (_, d2) := Take(d1, 1);
    var (nameLen, d3) := Take(d2, 2);
    var (name, d4) := Take(d3, GetU16(nameLen));
    var (_, d5) := Take(d4, Pad(GetU16(nameLen)));
    var (serial, d6) := Take(d5, 4);
    (Header(sType[0], GetU16(nameLen), name, GetU32(serial)), d6)
  }

  function DecodeValue(sType: uint8, data: bytes): (Value, bytes) {
    if sType == TYPE_INTEGER then
      var (v, d1) := Take(data, 4);
      (IntegerValue(GetI32(v)), d1)
    else if sType == TYPE_STRING then
      var (length, d1) := Take(data, 4);
      var (str, d2) := Take(d1, GetU32(length));
      var (_, d3) := Take(d2, Pad(GetU32(length)));
      (StringValue(GetU32(length), str), d3)
    else if sType == TYPE_COLOR then
      var (red, d1) := Take(data, 2);
      var (green, d2) := Take(d1, 2);
      var (blue, d3) := Take(d2, 2);
      var (alpha, d4) := Take(d3, 2);
      (ColorValue(GetU16(red), GetU16(green), GetU16(blue), GetU16(alpha)), d4)
    else (NoValue, data)
  }

  function DecodeItem(data: bytes): (Item, bytes) {
    var (header, d1) := DecodeHeader(data);
    var (value, d2) := DecodeValue(header.sType, d1);
    (Item(header, value), d2)
  }

  function DecodeItems(data: bytes, n: nat): (seq<Item>, bytes) { Repeat(DecodeItem, data, n) }

  function Decode(data: bytes): Info {
    if data == [] then Info(0, 0, 0, [])
    else
      var (order, d1) := Take(data, 1);
      var (_, d2) := Take(d1, 3);
      var (serial, d3) := Take(d2, 4);
      var (count, d4) := Take(d3, 4);
      Info(order[0], GetU32(serial), GetU32(count), DecodeItems(d4, GetU32(count)).0)
  }

  // ---- Round trip ----

  /** Items whose lengths are the lengths of what they carry. */
  predicate WellFormedItem(item: Item) {
    && item.header.nameLen == |item.header.name|
    && match item.value
       case IntegerValue(_) => item.header.sType == TYPE_INTEGER
       case StringValue(length, str) => item.header.sType == TYPE_STRING && length == |str|
       case ColorValue(_, _, _, _) => item.header.sType == TYPE_COLOR
       case NoValue => item.header.sType > TYPE_COLOR
  }

  predicate WellFormedItems(items: seq<Item>) { forall i | 0 <= i < |items| :: WellFormedItem(items[i]) }

  predicate WellFormed(info: Info) { info.numSettings == |info.items| && WellFormedItems(info.items) }

  lemma TakeAppend(a: bytes, rest: bytes)
    ensures Take(a + rest, |a|) == (a, rest)
  {
    assert (a + rest)[..|a|] == a;
    assert (a + rest)[|a|..] == rest;
  }

  lemma HeaderRoundTrip(h: Header, rest: bytes)
    requires h.nameLen == |h.name|
    ensures DecodeHeader(EncodeHeader(h) + rest) == (h, rest)
  {
    var r5 := PutU32(h.lastChangeSerial) + rest;
    var r4 := Zeros(Pad(h.nameLen)) + r5;
    var r3 := h.name + r4;
    var r2 := PutU16(h.nameLen) + r3;
    var r1 := Zeros(1) + r2;
    assert EncodeHeader(h) + rest == [h.sType] + r1;
    TakeAppend([h.sType], r1);
    TakeAppend(Zeros(1), r2);
    TakeAppend(PutU16(h.nameLen), r3);
    U16RoundTrip(h.nameLen);
    TakeAppend(h.name, r4);
    TakeAppend(Zeros(Pad(h.nameLen)), r5);
    TakeAppend(PutU32(h.lastChangeSerial), rest);
    U32RoundTrip(h.lastChangeSerial);
  }

  lemma ValueRoundTrip(item: Item, rest: bytes)
    requires WellFormedItem(item)
    ensures DecodeValue(item.header.sType, EncodeValue(item.value) + rest) == (item.value, rest)
  {
    match item.value
    case IntegerValue(v) =>
      TakeAppend(PutI32(v), rest);
      I32RoundTrip(v);
    case StringValue(length, str) =>
      var r2 := Zeros(Pad(length)) + rest;
      var r1 := str + r2;
      assert EncodeValue(item.value) + rest == PutU32(length) + r1;
      TakeAppend(PutU32(length), r1);
      U32RoundTrip(length);
      TakeAppend(str, r2);
      TakeAppend(Zeros(Pad(length)), rest);
    case ColorValue(red, green, blue, alpha) =>
      var r3 := PutU16(alpha) + rest;
      var r2 := PutU16(blue) + r3;
      var r1 := PutU16(green) + r2;
      assert EncodeValue(item.value) + rest == PutU16(red) + r1;
      TakeAppend(PutU16(red), r1);
      TakeAppend(PutU16(green), r2);
      TakeAppend(PutU16(blue), r3);
      TakeAppend(PutU16(alpha), rest);
      U16RoundTrip(red);
      U16RoundTrip(green);
      U16RoundTrip(blue);
      U16RoundTrip(alpha);
    case NoValue =>
      assert EncodeValue(item.value) + rest == rest;
  }

  lemma ItemRoundTrip(item: Item, rest: bytes)
    requires WellFormedItem(item)
    ensures DecodeItem(EncodeItem(item) + rest) == (item, rest)
  {
    assert EncodeItem(item) + rest == EncodeHeader(item.header) + (EncodeValue(item.value) + rest);
    HeaderRoundTrip(item.header, EncodeValue(item.value) + rest);
    ValueRoundTrip(item, rest);
  }

  lemma ItemsRoundTrip(items: seq<Item>, rest: bytes)
    requires WellFormedItems(items)
    ensures DecodeItems(EncodeItems(items) + rest, |items|) == (items, rest)
  {
    forall i, r | 0 <= i < |items| ensures DecodeItem(EncodeItem(items[i]) + r) == (items[i], r) {
      ItemRoundTrip(items[i], r);
    }
    RepeatRoundTrip(EncodeItem, DecodeItem, items, rest);
  }

  /** Reading back what was written gives the same settings. */
  lemma RoundTrip(info: Info)
    requires WellFormed(info)
    ensures Decode(Encode(info)) == info
  {
    var r4 := EncodeItems(info.items) + [];
    var r3 := PutU32(info.numSettings) + r4;
    var r2 := PutU32(info.serial) + r3;
    var r1 := Zeros(3) + r2;
    assert Encode(info) == [info.byteOrder] + r1;
    TakeAppend([info.byteOrder], r1);
    TakeAppend(Zeros(3), r2);
    TakeAppend(PutU32(info.serial), r3);
    TakeAppend(PutU32(info.numSettings), r4);
    U32RoundTrip(info.serial);
    U32RoundTrip(info.numSettings);
    ItemsRoundTrip(info.items, []);
  }

  /** Different settings have different encodings. */
  lemma EncodingIsInjective(a: Info, b: Info)
    requires WellFormed(a) && WellFormed(b) && Encode(a) == Encode(b)
    ensures a == b
  {
    RoundTrip(a);
    RoundTrip(b);
  }

  lemma {:induction false} PadAligns(n: nat)
    ensures (n + Pad(n)) % 4 == 0 && Pad(n) < 4
  {
    if n >= 4 {
      PadAligns(n - 4);
    }
  }

  lemma HeaderIsAligned(h: Header)
    requires h.nameLen == |h.name|
    ensures |EncodeHeader(h)| % 4 == 0
  {
    var n: int := h.nameLen;
    PadAligns(n);
    assert |EncodeHeader(h)| == 8 + (n + Pad(n));
  }

  lemma ValueIsAligned(v: Value)
    requires v.StringValue? ==> v.length == |v.str|
    ensures |EncodeValue(v)| % 4 == 0
  {
    if v.StringValue? {
      PadAligns(v.length);
    }
  }

  /** Items start and end on four-byte boundaries. */
  lemma ItemIsAligned(item: Item)
    requires WellFormedItem(item)
    ensures |EncodeItem(item)| % 4 == 0
  {
    HeaderIsAligned(item.header);
    ValueIsAligned(item.value);
  }
}
