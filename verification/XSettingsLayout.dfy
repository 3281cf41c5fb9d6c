/** The property byte by byte, as the XSETTINGS specification lays it out ("_XSETTINGS_SETTINGS Format"):
    what the writer's bytes are, and what the reader makes of any bytes laid out like that. */
module XSettingsLayout {
  import opened Ints
  import opened XSettingsCodec

  /** Two bytes at p, the lower one first. */
  predicate Holds2(data: bytes, p: nat, n: int) {
    p + 2 <= |data| && data[p] == n % 0x100 && data[p + 1] == n / 0x100 % 0x100
  }

  /** Four bytes at p, the lowest first; a negative number is in two's complement. */
  predicate Holds4(data: bytes, p: nat, n: int) {
    && p + 4 <= |data|
    && data[p] == n % 0x100 && data[p + 1] == n / 0x100 % 0x100
    && data[p + 2] == n / 0x1_0000 % 0x100 && data[p + 3] == n / 0x100_0000 % 0x100
  }

  predicate HoldsText(data: bytes, p: nat, text: bytes) { p + |text| <= |data| && data[p..p + |text|] == text }

  /** What a text takes, with the padding to a multiple of four. */
  function Padded(n: nat): nat { (n + 3) / 4 * 4 }

  /** The type is 0 for an integer, 1 for a string and 2 for a colour. */
  predicate HasTypeByte(value: Value, b: uint8) {
    match value
    case IntegerValue(_) => b == 0
    case StringValue(_, _) => b == 1
    case ColorValue(_, _, _, _) => b == 2
    case NoValue => b > 2
  }

  function HeaderSize(h: Header): nat { 8 + Padded(|h.name|) }

  function ValueSize(value: Value): nat {
    match value
    case IntegerValue(_) => 4
    case StringValue(_, str) => 4 + Padded(|str|)
    case ColorValue(_, _, _, _) => 8
    case NoValue => 0
  }

  function ItemSize(item: Item): nat { HeaderSize(item.header) + ValueSize(item.value) }

  function ItemsSize(items: seq<Item>): nat {
    if items == [] then 0 else ItemSize(items[0]) + ItemsSize(items[1..])
  }

  /** Type, one byte of padding, length and text of the name, padding, and the serial. */
  predicate IsHeader(h: Header, data: bytes, p: nat) {
    && p + HeaderSize(h) <= |data|
    && data[p] == h.sType && Holds2(data, p + 2, |h.name|) && HoldsText(data, p + 4, h.name)
    && Holds4(data, p + 4 + Padded(|h.name|), h.lastChangeSerial)
  }

  predicate IsValue(value: Value, data: bytes, p: nat) {
    && p + ValueSize(value) <= |data|
    && match value
       case IntegerValue(v) => Holds4(data, p, v)
       case StringValue(_, str) => Holds4(data, p, |str|) && HoldsText(data, p + 4, str)
       case ColorValue(red, green, blue, alpha) =>
         Holds2(data, p, red) && Holds2(data, p + 2, green) && Holds2(data, p + 4, blue) && Holds2(data, p + 6, alpha)
       case NoValue => true
  }

  predicate IsItem(item: Item, data: bytes, p: nat) {
    && IsHeader(item.header, data, p) && HasTypeByte(item.value, data[p])
    && IsValue(item.value, data, p + HeaderSize(item.header))
  }

  /** The items follow one another from p on. */
  predicate AreItems(items: seq<Item>, data: bytes, p: nat) {
    items == [] || (IsItem(items[0], data, p) && AreItems(items[1..], data, p + ItemSize(items[0])))
  }

  /** Byte order, three bytes of padding, serial, number of settings, and the settings from byte 12 on. */
  predicate IsLayout(info: Info, data: bytes) {
    && |data| == 12 + ItemsSize(info.items)
    && data[0] == info.byteOrder && Holds4(data, 4, info.serial) && Holds4(data, 8, |info.items|)
    && AreItems(info.items, data, 12)
  }

  predicate AreZeros(data: bytes, p: nat, q: nat) { p <= q <= |data| && forall i | p <= i < q :: data[i] == 0 }

  predicate HeaderIsPadded(h: Header, data: bytes, p: nat) {
    AreZeros(data, p + 1, p + 2) && AreZeros(data, p + 4 + |h.name|, p + 4 + Padded(|h.name|))
  }

  predicate ValueIsPadded(value: Value, data: bytes, p: nat) {
    value.StringValue? ==> AreZeros(data, p + 4 + |value.str|, p + 4 + Padded(|value.str|))
  }

  predicate ItemIsPadded(item: Item, data: bytes, p: nat) {
    HeaderIsPadded(item.header, data, p) && ValueIsPadded(item.value, data, p + HeaderSize(item.header))
  }

  predicate ItemsArePadded(items: seq<Item>, data: bytes, p: nat) {
    items == [] || (ItemIsPadded(items[0], data, p) && ItemsArePadded(items[1..], data, p + ItemSize(items[0])))
  }

  /** All padding is zero. */
  predicate IsPadded(info: Info, data: bytes) { AreZeros(data, 1, 4) && ItemsArePadded(info.items, data, 12) }

  // ---- What the writer writes ----

  lemma {:induction false} PaddedIs(n: nat)
    ensures n + Pad(n) == Padded(n)
    decreases n
  {
    if n >= 4 {
      PaddedIs(n - 4);
    }
  }

  lemma U16Bytes(n: uint16)
    ensures Holds2(PutU16(n), 0, n)
  {
    assert ByteOf(n, 1) == ByteOf(n / 0x100, 0);
  }

  lemma DividedAgain(n: int)
    ensures n / 0x1_0000 == n / 0x100 / 0x100 && n / 0x100_0000 == n / 0x100 / 0x100 / 0x100
  {
  }

  lemma U32Bytes(n: uint32)
    ensures Holds4(PutU32(n), 0, n)
  {
    DividedAgain(n);
    assert ByteOf(n, 1) == ByteOf(n / 0x100, 0);
    assert ByteOf(n, 2) == ByteOf(n / 0x100, 1) == ByteOf(n / 0x100 / 0x100, 0);
    assert ByteOf(n, 3) == ByteOf(n / 0x100, 2) == ByteOf(n / 0x100 / 0x100, 1);
    assert ByteOf(n / 0x100 / 0x100, 1) == ByteOf(n / 0x100 / 0x100 / 0x100, 0);
  }

  lemma NextByte(v: int, m: int)
    ensures (v + 0x100 * m) / 0x100 == v / 0x100 + m && (v + 0x100 * m) % 0x100 == v % 0x100
  {
  }

  /** Adding 2^32 changes none of the four lowest bytes. */
  lemma Complement(v: int)
    ensures var n := v + 0x1_0000_0000;
            && n % 0x100 == v % 0x100 && n / 0x100 % 0x100 == v / 0x100 % 0x100
            && n / 0x100 / 0x100 % 0x100 == v / 0x100 / 0x100 % 0x100
            && n / 0x100 / 0x100 / 0x100 % 0x100 == v / 0x100 / 0x100 / 0x100 % 0x100
  {
    NextByte(v, 0x100_0000);
    NextByte(v / 0x100, 0x1_0000);
    NextByte(v / 0x100 / 0x100, 0x100);
    NextByte(v / 0x100 / 0x100 / 0x100, 1);
  }

  lemma I32Bytes(v: int32)
    ensures |PutI32(v)| == 4 && Holds4(PutI32(v), 0, v)
  {
    if v < 0 {
      U32Bytes(v + 0x1_0000_0000);
      Complement(v);
      DividedAgain(v);
      DividedAgain(v + 0x1_0000_0000);
    } else {
      U32Bytes(v);
    }
  }

  /** Bytes keep what they hold in a longer sequence. */
  ghost predicate IsPart(b: bytes, data: bytes, p: nat) {
    p + |b| <= |data| && forall i | 0 <= i < |b| :: b[i] == data[p + i]
  }

  lemma PartOf(pre: bytes, b: bytes, post: bytes)
    ensures IsPart(b, pre + b + post, |pre|)
  {
  }

  lemma Kept2(b: bytes, data: bytes, p: nat, q: nat, n: int)
    requires IsPart(b, data, p) && Holds2(b, q, n)
    ensures Holds2(data, p + q, n)
  {
    assert b[q] == data[p + q] && b[q + 1] == data[p + (q + 1)];
  }

  lemma Kept4(b: bytes, data: bytes, p: nat, q: nat, n: int)
    requires IsPart(b, data, p) && Holds4(b, q, n)
    ensures Holds4(data, p + q, n)
  {
    assert b[q] == data[p + q] && b[q + 1] == data[p + (q + 1)];
    assert b[q + 2] == data[p + (q + 2)] && b[q + 3] == data[p + (q + 3)];
  }

  lemma KeptText(b: bytes, data: bytes, p: nat, q: nat, text: bytes)
    requires IsPart(b, data, p) && HoldsText(b, q, text)
    ensures HoldsText(data, p + q, text)
  {
    forall i | 0 <= i < |text| ensures data[p + q..p + q + |text|][i] == text[i] {
      assert text[i] == b[q..q + |text|][i] == b[q + i];
      assert b[q + i] == data[p + (q + i)];
    }
  }

  lemma KeptZeros(b: bytes, data: bytes, p: nat, q: nat, r: nat)
    requires IsPart(b, data, p) && AreZeros(b, q, r)
    ensures AreZeros(data, p + q, p + r)
  {
    forall i | p + q <= i < p + r ensures data[i] == 0 {
      assert b[i - p] == data[p + (i - p)];
    }
  }

  lemma HeaderKept(h: Header, b: bytes, data: bytes, p: nat)
    requires IsPart(b, data, p) && IsHeader(h, b, 0) && HeaderIsPadded(h, b, 0)
    ensures IsHeader(h, data, p) && HeaderIsPadded(h, data, p)
  {
    hide Holds2, Holds4, HoldsText, AreZeros, Padded;
    assert b[0] == data[p + 0];
    Kept2(b, data, p, 2, |h.name|);
    KeptText(b, data, p, 4, h.name);
    Kept4(b, data, p, 4 + Padded(|h.name|), h.lastChangeSerial);
    KeptZeros(b, data, p, 1, 2);
    KeptZeros(b, data, p, 4 + |h.name|, 4 + Padded(|h.name|));
  }

  lemma PartIsShorter(b: bytes, data: bytes, p: nat)
    requires IsPart(b, data, p)
    ensures p + |b| <= |data|
  {
  }

  lemma ValueKept(value: Value, b: bytes, data: bytes, p: nat)
    requires IsPart(b, data, p) && IsValue(value, b, 0) && ValueIsPadded(value, b, 0)
    ensures IsValue(value, data, p) && ValueIsPadded(value, data, p)
  {
    hide Holds2, Holds4, HoldsText, AreZeros, Padded, IsPart;
    assert p + |b| <= |data| by {
      PartIsShorter(b, data, p);
    }
    match value
    case IntegerValue(v) => Kept4(b, data, p, 0, v);
    case StringValue(_, str) =>
      Kept4(b, data, p, 0, |str|);
      KeptText(b, data, p, 4, str);
      KeptZeros(b, data, p, 4 + |str|, 4 + Padded(|str|));
    case ColorValue(red, green, blue, alpha) =>
      Kept2(b, data, p, 0, red);
      Kept2(b, data, p, 2, green);
      Kept2(b, data, p, 4, blue);
      Kept2(b, data, p, 6, alpha);
    case NoValue =>
  }

  lemma Put2(pre: bytes, n: uint16, post: bytes)
    ensures Holds2(pre + PutU16(n) + post, |pre|, n)
  {
    U16Bytes(n);
    PartOf(pre, PutU16(n), post);
    Kept2(PutU16(n), pre + PutU16(n) + post, |pre|, 0, n);
  }

  lemma Put4(pre: bytes, n: uint32, post: bytes)
    ensures Holds4(pre + PutU32(n) + post, |pre|, n)
  {
    U32Bytes(n);
    PartOf(pre, PutU32(n), post);
    Kept4(PutU32(n), pre + PutU32(n) + post, |pre|, 0, n);
  }

  lemma TextIsThere(pre: bytes, text: bytes, post: bytes)
    ensures HoldsText(pre + text + post, |pre|, text)
  {
  }

  lemma ZerosAreThere(pre: bytes, n: nat, post: bytes)
    ensures AreZeros(pre + Zeros(n) + post, |pre|, |pre| + n)
  {
  }

  lemma HeaderIsLaidOut(h: Header)
    requires h.nameLen == |h.name|
    ensures |EncodeHeader(h)| == HeaderSize(h)
    ensures IsHeader(h, EncodeHeader(h), 0) && HeaderIsPadded(h, EncodeHeader(h), 0)
  {
    hide Holds2, Holds4, HoldsText, AreZeros, Pad, Padded;
    PaddedIs(|h.name|);
    var len, pad, serial := PutU16(h.nameLen), Zeros(Pad(h.nameLen)), PutU32(h.lastChangeSerial);
    var start := [h.sType] + Zeros(1);
    var data := EncodeHeader(h);
    Put2(start, h.nameLen, h.name + pad + serial);
    assert data == start + len + (h.name + pad + serial);
    TextIsThere(start + len, h.name, pad + serial);
    assert data == start + len + h.name + (pad + serial);
    ZerosAreThere([h.sType], 1, len + h.name + pad + serial);
    assert data == [h.sType] + Zeros(1) + (len + h.name + pad + serial);
    ZerosAreThere(start + len + h.name, Pad(h.nameLen), serial);
    Put4(start + len + h.name + pad, h.lastChangeSerial, []);
    assert data == start + len + h.name + pad + serial + [];
  }

  lemma StringIsLaidOut(str: bytes)
    requires |str| < 0x1_0000_0000
    ensures var v := StringValue(|str|, str);
            |EncodeValue(v)| == ValueSize(v) && IsValue(v, EncodeValue(v), 0) && ValueIsPadded(v, EncodeValue(v), 0)
  {
    hide Holds4, HoldsText, AreZeros, Pad, Padded;
    PaddedIs(|str|);
    var len, pad := PutU32(|str|), Zeros(Pad(|str|));
    var data := EncodeValue(StringValue(|str|, str));
    U32Bytes(|str|);
    PartOf([], len, str + pad);
    assert data == [] + len + (str + pad);
    Kept4(len, data, 0, 0, |str|);
    TextIsThere(len, str, pad);
    ZerosAreThere(len + str, Pad(|str|), []);
    assert data == len + str + pad + [];
  }

  lemma ColorIsLaidOut(red: uint16, green: uint16, blue: uint16, alpha: uint16)
    ensures var v := ColorValue(red, green, blue, alpha);
            |EncodeValue(v)| == ValueSize(v) && IsValue(v, EncodeValue(v), 0)
  {
    hide Holds2;
    var r, g, b, a := PutU16(red), PutU16(green), PutU16(blue), PutU16(alpha);
    var data := r + g + b + a;
    U16Bytes(red);
    U16Bytes(green);
    U16Bytes(blue);
    U16Bytes(alpha);
    assert IsPart(r, data, 0) && IsPart(g, data, 2) && IsPart(b, data, 4) && IsPart(a, data, 6);
    Kept2(r, data, 0, 0, red);
    Kept2(g, data, 2, 0, green);
    Kept2(b, data, 4, 0, blue);
    Kept2(a, data, 6, 0, alpha);
  }

  lemma ValueIsLaidOut(value: Value)
    requires value.StringValue? ==> value.length == |value.str|
    ensures |EncodeValue(value)| == ValueSize(value)
    ensures IsValue(value, EncodeValue(value), 0) && ValueIsPadded(value, EncodeValue(value), 0)
  {
    hide Holds4, Holds2, HoldsText, AreZeros;
    match value
    case IntegerValue(v) => I32Bytes(v);
    case StringValue(_, str) => StringIsLaidOut(str);
    case ColorValue(red, green, blue, alpha) => ColorIsLaidOut(red, green, blue, alpha);
    case NoValue =>
  }

  lemma TypeIsHeaders(item: Item, data: bytes, p: nat)
    requires WellFormedItem(item) && IsHeader(item.header, data, p)
    ensures p < |data| && HasTypeByte(item.value, data[p])
  {
  }

  lemma ItemIsLaidOut(pre: bytes, item: Item, post: bytes)
    requires WellFormedItem(item)
    ensures |EncodeItem(item)| == ItemSize(item)
    ensures var data := pre + EncodeItem(item) + post; IsItem(item, data, |pre|) && ItemIsPadded(item, data, |pre|)
  {
    hide IsHeader, IsValue, HeaderIsPadded, ValueIsPadded, EncodeHeader, EncodeValue, HeaderSize, ValueSize, IsPart;
    var header, value := EncodeHeader(item.header), EncodeValue(item.value);
    var data := pre + EncodeItem(item) + post;
    HeaderIsLaidOut(item.header);
    PartOf(pre, header, value + post);
    assert data == pre + header + (value + post);
    HeaderKept(item.header, header, data, |pre|);
    ValueIsLaidOut(item.value);
    PartOf(pre + header, value, post);
    assert data == pre + header + value + post;
    ValueKept(item.value, value, data, |pre + header|);
    TypeIsHeaders(item, data, |pre|);
  }

  lemma {:induction false} ItemsAreLaidOut(pre: bytes, items: seq<Item>)
    requires WellFormedItems(items)
    ensures |EncodeItems(items)| == ItemsSize(items)
    ensures var data := pre + EncodeItems(items); AreItems(items, data, |pre|) && ItemsArePadded(items, data, |pre|)
    decreases |items|
  {
    hide EncodeItem, IsItem, ItemIsPadded, ItemSize, WellFormedItem;
    if items != [] {
      var first, others := EncodeItem(items[0]), EncodeItems(items[1..]);
      ItemIsLaidOut(pre, items[0], others);
      ItemsAreLaidOut(pre + first, items[1..]);
      assert pre + EncodeItems(items) == pre + first + others;
    }
  }

  /** Whatever is written is laid out like that, with zeros for padding. */
  lemma EncodeIsLaidOut(info: Info)
    requires WellFormed(info)
    ensures IsLayout(info, Encode(info)) && IsPadded(info, Encode(info))
  {
    hide Holds4, AreZeros, AreItems, ItemsArePadded, WellFormedItems, EncodeItems, EncodeItem, ItemsSize;
    var data, items := Encode(info), EncodeItems(info.items);
    var serial, count := PutU32(info.serial), PutU32(info.numSettings);
    var start := [info.byteOrder] + Zeros(3);
    Put4(start, info.serial, count + items);
    assert data == start + serial + (count + items);
    Put4(start + serial, info.numSettings, items);
    assert data == start + serial + count + items;
    ItemsAreLaidOut(start + serial + count, info.items);
    ZerosAreThere([info.byteOrder], 3, serial + count + items);
    assert data == [info.byteOrder] + Zeros(3) + (serial + count + items);
  }

  // ---- What the reader reads ----

  lemma TakeAt(data: bytes, p: nat, n: nat)
    requires p + n <= |data|
    ensures Take(data[p..], n) == (data[p..p + n], data[p + n..])
  {
    assert data[p..][..n] == data[p..p + n];
    assert data[p..][n..] == data[p + n..];
  }

  lemma Held2(data: bytes, p: nat, n: uint16)
    requires Holds2(data, p, n)
    ensures GetU16(data[p..p + 2]) == n
  {
  }

  lemma Held4(data: bytes, p: nat, n: uint32)
    requires Holds4(data, p, n)
    ensures GetU32(data[p..p + 4]) == n
  {
    DividedAgain(n);
    var a := n / 0x100;
    var b := a / 0x100;
    assert n == n % 0x100 + 0x100 * a && a == a % 0x100 + 0x100 * b && b == b % 0x100 + 0x100 * (b / 0x100);
  }

  lemma HeldI32(data: bytes, p: nat, v: int32)
    requires Holds4(data, p, v)
    ensures GetI32(data[p..p + 4]) == v
  {
    if v < 0 {
      Complement(v);
      DividedAgain(v);
      DividedAgain(v + 0x1_0000_0000);
      Held4(data, p, v + 0x1_0000_0000);
    } else {
      Held4(data, p, v);
    }
  }

  lemma HeaderFits(h: Header, data: bytes, p: nat)
    requires IsHeader(h, data, p)
    ensures |h.name| <= Padded(|h.name|) && p + 8 + Padded(|h.name|) <= |data|
    ensures data[p..p + 1] == [h.sType] && data[p + 4..p + 4 + |h.name|] == h.name
  {
  }

  lemma HeaderIsRead(h: Header, data: bytes, p: nat)
    requires h.nameLen == |h.name| && IsHeader(h, data, p)
    ensures DecodeHeader(data[p..]) == (h, data[p + HeaderSize(h)..])
  {
    hide Holds2, Holds4, Take, GetU16, GetU32, Pad, Padded;
    var n, m := |h.name|, Padded(|h.name|);
    PaddedIs(n);
    HeaderFits(h, data, p);
    TakeAt(data, p, 1);
    TakeAt(data, p + 1, 1);
    TakeAt(data, p + 2, 2);
    Held2(data, p + 2, h.nameLen);
    TakeAt(data, p + 4, n);
    TakeAt(data, p + 4 + n, Pad(n));
    TakeAt(data, p + 4 + m, 4);
    Held4(data, p + 4 + m, h.lastChangeSerial);
  }

  lemma StringIsRead(str: bytes, data: bytes, p: nat)
    requires |str| < 0x1_0000_0000 && IsValue(StringValue(|str|, str), data, p)
    ensures DecodeValue(1, data[p..]) == (StringValue(|str|, str), data[p + ValueSize(StringValue(|str|, str))..])
  {
    hide Holds4, Take, GetU32, Pad;
    var n := |str|;
    PaddedIs(n);
    TakeAt(data, p, 4);
    Held4(data, p, n);
    TakeAt(data, p + 4, n);
    TakeAt(data, p + 4 + n, Pad(n));
  }

  lemma ValueIsRead(value: Value, sType: uint8, data: bytes, p: nat)
    requires HasTypeByte(value, sType) && IsValue(value, data, p)
    requires value.StringValue? ==> value.length == |value.str|
    ensures DecodeValue(sType, data[p..]) == (value, data[p + ValueSize(value)..])
  {
    hide Holds2, Holds4, Take, GetU16, GetU32, GetI32, Pad, Padded;
    match value
    case IntegerValue(v) =>
      TakeAt(data, p, 4);
      HeldI32(data, p, v);
    case StringValue(_, str) => StringIsRead(str, data, p);
    case ColorValue(red, green, blue, alpha) =>
      TakeAt(data, p, 2);
      TakeAt(data, p + 2, 2);
      TakeAt(data, p + 4, 2);
      TakeAt(data, p + 6, 2);
      Held2(data, p, red);
      Held2(data, p + 2, green);
      Held2(data, p + 4, blue);
      Held2(data, p + 6, alpha);
    case NoValue =>
  }

  lemma TypeIsThere(item: Item, data: bytes, p: nat)
    requires IsItem(item, data, p)
    ensures HasTypeByte(item.value, item.header.sType)
  {
  }

  lemma ItemIsRead(item: Item, data: bytes, p: nat)
    requires WellFormedItem(item) && IsItem(item, data, p)
    ensures DecodeItem(data[p..]) == (item, data[p + ItemSize(item)..])
  {
    hide IsHeader, IsValue, DecodeHeader, DecodeValue, HeaderSize, ValueSize;
    HeaderIsRead(item.header, data, p);
    TypeIsThere(item, data, p);
    ValueIsRead(item.value, item.header.sType, data, p + HeaderSize(item.header));
  }

  lemma ItemFits(item: Item, data: bytes, p: nat)
    requires IsItem(item, data, p)
    ensures p + ItemSize(item) <= |data|
  {
  }

  lemma {:induction false} ItemsAreRead(items: seq<Item>, data: bytes, p: nat)
    requires p <= |data| && WellFormedItems(items) && AreItems(items, data, p)
    ensures p + ItemsSize(items) <= |data|
    ensures DecodeItems(data[p..], |items|) == (items, data[p + ItemsSize(items)..])
    decreases |items|
  {
    hide IsItem, ItemSize, DecodeItem, WellFormedItem;
    if items != [] {
      ItemIsRead(items[0], data, p);
      ItemFits(items[0], data, p);
      ItemsAreRead(items[1..], data, p + ItemSize(items[0]));
      assert [items[0]] + items[1..] == items;
    }
  }

  /** Whatever is laid out like that is read, whatever stands in the padding. */
  lemma LayoutIsRead(info: Info, data: bytes)
    requires WellFormed(info) && IsLayout(info, data)
    ensures Decode(data) == info
  {
    hide Holds4, Take, GetU32, AreItems, WellFormedItems;
    assert data == data[0..];
    TakeAt(data, 0, 1);
    TakeAt(data, 1, 3);
    TakeAt(data, 4, 4);
    TakeAt(data, 8, 4);
    Held4(data, 4, info.serial);
    Held4(data, 8, info.numSettings);
    ItemsAreRead(info.items, data, 12);
  }
}
