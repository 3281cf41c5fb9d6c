/** Writing settings to a byte buffer and reading them back, the way the program does it. */
module XSettingsStream {
  import opened XSettingsCodec
  import opened XSettingsLayout

  /** bytes.Buffer: what has been written so far. */
  class ByteBuffer {
    var data: bytes

    constructor ()
      ensures data == []
    {
      data := [];
    }

    method Write(bs: bytes)
      modifies this
      ensures data == old(data) + bs
    {
      data := data + bs;
    }

    method WriteSkip(num: nat)
      modifies this
      ensures data == old(data) + Zeros(num)
    {
      Write(Zeros(num));
    }

    method WriteHeader(h: Header)
      modifies this
      ensures data == old(data) + EncodeHeader(h)
    {
      Write([h.sType]);
      WriteSkip(1);
      Write(PutU16(h.nameLen));
      Write(h.name);
      WriteSkip(Pad(h.nameLen));
      Write(PutU32(h.lastChangeSerial));
    }

    method WriteString(v: Value)
      requires v.StringValue?
      modifies this
      ensures data == old(data) + EncodeValue(v)
    {
      Write(PutU32(v.length));
      Write(v.str);
      WriteSkip(Pad(v.length));
    }

    method WriteColor(v: Value)
      requires v.ColorValue?
      modifies this
      ensures data == old(data) + EncodeValue(v)
    {
      Write(PutU16(v.red));
      Write(PutU16(v.green));
      Write(PutU16(v.blue));
      Write(PutU16(v.alpha));
    }

    method WriteItem(item: Item)
      requires ValueMatchesType(item)
      modifies this
      ensures data == old(data) + EncodeItem(item)
    {
      WriteHeader(item.header);
      if item.header.sType == TYPE_INTEGER {
        Write(PutI32(item.value.value));
      } else if item.header.sType == TYPE_STRING {
        WriteString(item.value);
      } else if item.header.sType == TYPE_COLOR {
        WriteColor(item.value);
      }
    }
  }

  lemma Associative(a: bytes, b: bytes, c: bytes)
    ensures a + b + c == a + (b + c)
  {
  }

  /** What a buffer holds after one more item. */
  lemma OneMoreItem(start: bytes, items: seq<Item>, i: nat)
    requires i < |items|
    ensures start + EncodeItems(items[..i]) + EncodeItem(items[i]) == start + EncodeItems(items[..i + 1])
  {
    ConcatAppend(EncodeItem, items[..i], items[i]);
    assert items[..i + 1] == items[..i] + [items[i]];
    Associative(start, EncodeItems(items[..i]), EncodeItem(items[i]));
  }

  method WriteItems(buf: ByteBuffer, items: seq<Item>)
    requires AllValuesMatch(items)
    modifies buf
    ensures buf.data == old(buf.data) + EncodeItems(items)
  {
    ghost var start := buf.data;
    for i := 0 to |items|
      invariant buf.data == start + EncodeItems(items[..i])
    {
      OneMoreItem(start, items, i);
      buf.WriteItem(items[i]);
    }
    assert items[..|items|] == items;
  }

  method MarshalSettingData(info: Info) returns (data: bytes)
    requires AllValuesMatch(info.items)
    ensures data == Encode(info)
    ensures WellFormed(info) ==> IsLayout(info, data) && IsPadded(info, data)
  {
    hide IsLayout, IsPadded, WellFormed, EncodeItems, PutU32;
    if WellFormed(info) {
      EncodeIsLaidOut(info);
    }
    var buf := new ByteBuffer();
    buf.Write([info.byteOrder]);
    buf.WriteSkip(3);
    buf.Write(PutU32(info.serial));
    buf.Write(PutU32(info.numSettings));
    WriteItems(buf, info.items);
    data := buf.data;
  }

  /** bytes.Reader: a read that finds too little uses up the rest and leaves zeros. */
  class ByteReader {
    var rest: bytes

    constructor (data: bytes)
      ensures rest == data
    {
      rest := data;
    }

    method Read(n: nat) returns (bs: bytes)
      modifies this
      ensures (bs, rest) == Take(old(rest), n)
      ensures |bs| == n
    {
      if n <= |rest| {
        bs, rest := rest[..n], rest[n..];
      } else {
        bs, rest := Zeros(n), [];
      }
    }

    method ReadHeader() returns (h: Header)
      modifies this
      ensures (h, rest) == DecodeHeader(old(rest))
    {
      var sType := Read(1);
      var skipped := Read(1);
      var nameLen := Read(2);
      var name := Read(GetU16(nameLen));
      skipped := Read(Pad(GetU16(nameLen)));
      var serial := Read(4);
      h := Header(sType[0], GetU16(nameLen), name, GetU32(serial));
    }

    method ReadItem() returns (item: Item)
      modifies this
      ensures (item, rest) == DecodeItem(old(rest))
    {
      var header := ReadHeader();
      var value := NoValue;
      if header.sType == TYPE_INTEGER {
        var v := Read(4);
        value := IntegerValue(GetI32(v));
      } else if header.sType == TYPE_STRING {
        var length := Read(4);
        var str := Read(GetU32(length));
        var skipped := Read(Pad(GetU32(length)));
        value := StringValue(GetU32(length), str);
      } else if header.sType == TYPE_COLOR {
        var red := Read(2);
        var green := Read(2);
        var blue := Read(2);
        var alpha := Read(2);
        value := ColorValue(GetU16(red), GetU16(green), GetU16(blue), GetU16(alpha));
      }
      item := Item(header, value);
    }
  }

  method UnmarshalSettingData(data: bytes) returns (info: Info)
    ensures info == Decode(data)
    ensures forall i: Info | WellFormed(i) && IsLayout(i, data) :: info == i
  {
    hide IsLayout, WellFormed;
    forall i: Info | WellFormed(i) && IsLayout(i, data) ensures Decode(data) == i {
      LayoutIsRead(i, data);
    }
    if |data| == 0 {
      return Info(0, 0, 0, []);
    }
    var reader := new ByteReader(data);
    var order := reader.Read(1);
    var skipped := reader.Read(3);
    var serial := reader.Read(4);
    var count := reader.Read(4);
    var numSettings := GetU32(count);
    ghost var body := reader.rest;
    var items: seq<Item> := [];
    for i := 0 to numSettings
      invariant (items, reader.rest) == DecodeItems(body, i)
    {
      RepeatAppend(DecodeItem, body, i);
      var item := reader.ReadItem();
      items := items + [item];
    }
    info := Info(order[0], GetU32(serial), numSettings, items);
  }
}
