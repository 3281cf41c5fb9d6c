/** The settings store: every update decodes the property, changes it and encodes it again
    (xsettings.go setSettings, xsettings_writer.go modifyProperty and changePropValue). */
module XSettingsStore {
  import opened Ints
  import opened XSettingsCodec
  import opened XSettingsCut
  import opened XSettingsLayout
  import opened XSettingsStream

  datatype Option<T> = None | Some(value: T)

  /** A setting's value: Go's interface value, nil included. */
  datatype SettingValue =
    | Int(i: int32)
    | Str(s: bytes)
    | Color(red: uint16, green: uint16, blue: uint16, alpha: uint16)
    | Nil

  datatype Setting = Setting(sType: uint8, prop: bytes, value: SettingValue)

  /** The dynamic type the type assertions ask for. */
  predicate HasType(v: SettingValue, sType: uint8) {
    match v
    case Int(_) => sType == TYPE_INTEGER
    case Str(_) => sType == TYPE_STRING
    case Color(_, _, _, _) => sType == TYPE_COLOR
    case Nil => false
  }

  function ToValue(v: SettingValue): Value {
    match v
    case Int(i) => IntegerValue(i)
    case Str(s) => StringValue(ToUint32(|s|), s)
    case Color(red, green, blue, alpha) => ColorValue(red, green, blue, alpha)
    case Nil => NoValue
  }

  // ---- What one update does; None is a panic, which leaves the property alone ----

  predicate Has(items: seq<Item>, prop: bytes) { exists i :: 0 <= i < |items| && items[i].header.name == prop }

  function ChangedValue(before: Value, v: SettingValue): Value {
    match (before, v)
    case (IntegerValue(_), Int(i)) => IntegerValue(i)
    case (StringValue(_, str), Str(s)) => if str == s then before else StringValue(ToUint32(|s|), s)
    case (ColorValue(_, _, _, _), Color(red, green, blue, alpha)) => ColorValue(red, green, blue, alpha)
    case _ => before
  }

  /** modifyProperty for one item. Writing the value an item already has still counts as a write. */
  function ModifiedItem(item: Item, s: Setting): Option<Item> {
    if item.header.name != s.prop then Some(item)
    else
      var header := item.header.(lastChangeSerial := ToUint32(item.header.lastChangeSerial + 1));
      if item.header.sType > TYPE_COLOR then Some(Item(header, item.value))
      else if !HasType(s.value, item.header.sType) then None
      else Some(Item(header, ChangedValue(item.value, s.value)))
  }

  function ModifiedItems(items: seq<Item>, s: Setting): Option<seq<Item>> {
    if items == [] then Some([])
    else
      match ModifiedItem(items[0], s)
      case None => None
      case Some(item) =>
        match ModifiedItems(items[1..], s)
        case None => None
        case Some(others) => Some([item] + others)
  }

  function NewItem(s: Setting): Item {
    Item(Header(s.sType, ToUint16(|s.prop|), s.prop, 1), ToValue(s.value))
  }

  function Updated(info: Info, s: Setting): Option<Info> {
    if Has(info.items, s.prop) then
      match ModifiedItems(info.items, s)
      case None => None
      case Some(items) => Some(info.(items := items))
    else if s.value == Nil then Some(info)
    else if !HasType(s.value, s.sType) then None
    else Some(info.(items := info.items + [NewItem(s)], numSettings := ToUint32(info.numSettings + 1)))
  }

  function AllUpdated(info: Info, settings: seq<Setting>): Option<Info>
    decreases |settings|
  {
    if settings == [] then Some(info)
    else
      match Updated(info, settings[0])
      case None => None
      case Some(next) => AllUpdated(next, settings[1..])
  }

  /** GetProperty asks for 10240 four-byte words. */
  const READ_LIMIT: nat := 40960

  function Readable(data: bytes): bytes { if |data| <= READ_LIMIT then data else data[..READ_LIMIT] }

  function NextInfo(data: bytes, settings: seq<Setting>): Option<Info> {
    var info := Decode(Readable(data));
    AllUpdated(info.(serial := ToUint32(info.serial + 1)), settings)
  }

  function Prepended(items: seq<Item>, others: Option<seq<Item>>): Option<seq<Item>> {
    match others
    case None => None
    case Some(more) => Some(items + more)
  }

  lemma PrependedNone(items: seq<Item>, s: Setting)
    ensures Prepended([], ModifiedItems(items[0..], s)) == ModifiedItems(items, s)
  {
    assert items[0..] == items;
    if ModifiedItems(items, s).Some? {
      assert [] + ModifiedItems(items, s).value == ModifiedItems(items, s).value;
    }
  }

  lemma PrependedOne(items: seq<Item>, item: Item, others: Option<seq<Item>>)
    ensures Prepended(items, Prepended([item], others)) == Prepended(items + [item], others)
  {
    if others.Some? {
      assert items + ([item] + others.value) == items + [item] + others.value;
    }
  }

  // ---- Values always have the type their header says, so the writer's assertions never fail ----

  lemma DecodedItemMatches(data: bytes)
    ensures ValueMatchesType(DecodeItem(data).0)
  {
  }

  lemma {:induction false} DecodedItemsMatch(data: bytes, n: nat)
    ensures AllValuesMatch(DecodeItems(data, n).0)
    decreases n
  {
    if n > 0 {
      DecodedItemMatches(data);
      DecodedItemsMatch(DecodeItem(data).1, n - 1);
    }
  }

  lemma DecodedMatches(data: bytes)
    ensures AllValuesMatch(Decode(data).items)
  {
    if data != [] {
      var (order, d1) := Take(data, 1);
      var (_, d2) := Take(d1, 3);
      var (serial, d3) := Take(d2, 4);
      var (count, d4) := Take(d3, 4);
      DecodedItemsMatch(d4, GetU32(count));
    }
  }

  lemma {:induction false} ModifiedItemsMatch(items: seq<Item>, s: Setting)
    requires AllValuesMatch(items) && ModifiedItems(items, s).Some?
    ensures AllValuesMatch(ModifiedItems(items, s).value)
  {
    if items != [] {
      assert ValueMatchesType(items[0]);
      ModifiedItemsMatch(items[1..], s);
    }
  }

  lemma UpdatedMatches(info: Info, s: Setting)
    requires AllValuesMatch(info.items) && Updated(info, s).Some?
    ensures AllValuesMatch(Updated(info, s).value.items)
  {
    if Has(info.items, s.prop) {
      ModifiedItemsMatch(info.items, s);
    }
  }

  // ---- The store ----

  class XSManager {
    var property: bytes  // _XSETTINGS_SETTINGS on the owner window

    constructor ()
      ensures property == []
    {
      property := [];
    }

    method GetPropItem(items: seq<Item>, prop: bytes) returns (index: int)
      ensures Has(items, prop) <==> 0 <= index
      ensures 0 <= index ==> index < |items| && items[index].header.name == prop && !Has(items[..index], prop)
    {
      for i := 0 to |items|
        invariant !Has(items[..i], prop)
      {
        if items[i].header.name == prop {
          return i;
        }
      }
      assert items[..|items|] == items;
      return -1;
    }

    method ModifyProperty(items: seq<Item>, s: Setting) returns (r: Option<seq<Item>>)
      ensures r == ModifiedItems(items, s)
    {
      var tmp: seq<Item> := [];
      PrependedNone(items, s);
      for i := 0 to |items|
        invariant ModifiedItems(items, s) == Prepended(tmp, ModifiedItems(items[i..], s))
      {
        var item := items[i];
        if item.header.name == s.prop {
          item := item.(header := item.header.(lastChangeSerial := ToUint32(item.header.lastChangeSerial + 1)));
          if item.header.sType <= TYPE_COLOR {
            if !HasType(s.value, item.header.sType) {
              return None;
            }
            item := item.(value := ChangedValue(item.value, s.value));
          }
        }
        assert items[i..][1..] == items[i + 1..];
        PrependedOne(tmp, item, ModifiedItems(items[i + 1..], s));
        tmp := tmp + [item];
      }
      assert tmp + [] == tmp;
      r := Some(tmp);
    }

    /** The body of the loop in setSettings. */
    method UpdateOne(info: Info, s: Setting) returns (r: Option<Info>)
      ensures r == Updated(info, s)
    {
      var index := GetPropItem(info.items, s.prop);
      if index >= 0 {
        var items := ModifyProperty(info.items, s);
        if items == None {
          return None;
        }
        return Some(info.(items := items.value));
      }
      if s.value == Nil {
        return Some(info);
      }
      if !HasType(s.value, s.sType) {
        return None;
      }
      return Some(info.(items := info.items + [NewItem(s)], numSettings := ToUint32(info.numSettings + 1)));
    }

    /** Returns false when the program would panic; the property then stays as it was. */
    method SetSettings(settings: seq<Setting>) returns (ok: bool)
      modifies this
      ensures match NextInfo(old(property), settings)
              case None => !ok && property == old(property)
              case Some(info) => ok && property == Encode(info)
    {
      hide Updated, AllValuesMatch, Encode, Decode;
      var datas := if |property| <= 40960 then property else property[..40960];
      var info := UnmarshalSettingData(datas);
      info := info.(serial := ToUint32(info.serial + 1));
      ghost var start := info;
      DecodedMatches(datas);
      for i := 0 to |settings|
        invariant AllUpdated(start, settings) == AllUpdated(info, settings[i..])
        invariant AllValuesMatch(info.items)
        invariant property == old(property)
      {
        var next := UpdateOne(info, settings[i]);
        assert settings[i..][1..] == settings[i + 1..];
        if next == None {
          assert AllUpdated(info, settings[i..]) == None;
          return false;
        }
        UpdatedMatches(info, settings[i]);
        info := next.value;
      }
      property := MarshalSettingData(info);
      ok := true;
    }
  }

  // ---- The simple store that the byte string stands for ----

  datatype Entry = Entry(sType: uint8, value: SettingValue, writes: nat)

  datatype Abstract = Abstract(calls: nat, entries: map<bytes, Entry>)

  function AbstractUpdated(a: Abstract, s: Setting): Option<Abstract> {
    if s.prop in a.entries then
      var e := a.entries[s.prop];
      if HasType(s.value, e.sType) then Some(a.(entries := a.entries[s.prop := Entry(e.sType, s.value, e.writes + 1)]))
      else None
    else if s.value == Nil then Some(a)
    else if HasType(s.value, s.sType) then Some(a.(entries := a.entries[s.prop := Entry(s.sType, s.value, 1)]))
    else None
  }

  function AbstractAllUpdated(a: Abstract, settings: seq<Setting>): Option<Abstract>
    decreases |settings|
  {
    if settings == [] then Some(a)
    else
      match AbstractUpdated(a, settings[0])
      case None => None
      case Some(next) => AbstractAllUpdated(next, settings[1..])
  }

  function AbstractNext(a: Abstract, settings: seq<Setting>): Option<Abstract> {
    AbstractAllUpdated(a.(calls := a.calls + 1), settings)
  }

  /** The item holds the entry, with its counters and lengths cut to their widths. */
  ghost predicate IsEntry(item: Item, e: Entry) {
    && item.header.sType == e.sType && HasType(e.value, e.sType)
    && item.header.nameLen == ToUint16(|item.header.name|)
    && item.header.lastChangeSerial == ToUint32(e.writes)
    && item.value == ToValue(e.value)
  }

  ghost predicate UniqueNames(items: seq<Item>) {
    forall i, j | 0 <= i < j < |items| :: items[i].header.name != items[j].header.name
  }

  ghost predicate Represents(info: Info, a: Abstract) {
    && info.byteOrder == 0 && info.serial == ToUint32(a.calls)
    && info.numSettings == ToUint32(|info.items|)
    && UniqueNames(info.items)
    && (forall i | 0 <= i < |info.items| ::
          info.items[i].header.name in a.entries && IsEntry(info.items[i], a.entries[info.items[i].header.name]))
    && (forall name | name in a.entries :: Has(info.items, name))
  }

  lemma NextCount(n: nat)
    ensures ToUint32(ToUint32(n) + 1) == ToUint32(n + 1)
  {
  }

  /** modifyProperty changes exactly the item with the name. */
  lemma {:induction false} ModifiedItemsAre(items: seq<Item>, s: Setting)
    requires UniqueNames(items) && AllValuesMatch(items)
    requires forall i | 0 <= i < |items| :: items[i].header.sType <= TYPE_COLOR
    ensures var r := ModifiedItems(items, s);
            if exists i ::
                 0 <= i < |items| && items[i].header.name == s.prop && !HasType(s.value, items[i].header.sType)
            then r == None
            else r.Some? && |r.value| == |items| &&
                 forall i | 0 <= i < |items| :: ModifiedItem(items[i], s) == Some(r.value[i])
  {
    if items != [] {
      assert ValueMatchesType(items[0]);
      ModifiedItemsAre(items[1..], s);
      if i :| 0 <= i < |items| && items[i].header.name == s.prop && !HasType(s.value, items[i].header.sType) {
        if i > 0 {
          assert items[1..][i - 1] == items[i];
        }
      } else {
        forall i | 0 <= i < |items[1..]| ensures items[1..][i] == items[i + 1] {}
      }
    }
  }

  lemma ItemsAreTyped(info: Info, a: Abstract)
    requires Represents(info, a)
    ensures AllValuesMatch(info.items)
    ensures forall i | 0 <= i < |info.items| :: info.items[i].header.sType <= TYPE_COLOR
  {
    forall i | 0 <= i < |info.items|
      ensures ValueMatchesType(info.items[i]) && info.items[i].header.sType <= TYPE_COLOR
    {
      assert IsEntry(info.items[i], a.entries[info.items[i].header.name]);
    }
  }

  lemma ModifiedIsEntry(item: Item, item': Item, a: Abstract, s: Setting)
    requires s.prop in a.entries && HasType(s.value, a.entries[s.prop].sType)
    requires item.header.name in a.entries && IsEntry(item, a.entries[item.header.name])
    requires ModifiedItem(item, s) == Some(item')
    ensures item'.header.name == item.header.name
    ensures IsEntry(item', AbstractUpdated(a, s).value.entries[item.header.name])
  {
    if item.header.name == s.prop {
      NextCount(a.entries[s.prop].writes);
    }
  }

  lemma SameNames(items: seq<Item>, items': seq<Item>, names: set<bytes>)
    requires |items'| == |items| && forall i | 0 <= i < |items| :: items'[i].header.name == items[i].header.name
    requires forall name | name in names :: Has(items, name)
    ensures forall name | name in names :: Has(items', name)
  {
    forall name | name in names ensures Has(items', name) {
      var j :| 0 <= j < |items| && items[j].header.name == name;
      assert items'[j].header.name == name;
    }
  }

  lemma ModifiedRepresents(info: Info, a: Abstract, s: Setting, items: seq<Item>)
    requires Represents(info, a)
    requires s.prop in a.entries && HasType(s.value, a.entries[s.prop].sType)
    requires |items| == |info.items|
    requires forall i | 0 <= i < |items| :: ModifiedItem(info.items[i], s) == Some(items[i])
    ensures Represents(info.(items := items), AbstractUpdated(a, s).value)
  {
    hide ModifiedItem, IsEntry;
    var a' := AbstractUpdated(a, s).value;
    forall i | 0 <= i < |items|
      ensures items[i].header.name == info.items[i].header.name
      ensures items[i].header.name in a'.entries && IsEntry(items[i], a'.entries[items[i].header.name])
    {
      ModifiedIsEntry(info.items[i], items[i], a, s);
    }
    SameNames(info.items, items, a.entries.Keys);
  }

  lemma ModifyRefines(info: Info, a: Abstract, s: Setting)
    requires Represents(info, a) && Has(info.items, s.prop)
    ensures Updated(info, s).Some? <==> AbstractUpdated(a, s).Some?
    ensures Updated(info, s).Some? ==> Represents(Updated(info, s).value, AbstractUpdated(a, s).value)
  {
    hide ModifiedItem, ModifiedItems, ToValue, ToUint16, ToUint32;
    ItemsAreTyped(info, a);
    ModifiedItemsAre(info.items, s);
    var k :| 0 <= k < |info.items| && info.items[k].header.name == s.prop;
    assert IsEntry(info.items[k], a.entries[s.prop]);
    assert forall i | 0 <= i < |info.items| && info.items[i].header.name == s.prop :: i == k;
    if HasType(s.value, info.items[k].header.sType) {
      ModifiedRepresents(info, a, s, ModifiedItems(info.items, s).value);
    }
  }

  lemma AddRefines(info: Info, a: Abstract, s: Setting)
    requires Represents(info, a) && !Has(info.items, s.prop)
    requires s.value != Nil && HasType(s.value, s.sType)
    ensures Represents(Updated(info, s).value, AbstractUpdated(a, s).value)
  {
    var items := info.items + [NewItem(s)];
    var a' := AbstractUpdated(a, s).value;
    NextCount(|info.items|);
    assert s.prop !in a.entries;
    forall name | name in a'.entries ensures Has(items, name) {
      if name == s.prop {
        assert items[|info.items|].header.name == name;
      } else {
        var j :| 0 <= j < |info.items| && info.items[j].header.name == name;
        assert items[j].header.name == name;
      }
    }
  }

  lemma UpdateRefines(info: Info, a: Abstract, s: Setting)
    requires Represents(info, a)
    ensures Updated(info, s).Some? <==> AbstractUpdated(a, s).Some?
    ensures Updated(info, s).Some? ==> Represents(Updated(info, s).value, AbstractUpdated(a, s).value)
  {
    if Has(info.items, s.prop) {
      ModifyRefines(info, a, s);
    } else if s.value != Nil && HasType(s.value, s.sType) {
      AddRefines(info, a, s);
    }
  }

  lemma {:induction false} AllUpdatesRefine(info: Info, a: Abstract, settings: seq<Setting>)
    requires Represents(info, a)
    ensures AllUpdated(info, settings).Some? <==> AbstractAllUpdated(a, settings).Some?
    ensures AllUpdated(info, settings).Some? ==>
              Represents(AllUpdated(info, settings).value, AbstractAllUpdated(a, settings).value)
    decreases |settings|
  {
    if settings != [] {
      UpdateRefines(info, a, settings[0]);
      if Updated(info, settings[0]).Some? {
        AllUpdatesRefine(Updated(info, settings[0]).value, AbstractUpdated(a, settings[0]).value, settings[1..]);
      }
    }
  }

  // ---- Whole runs ----

  /** The property after these calls of SetSettings on an empty store; None once a call panicked. */
  function Run(calls: seq<seq<Setting>>): Option<bytes>
    decreases |calls|
  {
    if calls == [] then Some([])
    else
      match Run(calls[..|calls| - 1])
      case None => None
      case Some(data) =>
        match NextInfo(data, calls[|calls| - 1])
        case None => None
        case Some(info) => Some(Encode(info))
  }

  function AbstractRun(calls: seq<seq<Setting>>): Option<Abstract>
    decreases |calls|
  {
    if calls == [] then Some(Abstract(0, map[]))
    else
      match AbstractRun(calls[..|calls| - 1])
      case None => None
      case Some(a) => AbstractNext(a, calls[|calls| - 1])
  }

  /** The property has never outgrown what one GetProperty returns. */
  predicate StaysReadable(calls: seq<seq<Setting>>)
    decreases |calls|
  {
    && (Run(calls).Some? ==> |Run(calls).value| <= READ_LIMIT)
    && (calls != [] ==> StaysReadable(calls[..|calls| - 1]))
  }

  lemma ItemIsLong(item: Item)
    ensures 1 <= |EncodeItem(item)| && |item.header.name| <= |EncodeItem(item)|
    ensures item.value.StringValue? ==> |item.value.str| <= |EncodeItem(item)|
  {
  }

  lemma {:induction false} EncodedItemsAreLong(items: seq<Item>)
    ensures |items| <= |EncodeItems(items)|
    ensures forall i | 0 <= i < |items| :: |EncodeItem(items[i])| <= |EncodeItems(items)|
  {
    if items != [] {
      assert EncodeItems(items) == EncodeItem(items[0]) + EncodeItems(items[1..]);
      EncodedItemsAreLong(items[1..]);
      ItemIsLong(items[0]);
      forall i | 0 <= i < |items| ensures |EncodeItem(items[i])| <= |EncodeItems(items)| {
        if i > 0 {
          assert items[i] == items[1..][i - 1];
        }
      }
    }
  }

  /** A store small enough to be read back has lengths and counts that fit their fields. */
  lemma ReadableIsWellFormed(info: Info, a: Abstract)
    requires Represents(info, a) && |Encode(info)| <= READ_LIMIT
    ensures WellFormed(info)
  {
    EncodedItemsAreLong(info.items);
    assert |EncodeItems(info.items)| <= |Encode(info)|;
    forall i | 0 <= i < |info.items| ensures WellFormedItem(info.items[i]) {
      assert IsEntry(info.items[i], a.entries[info.items[i].header.name]);
      assert |EncodeItem(info.items[i])| <= READ_LIMIT;
      ItemIsLong(info.items[i]);
    }
  }

  lemma ReadsBack(info: Info, a: Abstract)
    requires Represents(info, a)
    ensures |Encode(info)| <= READ_LIMIT ==> WellFormed(info) && Decode(Readable(Encode(info))) == info
  {
    if |Encode(info)| <= READ_LIMIT {
      ReadableIsWellFormed(info, a);
      RoundTrip(info);
    }
  }

  /** One call, from the property as it was to the property as the next call will read it. */
  lemma CallRefines(data: bytes, a: Abstract, settings: seq<Setting>)
    requires Represents(Decode(Readable(data)), a)
    ensures NextInfo(data, settings).Some? <==> AbstractNext(a, settings).Some?
    ensures NextInfo(data, settings).Some? ==>
              var next := NextInfo(data, settings).value;
              && Represents(next, AbstractNext(a, settings).value)
              && (|Encode(next)| <= READ_LIMIT ==> WellFormed(next) && Decode(Readable(Encode(next))) == next)
  {
    var info := Decode(Readable(data));
    NextCount(a.calls);
    AllUpdatesRefine(info.(serial := ToUint32(info.serial + 1)), a.(calls := a.calls + 1), settings);
    if NextInfo(data, settings).Some? {
      ReadsBack(NextInfo(data, settings).value, AbstractNext(a, settings).value);
    }
  }

  /** The encoded store behaves like a map from names to values and write counts, over every run. */
  lemma {:induction false} StoreRefinesMap(calls: seq<seq<Setting>>)
    requires StaysReadable(calls)
    ensures Run(calls).Some? <==> AbstractRun(calls).Some?
    ensures Run(calls).Some? ==>
              var info := Decode(Readable(Run(calls).value));
              Represents(info, AbstractRun(calls).value) && WellFormed(info)
    decreases |calls|
  {
    if calls != [] {
      var earlier, last := calls[..|calls| - 1], calls[|calls| - 1];
      StoreRefinesMap(earlier);
      if Run(earlier).Some? {
        CallRefines(Run(earlier).value, AbstractRun(earlier).value, last);
      }
    }
  }

  lemma {:induction false} UpdatesKeepCalls(a: Abstract, settings: seq<Setting>)
    requires AbstractAllUpdated(a, settings).Some?
    ensures AbstractAllUpdated(a, settings).value.calls == a.calls
    decreases |settings|
  {
    if settings != [] {
      UpdatesKeepCalls(AbstractUpdated(a, settings[0]).value, settings[1..]);
    }
  }

  lemma {:induction false} RunCountsCalls(calls: seq<seq<Setting>>)
    requires AbstractRun(calls).Some?
    ensures AbstractRun(calls).value.calls == |calls|
    decreases |calls|
  {
    if calls != [] {
      var a := AbstractRun(calls[..|calls| - 1]).value;
      RunCountsCalls(calls[..|calls| - 1]);
      UpdatesKeepCalls(a.(calls := a.calls + 1), calls[|calls| - 1]);
    }
  }

  /** What a reader finds under a name: the value set last, and how often it was written. */
  ghost predicate Finds(info: Info, prop: bytes, entries: map<bytes, Entry>) {
    && (Has(info.items, prop) <==> prop in entries)
    && forall i | 0 <= i < |info.items| && info.items[i].header.name == prop ::
         && info.items[i].value == ToValue(entries[prop].value)
         && info.items[i].header.lastChangeSerial == ToUint32(entries[prop].writes)
  }

  lemma RepresentsFinds(info: Info, a: Abstract, prop: bytes)
    requires Represents(info, a)
    ensures Finds(info, prop, a.entries)
  {
    forall i | 0 <= i < |info.items| && info.items[i].header.name == prop
      ensures prop in a.entries && IsEntry(info.items[i], a.entries[prop])
    {
    }
  }

  /** What a reader of the property sees after any run: each name once, with the value set last, the
      number of its writes and the number of calls, cut to 32 bits. */
  lemma RunLooksUpLastValue(calls: seq<seq<Setting>>, prop: bytes)
    requires StaysReadable(calls) && Run(calls).Some?
    ensures AbstractRun(calls).Some?
    ensures var info := Decode(Readable(Run(calls).value));
            && info.serial == ToUint32(|calls|) && info.numSettings == |info.items|
            && UniqueNames(info.items) && Finds(info, prop, AbstractRun(calls).value.entries)
  {
    StoreRefinesMap(calls);
    RunCountsCalls(calls);
    RepresentsFinds(Decode(Readable(Run(calls).value)), AbstractRun(calls).value, prop);
  }

  // ---- What the map holds, and what the bytes say ----

  /** All settings of the run, one after another. */
  function Flat(calls: seq<seq<Setting>>): seq<Setting> {
    if calls == [] then [] else Flat(calls[..|calls| - 1]) + calls[|calls| - 1]
  }

  /** The setting sets the name; nil sets nothing. */
  predicate Sets(s: Setting, prop: bytes) { s.prop == prop && s.value != Nil }

  function CountSets(settings: seq<Setting>, prop: bytes): nat {
    if settings == [] then 0
    else CountSets(settings[..|settings| - 1], prop) + if Sets(settings[|settings| - 1], prop) then 1 else 0
  }

  ghost predicate IsLastSet(settings: seq<Setting>, i: int, prop: bytes) {
    0 <= i < |settings| && Sets(settings[i], prop) && forall j | i < j < |settings| :: !Sets(settings[j], prop)
  }

  /** The entry of a name: the value set last, and how often it was set; there is none if it never was. */
  ghost predicate IsHistoryOf(entries: map<bytes, Entry>, settings: seq<Setting>, prop: bytes) {
    && (prop in entries <==> exists i :: 0 <= i < |settings| && Sets(settings[i], prop))
    && CountSets(settings, prop) == (if prop in entries then entries[prop].writes else 0)
    && forall i | IsLastSet(settings, i, prop) :: entries[prop].value == settings[i].value
  }

  predicate SameKind(v: SettingValue, w: SettingValue) {
    (v.Int? && w.Int?) || (v.Str? && w.Str?) || (v.Color? && w.Color?)
  }

  /** A type assertion fails, and the program panics, exactly for a value of another kind than the one that is stored,
      and for a new name if the kind is not the one its type byte announces. */
  lemma PanicsIff(a: Abstract, s: Setting)
    requires s.prop in a.entries ==> HasType(a.entries[s.prop].value, a.entries[s.prop].sType)
    ensures AbstractUpdated(a, s) == None <==>
              if s.prop in a.entries then !SameKind(s.value, a.entries[s.prop].value)
              else match s.value
                   case Int(_) => s.sType != 0
                   case Str(_) => s.sType != 1
                   case Color(_, _, _, _) => s.sType != 2
                   case Nil => false
  {
    if s.prop in a.entries {
      assert HasType(s.value, a.entries[s.prop].sType) <==> SameKind(s.value, a.entries[s.prop].value);
    }
  }

  lemma OneMoreSetting(a: Abstract, before: seq<Setting>, s: Setting, prop: bytes)
    requires IsHistoryOf(a.entries, before, prop) && AbstractUpdated(a, s).Some?
    ensures IsHistoryOf(AbstractUpdated(a, s).value.entries, before + [s], prop)
  {
    var all := before + [s];
    assert all[..|all| - 1] == before && all[|before|] == s;
    assert forall i | 0 <= i < |before| :: all[i] == before[i];
    if Sets(s, prop) {
      assert Sets(all[|before|], prop);
    } else if i :| 0 <= i < |before| && Sets(before[i], prop) {
      assert Sets(all[i], prop);
    }
    forall i | IsLastSet(all, i, prop)
      ensures prop in AbstractUpdated(a, s).value.entries
      ensures AbstractUpdated(a, s).value.entries[prop].value == all[i].value
    {
      if i < |before| {
        assert !Sets(all[|before|], prop);
        forall j | i < j < |before| ensures !Sets(before[j], prop) {
          assert all[j] == before[j];
        }
        assert IsLastSet(before, i, prop);
      }
    }
  }

  lemma {:induction false} MoreSettings(a: Abstract, before: seq<Setting>, settings: seq<Setting>, prop: bytes)
    requires IsHistoryOf(a.entries, before, prop) && AbstractAllUpdated(a, settings).Some?
    ensures IsHistoryOf(AbstractAllUpdated(a, settings).value.entries, before + settings, prop)
    decreases |settings|
  {
    hide IsHistoryOf, AbstractUpdated;
    if settings == [] {
      assert before + settings == before;
    } else {
      OneMoreSetting(a, before, settings[0], prop);
      MoreSettings(AbstractUpdated(a, settings[0]).value, before + [settings[0]], settings[1..], prop);
      assert before + [settings[0]] + settings[1..] == before + settings;
    }
  }

  /** Over every run: the map holds, for each name, the value set last and the number of times it was set. */
  lemma {:induction false} RunHoldsLastValue(calls: seq<seq<Setting>>, prop: bytes)
    requires AbstractRun(calls).Some?
    ensures IsHistoryOf(AbstractRun(calls).value.entries, Flat(calls), prop)
    decreases |calls|
  {
    if calls != [] {
      var earlier := calls[..|calls| - 1];
      RunHoldsLastValue(earlier, prop);
      var a := AbstractRun(earlier).value;
      MoreSettings(a.(calls := a.calls + 1), Flat(earlier), calls[|calls| - 1], prop);
    }
  }

  /** The setting as it stands in the property, from the byte p on: type, name, number of writes and value. */
  predicate StandsAt(data: bytes, p: nat, prop: bytes, value: SettingValue, writes: nat) {
    var q := p + 8 + Padded(|prop|);
    && q <= |data| && Holds2(data, p + 2, |prop|) && HoldsText(data, p + 4, prop) && Holds4(data, q - 4, writes)
    && match value
       case Int(i) => data[p] == 0 && Holds4(data, q, i)
       case Str(s) => data[p] == 1 && Holds4(data, q, |s|) && HoldsText(data, q + 4, s)
       case Color(red, green, blue, alpha) =>
         && data[p] == 2 && Holds2(data, q, red) && Holds2(data, q + 2, green) && Holds2(data, q + 4, blue)
         && Holds2(data, q + 6, alpha)
       case Nil => false
  }

  lemma SameLowBytes(m: int, k: int)
    ensures var n := m + 0x1_0000_0000 * k;
            && n % 0x100 == m % 0x100 && n / 0x100 % 0x100 == m / 0x100 % 0x100
            && n / 0x1_0000 % 0x100 == m / 0x1_0000 % 0x100 && n / 0x100_0000 % 0x100 == m / 0x100_0000 % 0x100
  {
    DividedAgain(m);
    DividedAgain(m + 0x1_0000_0000 * k);
    NextByte(m, 0x100_0000 * k);
    NextByte(m / 0x100, 0x1_0000 * k);
    NextByte(m / 0x100 / 0x100, 0x100 * k);
    NextByte(m / 0x100 / 0x100 / 0x100, k);
  }

  lemma Cut32(data: bytes, p: nat, n: nat)
    requires Holds4(data, p, ToUint32(n))
    ensures Holds4(data, p, n)
  {
    var m: int := ToUint32(n);
    assert n == m + 0x1_0000_0000 * (n / 0x1_0000_0000);
    SameLowBytes(m, n / 0x1_0000_0000);
  }

  lemma EntryStands(item: Item, e: Entry, data: bytes, p: nat)
    requires WellFormedItem(item) && IsEntry(item, e) && IsItem(item, data, p)
    ensures StandsAt(data, p, item.header.name, e.value, e.writes)
  {
    hide Holds2, Holds4, HoldsText, Padded;
    Cut32(data, p + 4 + Padded(|item.header.name|), e.writes);
  }

  lemma LastInfo(calls: seq<seq<Setting>>) returns (info: Info, a: Abstract)
    requires StaysReadable(calls) && calls != [] && Run(calls).Some?
    ensures AbstractRun(calls) == Some(a) && Run(calls) == Some(Encode(info))
    ensures WellFormed(info) && Represents(info, a)
  {
    var earlier := calls[..|calls| - 1];
    StoreRefinesMap(earlier);
    CallRefines(Run(earlier).value, AbstractRun(earlier).value, calls[|calls| - 1]);
    info, a := NextInfo(Run(earlier).value, calls[|calls| - 1]).value, AbstractRun(calls).value;
  }

  lemma {:induction false} ItemIsThere(items: seq<Item>, data: bytes, start: nat, i: nat) returns (p: nat)
    requires AreItems(items, data, start) && i < |items|
    ensures start <= p && IsItem(items[i], data, p)
    decreases i
  {
    if i == 0 {
      p := start;
    } else {
      p := ItemIsThere(items[1..], data, start + ItemSize(items[0]), i - 1);
    }
  }

  lemma {:induction false} NamesCount(items: seq<Item>)
    requires UniqueNames(items)
    ensures |set i | 0 <= i < |items| :: items[i].header.name| == |items|
    decreases |items|
  {
    var names := set i | 0 <= i < |items| :: items[i].header.name;
    if items == [] {
      assert names == {};
    } else {
      var others := items[1..];
      NamesCount(others);
      var rest := set i | 0 <= i < |others| :: others[i].header.name;
      assert items[0].header.name !in rest;
      assert names == {items[0].header.name} + rest by {
        forall i | 0 <= i < |items| ensures items[i].header.name in {items[0].header.name} + rest {
          assert i > 0 ==> items[i] == others[i - 1];
        }
        forall i | 0 <= i < |others| ensures others[i].header.name in names {
          assert others[i] == items[i + 1];
        }
      }
    }
  }

  lemma NamesAre(info: Info, a: Abstract)
    requires Represents(info, a)
    ensures |a.entries| == |info.items|
  {
    NamesCount(info.items);
    assert a.entries.Keys == set i | 0 <= i < |info.items| :: info.items[i].header.name;
    assert |a.entries| == |a.entries.Keys|;
  }

  /** What any number of calls leaves in the property, byte by byte: the byte order, the number of calls, the number of
      names, and somewhere each name with the value set last and the number of its writes. */
  lemma RunIsLaidOut(calls: seq<seq<Setting>>, prop: bytes)
    requires StaysReadable(calls) && calls != [] && Run(calls).Some?
    ensures AbstractRun(calls).Some?
    ensures var data, entries := Run(calls).value, AbstractRun(calls).value.entries;
            && |data| >= 12 && data[0] == 0 && Holds4(data, 4, |calls|) && Holds4(data, 8, |entries|)
            && (prop in entries ==>
                  exists p: nat :: 12 <= p && StandsAt(data, p, prop, entries[prop].value, entries[prop].writes))
  {
    hide IsItem, IsEntry, Holds4, WellFormedItem, StandsAt;
    var info, a := LastInfo(calls);
    var data := Run(calls).value;
    RunCountsCalls(calls);
    EncodeIsLaidOut(info);
    Cut32(data, 4, |calls|);
    NamesAre(info, a);
    if prop in a.entries {
      var i :| 0 <= i < |info.items| && info.items[i].header.name == prop;
      var p := ItemIsThere(info.items, data, 12, i);
      EntryStands(info.items[i], a.entries[prop], data, p);
    }
  }

  // ---- Beyond the limit ----

  predicate FitsOrZero(v: Value, n: nat) {
    v.StringValue? ==> |v.str| <= n || forall k | 0 <= k < |v.str| :: v.str[k] == 0
  }

  lemma DecodedHeaderFits(data: bytes)
    ensures |DecodeHeader(data).1| <= |data|
  {
    hide GetU16, GetU32, Pad;
  }

  lemma DecodedValueFits(sType: uint8, data: bytes)
    ensures FitsOrZero(DecodeValue(sType, data).0, |data|) && |DecodeValue(sType, data).1| <= |data|
  {
    hide GetU16, GetU32, GetI32, Pad;
  }

  lemma DecodedItemFits(data: bytes)
    ensures FitsOrZero(DecodeItem(data).0.value, |data|) && |DecodeItem(data).1| <= |data|
  {
    hide DecodeHeader, DecodeValue;
    DecodedHeaderFits(data);
    DecodedValueFits(DecodeHeader(data).0.sType, DecodeHeader(data).1);
  }

  lemma {:induction false} DecodedItemsFit(data: bytes, n: nat)
    ensures forall i | 0 <= i < |DecodeItems(data, n).0| :: FitsOrZero(DecodeItems(data, n).0[i].value, |data|)
    decreases n
  {
    hide DecodeItem;
    if n > 0 {
      DecodedItemFits(data);
      DecodedItemsFit(DecodeItem(data).1, n - 1);
      var items, others := DecodeItems(data, n).0, DecodeItems(DecodeItem(data).1, n - 1).0;
      assert items == [DecodeItem(data).0] + others;
      forall i | 0 <= i < |items| ensures FitsOrZero(items[i].value, |data|) {
        assert i > 0 ==> items[i] == others[i - 1];
      }
    }
  }

  /** A string longer than what one GetProperty returns does not survive the next update. */
  lemma TooLongIsLost(info: Info, i: nat, k: nat)
    requires i < |info.items| && info.items[i].value.StringValue?
    requires |info.items[i].value.str| > READ_LIMIT
    requires k < |info.items[i].value.str| && info.items[i].value.str[k] != 0
    ensures Decode(Readable(Encode(info))) != info
  {
    var data := Readable(Encode(info));
    if Decode(data) == info {
      assert !FitsOrZero(info.items[i].value, |data|);
      if data != [] {
        var (order, d1) := Take(data, 1);
        var (_, d2) := Take(d1, 3);
        var (serial, d3) := Take(d2, 4);
        var (count, d4) := Take(d3, 4);
        assert |d4| <= |data|;
        DecodedItemsFit(d4, GetU32(count));
      }
      assert false;
    }
  }

  /** Exactly when the next call finds the store as this one left it: within the limit always, beyond it
      only if there is nothing but zeros from the first field on that was cut. */
  lemma ReadsBackIff(info: Info)
    requires WellFormed(info)
    ensures Decode(Readable(Encode(info))) == info <==>
              || |Encode(info)| <= READ_LIMIT
              || ZeroFrom(Encode(info), WholeFields(InfoFields(info), READ_LIMIT))
  {
    CutReadsBackIff(info, READ_LIMIT);
    assert Readable(Encode(info)) == Cut(Encode(info), READ_LIMIT);
    if |Encode(info)| <= READ_LIMIT {
      RoundTrip(info);
    }
  }

  const LETTER_A: bytes := [97]
  const LETTER_B: bytes := [98]

  function Pair(str: bytes, v: int32): seq<Setting> {
    [Setting(TYPE_STRING, LETTER_A, Str(str)), Setting(TYPE_INTEGER, LETTER_B, Int(v))]
  }

  function PairInfo(str: bytes, v: int32): Info
    requires |str| == 40920
  {
    Info(0, 1, 2, [Item(Header(TYPE_STRING, 1, LETTER_A, 1), StringValue(40920, str)),
                   Item(Header(TYPE_INTEGER, 1, LETTER_B, 1), IntegerValue(v))])
  }

  lemma PairIsSet(str: bytes, v: int32)
    requires |str| == 40920
    ensures NextInfo([], Pair(str, v)) == Some(PairInfo(str, v)) && WellFormed(PairInfo(str, v))
  {
    var calls, info := Pair(str, v), PairInfo(str, v);
    var empty := Info(0, 1, 0, []);
    var one := Info(0, 1, 1, [info.items[0]]);
    assert NewItem(calls[0]) == info.items[0] && [] + [info.items[0]] == one.items;
    assert !Has(one.items, LETTER_B) by {
      assert LETTER_A[0] != LETTER_B[0];
    }
    assert NewItem(calls[1]) == info.items[1] && one.items + [info.items[1]] == info.items;
    assert Updated(empty, calls[0]) == Some(one);
    assert Updated(one, calls[1]) == Some(info);
    assert calls[1..] == [calls[1]] && [calls[1]][1..] == [];
    assert AllUpdated(one, [calls[1]]) == Some(info);
  }

  lemma PairIsLong(str: bytes, v: int32)
    requires |str| == 40920
    ensures |EncodeHeader(Header(TYPE_INTEGER, 1, LETTER_B, 1))| == 12
    ensures |EncodeItem(PairInfo(str, v).items[0])| == 40936
    ensures |Encode(PairInfo(str, v))| == READ_LIMIT + 4
  {
    var items := PairInfo(str, v).items;
    PadAligns(40920);
    assert items == [items[0]] + [items[1]];
    assert [items[1]][1..] == [];
    assert EncodeItems([items[1]]) == EncodeItem(items[1]) + EncodeItems([]);
    assert items[1..] == [items[1]];
    assert EncodeItems(items) == EncodeItem(items[0]) + EncodeItems([items[1]]);
  }

  lemma NumberSurvivesIff(v: int32)
    ensures Survives(ValueFields(IntegerValue(v)), 0) <==> v == 0
  {
    OneSurvives(PutI32(v), 0);
    SeenI32(v, 0);
  }

  lemma PairSurvivesIff(str: bytes, v: int32)
    requires |str| == 40920
    ensures Survives(ItemsFields(PairInfo(str, v).items), READ_LIMIT - 12) <==> v == 0
  {
    hide EncodeHeader, EncodeValue, HeaderFields, ValueFields;
    var items := PairInfo(str, v).items;
    PairIsLong(str, v);
    ItemIsItsFields(items[0]);
    WholeSurvives(ItemFields(items[0]), READ_LIMIT - 12);
    HeaderIsItsFields(items[1].header);
    WholeSurvives(HeaderFields(items[1].header), 12);
    SurvivesAppend(HeaderFields(items[1].header), ValueFields(items[1].value), 12);
    NumberSurvivesIff(v);
    assert items[1..] == [items[1]] && [items[1]][1..] == [];
    assert ItemsFields([items[1]]) == ItemFields(items[1]) + [] == ItemFields(items[1]);
    SurvivesAppend(ItemFields(items[0]), ItemFields(items[1]), READ_LIMIT - 12);
  }

  /** One call that sets a string of 40920 bytes and a number: the number lies just beyond the limit, and
      the next call finds it again exactly when it is zero. */
  lemma NumberBeyondTheLimit(str: bytes, v: int32)
    requires |str| == 40920
    ensures NextInfo([], Pair(str, v)).Some?
    ensures var info := NextInfo([], Pair(str, v)).value;
            && WellFormed(info) && |Encode(info)| == READ_LIMIT + 4
            && (Decode(Readable(Encode(info))) == info <==> v == 0)
  {
    var info := PairInfo(str, v);
    PairIsSet(str, v);
    PairIsLong(str, v);
    CutReadsBackIff(info, READ_LIMIT);
    assert Readable(Encode(info)) == Cut(Encode(info), READ_LIMIT);
    StoreSurvives(info, READ_LIMIT);
    PairSurvivesIff(str, v);
  }
}
