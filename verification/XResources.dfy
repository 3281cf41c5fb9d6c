/** X resources as text: lines of a key, a colon, a tab and a value (xsettings_xresource.go). */
module XResources {
  import opened Text

  datatype Resource = Resource(key: string, value: string)

  const SEPARATOR: string := ":\t"

  function Line(r: Resource): string { r.key + SEPARATOR + r.value }

  function Marshal(infos: seq<Resource>): string {
    if infos == [] then "" else Line(infos[0]) + "\n" + Marshal(infos[1..])
  }

  function FromLine(line: string): seq<Resource> {
    var parts := Split(line, SEPARATOR);
    if line == "" || |parts| != 2 then [] else [Resource(parts[0], parts[1])]
  }

  function FromLines(lines: seq<string>): seq<Resource> {
    if lines == [] then [] else FromLine(lines[0]) + FromLines(lines[1..])
  }

  function Unmarshal(data: string): seq<Resource> { FromLines(Split(data, "\n")) }

  method MarshalXResources(infos: seq<Resource>) returns (data: string)
    ensures data == Marshal(infos)
  {
    data := "";
    for i := 0 to |infos|
      invariant data + Marshal(infos[i..]) == Marshal(infos)
    {
      data := data + infos[i].key + ":\t" + infos[i].value + "\n";
      assert infos[i..][1..] == infos[i + 1..];
    }
  }

  lemma OneMoreLine(infos: seq<Resource>, lines: seq<string>)
    requires lines != []
    ensures infos + FromLines(lines) == infos + FromLine(lines[0]) + FromLines(lines[1..])
  {
  }

  method UnmarshalXResources(data: string) returns (infos: seq<Resource>)
    ensures infos == Unmarshal(data)
  {
    var lines := Split(data, "\n");
    infos := [];
    for i := 0 to |lines|
      invariant infos + FromLines(lines[i..]) == FromLines(lines)
    {
      var line := lines[i];
      assert lines[i..][1..] == lines[i + 1..];
      ghost var before := infos;
      if |line| != 0 {
        var fields := Split(line, ":\t");
        if |fields| == 2 {
          infos := infos + [Resource(fields[0], fields[1])];
        }
      }
      assert infos == before + FromLine(line);
      OneMoreLine(before, lines[i..]);
    }
  }

  // ---- Round trip ----

  predicate CleanText(s: string) { '\n' !in s && Without(s, SEPARATOR) }

  predicate Clean(r: Resource) { CleanText(r.key) && CleanText(r.value) }

  lemma LineRoundTrip(r: Resource)
    requires Clean(r)
    ensures FromLine(Line(r)) == [r]
  {
    forall i | 0 <= i < |r.key| ensures !StartsWith(Line(r)[i..], SEPARATOR) {
      var tail := Line(r)[i..];
      assert tail[0] == r.key[i];
      if i + 1 < |r.key| {
        assert tail[1] == r.key[i + 1];
        assert !StartsWith(r.key[i..], SEPARATOR);
        assert r.key[i..][0] == r.key[i] && r.key[i..][1] == r.key[i + 1];
      } else {
        assert tail[1] == ':';
      }
    }
    SplitFirst(Line(r), r.key, SEPARATOR, r.value);
    SplitWithout(r.value, SEPARATOR);
  }

  lemma {:induction false} CleanRoundTrip(infos: seq<Resource>)
    requires forall i | 0 <= i < |infos| :: Clean(infos[i])
    ensures Unmarshal(Marshal(infos)) == infos
  {
    if infos == [] {
      WithoutChar("", '\n');
      SplitWithout("", "\n");
      assert FromLines([""]) == FromLine("") + FromLines([]);
    } else {
      var line, rest := Line(infos[0]), Marshal(infos[1..]);
      assert '\n' !in line;
      SplitFirstChar(line, '\n', rest);
      CleanRoundTrip(infos[1..]);
      LineRoundTrip(infos[0]);
      assert ([line] + Split(rest, "\n"))[1..] == Split(rest, "\n");
      assert [infos[0]] + infos[1..] == infos;
    }
  }

  lemma {:induction false} PiecesKeepOut(s: string, sep: string, c: char)
    requires sep != "" && c !in s
    ensures forall p | p in Split(s, sep) :: c !in p
    decreases |s|
  {
    var i := Index(s, sep);
    if i != -1 {
      PiecesKeepOut(s[i + |sep|..], sep, c);
    }
  }

  lemma ReadLineIsClean(line: string)
    requires '\n' !in line
    ensures forall i | 0 <= i < |FromLine(line)| :: Clean(FromLine(line)[i])
  {
    PiecesAreWithout(line, SEPARATOR);
    PiecesKeepOut(line, SEPARATOR, '\n');
  }

  lemma {:induction false} ReadLinesAreClean(lines: seq<string>)
    requires forall l | l in lines :: '\n' !in l
    ensures forall i | 0 <= i < |FromLines(lines)| :: Clean(FromLines(lines)[i])
  {
    if lines != [] {
      ReadLineIsClean(lines[0]);
      ReadLinesAreClean(lines[1..]);
      var first, others := FromLine(lines[0]), FromLines(lines[1..]);
      forall i | 0 <= i < |first + others| ensures Clean((first + others)[i]) {
        assert i >= |first| ==> (first + others)[i] == others[i - |first|];
      }
    }
  }

  lemma ReadIsClean(data: string)
    ensures forall i | 0 <= i < |Unmarshal(data)| :: Clean(Unmarshal(data)[i])
  {
    PiecesAreWithout(data, "\n");
    forall l | l in Split(data, "\n") ensures '\n' !in l {
      WithoutChar(l, '\n');
    }
    ReadLinesAreClean(Split(data, "\n"));
  }

  /** A list survives being written and read back exactly when no key and no value contains a line
      break or a colon followed by a tab. */
  lemma RoundTripIff(infos: seq<Resource>)
    ensures Unmarshal(Marshal(infos)) == infos <==> forall i | 0 <= i < |infos| :: Clean(infos[i])
  {
    ReadIsClean(Marshal(infos));
    if forall i | 0 <= i < |infos| :: Clean(infos[i]) {
      CleanRoundTrip(infos);
    }
  }

  // ---- Updating one property ----

  /** An entry as the program holds it: shared by reference and changed in place. */
  class ResourceInfo {
    const key: string
    var value: string

    constructor (key: string, value: string)
      ensures this.key == key && this.value == value
    {
      this.key := key;
      this.value := value;
    }
  }

  ghost function View(infos: seq<ResourceInfo>): (r: seq<Resource>)
    reads infos
    ensures |r| == |infos| && forall i | 0 <= i < |infos| :: r[i] == Resource(infos[i].key, infos[i].value)
  {
    if infos == [] then [] else [Resource(infos[0].key, infos[0].value)] + View(infos[1..])
  }

  /** The first entry with the key gets the value; without one, a new entry is appended. */
  function Updated(infos: seq<Resource>, key: string, value: string): seq<Resource> {
    if infos == [] then [Resource(key, value)]
    else if infos[0].key == key then [infos[0].(value := value)] + infos[1..]
    else [infos[0]] + Updated(infos[1..], key, value)
  }

  function Lookup(infos: seq<Resource>, key: string): (r: seq<string>)
    ensures |r| <= 1
  {
    if infos == [] then [] else if infos[0].key == key then [infos[0].value] else Lookup(infos[1..], key)
  }

  method Get(infos: seq<ResourceInfo>, key: string) returns (info: ResourceInfo?, ghost at: nat)
    ensures info == null ==> forall i | 0 <= i < |infos| :: infos[i].key != key
    ensures info != null ==>
      && at < |infos| && infos[at] == info && info.key == key && forall i | 0 <= i < at :: infos[i].key != key
  {
    for i := 0 to |infos|
      invariant forall j | 0 <= j < i :: infos[j].key != key
    {
      if infos[i].key == key {
        return infos[i], i;
      }
    }
    return null, 0;
  }

  lemma {:induction false} UpdatedAppends(infos: seq<Resource>, key: string, value: string)
    requires forall i | 0 <= i < |infos| :: infos[i].key != key
    ensures Updated(infos, key, value) == infos + [Resource(key, value)]
  {
    if infos != [] {
      UpdatedAppends(infos[1..], key, value);
    }
  }

  lemma {:induction false} UpdatedReplaces(infos: seq<Resource>, key: string, value: string, at: nat)
    requires at < |infos| && infos[at].key == key && forall i | 0 <= i < at :: infos[i].key != key
    ensures Updated(infos, key, value) == infos[at := Resource(key, value)]
  {
    if at > 0 {
      UpdatedReplaces(infos[1..], key, value, at - 1);
    }
  }

  method UpdateProperty(infos: seq<ResourceInfo>, key: string, value: string) returns (infos': seq<ResourceInfo>)
    requires forall i, j | 0 <= i < j < |infos| :: infos[i] != infos[j]
    modifies infos
    ensures View(infos') == Updated(old(View(infos)), key, value)
    ensures infos <= infos' && forall i | |infos| <= i < |infos'| :: fresh(infos'[i])
  {
    ghost var before := View(infos);
    var info; ghost var at;
    info, at := Get(infos, key);
    if info == null {
      UpdatedAppends(before, key, value);
      var added := new ResourceInfo(key, value);
      infos' := infos + [added];
      assert View(infos') == before + [Resource(key, value)];
      return;
    }
    UpdatedReplaces(before, key, value, at);
    info.value := value;
    infos' := infos;
    assert View(infos') == before[at := Resource(key, value)];
  }

  lemma {:induction false} UpdatedLookup(infos: seq<Resource>, key: string, value: string, other: string)
    requires forall i | 0 <= i < |infos| :: Clean(infos[i])
    requires CleanText(key) && CleanText(value)
    ensures Lookup(Updated(infos, key, value), other) == if other == key then [value] else Lookup(infos, other)
    ensures forall i | 0 <= i < |Updated(infos, key, value)| :: Clean(Updated(infos, key, value)[i])
  {
    if infos != [] && infos[0].key != key {
      UpdatedLookup(infos[1..], key, value, other);
    }
  }

  /** An update between reading and writing reaches the stored text: afterwards the key has the new
      value and every other key what it had. */
  lemma UpdateReachesText(infos: seq<Resource>, key: string, value: string, other: string)
    requires forall i | 0 <= i < |infos| :: Clean(infos[i])
    requires CleanText(key) && CleanText(value)
    ensures var stored := Unmarshal(Marshal(Updated(infos, key, value)));
            Lookup(stored, other) == if other == key then [value] else Lookup(infos, other)
  {
    UpdatedLookup(infos, key, value, other);
    CleanRoundTrip(Updated(infos, key, value));
  }
}
