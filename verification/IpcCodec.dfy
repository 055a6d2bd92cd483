/** The simulator's IPC codec: Python values as JSON, with type tags and an escape for
    dictionaries that would look like a tag or whose keys JSON would coerce. */
module IpcCodec {
  import opened Basics

  const TYPE_KEY := "__xian_ipc_type__"

  datatype ScalarKind = ContractingDecimal | Decimal | Datetime | RawBytes

  datatype CollectionKind = DecimalTuple | ContractingFrozenSet | ContractingSet | FrozenSet | PySet | PyTuple

  /** Values JSON carries as they are. */
  datatype Plain = Null | Bool(b: bool) | Int(i: int) | Float(r: real)

  /** A Python value.  Sets list their elements in iteration order, dictionaries their
      entries in insertion order. */
  datatype Value<P> =
    | Plainly(plain: Plain)
    | Text(text: string)
    | Scalar(kind: ScalarKind, payload: P)
    | Collection(shape: CollectionKind, items: seq<Value<P>>)
    | List(items: seq<Value<P>>)
    | Dict(entries: seq<Entry<P>>)

  datatype Entry<P> = Entry(key: Value<P>, item: Value<P>)

  datatype Json = JPlain(plain: Plain) | JText(text: string) | JList(items: seq<Json>) | JObject(members: seq<Member>)

  datatype Member = Member(name: string, item: Json)

  /** How tagged scalars are written as text and read back. */
  datatype Texts<!P> = Texts(show: (ScalarKind, P) -> string, read: (ScalarKind, string) -> P)

  ghost predicate Faithful<P(!new)>(t: Texts<P>) {
    forall k, p :: t.read(k, t.show(k, p)) == p
  }

  function ScalarTag(k: ScalarKind): string {
    match k
    case ContractingDecimal => "contracting_decimal"
    case Decimal => "decimal"
    case Datetime => "datetime"
    case RawBytes => "bytes"
  }

  function CollectionTag(k: CollectionKind): string {
    match k
    case DecimalTuple => "decimal_tuple"
    case ContractingFrozenSet => "contracting_frozenset"
    case ContractingSet => "contracting_set"
    case FrozenSet => "frozenset"
    case PySet => "set"
    case PyTuple => "tuple"
  }

  function ScalarOf(tag: string): Option<ScalarKind> {
    if tag == "contracting_decimal" then Some(ContractingDecimal)
    else if tag == "decimal" then Some(Decimal)
    else if tag == "datetime" then Some(Datetime)
    else if tag == "bytes" then Some(RawBytes)
    else None
  }

  function CollectionOf(tag: string): Option<CollectionKind> {
    if tag == "decimal_tuple" then Some(DecimalTuple)
    else if tag == "contracting_frozenset" then Some(ContractingFrozenSet)
    else if tag == "contracting_set" then Some(ContractingSet)
    else if tag == "frozenset" then Some(FrozenSet)
    else if tag == "set" then Some(PySet)
    else if tag == "tuple" then Some(PyTuple)
    else None
  }

  // ---------------------------------------------------------------------------- encoding

  function Tagged(tag: string, field: string, content: Json): Json {
    JObject([Member(TYPE_KEY, JText(tag)), Member(field, content)])
  }

  /** Every key is a string and none is the tag key. */
  predicate Ordinary<P>(entries: seq<Entry<P>>) {
    forall i :: 0 <= i < |entries| ==> entries[i].key.Text? && entries[i].key.text != TYPE_KEY
  }

  function Encode<P>(t: Texts<P>, v: Value<P>): Json
    decreases v, 1
  {
    match v
    case Plainly(p) => JPlain(p)
    case Text(s) => JText(s)
    case Scalar(k, p) => Tagged(ScalarTag(k), "value", JText(t.show(k, p)))
    case Collection(k, items) => Tagged(CollectionTag(k), "items", JList(EncodeAll(t, items)))
    case List(items) => JList(EncodeAll(t, items))
    case Dict(entries) =>
      if Ordinary(entries) then JObject(EncodeMembers(t, entries))
      else Tagged("dict", "items", JList(EncodePairs(t, entries)))
  }

  function EncodeAll<P>(t: Texts<P>, items: seq<Value<P>>): seq<Json>
    decreases items, 0
  {
    if items == [] then [] else [Encode(t, items[0])] + EncodeAll(t, items[1..])
  }

  function EncodeMembers<P>(t: Texts<P>, entries: seq<Entry<P>>): seq<Member>
    requires Ordinary(entries)
    decreases entries, 0
  {
    if entries == [] then [] else
      var e: Entry<P> := entries[0];
      assert e.item < e;
      [Member(e.key.text, Encode(t, e.item))] + EncodeMembers(t, entries[1..])
  }

  function EncodePairs<P>(t: Texts<P>, entries: seq<Entry<P>>): seq<Json>
    decreases entries, 0
  {
    if entries == [] then [] else
      var e: Entry<P> := entries[0];
      assert e.key < e && e.item < e;
      [JList([Encode(t, e.key), Encode(t, e.item)])] + EncodePairs(t, entries[1..])
  }

  // ---------------------------------------------------------------------------- decoding

  /** The object's tag, if it has one that is a string. */
  function TagOf(members: seq<Member>): Option<string> {
    if members == [] then None
    else if members[0].name == TYPE_KEY then (if members[0].item.JText? then Some(members[0].item.text) else None)
    else TagOf(members[1..])
  }

  function Field(members: seq<Member>, name: string): (r: Option<Json>)
    ensures r.Some? ==> exists i :: 0 <= i < |members| && members[i] == Member(name, r.value)
  {
    if members == [] then None
    else if members[0].name == name then Some(members[0].item)
    else Field(members[1..], name)
  }

  predicate OnlyFields(members: seq<Member>, a: string, b: string) {
    (set m | m in members :: m.name) == {a, b}
  }

  /** `None` when decoding raises. */
  function Decode<P>(t: Texts<P>, j: Json): Option<Value<P>>
    decreases j, 1
  {
    match j
    case JPlain(p) => Some(Plainly(p))
    case JText(s) => Some(Text(s))
    case JList(items) =>
      var decoded := DecodeAll(t, items);
      if decoded.None? then None else Some(List(decoded.value))
    case JObject(members) =>
      var tag := TagOf(members);
      var value, items := Field(members, "value"), Field(members, "items");
      if tag.Some? && ScalarOf(tag.value).Some? && OnlyFields(members, TYPE_KEY, "value") && value.Some? then
        (var kind := ScalarOf(tag.value).value;
         if value.value.JText? then Some(Scalar(kind, t.read(kind, value.value.text))) else None)
      else if tag.Some? && CollectionOf(tag.value).Some? && OnlyFields(members, TYPE_KEY, "items") && items.Some? then
        (if !items.value.JList? then None else
           var decoded := DecodeAll(t, items.value.items);
           if decoded.None? then None else Some(Collection(CollectionOf(tag.value).value, decoded.value)))
      else if tag == Some("dict") && OnlyFields(members, TYPE_KEY, "items") && items.Some? then
        (if !items.value.JList? then None else
           var decoded := DecodePairs(t, items.value.items);
           if decoded.None? then None else Some(Dict(decoded.value)))
      else
        var decoded := DecodeMembers(t, members);
        if decoded.None? then None else Some(Dict(decoded.value))
  }

  function DecodeAll<P>(t: Texts<P>, items: seq<Json>): Option<seq<Value<P>>>
    decreases items, 0
  {
    if items == [] then Some([]) else
      var first, rest := Decode(t, items[0]), DecodeAll(t, items[1..]);
      if first.None? || rest.None? then None else Some([first.value] + rest.value)
  }

  function DecodeMembers<P>(t: Texts<P>, members: seq<Member>): Option<seq<Entry<P>>>
    decreases members, 0
  {
    if members == [] then Some([]) else
      var first, rest := Decode(t, members[0].item), DecodeMembers(t, members[1..]);
      if first.None? || rest.None? then None else Some([Entry(Text(members[0].name), first.value)] + rest.value)
  }

  /** Each entry is a list of a key and a value; anything else does not build a dictionary. */
  function DecodePairs<P>(t: Texts<P>, items: seq<Json>): Option<seq<Entry<P>>>
    decreases items, 0
  {
    if items == [] then Some([])
    else if !items[0].JList? || |items[0].items| != 2 then None
    else
      var pair := items[0].items;
      var key, value, rest := Decode(t, pair[0]), Decode(t, pair[1]), DecodePairs(t, items[1..]);
      if key.None? || value.None? || rest.None? then None else Some([Entry(key.value, value.value)] + rest.value)
  }

  // -------------------------------------------------------------------------- round trip

  lemma {:induction false} TagsReadBack()
    ensures forall k :: ScalarOf(ScalarTag(k)) == Some(k)
    ensures forall k :: CollectionOf(CollectionTag(k)) == Some(k) && ScalarOf(CollectionTag(k)).None?
    ensures ScalarOf("dict").None? && CollectionOf("dict").None?
  {
    forall k: ScalarKind ensures ScalarOf(ScalarTag(k)) == Some(k) {
      match k {
        case ContractingDecimal =>
        case Decimal =>
        case Datetime =>
        case RawBytes =>
      }
    }
    forall k: CollectionKind ensures CollectionOf(CollectionTag(k)) == Some(k) && ScalarOf(CollectionTag(k)).None? {
      assert "tuple"[0] != "bytes"[0];
      match k {
        case DecimalTuple =>
        case ContractingFrozenSet =>
        case ContractingSet =>
        case FrozenSet =>
        case PySet =>
        case PyTuple =>
      }
    }
  }

  lemma {:induction false} TaggedReadsBack(tag: string, field: string, content: Json)
    requires field != TYPE_KEY
    ensures
      var members := Tagged(tag, field, content).members;
      && TagOf(members) == Some(tag)
      && Field(members, field) == Some(content)
      && OnlyFields(members, TYPE_KEY, field)
  {
    var members := Tagged(tag, field, content).members;
    assert members[0] in members && members[1] in members;
    assert members[1..][0] == Member(field, content);
  }

  lemma {:induction false} DecodeScalar<P>(t: Texts<P>, k: ScalarKind, text: string)
    ensures Decode(t, Tagged(ScalarTag(k), "value", JText(text))) == Some(Scalar(k, t.read(k, text)))
  {
    TagsReadBack();
    TaggedReadsBack(ScalarTag(k), "value", JText(text));
  }

  lemma {:induction false} DecodeCollection<P>(t: Texts<P>, k: CollectionKind, items: seq<Json>)
    requires DecodeAll(t, items).Some?
    ensures Decode(t, Tagged(CollectionTag(k), "items", JList(items))) == Some(Collection(k, DecodeAll(t, items).value))
  {
    TagsReadBack();
    TaggedReadsBack(CollectionTag(k), "items", JList(items));
  }

  lemma {:induction false} DecodeDict<P>(t: Texts<P>, items: seq<Json>)
    requires DecodePairs(t, items).Some?
    ensures Decode(t, Tagged("dict", "items", JList(items))) == Some(Dict(DecodePairs(t, items).value))
  {
    TagsReadBack();
    TaggedReadsBack("dict", "items", JList(items));
  }

  /** Decoding gives back every value, whatever it nests: tagged scalars, tuples, sets,
      dictionaries with any keys, dictionaries shaped like a tag. */
  lemma {:induction false} RoundTrip<P(!new)>(t: Texts<P>, v: Value<P>)
    requires Faithful(t)
    ensures Decode(t, Encode(t, v)) == Some(v)
    decreases v, 1
  {
    match v
    case Plainly(_) =>
    case Text(_) =>
    case Scalar(k, p) => DecodeScalar(t, k, t.show(k, p));
    case Collection(k, items) =>
      RoundTripAll(t, items);
      DecodeCollection(t, k, EncodeAll(t, items));
    case List(items) => RoundTripAll(t, items);
    case Dict(entries) =>
      if Ordinary(entries) {
        RoundTripMembers(t, entries);
      } else {
        RoundTripPairs(t, entries);
        DecodeDict(t, EncodePairs(t, entries));
      }
  }

  lemma {:induction false} RoundTripAll<P(!new)>(t: Texts<P>, items: seq<Value<P>>)
    requires Faithful(t)
    ensures DecodeAll(t, EncodeAll(t, items)) == Some(items)
    decreases items, 0
  {
    if items != [] {
      RoundTrip(t, items[0]);
      RoundTripAll(t, items[1..]);
      assert EncodeAll(t, items)[1..] == EncodeAll(t, items[1..]) && items == [items[0]] + items[1..];
    }
  }

  lemma {:induction false} RoundTripMembers<P(!new)>(t: Texts<P>, entries: seq<Entry<P>>)
    requires Faithful(t) && Ordinary(entries)
    ensures DecodeMembers(t, EncodeMembers(t, entries)) == Some(entries)
    ensures TagOf(EncodeMembers(t, entries)).None?
    decreases entries, 0
  {
    if entries != [] {
      var e: Entry<P> := entries[0];
      assert e.item < e;
      RoundTrip(t, e.item);
      RoundTripMembers(t, entries[1..]);
      assert EncodeMembers(t, entries)[1..] == EncodeMembers(t, entries[1..]) && entries == [e] + entries[1..];
    }
  }

  lemma {:induction false} RoundTripPairs<P(!new)>(t: Texts<P>, entries: seq<Entry<P>>)
    requires Faithful(t)
    ensures DecodePairs(t, EncodePairs(t, entries)) == Some(entries)
    decreases entries, 0
  {
    if entries != [] {
      var e: Entry<P> := entries[0];
      assert e.key < e && e.item < e;
      RoundTrip(t, e.key);
      RoundTrip(t, e.item);
      RoundTripPairs(t, entries[1..]);
      assert EncodePairs(t, entries)[1..] == EncodePairs(t, entries[1..]) && entries == [e] + entries[1..];
    }
  }

  /** What a worker envelope looks like on the wire: a dictionary whose keys are strings
      other than the marker becomes an object with the same keys in the same order, each
      with the encoding of its own item; any other dictionary becomes a `dict` tag, and no
      dictionary of the first kind reads as a tag. */
  lemma {:induction false} EnvelopesPreserved<P(!new)>(t: Texts<P>, entries: seq<Entry<P>>)
    requires Faithful(t)
    ensures
      var j := Encode(t, Dict(entries));
      var plain :=
        forall i :: 0 <= i < |entries| ==> entries[i].key.Text? && entries[i].key.text != "__xian_ipc_type__";
      && j.JObject?
      && (plain <==> TagOf(j.members).None?)
      && (plain ==> |j.members| == |entries|)
      && (plain ==>
           forall i :: 0 <= i < |entries| ==> j.members[i] == Member(entries[i].key.text, Encode(t, entries[i].item)))
      && (!plain ==> |j.members| == 2 && j.members[0] == Member("__xian_ipc_type__", JText("dict")))
  {
    if Ordinary(entries) {
      RoundTripMembers(t, entries);
      forall i | 0 <= i < |entries|
        ensures |EncodeMembers(t, entries)| == |entries|
        ensures EncodeMembers(t, entries)[i] == Member(entries[i].key.text, Encode(t, entries[i].item))
      {
        MemberAt(t, entries, i);
      }
    } else {
      TaggedReadsBack("dict", "items", JList(EncodePairs(t, entries)));
    }
  }

  lemma {:induction false} MemberAt<P>(t: Texts<P>, entries: seq<Entry<P>>, i: nat)
    requires Ordinary(entries) && i < |entries|
    ensures |EncodeMembers(t, entries)| == |entries|
    ensures EncodeMembers(t, entries)[i] == Member(entries[i].key.text, Encode(t, entries[i].item))
  {
    if |entries| > 1 {
      MemberAt(t, entries[1..], if i > 0 then i - 1 else 0);
    }
  }

  /** Different values never share an encoding. */
  lemma {:induction false} EncodeInjective<P(!new)>(t: Texts<P>, v: Value<P>, w: Value<P>)
    requires Faithful(t) && Encode(t, v) == Encode(t, w)
    ensures v == w
  {
    RoundTrip(t, v);
    RoundTrip(t, w);
  }
}
