/** Documents written as BSON 1.1 and read back by the simplified reader. */
module BsonRoundTrip {
  import opened Framing
  import opened Effects
  import opened Endian
  import opened Bson

  datatype Element = Element(key: Bytes, value: Typed)

  datatype Typed =
    | TString(text: Bytes)
    | TDocument(isArray: bool, elements: seq<Element>)
    | TInt32(number: int)
    | TInt64(wide: Endian.Int64)
    | TBoolean(byte: Byte)
    | TNull
    | TDouble(bits: Bytes)
    | TObjectId(id: Bytes)

  // ----- what is written -----

  function Kind(value: Typed): Byte {
    match value
    case TString(_) => 0x02
    case TDocument(isArray, _) => if isArray then 0x04 else 0x03
    case TInt32(_) => 0x10
    case TInt64(_) => 0x12
    case TBoolean(_) => 0x08
    case TNull => 0x0A
    case TDouble(_) => 0x01
    case TObjectId(_) => 0x07
  }

  function Encode(value: Typed): Bytes
    decreases value
  {
    match value
    case TString(text) => PutLe32((|text| + 1) % TWO_TO_32) + text + [0]
    case TDocument(_, elements) => EncodeDocument(elements)
    case TInt32(number) => PutLe32(number % TWO_TO_32)
    case TInt64(wide) => PutLe64(wide)
    case TBoolean(byte) => [byte]
    case TNull => []
    case TDouble(bits) => bits
    case TObjectId(id) => id
  }

  function Head(e: Element): Bytes {
    [Kind(e.value)] + (e.key + [0])
  }

  function EncodeElement(e: Element): Bytes
    decreases e, 0
  {
    Head(e) + Encode(e.value)
  }

  function EncodeElements(elements: seq<Element>): Bytes
    decreases elements, 0
  {
    if elements == [] then []
    else EncodeElement(elements[0]) + EncodeElements(elements[1..])
  }

  function EncodeDocument(elements: seq<Element>): Bytes
    decreases elements, 1
  {
    Wrap(EncodeElements(elements))
  }

  /** A document with the given element bytes. */
  function Wrap(body: Bytes): Bytes {
    PutLe32((|body| + 5) % TWO_TO_32) + body + [0]
  }

  /** Keys are C strings, and the fixed-width values have their width. */
  predicate Valid(elements: seq<Element>)
    decreases elements
  {
    elements == [] ||
    (0 !in elements[0].key && ValidValue(elements[0].value) && Valid(elements[1..]))
  }

  predicate ValidValue(value: Typed)
    decreases value
  {
    match value
    case TDocument(_, elements) => Valid(elements)
    case TInt32(number) => -0x8000_0000 <= number < 0x8000_0000
    case TDouble(bits) => |bits| == 8
    case TObjectId(id) => |id| == 12
    case _ => true
  }

  // ----- what is read back -----

  /** Doubles and object ids are not bound; an int32 is read as unsigned. */
  function Meaning(value: Typed): Option<Value>
    decreases value
  {
    match value
    case TString(text) => Some(Str(text))
    case TDocument(_, elements) => Some(Doc(MapOf(elements, map[])))
    case TInt32(number) => Some(Int(number % TWO_TO_32))
    case TInt64(wide) => Some(Int64(wide))
    case TBoolean(byte) => Some(Bool(byte != 0))
    case TNull => Some(Null)
    case TDouble(_) => None
    case TObjectId(_) => None
  }

  function MapOf(elements: seq<Element>, before: Map): Map
    decreases elements, 1
  {
    if elements == [] then before
    else
      match Meaning(elements[0].value)
      case None => MapOf(elements[1..], before)
      case Some(value) => MapOf(elements[1..], before[elements[0].key := value])
  }

  lemma {:induction false} KeyEndsAtNul(data: Bytes, offset: nat, key: Bytes)
    requires 0 !in key && At(data, offset, key + [0])
    ensures KeyEnd(data, offset) == offset + |key|
    decreases |key|
  {
    assert data[offset] == (key + [0])[0];
    if key != [] {
      assert key + [0] == [key[0]] + (key[1..] + [0]);
      AtSplit(data, offset, [key[0]], key[1..] + [0]);
      KeyEndsAtNul(data, offset + 1, key[1..]);
    }
  }

  lemma {:induction false} ReadString(data: Bytes, offset: nat, text: Bytes)
    requires 0 < offset && |text| + 1 < TWO_TO_32 && At(data, offset, Encode(TString(text)))
    ensures ValueAt(data, STRING, offset) == Bind(offset + |text| + 5, Str(text))
  {
    var n := |text| + 1;
    assert n % TWO_TO_32 == n;
    assert Encode(TString(text)) == PutLe32(n) + (text + [0]);
    AtSplit(data, offset, PutLe32(n), text + [0]);
    AtSplit(data, offset + 4, text, [0]);
    Le32RoundTrip(n);
  }

  lemma ReadPlain(data: Bytes, offset: nat, value: Typed)
    requires 0 < offset && ValidValue(value) && !value.TString? && !value.TDocument?
    requires At(data, offset, Encode(value))
    ensures ValueAt(data, Kind(value), offset) == StepOf(value, offset)
  {
    match value
    case TInt32(number) => Le32RoundTrip(number % TWO_TO_32);
    case TInt64(wide) => Le64RoundTrip(wide);
    case TBoolean(_) => assert data[offset] == Encode(value)[0];
    case _ =>
  }

  function StepOf(value: Typed, offset: nat): Step {
    match Meaning(value)
    case None => Skip(offset + |Encode(value)|)
    case Some(meaning) => Bind(offset + |Encode(value)|, meaning)
  }

  lemma {:induction false} ReadValueBack(data: Bytes, offset: nat, value: Typed)
    requires 0 < offset && ValidValue(value) && At(data, offset, Encode(value)) && |Encode(value)| < TWO_TO_32
    ensures ValueAt(data, Kind(value), offset) == StepOf(value, offset)
    decreases value
  {
    match value
    case TString(text) => ReadString(data, offset, text);
    case TDocument(_, elements) =>
      DecodeEncoded(elements);
      WrapLength(EncodeElements(elements));
      AtSplit(data, offset, Encode(value)[..4], Encode(value)[4..]);
    case _ => ReadPlain(data, offset, value);
  }

  lemma WrapLength(body: Bytes)
    requires |Wrap(body)| < TWO_TO_32
    ensures Le32(Wrap(body)[..4]) == |Wrap(body)| == Le32(Wrap(body))
  {
    Le32RoundTrip(|Wrap(body)|);
    assert (|body| + 5) % TWO_TO_32 == |body| + 5;
    assert Wrap(body)[..4] == PutLe32(|Wrap(body)|);
  }

  /** One step of the reader. */
  lemma ElementsStep(data: Bytes, docLen: nat, offset: nat, e: Element, next: nat, read: Map)
    requires docLen <= |data| && 0 < offset && offset < docLen - 1
    requires ElementAt(data, offset) == (e.key, StepTo(e.value, next))
    ensures Elements(data, docLen, offset, read) == Elements(data, docLen, next, Read(e, read))
  {
  }

  function StepTo(value: Typed, next: nat): Step {
    match Meaning(value)
    case None => Skip(next)
    case Some(meaning) => Bind(next, meaning)
  }

  lemma {:induction false} ElementPassed(data: Bytes, docLen: nat, offset: nat, e: Element, read: Map)
    requires docLen <= |data| < TWO_TO_32 && 0 < offset && 0 !in e.key && ValidValue(e.value)
    requires At(data, offset, EncodeElement(e)) && offset < docLen - 1
    ensures Elements(data, docLen, offset, read) == Elements(data, docLen, offset + |EncodeElement(e)|, Read(e, read))
    decreases e, 1
  {
    ElementReadBack(data, offset, e);
    ElementsStep(data, docLen, offset, e, offset + |EncodeElement(e)|, read);
  }

  /** The reader passes over encoded elements, binding what they mean. */
  lemma {:induction false} ElementsReadBack(data: Bytes, docLen: nat, offset: nat, elements: seq<Element>, read: Map)
    requires docLen <= |data| < TWO_TO_32 && 0 < offset && Valid(elements)
    requires At(data, offset, EncodeElements(elements)) && offset + |EncodeElements(elements)| < docLen
    ensures Elements(data, docLen, offset, read)
         == Elements(data, docLen, offset + |EncodeElements(elements)|, MapOf(elements, read))
    decreases elements, 1
  {
    if elements != [] {
      var e := elements[0];
      AtSplit(data, offset, EncodeElement(e), EncodeElements(elements[1..]));
      ElementPassed(data, docLen, offset, e, read);
      ElementsReadBack(data, docLen, offset + |EncodeElement(e)|, elements[1..], Read(e, read));
    }
  }

  function Read(e: Element, read: Map): Map {
    match Meaning(e.value)
    case None => read
    case Some(value) => read[e.key := value]
  }

  lemma {:induction false} ElementReadBack(data: Bytes, offset: nat, e: Element)
    requires 0 < offset && |data| < TWO_TO_32 && 0 !in e.key && ValidValue(e.value)
    requires At(data, offset, EncodeElement(e))
    ensures offset < |data| && ElementAt(data, offset) == (e.key, StepOf(e.value, offset + |Head(e)|))
    decreases e, 0
  {
    AtSplit(data, offset, Head(e), Encode(e.value));
    ReadValueBack(data, offset + |Head(e)|, e.value);
    HeadReadBack(data, offset, e);
  }

  lemma HeadReadBack(data: Bytes, offset: nat, e: Element)
    requires 0 < offset && 0 !in e.key && At(data, offset, Head(e))
    ensures ElementAt(data, offset) == (e.key, ValueAt(data, Kind(e.value), offset + |Head(e)|))
  {
    HeadLayout(data, offset, e);
    KeyEndsAtNul(data, offset + 1, e.key);
  }

  lemma HeadLayout(data: Bytes, offset: nat, e: Element)
    requires At(data, offset, Head(e))
    ensures data[offset] == Kind(e.value) && At(data, offset + 1, e.key) && At(data, offset + 1, e.key + [0])
  {
    AtSplit(data, offset, [Kind(e.value)], e.key + [0]);
    AtSplit(data, offset + 1, e.key, [0]);
    assert data[offset] == [Kind(e.value)][0];
  }

  /** Decoding an encoded document gives its map. */
  lemma {:induction false} DecodeEncoded(elements: seq<Element>)
    requires Valid(elements) && |EncodeDocument(elements)| < TWO_TO_32
    ensures Decode(EncodeDocument(elements)) == Some(MapOf(elements, map[]))
    decreases elements, 2
  {
    var body := EncodeElements(elements);
    var data := Wrap(body);
    WrapLength(body);
    assert data[4..4 + |body|] == body;
    ElementsReadBack(data, |data|, 4, elements, map[]);
  }

  // ----- which element a key is bound by -----

  predicate Binds(e: Element, key: Bytes) {
    e.key == key && Meaning(e.value).Some?
  }

  ghost predicate NoneBinds(elements: seq<Element>, key: Bytes) {
    forall e :: e in elements ==> !Binds(e, key)
  }

  lemma {:induction false} UnboundKeepsBefore(elements: seq<Element>, before: Map, key: Bytes)
    requires NoneBinds(elements, key)
    ensures var m := MapOf(elements, before);
      if key in before then key in m && m[key] == before[key] else key !in m
    decreases |elements|
  {
    if elements != [] {
      assert !Binds(elements[0], key);
      UnboundKeepsBefore(elements[1..], Read(elements[0], before), key);
    }
  }

  lemma {:induction false} LastBindingFrom(elements: seq<Element>, before: Map, i: nat)
    requires i < |elements| && Meaning(elements[i].value).Some? && NoneBinds(elements[i + 1..], elements[i].key)
    ensures var m := MapOf(elements, before); var key := elements[i].key;
      key in m && m[key] == Meaning(elements[i].value).value
    decreases i
  {
    if i == 0 {
      UnboundKeepsBefore(elements[1..], Read(elements[0], before), elements[0].key);
    } else {
      assert elements[1..][i..] == elements[i + 1..];
      LastBindingFrom(elements[1..], Read(elements[0], before), i - 1);
    }
  }

  /** In a decoded document a key is bound by the last element that has it and whose type is
      bound at all, and it is not bound when there is no such element. */
  lemma LastBindingWins(elements: seq<Element>, key: Bytes)
    requires Valid(elements) && |EncodeDocument(elements)| < TWO_TO_32
    ensures var m := Decode(EncodeDocument(elements));
      && m.Some?
      && (NoneBinds(elements, key) ==> key !in m.value)
      && (forall i :: 0 <= i < |elements| && Binds(elements[i], key) && NoneBinds(elements[i + 1..], key) ==>
            key in m.value && m.value[key] == Meaning(elements[i].value).value)
  {
    DecodeEncoded(elements);
    if NoneBinds(elements, key) { UnboundKeepsBefore(elements, map[], key); }
    forall i | 0 <= i < |elements| && Binds(elements[i], key) && NoneBinds(elements[i + 1..], key)
      ensures key in MapOf(elements, map[]) && MapOf(elements, map[])[key] == Meaning(elements[i].value).value
    {
      LastBindingFrom(elements, map[], i);
    }
  }

  // ----- where the reader and the format part -----

  predicate Supported(kind: Byte) {
    kind in {0x01, 0x02, 0x03, 0x04, 0x07, 0x08, 0x0A, 0x10, 0x12}
  }

  /** An element of any other type ends the map: what follows it is not read. */
  lemma UnsupportedTypeEndsMap(elements: seq<Element>, kind: Byte, key: Bytes, rest: Bytes)
    requires Valid(elements) && !Supported(kind) && 0 !in key
    requires |Wrap(EncodeElements(elements) + ([kind] + (key + [0] + rest)))| < TWO_TO_32
    ensures Decode(Wrap(EncodeElements(elements) + ([kind] + (key + [0] + rest)))) == Some(MapOf(elements, map[]))
  {
    var good, other := EncodeElements(elements), [kind] + (key + [0] + rest);
    var data := Wrap(good + other);
    WrapLength(good + other);
    assert data[4..4 + |good + other|] == good + other;
    AtSplit(data, 4, good, other);
    ElementsReadBack(data, |data|, 4, elements, map[]);
    var offset := 4 + |good|;
    AtSplit(data, offset, [kind], key + [0] + rest);
    AtSplit(data, offset + 1, key + [0], rest);
    KeyEndsAtNul(data, offset + 1, key);
    assert data[offset] == [kind][0];
    assert ElementAt(data, offset).1 == Stop;
  }

  /** Bytes behind a length field that announces all of them, the field included. */
  function Announced(bytes: Bytes): Bytes
    requires |bytes| + 4 < TWO_TO_32
  {
    PutLe32(|bytes| + 4) + bytes
  }

  lemma AnnouncedLayout(bytes: Bytes)
    requires |bytes| + 4 < TWO_TO_32
    ensures var data := Announced(bytes);
      |data| == |bytes| + 4 && Le32(data) == |data| && At(data, 4, bytes)
  {
    Le32RoundTrip(|bytes| + 4);
    var data := Announced(bytes);
    assert Le32(data) == Le32(PutLe32(|bytes| + 4));
    assert data[4..4 + |bytes|] == bytes;
  }

  lemma FirstFour(data: Bytes, offset: nat, all: Bytes, k: nat)
    requires 4 <= k <= |all| && offset + k == |data| && data[offset..] == all[..k]
    ensures data[offset..offset + 4] == all[..4]
  {
    assert data[offset..offset + 4] == data[offset..][..4] == all[..k][..4];
  }

  lemma CutStringStops(data: Bytes, offset: nat, text: Bytes, k: nat)
    requires 0 < offset && offset + k == |data| && |text| + 5 < TWO_TO_32
    requires k < |text| + 5 && data[offset..] == Encode(TString(text))[..k]
    ensures ValueAt(data, 0x02, offset) == Stop
  {
    if k >= 4 {
      Le32RoundTrip(|text| + 1);
      assert Encode(TString(text))[..4] == PutLe32(|text| + 1);
      FirstFour(data, offset, Encode(TString(text)), k);
    }
  }

  lemma CutNestedStops(data: Bytes, offset: nat, kind: Byte, elements: seq<Element>, k: nat)
    requires 0 < offset && offset + k == |data| && (kind == 0x03 || kind == 0x04)
    requires k < |EncodeDocument(elements)| < TWO_TO_32 && data[offset..] == EncodeDocument(elements)[..k]
    ensures ValueAt(data, kind, offset) == Stop
  {
    if k >= 4 {
      var all := EncodeDocument(elements);
      WrapLength(EncodeElements(elements));
      FirstFour(data, offset, all, k);
    }
  }

  /** A value of which bytes are missing at the end of the data. */
  lemma CutValueStops(data: Bytes, offset: nat, value: Typed, k: nat)
    requires 0 < offset && offset + k == |data| < TWO_TO_32 && ValidValue(value)
    requires k < |Encode(value)| < TWO_TO_32 && data[offset..] == Encode(value)[..k]
    ensures ValueAt(data, Kind(value), offset) == Stop
  {
    match value
    case TString(text) => CutStringStops(data, offset, text, k);
    case TDocument(_, elements) => CutNestedStops(data, offset, Kind(value), elements, k);
    case _ =>
  }

  lemma {:induction false} NoNulAhead(data: Bytes, offset: nat)
    requires offset <= |data| && 0 !in data[offset..]
    ensures KeyEnd(data, offset) == |data|
    decreases |data| - offset
  {
    if offset < |data| {
      assert data[offset] in data[offset..] && data[offset..][1..] == data[offset + 1..];
      NoNulAhead(data, offset + 1);
    }
  }

  lemma CutHeadStops(data: Bytes, offset: nat, e: Element, k: nat)
    requires 0 < offset && offset + k == |data| && 0 !in e.key && 0 < k < |Head(e)|
    requires data[offset..] == Head(e)[..k]
    ensures ElementAt(data, offset).1 == Stop
  {
    assert data[offset + 1..] == data[offset..][1..] == Head(e)[1..k] == e.key[..k - 1];
    NoNulAhead(data, offset + 1);
  }

  /** An element of which bytes are missing at the end of the data. */
  lemma CutElementStops(data: Bytes, offset: nat, e: Element, k: nat)
    requires 0 < offset && offset + k == |data| < TWO_TO_32 && 0 !in e.key && ValidValue(e.value)
    requires 0 < k < |EncodeElement(e)| < TWO_TO_32 && data[offset..] == EncodeElement(e)[..k]
    ensures ElementAt(data, offset).1 == Stop
  {
    var head, value := Head(e), Encode(e.value);
    if k < |head| {
      assert (head + value)[..k] == head[..k];
      CutHeadStops(data, offset, e, k);
    } else {
      var part := value[..k - |head|];
      assert (head + value)[..k] == head + part;
      HeadAtFront(data, offset, head, part);
      HeadReadBack(data, offset, e);
      CutValueStops(data, offset + |head|, e.value, k - |head|);
    }
  }

  lemma HeadAtFront(data: Bytes, offset: nat, head: Bytes, part: Bytes)
    requires offset <= |data| && data[offset..] == head + part
    ensures At(data, offset, head) && data[offset + |head|..] == part
  {
    assert data[offset..offset + |head|] == data[offset..][..|head|];
    assert data[offset + |head|..] == data[offset..][|head|..];
  }

  /** Reading the elements and then stopping. */
  lemma ReadThenStop(data: Bytes, elements: seq<Element>)
    requires |data| < TWO_TO_32 && Valid(elements) && At(data, 4, EncodeElements(elements))
    requires 4 + |EncodeElements(elements)| < |data|
    requires ElementAt(data, 4 + |EncodeElements(elements)|).1 == Stop
    ensures Elements(data, |data|, 4, map[]) == MapOf(elements, map[])
  {
    ElementsReadBack(data, |data|, 4, elements, map[]);
  }

  lemma DecodeAnnounced(bytes: Bytes)
    requires bytes != [] && |bytes| + 4 < TWO_TO_32
    ensures var data := Announced(bytes); Decode(data) == Some(Elements(data, |data|, 4, map[]))
  {
    AnnouncedLayout(bytes);
  }

  lemma CutElementsRead(data: Bytes, elements: seq<Element>, e: Element, k: nat)
    requires Valid(elements) && 0 !in e.key && ValidValue(e.value) && 0 < k < |EncodeElement(e)| < TWO_TO_32
    requires At(data, 4, EncodeElements(elements)) && 4 + |EncodeElements(elements)| + k == |data| < TWO_TO_32
    requires data[4 + |EncodeElements(elements)|..] == EncodeElement(e)[..k]
    ensures Elements(data, |data|, 4, map[]) == MapOf(elements, map[])
  {
    CutElementStops(data, 4 + |EncodeElements(elements)|, e, k);
    ReadThenStop(data, elements);
  }

  lemma TwoParts(data: Bytes, offset: nat, a: Bytes, b: Bytes)
    requires At(data, offset, a + b) && offset + |a + b| == |data|
    ensures At(data, offset, a) && data[offset + |a|..] == b
  {
    AtSplit(data, offset, a, b);
  }

  /** A document that breaks off inside an element gives the map of the elements before it. */
  lemma CutDocument(elements: seq<Element>, e: Element, k: nat)
    requires Valid(elements) && 0 !in e.key && ValidValue(e.value) && 0 < k < |EncodeElement(e)| < TWO_TO_32
    requires |EncodeElements(elements)| + k + 4 < TWO_TO_32
    ensures Decode(Announced(EncodeElements(elements) + EncodeElement(e)[..k])) == Some(MapOf(elements, map[]))
  {
    var good, part := EncodeElements(elements), EncodeElement(e)[..k];
    AnnouncedLayout(good + part);
    DecodeAnnounced(good + part);
    TwoParts(Announced(good + part), 4, good, part);
    CutElementsRead(Announced(good + part), elements, e, k);
  }

  lemma OpenElementsRead(data: Bytes, good: Bytes, last: Bytes, elements: seq<Element>, e: Element)
    requires Valid(elements) && 0 !in e.key && ValidValue(e.value) && |data| < TWO_TO_32
    requires good == EncodeElements(elements) && last == EncodeElement(e) && last != []
    requires At(data, 4, good) && At(data, 4 + |good|, last) && |data| == 4 + |good| + |last|
    ensures Elements(data, |data|, 4, map[]) == Read(e, MapOf(elements, map[]))
  {
    ElementsAhead(data, good, elements);
    LastElementRead(data, 4 + |good|, last, e, MapOf(elements, map[]));
  }

  lemma ElementsAhead(data: Bytes, good: Bytes, elements: seq<Element>)
    requires Valid(elements) && good == EncodeElements(elements)
    requires At(data, 4, good) && 4 + |good| < |data| < TWO_TO_32
    ensures Elements(data, |data|, 4, map[]) == Elements(data, |data|, 4 + |good|, MapOf(elements, map[]))
  {
    ElementsReadBack(data, |data|, 4, elements, map[]);
  }

  lemma LastElementRead(data: Bytes, offset: nat, last: Bytes, e: Element, read: Map)
    requires 0 < offset && 0 !in e.key && ValidValue(e.value) && last == EncodeElement(e)
    requires At(data, offset, last) && |data| == offset + |last| < TWO_TO_32
    ensures Elements(data, |data|, offset, read) == Read(e, read)
  {
    ElementPassed(data, |data|, offset, e, read);
    NothingBehind(data, Read(e, read));
  }

  lemma NothingBehind(data: Bytes, read: Map)
    requires data != []
    ensures Elements(data, |data|, |data|, read) == read
  {
  }

  /** A document without its last byte, which only ends it, gives the map of all its elements. */
  lemma OpenDocument(elements: seq<Element>, e: Element)
    requires Valid(elements) && 0 !in e.key && ValidValue(e.value)
    requires |EncodeElements(elements) + EncodeElement(e)| + 4 < TWO_TO_32
    ensures Decode(Announced(EncodeElements(elements) + EncodeElement(e))) == Some(Read(e, MapOf(elements, map[])))
  {
    var good, last := EncodeElements(elements), EncodeElement(e);
    AnnouncedLayout(good + last);
    DecodeAnnounced(good + last);
    AtSplit(Announced(good + last), 4, good, last);
    OpenElementsRead(Announced(good + last), good, last, elements, e);
  }

  /** An int32 comes back as written exactly when it is not negative. */
  lemma Int32RoundTripsIffNotNegative(key: Bytes, number: int)
    requires 0 !in key && |key| < 0x8000_0000 && -0x8000_0000 <= number < 0x8000_0000
    ensures Decode(EncodeDocument([Element(key, TInt32(number))])) == Some(map[key := Int(number)]) <==> number >= 0
  {
    var e := Element(key, TInt32(number));
    assert [e][1..] == [];
    assert EncodeElements([e]) == EncodeElement(e) + [];
    assert |Encode(e.value)| == 4 && |EncodeDocument([e])| == |key| + 11;
    assert Valid([]) && ValidValue(e.value);
    DecodeEncoded([e]);
    assert MapOf([e], map[]) == map[key := Int(number % TWO_TO_32)];
    assert map[key := Int(number)][key] == Int(number);
    assert map[key := Int(number % TWO_TO_32)][key] == Int(number % TWO_TO_32);
  }
}
