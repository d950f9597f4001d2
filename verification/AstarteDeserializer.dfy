/** Typed values read back from BSON elements, and the round trip through the serializer. */
module AstarteDeserializer {
  import opened Bytes
  import opened BsonFormat
  import opened BsonDeserializer
  import opened AstarteData
  import opened Decimals

  datatype Read<T> = Value(v: T) | Failed(code: Status)

  /** The BSON types that a mapping type accepts: its own, and 32-bit integers where 64-bit ones are expected. */
  predicate IsCompatible(t: ScalarType, kind: Byte) {
    kind == BsonTypeOf(t) || (t == LongIntegerType && kind == TYPE_INT32)
  }

  function UpToNul(b: Bytes): (t: Text)
  {
    if b == [] || b[0] == 0 then [] else [b[0]] + UpToNul(b[1..])
  }

  /** What an element is worth as a value of a type. An empty blob cannot be allocated. */
  function ReadScalar(list: Bytes, e: Element, t: ScalarType): Read<Scalar>
    requires Inside(list, e)
  {
    if !IsCompatible(t, e.kind) then Failed(TypesError)
    else
      match t
      case IntegerType => Value(Integer(ElementToInt32(list, e)))
      case LongIntegerType =>
        Value(LongInteger(if e.kind == TYPE_INT32 then ElementToInt32(list, e) else ElementToInt64(list, e)))
      case DoubleType => Value(Double(ElementToDouble(list, e)))
      case StringType => Value(Str(UpToNul(ElementToString(list, e))))
      case BinaryBlobType =>
        if ElementToBinary(list, e) == [] then Failed(OutOfMemory) else Value(BinaryBlob(ElementToBinary(list, e)))
      case BooleanType => Value(Boolean(ElementToBool(list, e)))
      case DateTimeType => Value(DateTime(ElementToDatetime(list, e)))
  }

  /** An element whose type byte does not belong to the expected type is refused, and no other: each type has one type byte,
      and a 32-bit integer is taken for a 64-bit one too. */
  lemma TypesChecked(list: Bytes, e: Element, t: ScalarType)
    requires Inside(list, e)
    ensures ReadScalar(list, e, t) == Failed(TypesError) <==>
      match t
      case DoubleType => e.kind != 0x01
      case StringType => e.kind != 0x02
      case BinaryBlobType => e.kind != 0x05
      case BooleanType => e.kind != 0x08
      case DateTimeType => e.kind != 0x09
      case IntegerType => e.kind != 0x10
      case LongIntegerType => e.kind != 0x12 && e.kind != 0x10
    ensures e.kind != 0x04 ==> ReadData(list, e, ArrayOf(t)) == Failed(TypesError)
  {
  }

  /** Reading the items of any list: all values in order if every item can be read and the list ends as it should, and
      otherwise the failure of the first item that cannot, or of the end. */
  lemma {:induction false} ItemsDecide(list: Bytes, w: Walk, t: ScalarType)
    requires forall e :: e in w.elements ==> Inside(list, e)
    ensures match ReadItems(list, w, t)
      case Value(vs) =>
        && w.stop == NotFound && |vs| == |w.elements|
        && forall k :: 0 <= k < |vs| ==> ReadScalar(list, w.elements[k], t) == Value(vs[k])
      case Failed(code) =>
        exists k :: FailsAt(list, w, t, k, code)
    decreases |w.elements|
  {
    hide ReadScalar;
    if w.elements != [] {
      var rest := Walk(w.elements[1..], w.stop);
      match ReadScalar(list, w.elements[0], t) {
        case Failed(code) =>
          assert FailsAt(list, w, t, 0, code);
          assert ReadItems(list, w, t) == Failed(code);
        case Value(v) =>
          ItemsDecide(list, rest, t);
          if ReadItems(list, rest, t).Failed? {
            var code := ReadItems(list, rest, t).code;
            var k :| FailsAt(list, rest, t, k, code);
            assert forall j :: 0 < j < |w.elements| ==> w.elements[j] == rest.elements[j - 1];
            assert FailsAt(list, w, t, k + 1, code);
            assert ReadItems(list, w, t) == Failed(code);
          } else {
            assert forall j :: 0 < j < |w.elements| ==> w.elements[j] == rest.elements[j - 1];
          }
      }
    } else if w.stop != NotFound {
      assert FailsAt(list, w, t, 0, w.stop);
      assert ReadItems(list, w, t) == Failed(w.stop);
    } else {
      assert ReadItems(list, w, t) == Value([]);
    }
  }

  /** All items before this one can be read, and this one, or the end of the list behind the last, fails. */
  predicate FailsAt(list: Bytes, w: Walk, t: ScalarType, k: int, code: Status)
    requires forall e :: e in w.elements ==> Inside(list, e)
  {
    && 0 <= k <= |w.elements|
    && (forall j :: 0 <= j < k ==> ReadScalar(list, w.elements[j], t).Value?)
    && if k < |w.elements| then ReadScalar(list, w.elements[k], t) == Failed(code)
       else w.stop != NotFound && code == w.stop
  }

  /** The first failure met decides. */
  function ReadItems(list: Bytes, w: Walk, t: ScalarType): Read<seq<Scalar>>
    requires forall e :: e in w.elements ==> Inside(list, e)
    decreases |w.elements|
  {
    if w.elements == [] then (if w.stop == NotFound then Value([]) else Failed(w.stop))
    else
      match ReadScalar(list, w.elements[0], t)
      case Failed(code) => Failed(code)
      case Value(v) => After([v], ReadItems(list, Walk(w.elements[1..], w.stop), t))
  }

  function After(vs: seq<Scalar>, r: Read<seq<Scalar>>): Read<seq<Scalar>> {
    match r
    case Value(x) => Value(vs + x)
    case Failed(_) => r
  }

  function ReadData(list: Bytes, e: Element, t: MappingType): Read<Data>
    requires Inside(list, e)
  {
    match t
    case ScalarOf(s) =>
      (match ReadScalar(list, e, s)
       case Value(v) => Value(One(v))
       case Failed(code) => Failed(code))
    case ArrayOf(s) =>
      if e.kind != TYPE_ARRAY then Failed(TypesError)
      else
        var doc := ElementToDocument(list, e);
        DocInside(doc);
        match ReadItems(doc.list, WalkOf(doc), s)
        case Value(items) => Value(Many(s, items))
        case Failed(code) => Failed(code)
  }

  lemma DocInside(doc: Document)
    ensures forall e :: e in WalkOf(doc).elements ==> Inside(doc.list, e)
  {
    hide ValueSize;
    WalkAdvances(doc.list, 0);
  }

  // ---- the code that reads

  /** Copies a string into a buffer of its own, up to its first NUL. */
  method DeserializeString(deserialized: Bytes) returns (s: Text)
    ensures s == UpToNul(deserialized)
  {
    var buf := new Byte[|deserialized| + 1](_ => 0);
    var i := 0;
    while i < |deserialized| && deserialized[i] != 0
      invariant i <= |deserialized| && UpToNul(deserialized) == buf[..i] + UpToNul(deserialized[i..])
    {
      NulLater(deserialized, i);
      ghost var before := buf[..i];
      buf[i] := deserialized[i];
      i := i + 1;
      assert buf[..i] == before + [deserialized[i - 1]];
    }
    assert UpToNul(deserialized[i..]) == [];
    return buf[..i];
  }

  lemma NulLater(b: Bytes, i: nat)
    requires i < |b| && b[i] != 0
    ensures UpToNul(b[i..]) == [b[i]] + UpToNul(b[i + 1..])
  {
    assert b[i..][1..] == b[i + 1..];
  }

  method DeserializeScalar(list: Bytes, e: Element, t: ScalarType) returns (r: Read<Scalar>)
    requires Inside(list, e)
    ensures r == ReadScalar(list, e, t)
  {
    hide ValueSize, UpToNul;
    if !IsCompatible(t, e.kind) {
      return Failed(TypesError);
    }
    match t {
      case BinaryBlobType =>
        var deserialized := ElementToBinary(list, e);
        if |deserialized| == 0 {
          return Failed(OutOfMemory);
        }
        return Value(BinaryBlob(deserialized));
      case BooleanType => return Value(Boolean(ElementToBool(list, e)));
      case DateTimeType => return Value(DateTime(ElementToDatetime(list, e)));
      case DoubleType => return Value(Double(ElementToDouble(list, e)));
      case IntegerType => return Value(Integer(ElementToInt32(list, e)));
      case LongIntegerType =>
        if e.kind == TYPE_INT32 {
          return Value(LongInteger(ElementToInt32(list, e)));
        }
        return Value(LongInteger(ElementToInt64(list, e)));
      case StringType =>
        var s := DeserializeString(ElementToString(list, e));
        return Value(Str(s));
    }
  }

  const INITIAL_CAPACITY := 4

  /** Reads the items of an array into a buffer that doubles when it is full. */
  method DeserializeItems(doc: Document, t: ScalarType) returns (r: Read<seq<Scalar>>)
    requires IsDocument(doc)
    ensures (forall e :: e in WalkOf(doc).elements ==> Inside(doc.list, e))
    ensures r == ReadItems(doc.list, WalkOf(doc), t)
  {
    hide ValueSize, ReadScalar, WalkOf, WalkFrom;
    DocInside(doc);
    var capacity, count := INITIAL_CAPACITY, 0;
    var array_ := new Scalar[capacity](_ => Boolean(false));
    var code, e := FirstElement(doc);
    ghost var rest := WalkOf(doc);
    assert array_[..0] == [];
    AfterNone(ReadItems(doc.list, rest, t));
    while code == Ok
      invariant 4 <= capacity == array_.Length && count <= capacity && fresh(array_)
      invariant forall x :: x in rest.elements ==> Inside(doc.list, x)
      invariant code == Ok ==> Inside(doc.list, e) && rest == Cons(e, WalkFrom(doc.list, EndOf(doc.list, e)))
      invariant code != Ok ==> rest == Walk([], code)
      invariant ReadItems(doc.list, WalkOf(doc), t) == After(array_[..count], ReadItems(doc.list, rest, t))
      invariant code == Ok || code == NotFound || code == InternalError
      decreases if code == Ok then |doc.list| - e.value + 1 else 0
    {
      assert e in rest.elements;
      var item := DeserializeScalar(doc.list, e, t);
      if item.Failed? {
        return Failed(item.code);
      }
      array_, capacity := Room(array_, count, capacity);
      ghost var before := array_[..count];
      array_[count] := item.v;
      count := count + 1;
      ghost var tail := WalkFrom(doc.list, EndOf(doc.list, e));
      assert rest.elements[1..] == tail.elements;
      assert array_[..count] == before + [item.v];
      AfterAfter(before, [item.v], ReadItems(doc.list, tail, t));
      code, e := NextElement(doc, e);
      rest := tail;
    }
    if code == NotFound {
      assert array_[..count] + [] == array_[..count];
      return Value(array_[..count]);
    }
    return Failed(code);
  }

  /** The buffer, twice as large if it is full. */
  method Room(a: array<Scalar>, count: nat, capacity: nat) returns (b: array<Scalar>, newCapacity: nat)
    requires 4 <= capacity == a.Length && count <= capacity
    ensures (b == a || fresh(b)) && newCapacity == b.Length && count < newCapacity && 4 <= newCapacity
    ensures newCapacity == if count == capacity then 2 * capacity else capacity
    ensures b[..count] == a[..count]
  {
    b, newCapacity := a, capacity;
    if count >= capacity {
      newCapacity := capacity * 2;
      b := new Scalar[newCapacity](_ => Boolean(false));
      forall i | 0 <= i < count {
        b[i] := a[i];
      }
      assert b[..count] == a[..count];
    }
  }

  lemma AfterNone(r: Read<seq<Scalar>>)
    ensures After([], r) == r
  {
    if r.Value? {
      assert [] + r.v == r.v;
    }
  }

  lemma AfterAfter(a: seq<Scalar>, b: seq<Scalar>, r: Read<seq<Scalar>>)
    ensures After(a, After(b, r)) == After(a + b, r)
  {
    if r.Value? {
      assert a + (b + r.v) == a + b + r.v;
    }
  }

  method DeserializeArray(list: Bytes, e: Element, t: ScalarType) returns (r: Read<Data>)
    requires Inside(list, e)
    ensures r == ReadData(list, e, ArrayOf(t))
  {
    hide ReadItems, WalkOf;
    if e.kind != TYPE_ARRAY {
      return Failed(TypesError);
    }
    var doc := ElementToDocument(list, e);
    var items := DeserializeItems(doc, t);
    match items
    case Value(vs) => return Value(Many(t, vs));
    case Failed(code) => return Failed(code);
  }

  method DeserializeData(list: Bytes, e: Element, t: MappingType) returns (r: Read<Data>)
    requires Inside(list, e)
    ensures r == ReadData(list, e, t)
  {
    match t
    case ScalarOf(s) =>
      var v := DeserializeScalar(list, e, s);
      r := if v.Value? then Value(One(v.v)) else Failed(v.code);
    case ArrayOf(s) =>
      r := DeserializeArray(list, e, s);
  }

  // ---- round trip

  lemma {:induction false} UpToTerminator(t: Text)
    ensures UpToNul(t) == t
  {
    if t != [] {
      assert t[0] in t;
      var rest: Text := t[1..];
      UpToTerminator(rest);
    }
  }

  /** No blob in the value is empty. */
  predicate Readable(d: Data) {
    match d
    case One(v) => v != BinaryBlob([])
    case Many(_, items) => BinaryBlob([]) !in items
  }

  lemma Read64At(list: Bytes, at: nat, v: U64)
    requires at + 8 <= |list| && list[at..at + 8] == Le64(v)
    ensures Get64(list, at) == v
  {
    Read64(list, at, v);
  }

  lemma ReadFixed(list: Bytes, e: Element, name: Text, v: Scalar)
    requires !TooLong(v) && !v.Str? && !v.BinaryBlob? && Found(list, e, ScalarRaw(name, v))
    ensures ReadScalar(list, e, TypeOf(v)) == Value(v)
    ensures v.Integer? ==> ReadScalar(list, e, LongIntegerType) == Value(LongInteger(v.i))
  {
    hide Le32, Le64, Get32, Get64;
    match v {
      case Integer(i) => Read32(list, e.value, Unsigned(i));
      case LongInteger(l) => Read64At(list, e.value, Unsigned64(l));
      case Double(bits) => Read64At(list, e.value, bits);
      case Boolean(b) => assert list[e.value] == list[e.value..EndOf(list, e)][0];
      case DateTime(t) => Read64At(list, e.value, Unsigned64(t));
    }
  }

  lemma ReadString(list: Bytes, e: Element, name: Text, s: Text)
    requires |s| <= INT32_MAX && Found(list, e, ScalarRaw(name, Str(s)))
    ensures ReadScalar(list, e, StringType) == Value(Str(s))
  {
    hide Le32, Get32, UpToNul;
    var end := EndOf(list, e);
    var p := list[e.value..end];
    assert p[0..4] == Le32(|s| + 1);
    PartOfPart(list, e.value, end, 0, 4);
    Read32(list, e.value, |s| + 1);
    PartOfPart(list, e.value, end, 4, 4 + |s|);
    assert p[4..4 + |s|] == s;
    UpToTerminator(s);
  }

  lemma ReadBlob(list: Bytes, e: Element, name: Text, b: Bytes)
    requires |b| <= INT32_MAX && Found(list, e, ScalarRaw(name, BinaryBlob(b)))
    ensures ReadScalar(list, e, BinaryBlobType) == if b == [] then Failed(OutOfMemory) else Value(BinaryBlob(b))
  {
    hide Le32, Get32;
    var end := EndOf(list, e);
    var p := list[e.value..end];
    assert p[0..4] == Le32(|b|);
    PartOfPart(list, e.value, end, 0, 4);
    Read32(list, e.value, |b|);
    PartOfPart(list, e.value, end, 5, 5 + |b|);
    assert p[5..5 + |b|] == b;
  }

  /** A value reads back as itself, an integer also as a long integer, and an empty blob not at all. */
  lemma ScalarRoundTrip(list: Bytes, e: Element, name: Text, v: Scalar)
    requires !TooLong(v) && Found(list, e, ScalarRaw(name, v))
    ensures ReadScalar(list, e, TypeOf(v)) == if v == BinaryBlob([]) then Failed(OutOfMemory) else Value(v)
    ensures v.Integer? ==> ReadScalar(list, e, LongIntegerType) == Value(LongInteger(v.i))
  {
    hide ReadScalar, ScalarRaw, Found, ValueSize;
    match v {
      case Str(s) => ReadString(list, e, name, s);
      case BinaryBlob(b) => ReadBlob(list, e, name, b);
      case _ => ReadFixed(list, e, name, v);
    }
  }

  /** Items found one by one read back as the items written, up to the first empty blob. */
  lemma {:induction false} ItemsRoundTrip(list: Bytes, w: Walk, items: seq<Scalar>, names: seq<Text>, t: ScalarType)
    requires |items| == |names| == |w.elements| && w.stop == NotFound
    requires forall v :: v in items ==> !TooLong(v) && TypeOf(v) == t
    requires forall k :: 0 <= k < |items| ==> Found(list, w.elements[k], ScalarRaw(names[k], items[k]))
    ensures forall e :: e in w.elements ==> Inside(list, e)
    ensures ReadItems(list, w, t) == if BinaryBlob([]) in items then Failed(OutOfMemory) else Value(items)
    decreases |items|
  {
    hide ReadScalar, ScalarRaw, ValueSize;
    assert forall k :: 0 <= k < |items| ==> Inside(list, w.elements[k]);
    if items != [] {
      ScalarRoundTrip(list, w.elements[0], names[0], items[0]);
      ItemsRoundTrip(list, Walk(w.elements[1..], w.stop), items[1..], names[1..], t);
      assert items == [items[0]] + items[1..];
    }
  }

  lemma BodyStartsWithKind(es: seq<Raw>)
    requires es != [] && WellSized(es[0])
    ensures Body(es) != [] && Body(es)[0] != 0
  {
  }

  /** Walking over a document that was written. */
  lemma WalkOfWritten(doc: Document, es: seq<Raw>)
    requires |Body(es)| + EMPTY_DOCUMENT <= UINT32_MAX && forall r :: r in es ==> WellSized(r)
    requires doc == Document(|Body(es)| + EMPTY_DOCUMENT, Body(es))
    ensures var w := WalkOf(doc);
      w.stop == NotFound && |w.elements| == |es| && forall k :: 0 <= k < |es| ==> Found(doc.list, w.elements[k], es[k])
  {
    hide ValueSize, WellSized, Found, ParseAt;
    if es != [] { BodyStartsWithKind(es); }
    assert doc.list[0..] == Body(es);
    WalkFindsBody(doc.list, 0, es);
  }

  /** An array element opens into the document that was written. */
  lemma ArrayOpens(list: Bytes, e: Element, name: Text, body: Bytes)
    requires |body| + EMPTY_DOCUMENT <= UINT32_MAX && Found(list, e, Raw(TYPE_ARRAY, name, DocumentBytes(body)))
    ensures ElementToDocument(list, e) == Document(|body| + EMPTY_DOCUMENT, body)
  {
    hide Le32, Get32;
    var end := EndOf(list, e);
    var p := list[e.value..end];
    DocumentDeclaresSize(body);
    Get32Within(list, e.value, end);
    PartOfPart(list, e.value, end, 4, 4 + |body|);
    assert p[4..4 + |body|] == body;
  }

  lemma DataRoundTrip(list: Bytes, e: Element, name: Text, d: Data)
    requires IsData(d) && Encodable(d) && Found(list, e, DataRaw(name, d))
    ensures ReadData(list, e, MappingTypeOf(d)) == if Readable(d) then Value(d) else Failed(OutOfMemory)
  {
    hide ReadScalar, ReadItems, ScalarRaw, ValueSize, WellSized, DocumentBytes, Body, WalkOf, TooLong, ElementToDocument;
    match d {
      case One(v) => ScalarRoundTrip(list, e, name, v);
      case Many(t, items) =>
        var es := ItemRaws(items);
        ArrayOpens(list, e, name, Body(es));
        var doc := ElementToDocument(list, e);
        forall r | r in es
          ensures WellSized(r)
        {
          var k :| 0 <= k < |es| && es[k] == r;
          ScalarWellSized(Decimal(k), items[k]);
        }
        WalkOfWritten(doc, es);
        var names := seq(|items|, k requires 0 <= k < |items| => Decimal(k));
        ItemsRoundTrip(doc.list, WalkOf(doc), items, names, t);
    }
  }

  /** The round trip for all fourteen types. A serialized object is a valid document whose declared size is its length;
      it has exactly one element for each entry, in order and under its name, and each reads back as the value it was
      written from, except that a value with an empty blob in it fails. */
  lemma ObjectRoundTrip(entries: seq<(Text, Data)>, buffer: Bytes)
    requires forall e :: e in entries ==> IsData(e.1) && Encodable(e.1)
    requires |Body(EntryRaws(entries))| + EMPTY_DOCUMENT <= INT32_MAX && buffer == DocumentBytes(Body(EntryRaws(entries)))
    ensures HoldsDocument(buffer) && Get32(buffer, 0) == |buffer|
    ensures entries != [] ==> |buffer| >= SIZE_BYTES + 3 + NULL_TERM_SIZE && IsKind(buffer[4])
    ensures var doc := InitDoc(buffer, 0);
      var w := WalkOf(doc);
      && w.stop == NotFound && |w.elements| == |entries|
      && forall k :: 0 <= k < |entries| ==>
           && Inside(doc.list, w.elements[k])
           && w.elements[k].name == entries[k].0
           && ReadData(doc.list, w.elements[k], MappingTypeOf(entries[k].1))
              == if Readable(entries[k].1) then Value(entries[k].1) else Failed(OutOfMemory)
  {
    hide ReadData, ValueSize, WellSized, WalkOf, Encodable, IsData, Le32, Get32, Readable;
    var es := EntryRaws(entries);
    var body := Body(es);
    DocumentDeclaresSize(body);
    var doc := InitDoc(buffer, 0);
    assert doc.list == body;
    forall r | r in es
      ensures WellSized(r)
    {
      var k :| 0 <= k < |es| && es[k] == r;
      DataWellSized(entries[k].0, entries[k].1);
    }
    if entries != [] { FirstElementFits(es); }
    WalkOfWritten(doc, es);
    forall k | 0 <= k < |entries|
      ensures Inside(doc.list, WalkOf(doc).elements[k]) && WalkOf(doc).elements[k].name == entries[k].0
      ensures ReadData(doc.list, WalkOf(doc).elements[k], MappingTypeOf(entries[k].1))
           == if Readable(entries[k].1) then Value(entries[k].1) else Failed(OutOfMemory)
    {
      assert entries[k] in entries;
      DataRoundTrip(doc.list, WalkOf(doc).elements[k], entries[k].0, entries[k].1);
    }
  }

  lemma FirstElementFits(es: seq<Raw>)
    requires es != [] && WellSized(es[0])
    ensures |Body(es)| >= 3 && IsKind(Body(es)[0])
  {
    assert |es[0].payload| >= 1;
  }
}
