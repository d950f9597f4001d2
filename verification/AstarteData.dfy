/** Typed values and the BSON elements that stand for them. */
module AstarteData {
  import opened Bytes
  import opened BsonFormat
  import opened Decimals

  /** A value of one of the seven scalar types; a double is its 64-bit representation. */
  datatype Scalar =
    | Integer(i: I32)
    | LongInteger(l: I64)
    | Double(bits: U64)
    | Str(s: Text)
    | BinaryBlob(b: Bytes)
    | Boolean(v: bool)
    | DateTime(t: I64)

  datatype ScalarType =
    IntegerType | LongIntegerType | DoubleType | StringType | BinaryBlobType | BooleanType | DateTimeType

  function TypeOf(v: Scalar): ScalarType {
    match v
    case Integer(_) => IntegerType
    case LongInteger(_) => LongIntegerType
    case Double(_) => DoubleType
    case Str(_) => StringType
    case BinaryBlob(_) => BinaryBlobType
    case Boolean(_) => BooleanType
    case DateTime(_) => DateTimeType
  }

  /** A value of one of the fourteen mapping types. */
  datatype Data = One(v: Scalar) | Many(itemType: ScalarType, items: seq<Scalar>)

  datatype MappingType = ScalarOf(t: ScalarType) | ArrayOf(t: ScalarType)

  /** The items of an array have its type. */
  predicate IsData(d: Data) {
    d.Many? ==> forall v :: v in d.items ==> TypeOf(v) == d.itemType
  }

  function MappingTypeOf(d: Data): MappingType {
    match d
    case One(v) => ScalarOf(TypeOf(v))
    case Many(t, _) => ArrayOf(t)
  }

  function BsonTypeOf(t: ScalarType): Byte {
    match t
    case IntegerType => TYPE_INT32
    case LongIntegerType => TYPE_INT64
    case DoubleType => TYPE_DOUBLE
    case StringType => TYPE_STRING
    case BinaryBlobType => TYPE_BINARY
    case BooleanType => TYPE_BOOLEAN
    case DateTimeType => TYPE_DATETIME
  }

  /** A string or blob beyond the sizes that the format can declare. */
  predicate TooLong(v: Scalar) {
    match v
    case Str(s) => |s| > INT32_MAX
    case BinaryBlob(b) => |b| > INT32_MAX
    case _ => false
  }

  function Payload(v: Scalar): Bytes
    requires !TooLong(v)
  {
    match v
    case Integer(i) => Le32(Unsigned(i))
    case LongInteger(l) => Le64(Unsigned64(l))
    case Double(bits) => Le64(bits)
    case Str(s) => Le32(|s| + 1) + s + [0]
    case BinaryBlob(b) => Le32(|b|) + [SUBTYPE_DEFAULT_BINARY] + b
    case Boolean(v) => [if v then 1 else 0]
    case DateTime(t) => Le64(Unsigned64(t))
  }

  function ScalarRaw(name: Text, v: Scalar): Raw
    requires !TooLong(v)
  {
    Raw(BsonTypeOf(TypeOf(v)), name, Payload(v))
  }

  lemma ScalarWellSized(name: Text, v: Scalar)
    requires !TooLong(v)
    ensures WellSized(ScalarRaw(name, v))
  {
    hide Le32, Le64, Get32;
    match v {
      case Str(s) =>
        assert Payload(v)[0..4] == Le32(|s| + 1);
        Read32(Payload(v), 0, |s| + 1);
      case BinaryBlob(b) =>
        assert Payload(v)[0..4] == Le32(|b|);
        Read32(Payload(v), 0, |b|);
      case _ =>
    }
  }

  const BSON_ARRAY_SIZE_STR_LEN := 12

  /** The key of an array item always fits the buffer for it, terminator included. */
  lemma KeyFits(n: nat)
    requires n <= INT32_MAX
    ensures |Decimal(n)| < BSON_ARRAY_SIZE_STR_LEN
  {
    Pow10Ten();
    DecimalLength(n, 10);
  }

  /** The elements of an array of values, with their positions as names. */
  function ItemRaws(items: seq<Scalar>): (es: seq<Raw>)
    requires forall v :: v in items ==> !TooLong(v)
    ensures |es| == |items|
    ensures forall k :: 0 <= k < |items| ==> es[k] == ScalarRaw(Decimal(k), items[k])
  {
    if items == [] then []
    else ItemRaws(items[..|items| - 1]) + [ScalarRaw(Decimal(|items| - 1), items[|items| - 1])]
  }

  /** No part of the value is too long, and an array fits a document of its own. */
  predicate Encodable(d: Data) {
    match d
    case One(v) => !TooLong(v)
    case Many(_, items) =>
      (forall v :: v in items ==> !TooLong(v)) && |Body(ItemRaws(items))| + EMPTY_DOCUMENT <= INT32_MAX
  }

  /** An array counts its items in an `int`, and its document has a size that fits one. */
  predicate FitsDocument(d: Data) {
    d.Many? ==>
      && |d.items| <= INT32_MAX
      && ((forall v :: v in d.items ==> !TooLong(v)) ==> |Body(ItemRaws(d.items))| + EMPTY_DOCUMENT <= INT32_MAX)
  }

  /** The element that a value becomes. */
  function DataRaw(name: Text, d: Data): Raw
    requires Encodable(d)
  {
    match d
    case One(v) => ScalarRaw(name, v)
    case Many(_, items) => Raw(TYPE_ARRAY, name, DocumentBytes(Body(ItemRaws(items))))
  }

  /** The elements of named values. */
  function EntryRaws(entries: seq<(Text, Data)>): (es: seq<Raw>)
    requires forall e :: e in entries ==> Encodable(e.1)
    ensures |es| == |entries|
    ensures forall k :: 0 <= k < |entries| ==> es[k] == DataRaw(entries[k].0, entries[k].1)
  {
    if entries == [] then []
    else
      var last := entries[|entries| - 1];
      EntryRaws(entries[..|entries| - 1]) + [DataRaw(last.0, last.1)]
  }

  lemma DocumentDeclaresSize(list: Bytes)
    requires |list| + EMPTY_DOCUMENT <= UINT32_MAX
    ensures Get32(DocumentBytes(list), 0) == |list| + EMPTY_DOCUMENT
  {
    hide Le32, Get32;
    assert DocumentBytes(list)[0..4] == Le32(|list| + EMPTY_DOCUMENT);
    Read32(DocumentBytes(list), 0, |list| + EMPTY_DOCUMENT);
  }

  lemma DataWellSized(name: Text, d: Data)
    requires Encodable(d)
    ensures WellSized(DataRaw(name, d))
  {
    hide Get32, DocumentBytes, ItemRaws, Body;
    match d {
      case One(v) => ScalarWellSized(name, v);
      case Many(_, items) => DocumentDeclaresSize(Body(ItemRaws(items)));
    }
  }

  lemma {:induction false} BodyConcat(a: seq<Raw>, b: seq<Raw>)
    ensures Body(a + b) == Body(a) + Body(b)
  {
    if a == [] {
      assert a + b == b;
    } else {
      assert (a + b)[1..] == a[1..] + b;
      BodyConcat(a[1..], b);
    }
  }

  lemma BodyAppend(es: seq<Raw>, r: Raw)
    ensures Body(es + [r]) == Body(es) + ElementBytes(r)
  {
    BodyConcat(es, [r]);
    assert Body([r]) == ElementBytes(r) + Body([]);
  }
}
