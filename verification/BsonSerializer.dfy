/** The BSON serializer: a buffer that grows, a size patched in at the end, and appenders for each type of element. */
module BsonSerializer {
  import opened Bytes
  import opened Buffers
  import opened BsonFormat
  import opened AstarteData
  import opened Decimals

  const MIN_CAPACITY := 64

  class Serializer {
    var buf: array<Byte>
    var size: nat
    var capacity: nat
    var terminated: bool

    ghost predicate Valid()
      reads this, buf
    {
      4 <= size <= capacity == buf.Length
    }

    ghost function Contents(): Bytes
      reads this, buf
      requires Valid()
    {
      buf[..size]
    }

    /** Nothing but the place of the size is in the buffer. */
    constructor ()
      ensures Valid() && fresh(buf) && Contents() == [0, 0, 0, 0] && !terminated
    {
      buf := new Byte[4](_ => 0);
      size := 4;
      capacity := 4;
      terminated := false;
    }

    method Grow(neededSize: nat)
      requires Valid()
      modifies this`capacity, this`buf
      ensures Valid() && Contents() == old(Contents()) && size + neededSize <= capacity
      ensures buf == old(buf) || fresh(buf)
      ensures old(size) + neededSize <= old(capacity) ==> buf == old(buf) && capacity == old(capacity)
      ensures old(size) + neededSize > old(capacity) ==>
        capacity >= 64 && capacity >= 2 * old(capacity) && capacity >= old(capacity) + neededSize
        && (capacity == 64 || capacity == 2 * old(capacity) || capacity == old(capacity) + neededSize)
    {
      if size + neededSize > capacity {
        var newCapacity := if capacity * 2 > MIN_CAPACITY then capacity * 2 else MIN_CAPACITY;
        if newCapacity < capacity + neededSize {
          newCapacity := capacity + neededSize;
        }
        var newBuf := new Byte[newCapacity](_ => 0);
        forall i | 0 <= i < capacity {
          newBuf[i] := buf[i];
        }
        assert newBuf[..size] == buf[..size];
        capacity := newCapacity;
        buf := newBuf;
      }
    }

    method AppendByte(byte: Byte)
      requires Valid()
      modifies this`capacity, this`buf, this`size, buf
      ensures Valid() && Contents() == old(Contents()) + [byte]
      ensures buf == old(buf) || fresh(buf)
    {
      Grow(1);
      buf[size] := byte;
      size := size + 1;
    }

    method Append(bytes: Bytes)
      requires Valid()
      modifies this`capacity, this`buf, this`size, buf
      ensures Valid() && Contents() == old(Contents()) + bytes
      ensures buf == old(buf) || fresh(buf)
    {
      Grow(|bytes|);
      if |bytes| > 0 {
        CopyInto(buf, size, bytes);
        size := size + |bytes|;
      }
    }

    method Replace(pos: nat, bytes: Bytes)
      requires Valid() && pos + |bytes| <= size
      modifies buf
      ensures Valid() && Contents() == old(Contents()[..pos]) + bytes + old(Contents()[pos + |bytes|..])
    {
      CopyInto(buf, pos, bytes);
    }

    /** Ends the list and writes the size in front: the buffer is then a document. */
    method AppendEndOfDocument() returns (code: Status)
      requires Valid() && size < INT32_MAX
      modifies this, buf
      ensures Valid() && (buf == old(buf) || fresh(buf)) && terminated
      ensures code == if old(terminated) then SerializerError else Ok
      ensures Contents() == if old(terminated) then old(Contents()) else DocumentBytes(old(Contents()[4..]))
    {
      hide Le32;
      if terminated {
        return SerializerError;
      }
      ghost var list := Contents()[4..];
      AppendByte(0);
      assert Contents()[4..] == list + [0];
      Replace(0, Le32(size));
      terminated := true;
      return Ok;
    }

    /** The finished document, if it is finished. */
    method GetSerialized() returns (done: bool, document: Bytes)
      requires Valid()
      ensures done == terminated && (done ==> document == Contents())
    {
      if !terminated {
        return false, [];
      }
      return true, buf[..size];
    }

    /** Type and name of an element. */
    method AppendHeader(kind: Byte, name: Text)
      requires Valid()
      modifies this`capacity, this`buf, this`size, buf
      ensures Valid() && Contents() == old(Contents()) + ([kind] + name + [0])
      ensures buf == old(buf) || fresh(buf)
    {
      AppendByte(kind);
      Append(name + [0]);
    }

    /** Type, name, and the size of what follows. */
    method AppendSizedHeader(kind: Byte, name: Text, length: U32)
      requires Valid()
      modifies this`capacity, this`buf, this`size, buf
      ensures Valid() && Contents() == old(Contents()) + ([kind] + name + [0]) + Le32(length)
      ensures buf == old(buf) || fresh(buf)
    {
      hide Le32;
      AppendHeader(kind, name);
      Append(Le32(length));
    }

    /** The subtype and the bytes of a blob. */
    method AppendSubtyped(value: Bytes)
      requires Valid()
      modifies this`capacity, this`buf, this`size, buf
      ensures Valid() && Contents() == old(Contents()) + ([SUBTYPE_DEFAULT_BINARY] + value)
      ensures buf == old(buf) || fresh(buf)
    {
      AppendByte(SUBTYPE_DEFAULT_BINARY);
      Append(value);
    }

    method AppendElement(kind: Byte, name: Text, payload: Bytes) returns (code: Status)
      requires Valid()
      modifies this`capacity, this`buf, this`size, buf
      ensures Valid() && (buf == old(buf) || fresh(buf))
      ensures code == if terminated then SerializerError else Ok
      ensures Contents() == if terminated then old(Contents())
                            else old(Contents()) + ElementBytes(Raw(kind, name, payload))
    {
      if terminated {
        return SerializerError;
      }
      ghost var before := Contents();
      AppendHeader(kind, name);
      Append(payload);
      assert Contents() == before + ElementBytes(Raw(kind, name, payload));
      return Ok;
    }

    method AppendDouble(name: Text, bits: U64) returns (code: Status)
      requires Valid()
      modifies this`capacity, this`buf, this`size, buf
      ensures Appended(old(Contents()), name, Double(bits), code) && (buf == old(buf) || fresh(buf))
    {
      hide Le64;
      code := AppendElement(TYPE_DOUBLE, name, Le64(bits));
    }

    /** What appending a value does: an element more, or an error and nothing more. */
    ghost predicate Appended(before: Bytes, name: Text, v: Scalar, code: Status)
      reads this, buf
    {
      && Valid()
      && code == (if terminated then SerializerError else if TooLong(v) then InvalidParam else Ok)
      && Contents() == if code == Ok then before + ElementBytes(ScalarRaw(name, v)) else before
    }

    method AppendInt32(name: Text, value: I32) returns (code: Status)
      requires Valid()
      modifies this`capacity, this`buf, this`size, buf
      ensures Appended(old(Contents()), name, Integer(value), code) && (buf == old(buf) || fresh(buf))
    {
      hide Le32;
      code := AppendElement(TYPE_INT32, name, Le32(Unsigned(value)));
    }

    method AppendInt64(name: Text, value: I64) returns (code: Status)
      requires Valid()
      modifies this`capacity, this`buf, this`size, buf
      ensures Appended(old(Contents()), name, LongInteger(value), code) && (buf == old(buf) || fresh(buf))
    {
      hide Le64;
      code := AppendElement(TYPE_INT64, name, Le64(Unsigned64(value)));
    }

    method AppendDatetime(name: Text, epochMillis: I64) returns (code: Status)
      requires Valid()
      modifies this`capacity, this`buf, this`size, buf
      ensures Appended(old(Contents()), name, DateTime(epochMillis), code) && (buf == old(buf) || fresh(buf))
    {
      hide Le64;
      code := AppendElement(TYPE_DATETIME, name, Le64(Unsigned64(epochMillis)));
    }

    method AppendBoolean(name: Text, value: bool) returns (code: Status)
      requires Valid()
      modifies this`capacity, this`buf, this`size, buf
      ensures Appended(old(Contents()), name, Boolean(value), code) && (buf == old(buf) || fresh(buf))
    {
      code := AppendElement(TYPE_BOOLEAN, name, [if value then 1 else 0]);
    }

    method AppendBinary(name: Text, value: Bytes) returns (code: Status)
      requires Valid()
      modifies this`capacity, this`buf, this`size, buf
      ensures Appended(old(Contents()), name, BinaryBlob(value), code) && (buf == old(buf) || fresh(buf))
    {
      hide Le32, ElementBytes;
      if terminated {
        return SerializerError;
      }
      if |value| > INT32_MAX {
        return InvalidParam;
      }
      ghost var before := Contents();
      AppendSizedHeader(TYPE_BINARY, name, |value|);
      AppendSubtyped(value);
      InParts(before, TYPE_BINARY, name, Le32(|value|), [SUBTYPE_DEFAULT_BINARY], value);
      return Ok;
    }

    method AppendString(name: Text, value: Text) returns (code: Status)
      requires Valid()
      modifies this`capacity, this`buf, this`size, buf
      ensures Appended(old(Contents()), name, Str(value), code) && (buf == old(buf) || fresh(buf))
    {
      hide Le32, ElementBytes;
      if terminated {
        return SerializerError;
      }
      if |value| > INT32_MAX {
        return InvalidParam;
      }
      ghost var before := Contents();
      AppendSizedHeader(TYPE_STRING, name, |value| + 1);
      Append(value + [0]);
      InParts(before, TYPE_STRING, name, Le32(|value| + 1), value, [0]);
      return Ok;
    }

    /** A finished document as an element. */
    method AppendDocument(name: Text, document: Bytes) returns (code: Status)
      requires Valid() && 4 <= |document| && Get32(document, 0) <= |document|
      modifies this`capacity, this`buf, this`size, buf
      ensures Valid() && (buf == old(buf) || fresh(buf))
      ensures code == if terminated then SerializerError else Ok
      ensures Contents() == if terminated then old(Contents()) else
        old(Contents()) + ElementBytes(Raw(TYPE_DOCUMENT, name, document[..Get32(document, 0)]))
    {
      var declared := Get32(document, 0);
      code := AppendElement(TYPE_DOCUMENT, name, document[..declared]);
    }

    method AppendScalar(name: Text, v: Scalar) returns (code: Status)
      requires Valid()
      modifies this`capacity, this`buf, this`size, buf
      ensures Appended(old(Contents()), name, v, code) && (buf == old(buf) || fresh(buf))
    {
      match v
      case Integer(i) => code := AppendInt32(name, i);
      case LongInteger(l) => code := AppendInt64(name, l);
      case Double(bits) => code := AppendDouble(name, bits);
      case Str(s) => code := AppendString(name, s);
      case BinaryBlob(b) => code := AppendBinary(name, b);
      case Boolean(b) => code := AppendBoolean(name, b);
      case DateTime(t) => code := AppendDatetime(name, t);
    }

    /** An array is a document of its own, built by a second serializer. */
    method AppendArray(name: Text, items: seq<Scalar>) returns (code: Status)
      requires Valid() && |items| <= INT32_MAX
      requires (forall v :: v in items ==> !TooLong(v)) ==> |Body(ItemRaws(items))| + EMPTY_DOCUMENT <= INT32_MAX
      modifies this`capacity, this`buf, this`size, buf
      ensures Valid() && (buf == old(buf) || fresh(buf))
      ensures code == if terminated then SerializerError
                      else if exists v :: v in items && TooLong(v) then InvalidParam else Ok
      ensures Contents() == if code != Ok then old(Contents())
        else old(Contents()) + ElementBytes(Raw(TYPE_ARRAY, name, DocumentBytes(Body(ItemRaws(items)))))
    {
      hide DocumentBytes, Body, ScalarRaw, TooLong, ItemRaws;
      if terminated {
        return SerializerError;
      }
      var document;
      code, document := ArrayDocument(items);
      if code != Ok {
        return code;
      }
      ghost var before := Contents();
      AppendHeader(TYPE_ARRAY, name);
      Append(document);
      assert Contents() == before + ElementBytes(Raw(TYPE_ARRAY, name, document));
      return Ok;
    }

    method SerializeData(name: Text, d: Data) returns (code: Status)
      requires Valid() && FitsDocument(d)
      modifies this`capacity, this`buf, this`size, buf
      ensures Valid() && (buf == old(buf) || fresh(buf))
      ensures code == if terminated then SerializerError else if Encodable(d) then Ok else InvalidParam
      ensures Contents() == if code == Ok then old(Contents()) + ElementBytes(DataRaw(name, d)) else old(Contents())
    {
      match d
      case One(v) => code := AppendScalar(name, v);
      case Many(_, items) => code := AppendArray(name, items);
    }

    /** The items of an array, one element each, under the keys 0, 1, and so on. */
    method AppendItems(items: seq<Scalar>) returns (code: Status)
      requires Valid() && !terminated && |items| <= INT32_MAX && Contents() == [0, 0, 0, 0]
      modifies this`capacity, this`buf, this`size, buf
      ensures Valid() && (buf == old(buf) || fresh(buf))
      ensures code == if exists v :: v in items && TooLong(v) then InvalidParam else Ok
      ensures code == Ok ==> Contents() == [0, 0, 0, 0] + Body(ItemRaws(items))
    {
      hide ElementBytes, Body, ScalarRaw, TooLong, Decimal, ItemRaws;
      NoItems();
      for i := 0 to |items|
        invariant Valid() && (buf == old(buf) || fresh(buf)) && !terminated
        invariant forall v :: v in items[..i] ==> !TooLong(v)
        invariant Contents() == [0, 0, 0, 0] + Body(ItemRaws(items[..i]))
      {
        var key := Decimal(i);
        KeyFits(i);
        code := AppendScalar(key, items[i]);
        if code != Ok {
          assert items[i] in items;
          return code;
        }
        ItemAdded(items, i);
      }
      assert items[..|items|] == items;
      return Ok;
    }

    /** The entries of an object, one element each. */
    method SerializeEntries(entries: seq<(Text, Data)>) returns (code: Status)
      requires Valid() && !terminated && forall e :: e in entries ==> FitsDocument(e.1)
      modifies this`capacity, this`buf, this`size, buf
      ensures Valid() && (buf == old(buf) || fresh(buf))
      ensures code == if forall e :: e in entries ==> Encodable(e.1) then Ok else InvalidParam
      ensures code == Ok ==> Contents() == old(Contents()) + Body(EntryRaws(entries))
    {
      hide ElementBytes, Body, DataRaw, Encodable, FitsDocument, EntryRaws;
      ghost var before := Contents();
      NoEntries();
      assert before == before + [];
      for i := 0 to |entries|
        invariant Valid() && (buf == old(buf) || fresh(buf)) && !terminated
        invariant forall e :: e in entries[..i] ==> Encodable(e.1)
        invariant Contents() == before + Body(EntryRaws(entries[..i]))
      {
        code := SerializeData(entries[i].0, entries[i].1);
        if code != Ok {
          return code;
        }
        EntryAdded(entries, i);
        assert Contents() == before + Body(EntryRaws(entries[..i + 1]));
      }
      assert entries[..|entries|] == entries;
      return Ok;
    }
  }

  /** A whole object as a document. */
  method EncodeObject(entries: seq<(Text, Data)>) returns (code: Status, document: Bytes)
    requires forall e :: e in entries ==> FitsDocument(e.1)
    requires (forall e :: e in entries ==> Encodable(e.1)) ==> |Body(EntryRaws(entries))| + EMPTY_DOCUMENT <= INT32_MAX
    ensures code == if forall e :: e in entries ==> Encodable(e.1) then Ok else InvalidParam
    ensures code == Ok ==> document == DocumentBytes(Body(EntryRaws(entries)))
  {
    hide DocumentBytes, Body, Encodable, FitsDocument, EntryRaws;
    document := [];
    var bson := new Serializer();
    code := bson.SerializeEntries(entries);
    if code != Ok {
      return;
    }
    document := Finish(bson, Body(EntryRaws(entries)));
  }

  lemma NoEntries()
    ensures Body(EntryRaws([])) == []
  {
  }

  lemma EntryAdded(entries: seq<(Text, Data)>, i: nat)
    requires i < |entries| && Encodable(entries[i].1) && forall e :: e in entries[..i] ==> Encodable(e.1)
    ensures forall e :: e in entries[..i + 1] ==> Encodable(e.1)
    ensures Body(EntryRaws(entries[..i + 1]))
         == Body(EntryRaws(entries[..i])) + ElementBytes(DataRaw(entries[i].0, entries[i].1))
  {
    hide ElementBytes, Body, DataRaw, Encodable;
    assert entries[..i + 1] == entries[..i] + [entries[i]];
    BodyAppend(EntryRaws(entries[..i]), DataRaw(entries[i].0, entries[i].1));
    assert entries[..i + 1][..i] == entries[..i];
  }

  /** The document of an array: its items under the keys 0, 1, and so on. */
  method ArrayDocument(items: seq<Scalar>) returns (code: Status, document: Bytes)
    requires |items| <= INT32_MAX
    requires (forall v :: v in items ==> !TooLong(v)) ==> |Body(ItemRaws(items))| + EMPTY_DOCUMENT <= INT32_MAX
    ensures code == if exists v :: v in items && TooLong(v) then InvalidParam else Ok
    ensures code == Ok ==> document == DocumentBytes(Body(ItemRaws(items)))
  {
    hide DocumentBytes, Body, TooLong, ItemRaws;
    document := [];
    var arraySer := new Serializer();
    NoItems();
    code := arraySer.AppendItems(items);
    if code != Ok {
      return;
    }
    document := Finish(arraySer, Body(ItemRaws(items)));
  }

  /** Ends a document and hands it out. */
  method Finish(bson: Serializer, ghost list: Bytes) returns (document: Bytes)
    requires bson.Valid() && !bson.terminated && bson.Contents() == [0, 0, 0, 0] + list
    requires |list| + EMPTY_DOCUMENT <= INT32_MAX
    modifies bson, bson.buf
    ensures document == DocumentBytes(list)
  {
    hide DocumentBytes;
    assert bson.Contents()[4..] == list;
    var code := bson.AppendEndOfDocument();
    var done;
    done, document := bson.GetSerialized();
  }

  /** An element whose value is appended in parts. */
  lemma InParts(before: Bytes, kind: Byte, name: Text, a: Bytes, b: Bytes, c: Bytes)
    ensures before + ([kind] + name + [0]) + a + b + c == before + ElementBytes(Raw(kind, name, a + b + c))
    ensures before + ([kind] + name + [0]) + a + (b + c) == before + ElementBytes(Raw(kind, name, a + b + c))
  {
    var header := [kind] + name + [0];
    assert ElementBytes(Raw(kind, name, a + b + c)) == header + (a + b + c);
    assert before + header + a + b + c == before + (header + (a + b + c));
    assert before + header + a + (b + c) == before + (header + (a + b + c));
  }

  lemma NoItems()
    ensures Body(ItemRaws([])) == []
  {
  }

  lemma ItemAdded(items: seq<Scalar>, i: nat)
    requires i < |items| && !TooLong(items[i]) && forall v :: v in items[..i] ==> !TooLong(v)
    ensures forall v :: v in items[..i + 1] ==> !TooLong(v)
    ensures Body(ItemRaws(items[..i + 1])) == Body(ItemRaws(items[..i])) + ElementBytes(ScalarRaw(Decimal(i), items[i]))
  {
    hide ElementBytes, Body, ScalarRaw, TooLong, Decimal;
    assert items[..i + 1] == items[..i] + [items[i]];
    BodyAppend(ItemRaws(items[..i]), ScalarRaw(Decimal(i), items[i]));
    assert items[..i + 1][..i] == items[..i];
  }
}
