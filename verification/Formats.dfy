/** The formats byte by byte, in plain numbers, so that what is written can be read by others: the flash by later versions of
    the code, BSON and the introspection by the server. */
module Formats {
  import opened Bytes
  import opened SlotIds
  import opened EntryHash
  import opened KvStore
  import opened EntryCodec
  import opened Options
  import opened DirectAccess
  import opened MqttStorage
  import opened BsonFormat
  import opened AstarteData
  import Decimals
  import Introspection
  import KvFlash
  import AstarteDeserializer
  import BsonSerializer
  import MqttCaching
  import Pacing
  import StorageBoot
  import TransmissionMsg

  // ---- numbers

  /** Little-endian: byte `i` counts 256 to the power of `i`. */
  lemma LittleEndian16(v: U16)
    ensures var b: seq<int> := Le16(v); |b| == 2 && v == b[0] + 256 * b[1]
  {
  }

  lemma LittleEndian32(v: U32)
    ensures var b: seq<int> := Le32(v); |b| == 4 && v == b[0] + 256 * b[1] + 65536 * b[2] + 16777216 * b[3]
  {
    hide Le16;
    LittleEndian16(v % 65536);
    LittleEndian16(v / 65536);
  }

  lemma LittleEndian64(v: U64)
    ensures var b: seq<int> := Le64(v);
      && |b| == 8
      && v == b[0] + 256 * b[1] + 65536 * b[2] + 16777216 * b[3] + 4294967296 * b[4] + 1099511627776 * b[5]
              + 281474976710656 * b[6] + 72057594037927936 * b[7]
  {
    hide Le32;
    LittleEndian32(v % 4294967296);
    LittleEndian32(v / 4294967296);
  }

  /** Two's complement: a signed number and its representation differ by a multiple of the range. */
  lemma TwosComplement(x: I32, y: I64)
    ensures Unsigned(x) == x || Unsigned(x) == x + 4294967296
    ensures Unsigned64(y) == y || Unsigned64(y) == y + 18446744073709551616
    ensures Signed(Unsigned(x)) == x && Signed64(Unsigned64(y)) == y
  {
  }

  /** Decimal digits, the highest first: a further digit multiplies what is in front of it by ten. */
  lemma DecimalDigits(n: nat, digit: nat)
    requires digit < 10
    ensures Decimals.Decimal(digit) == [48 + digit]
    ensures n > 0 ==> Decimals.Decimal(10 * n + digit) == Decimals.Decimal(n) + [48 + digit]
  {
  }

  /** The limits in numbers. */
  lemma Limits()
    ensures BsonFormat.INT32_MAX == 2147483647 && BsonFormat.UINT32_MAX == 4294967295
    ensures BSON_ARRAY_SIZE_STR_LEN == 12 && BsonSerializer.MIN_CAPACITY == 64 && AstarteDeserializer.INITIAL_CAPACITY == 4
    ensures Introspection.NAME_MAX_SIZE == 128 && MqttCaching.LAST_MESSAGE_ID == 65535
    ensures Pacing.MAX_TOKENS == 10 && Pacing.TOKEN_VALUE_MS == 20
  {
  }

  // ---- flash

  /** The identifiers of the flash. */
  lemma Identifiers()
    ensures NULL_ID == 0xFFFF_FFFF && VERSION_ID == 0xFFFF_FFFE && HEAD_AND_TAIL_ID == 0xFFFF_FFFD
    ensures INTENT_ID == 0xFFFF_FFFC && MAX_ID == 0xFFFF_FFFB && MIN_ID == 0x2_0000 && RANGE == 0xFFFD_FFFC
    ensures forall id: U16 :: FullKey(false, id) == id && FullKey(true, id) == 0x1_0000 + id
    ensures forall id: MessageId :: StorageKey(Outgoing, id) == id && StorageKey(Incoming, id) == 0x1_0000 + id
  {
  }

  /** Where a key's entry goes if it can: the hash of the namespace is mixed into that of the key, and the result scaled to
      the slots. */
  lemma NaturalSlot(sysHash: Bytes -> bv32, k: Key)
    ensures HomeOf(sysHash)(k) == Reduce(Value(Combine(sysHash(k.ns), sysHash(k.name))))
  {
    hide Reduce, Value, Combine;
  }

  lemma MixedHashes()
    ensures Combine(0, 1) == 0x9e3779ba && Combine(1, 0) == 0x9e3779f8 && Combine(0x12345678, 0x9abcdef0) == 0xd8a35a3f
  {
  }

  /** Version 0.6.0 is the current one; another is foreign, and fewer than six bytes are truncated. */
  lemma VersionFormats(data: KvFlash.Image, v: Bytes)
    ensures 0xFFFF_FFFE !in data ==> StorageBoot.FormatOf(data) == StorageBoot.Unwritten
    ensures |v| < 6 ==> StorageBoot.FormatOf(data[0xFFFF_FFFE := v]) == StorageBoot.Truncated
    ensures |v| == 6 && v != [0, 0, 6, 0, 0, 0] ==> StorageBoot.FormatOf(data[0xFFFF_FFFE := v]) == StorageBoot.Foreign
    ensures v == [0, 0, 6, 0, 0, 0] ==> StorageBoot.FormatOf(data[0xFFFF_FFFE := v]) == StorageBoot.Current
  {
    assert |v| == 6 ==> v[..6] == v;
  }

  /** Lengths of namespace and key, next link, previous link, and then the three strings. */
  lemma EntryLayout(e: Entry)
    ensures var b, n, k := EncodeEntry(e), |e.key.ns|, |e.key.name|;
      && |b| == 12 + n + k + |e.value|
      && b[0..2] == Le16(n) && b[2..4] == Le16(k) && b[4..8] == Le32(e.next) && b[8..12] == Le32(e.prev)
      && b[12..12 + n] == e.key.ns && b[12 + n..12 + n + k] == e.key.name && b[12 + n + k..] == e.value
  {
    hide Le16, Le32;
    var b, n, k := EncodeEntry(e), |e.key.ns|, |e.key.name|;
    assert b[..12] == Le16(n) + Le16(k) + Le32(e.next) + Le32(e.prev);
    assert b[12..] == e.key.ns + e.key.name + e.value;
    assert b[..12][0..2] == b[0..2] && b[..12][2..4] == b[2..4] && b[..12][4..8] == b[4..8] && b[..12][8..12] == b[8..12];
  }

  lemma RecordLayouts(head: Link, tail: Link, target: Slot, first: Link, second: Link)
    ensures EncodeHeadTail(head, tail) == Le32(head) + Le32(tail)
    ensures EncodeIntent(Idle) == seq(16, _ => 0)
    ensures EncodeIntent(Intent(Inserting, target, first, second)) == [1, 0, 0, 0] + Le32(target) + Le32(first) + Le32(second)
    ensures EncodeIntent(Intent(Updating, target, first, second)) == [2, 0, 0, 0] + Le32(target) + Le32(first) + Le32(second)
    ensures EncodeIntent(Intent(Deleting, target, first, second)) == [3, 0, 0, 0] + Le32(target) + Le32(first) + Le32(second)
    ensures EncodeIntent(Intent(Shifting, target, first, second)) == [4, 0, 0, 0] + Le32(target) + Le32(first) + Le32(second)
    ensures StorageBoot.CurrentVersion() == [0, 0, 6, 0, 0, 0]
  {
    assert Le32(0) == [0, 0, 0, 0];
  }

  /** Quality of service, time, number, the three lengths, and then the three strings of a queued message; and its key, ten
      digits long. */
  lemma QueuedLayout(m: TransmissionMsg.Msg, id: U32)
    ensures var b, n, p := TransmissionMsg.Encode(m), |m.interfaceName|, |m.path|;
      && |b| == 32 + n + p + |m.payload|
      && b[0..4] == Le32(Unsigned(m.qos)) && b[4..12] == Le64(m.timestamp) && b[12..20] == Le64(m.sequenceNumber)
      && b[20..24] == Le32(n) && b[24..28] == Le32(p) && b[28..32] == Le32(|m.payload|)
      && b[32..32 + n] == m.interfaceName && b[32 + n..32 + n + p] == m.path && b[32 + n + p..] == m.payload
    ensures |TransmissionMsg.KeyOf(id)| == 10 && Decimals.Parse(TransmissionMsg.KeyOf(id)) == id
    ensures forall x :: x in TransmissionMsg.KeyOf(id) ==> 48 <= x <= 57
  {
    hide Le32, Le64, Unsigned;
    var b := TransmissionMsg.Encode(m);
    assert b == Le32(Unsigned(m.qos)) + (Le64(m.timestamp) + (Le64(m.sequenceNumber) + (Le32(|m.interfaceName|)
      + (Le32(|m.path|) + (Le32(|m.payload|) + (m.interfaceName + (m.path + m.payload)))))));
    TransmissionMsg.KeyRoundTrip(id);
    DigitsOnly(id);
  }

  lemma {:induction false} DigitsOnly(n: nat)
    ensures forall x :: x in Decimals.Decimal(n) ==> 48 <= x <= 57
  {
    if n >= 10 {
      DigitsOnly(n / 10);
    }
  }

  /** Kind, quality of service, the two lengths, topic and payload of a pending message. */
  lemma PendingLayout(m: Message)
    ensures var b, t := EncodeMessage(m), |m.topic|;
      && b[0..4] == (match m.kind
                     case Subscription => [0, 0, 0, 0]
                     case Publish => [1, 0, 0, 0]
                     case Pubrec => [2, 0, 0, 0])
      && b[4..8] == Le32(Unsigned(m.qos)) && b[8..12] == Le32(t) && b[12..16] == Le32(|m.data|)
      && b[16..16 + t] == m.topic && b[16 + t..] == m.data
  {
    hide Le32, Unsigned, KindCode;
    KindBytes();
    var b := EncodeMessage(m);
    assert b == Le32(KindCode(m.kind)) + (Le32(Unsigned(m.qos)) + (Le32(|m.topic|) + (Le32(|m.data|) + (m.topic + m.data))));
  }

  lemma KindBytes()
    ensures Le32(KindCode(Subscription)) == [0, 0, 0, 0]
    ensures Le32(KindCode(Publish)) == [1, 0, 0, 0] && Le32(KindCode(Pubrec)) == [2, 0, 0, 0]
  {
  }

  // ---- BSON

  /** An element of each type: type byte, name, terminator and value. */
  lemma ElementLayouts(name: Text, i: I32, l: I64, bits: U64, s: Text, b: Bytes, v: bool)
    requires |s| <= 0x7FFF_FFFF && |b| <= 0x7FFF_FFFF
    ensures ElementBytes(ScalarRaw(name, Double(bits))) == [0x01] + name + [0] + Le64(bits)
    ensures ElementBytes(ScalarRaw(name, Str(s))) == [0x02] + name + [0] + (Le32(|s| + 1) + s + [0])
    ensures ElementBytes(ScalarRaw(name, BinaryBlob(b))) == [0x05] + name + [0] + (Le32(|b|) + [0x00] + b)
    ensures ElementBytes(ScalarRaw(name, Boolean(v))) == [0x08] + name + [0] + [if v then 1 else 0]
    ensures ElementBytes(ScalarRaw(name, DateTime(l))) == [0x09] + name + [0] + Le64(Unsigned64(l))
    ensures ElementBytes(ScalarRaw(name, Integer(i))) == [0x10] + name + [0] + Le32(Unsigned(i))
    ensures ElementBytes(ScalarRaw(name, LongInteger(l))) == [0x12] + name + [0] + Le64(Unsigned64(l))
  {
    hide Le32, Le64, Unsigned, Unsigned64;
  }

  /** How long the value of each type is: fixed, or as its first four bytes declare. */
  lemma ValueSizes(list: Bytes, value: nat)
    requires value + 4 <= |list|
    ensures ValueSize(list, 0x01, value) == ValueSize(list, 0x09, value) == ValueSize(list, 0x12, value) == Some(8)
    ensures ValueSize(list, 0x10, value) == Some(4) && ValueSize(list, 0x08, value) == Some(1)
    ensures Get32(list, value) <= 0x7FFF_FFFF ==>
      var size := Get32(list, value);
      && ValueSize(list, 0x02, value) == Some(4 + size) && ValueSize(list, 0x05, value) == Some(5 + size)
      && ValueSize(list, 0x03, value) == ValueSize(list, 0x04, value) == Some(size)
    ensures forall kind: Byte :: kind !in [0x01, 0x02, 0x03, 0x04, 0x05, 0x08, 0x09, 0x10, 0x12] ==>
      ValueSize(list, kind, value) == None
  {
    hide Get32;
  }

  /** An array is a document of its items under the keys 0, 1, and so on. */
  lemma ArrayLayout(name: Text, t: ScalarType, items: seq<Scalar>)
    requires Encodable(Many(t, items))
    ensures ElementBytes(DataRaw(name, Many(t, items))) == [0x04] + name + [0] + DocumentBytes(Body(ItemRaws(items)))
    ensures |ItemRaws(items)| == |items|
    ensures forall k :: 0 <= k < |items| ==> ItemRaws(items)[k] == ScalarRaw(Decimals.Decimal(k), items[k])
  {
    hide ScalarRaw, Decimals.Decimal, DocumentBytes, Body;
  }

  /** A document is its size, its elements one after the other, and a NUL. */
  lemma DocumentLayout(e: Raw, es: seq<Raw>, list: Bytes)
    requires |list| <= 0x7FFF_0000
    ensures DocumentBytes(list) == Le32(|list| + 5) + list + [0]
    ensures Body([]) == [] && Body([e] + es) == ElementBytes(e) + Body(es)
  {
    hide Le32, ElementBytes;
    assert ([e] + es)[1..] == es;
  }

  // ---- introspection

  /** Name, major and minor version between colons; semicolons between interfaces. */
  lemma IntrospectionLayout(i: Introspection.Interface, j: Introspection.Interface)
    ensures Introspection.Joined([i, j])
         == i.name + [58] + Decimals.Decimal(i.major) + [58] + Decimals.Decimal(i.minor) + [59]
            + (j.name + [58] + Decimals.Decimal(j.major) + [58] + Decimals.Decimal(j.minor))
  {
    hide Decimals.Decimal;
    assert [i, j][1..] == [j];
  }
}
