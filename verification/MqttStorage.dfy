/** Byte layout of a pending MQTT message in flash, and the flash copy of the pending messages of each direction. */
module MqttStorage {
  import opened Bytes
  import opened SlotIds
  import opened KvStore
  import opened KvPrograms
  import opened KvFlash
  import opened Buffers
  import opened DirectAccess

  datatype Direction = Outgoing | Incoming

  datatype Kind = Subscription | Publish | Pubrec

  /** An absent topic or an absent payload is one of length zero. */
  datatype Message = Message(kind: Kind, topic: Field, data: Field, qos: I32)

  /** A packet identifier; zero is not one (section 2.3.1 of MQTT Version 3.1.1). */
  type MessageId = x: int | 1 <= x <= 0xFFFF witness 1

  const FIELD_BYTES := 4 + 4 + 4 + 4

  function KindCode(k: Kind): U32 {
    match k
    case Subscription => 0
    case Publish => 1
    case Pubrec => 2
  }

  function KindOf(code: U32): Kind {
    if code == 0 then Subscription else if code == 1 then Publish else Pubrec
  }

  function Fields(m: Message): (b: Bytes)
    ensures |b| == FIELD_BYTES
  {
    Le32(KindCode(m.kind)) + Le32(Unsigned(m.qos)) + Le32(|m.topic|) + Le32(|m.data|)
  }

  function EncodeMessage(m: Message): (b: Bytes)
    ensures |b| == FIELD_BYTES + |m.topic| + |m.data|
  {
    Fields(m) + m.topic + m.data
  }

  lemma ReadFields(m: Message)
    ensures var b := EncodeMessage(m);
      && KindOf(Get32(b, 0)) == m.kind && Signed(Get32(b, 4)) == m.qos
      && Get32(b, 8) == |m.topic| && Get32(b, 12) == |m.data|
  {
    hide Le32, Get32;
    var b := EncodeMessage(m);
    assert b[0..4] == Le32(KindCode(m.kind));
    assert b[4..8] == Le32(Unsigned(m.qos));
    assert b[8..12] == Le32(|m.topic|);
    assert b[12..16] == Le32(|m.data|);
    Read32(b, 0, KindCode(m.kind));
    Read32(b, 4, Unsigned(m.qos));
    Read32(b, 8, |m.topic|);
    Read32(b, 12, |m.data|);
  }

  /** The layout keeps every field apart: two messages with the same bytes are the same. */
  lemma EncodeMessageUnique(a: Message, b: Message)
    requires EncodeMessage(a) == EncodeMessage(b)
    ensures a == b
  {
    hide Le32, Get32, Fields, KindOf, Signed;
    ReadFields(a);
    ReadFields(b);
    var e, at := EncodeMessage(a), FIELD_BYTES + |a.topic|;
    assert e[FIELD_BYTES..at] == a.topic && e[at..] == a.data;
    assert e[FIELD_BYTES..at] == b.topic && e[at..] == b.data;
  }

  function DirectionToAlternate(d: Direction): bool {
    d == Incoming
  }

  function StorageKey(d: Direction, id: MessageId): U32 {
    FullKey(DirectionToAlternate(d), id)
  }

  /** The image holds exactly these messages of a direction. */
  ghost predicate Holds(data: Image, d: Direction, messages: map<MessageId, Message>) {
    forall id: MessageId ::
      && (StorageKey(d, id) in data <==> id in messages)
      && (id in messages ==> data[StorageKey(d, id)] == EncodeMessage(messages[id]))
  }

  /** Two images differ at most in the messages of a direction. */
  ghost predicate SameBeside(d: Direction, before: Image, after: Image) {
    forall key: U32 :: (forall id: MessageId :: key != StorageKey(d, id)) ==>
      (key in after <==> key in before) && (key in after ==> after[key] == before[key])
  }

  lemma KeysApart(d: Direction, i: MessageId, e: Direction, j: MessageId)
    ensures StorageKey(d, i) == StorageKey(e, j) <==> d == e && i == j
    ensures StorageKey(d, i) != 0
  {
  }

  /** What one direction writes never shows in the other. */
  lemma BesideKeeps(d: Direction, before: Image, after: Image, messages: map<MessageId, Message>)
    requires SameBeside(d, before, after)
    ensures Holds(before, if d == Incoming then Outgoing else Incoming, messages)
       <==> Holds(after, if d == Incoming then Outgoing else Incoming, messages)
  {
    hide StorageKey;
    var e := if d == Incoming then Outgoing else Incoming;
    forall id: MessageId
      ensures (StorageKey(e, id) in after <==> StorageKey(e, id) in before)
        && (StorageKey(e, id) in after ==> after[StorageKey(e, id)] == before[StorageKey(e, id)])
    {
      forall j: MessageId
        ensures StorageKey(e, id) != StorageKey(d, j)
      {
        KeysApart(e, id, d, j);
      }
    }
  }

  /** Nor does anything that the key-value store writes. */
  lemma StoreKeepsMessages(before: Image, after: Image, d: Direction, messages: map<MessageId, Message>)
    requires SameElsewhere(before, after)
    ensures Holds(before, d, messages) <==> Holds(after, d, messages)
  {
    hide StorageKey, EncodeMessage;
    forall id: MessageId
      ensures Elsewhere(StorageKey(d, id))
    {
      KeyElsewhere(d, id);
    }
  }

  lemma KeyElsewhere(d: Direction, id: MessageId)
    ensures Elsewhere(StorageKey(d, id))
  {
    FullKeysApart(DirectionToAlternate(d), id, DirectionToAlternate(d), id);
  }

  lemma InsertHolds(data: Image, d: Direction, messages: map<MessageId, Message>, id: MessageId, m: Message)
    requires Holds(data, d, messages)
    ensures Holds(data[StorageKey(d, id) := EncodeMessage(m)], d, messages[id := m])
    ensures SameBeside(d, data, data[StorageKey(d, id) := EncodeMessage(m)])
  {
    hide StorageKey, EncodeMessage;
    forall j: MessageId
      ensures StorageKey(d, j) == StorageKey(d, id) <==> j == id
    {
      KeysApart(d, j, d, id);
    }
  }

  lemma DeleteHolds(data: Image, d: Direction, messages: map<MessageId, Message>, id: MessageId)
    requires Holds(data, d, messages)
    ensures Holds(data - {StorageKey(d, id)}, d, messages - {id})
    ensures SameBeside(d, data, data - {StorageKey(d, id)})
  {
    hide StorageKey, EncodeMessage;
    forall j: MessageId
      ensures StorageKey(d, j) == StorageKey(d, id) <==> j == id
    {
      KeysApart(d, j, d, id);
    }
  }

  /** An order in which these identifiers come one by one. */
  ghost predicate Lists(order: seq<MessageId>, ids: set<MessageId>) {
    && (forall i, j :: 0 <= i < j < |order| ==> order[i] != order[j])
    && forall id :: id in order <==> id in ids
  }

  function Among(order: seq<MessageId>): set<MessageId> {
    set id | id in order
  }

  /** The image after these messages were deleted one by one. */
  function Cleared(data: Image, d: Direction, order: seq<MessageId>): Image {
    if order == [] then data
    else Cleared(data, d, order[..|order| - 1]) - {StorageKey(d, order[|order| - 1])}
  }

  /** Cut short after any number of deletions, the clearing leaves exactly the messages it did not reach. */
  lemma {:induction false} ClearedHolds(data: Image, d: Direction, messages: map<MessageId, Message>,
                                        order: seq<MessageId>)
    requires Holds(data, d, messages)
    ensures Holds(Cleared(data, d, order), d, messages - Among(order))
    ensures SameBeside(d, data, Cleared(data, d, order))
  {
    hide StorageKey, EncodeMessage, Holds;
    if order == [] {
      SameImage(d, data);
      assert messages - Among(order) == messages;
    } else {
      var rest, last := order[..|order| - 1], order[|order| - 1];
      ClearedHolds(data, d, messages, rest);
      DeleteHolds(Cleared(data, d, rest), d, messages - Among(rest), last);
      SameBesideTrans(d, data, Cleared(data, d, rest), Cleared(data, d, order));
      assert order == rest + [last];
      assert messages - Among(rest) - {last} == messages - Among(order);
    }
  }

  lemma SameImage(d: Direction, data: Image)
    ensures SameBeside(d, data, data)
  {
  }

  lemma SameBesideTrans(d: Direction, a: Image, b: Image, c: Image)
    requires SameBeside(d, a, b) && SameBeside(d, b, c)
    ensures SameBeside(d, a, c)
  {
    hide StorageKey;
  }

  /** Lays a message out in a buffer of exactly its size and stores it. */
  method Insert(flash: Flash, d: Direction, id: MessageId, m: Message) returns (code: Code)
    requires flash.Valid()
    modifies flash`data
    ensures flash.Valid() && flash.Store() == old(flash.Store())
    ensures code == Ok && flash.data == old(flash.data)[StorageKey(d, id) := EncodeMessage(m)]
  {
    hide Le32, Unsigned, KindCode, WellFormedImage, Decode;
    KeysApart(d, id, d, id);
    var buffer := new Byte[FIELD_BYTES + |m.topic| + |m.data|](_ => 0);
    var kind, qos := Le32(KindCode(m.kind)), Le32(Unsigned(m.qos));
    var offset := AppendTo(buffer, 0, kind, []);
    offset := AppendTo(buffer, offset, qos, kind);
    offset := AppendTo(buffer, offset, Le32(|m.topic|), kind + qos);
    offset := AppendTo(buffer, offset, Le32(|m.data|), kind + qos + Le32(|m.topic|));
    if |m.topic| > 0 {
      offset := AppendTo(buffer, offset, m.topic, Fields(m));
    }
    assert buffer[..offset] == Fields(m) + m.topic;
    if |m.data| > 0 {
      offset := AppendTo(buffer, offset, m.data, Fields(m) + m.topic);
    }
    assert buffer[..] == buffer[..offset] == EncodeMessage(m);
    code := DirectInsert(flash, DirectionToAlternate(d), id, buffer[..]);
  }

  /** Reads a message back. The record is one that `Insert` wrote. */
  method FindAlloc(flash: Flash, d: Direction, id: MessageId, ghost messages: map<MessageId, Message>)
      returns (code: Code, m: Message)
    requires Holds(flash.data, d, messages)
    ensures if id in messages then code == Ok && m == messages[id] else code == NotFound
  {
    hide EncodeMessage, Get32, Fields, KindOf, Signed;
    m := Message(Subscription, [], [], 0);
    var valueSize, buffer;
    code, buffer, valueSize := DirectFind(flash, DirectionToAlternate(d), id, NoBuffer);
    if code != Ok {
      return;
    }
    code, buffer, valueSize := DirectFind(flash, DirectionToAlternate(d), id, Room(valueSize));
    ReadFields(messages[id]);
    var kind := KindOf(Get32(buffer, 0));
    var qos := Signed(Get32(buffer, 4));
    var topicLen := Get32(buffer, 8);
    var dataSize := Get32(buffer, 12);
    var offset := FIELD_BYTES;
    var topic, data := [], [];
    ReadParts(messages[id]);
    if topicLen > 0 {
      topic := buffer[offset..offset + topicLen];
      offset := offset + topicLen;
    }
    if dataSize > 0 {
      data := buffer[offset..offset + dataSize];
    }
    m := Message(kind, topic, data, qos);
  }

  lemma ReadParts(m: Message)
    ensures var b, at := EncodeMessage(m), FIELD_BYTES + |m.topic|;
      b[FIELD_BYTES..at] == m.topic && b[at..at + |m.data|] == m.data
  {
    hide Fields;
    var b, at := EncodeMessage(m), FIELD_BYTES + |m.topic|;
    assert b[FIELD_BYTES..at] == m.topic;
    assert b[at..at + |m.data|] == m.data;
  }

  method Delete(flash: Flash, d: Direction, id: MessageId) returns (code: Code)
    requires flash.Valid()
    modifies flash`data
    ensures flash.Valid() && flash.Store() == old(flash.Store())
    ensures code == Ok && flash.data == old(flash.data) - {StorageKey(d, id)}
  {
    code := DirectDelete(flash, DirectionToAlternate(d), id);
  }
}
