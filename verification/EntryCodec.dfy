/** Byte layout of the records kept in flash: entries, the head/tail record and the intent block. */
module EntryCodec {
  import opened Bytes
  import opened SlotIds
  import opened EntryHash
  import opened KvStore

  const NAMESPACE_LEN_BYTES := 2
  const KEY_LEN_BYTES := 2
  const NEXT_ID_BYTES := 4
  const PREV_ID_BYTES := 4
  const OFFSET_NAMESPACE_LEN := 0
  const OFFSET_KEY_LEN := OFFSET_NAMESPACE_LEN + NAMESPACE_LEN_BYTES
  const OFFSET_NEXT_ID := OFFSET_KEY_LEN + KEY_LEN_BYTES
  const OFFSET_PREV_ID := OFFSET_NEXT_ID + NEXT_ID_BYTES
  const FIXED_HEADER_BYTES := OFFSET_PREV_ID + PREV_ID_BYTES

  predicate IsLink(x: int) {
    x == NULL_ID || IsSlot(x)
  }

  // ---- entries

  function EncodeEntry(e: Entry): Bytes {
    Le16(|e.key.ns|) + Le16(|e.key.name|) + Le32(e.next) + Le32(e.prev) + e.key.ns + e.key.name + e.value
  }

  predicate IsEntry(b: Bytes) {
    && FIXED_HEADER_BYTES <= |b|
    && FIXED_HEADER_BYTES + Get16(b, OFFSET_NAMESPACE_LEN) + Get16(b, OFFSET_KEY_LEN) <= |b|
    && IsLink(Get32(b, OFFSET_NEXT_ID)) && IsLink(Get32(b, OFFSET_PREV_ID))
  }

  function DecodeEntry(b: Bytes): Entry
    requires IsEntry(b)
  {
    var n := FIXED_HEADER_BYTES + Get16(b, OFFSET_NAMESPACE_LEN);
    var k := n + Get16(b, OFFSET_KEY_LEN);
    Entry(Key(b[FIXED_HEADER_BYTES..n], b[n..k]), Get32(b, OFFSET_NEXT_ID), Get32(b, OFFSET_PREV_ID), b[k..])
  }

  /** The fixed header and the three strings behind it, read back from an encoded entry. */
  lemma EncodedFields(e: Entry)
    ensures var b := EncodeEntry(e);
      && |b| == FIXED_HEADER_BYTES + |e.key.ns| + |e.key.name| + |e.value|
      && Get16(b, OFFSET_NAMESPACE_LEN) == |e.key.ns| && Get16(b, OFFSET_KEY_LEN) == |e.key.name|
      && Get32(b, OFFSET_NEXT_ID) == e.next && Get32(b, OFFSET_PREV_ID) == e.prev
  {
    hide Le16, Le32, Get16, Get32;
    var b := EncodeEntry(e);
    assert b[0..2] == Le16(|e.key.ns|);
    Read16(b, 0, |e.key.ns|);
    assert b[2..4] == Le16(|e.key.name|);
    Read16(b, 2, |e.key.name|);
    assert b[4..8] == Le32(e.next);
    Read32(b, 4, e.next);
    assert b[8..12] == Le32(e.prev);
    Read32(b, 8, e.prev);
  }

  /** Reading back an entry returns every field that was stored. */
  lemma EntryRoundTrip(e: Entry)
    ensures IsEntry(EncodeEntry(e)) && DecodeEntry(EncodeEntry(e)) == e
  {
    hide Le16, Le32, Get16, Get32;
    EncodedFields(e);
    var b := EncodeEntry(e);
    var n := FIXED_HEADER_BYTES + |e.key.ns|;
    var k := n + |e.key.name|;
    assert b[FIXED_HEADER_BYTES..n] == e.key.ns;
    assert b[n..k] == e.key.name;
    assert b[k..] == e.value;
  }

  /** Two entries with the same bytes are the same entry, so a stored record identifies its fields. */
  lemma EntryBytesUnique(a: Bytes, b: Bytes)
    requires IsEntry(a) && IsEntry(b) && DecodeEntry(a) == DecodeEntry(b)
    ensures a == b
  {
    hide Le16, Le32, Get16, Get32;
    EncodeDecoded(a);
    EncodeDecoded(b);
  }

  lemma EncodeDecoded(b: Bytes)
    requires IsEntry(b)
    ensures EncodeEntry(DecodeEntry(b)) == b
  {
    hide Le16, Le32, Get16, Get32;
    Read16(b, 0, Get16(b, 0));
    Read16(b, 2, Get16(b, 2));
    Read32(b, 4, Get32(b, 4));
    Read32(b, 8, Get32(b, 8));
    var n := FIXED_HEADER_BYTES + Get16(b, 0);
    var k := n + Get16(b, 2);
    assert b[..12] == b[0..2] + b[2..4] + b[4..8] + b[8..12];
    assert b == b[..12] + b[12..n] + b[n..k] + b[k..];
  }

  /** Overwriting four bytes of a record in place. */
  function Patched(b: Bytes, at: nat, v: U32): Bytes
    requires at + 4 <= |b|
  {
    b[..at] + Le32(v) + b[at + 4..]
  }

  /** Patching the next pointer of a stored entry changes that field and no other. */
  lemma PatchNext(b: Bytes, next: Link)
    requires IsEntry(b)
    ensures IsEntry(Patched(b, OFFSET_NEXT_ID, next))
    ensures DecodeEntry(Patched(b, OFFSET_NEXT_ID, next)) == DecodeEntry(b).(next := next)
  {
    PatchField(b, OFFSET_NEXT_ID, next);
  }

  lemma PatchPrev(b: Bytes, prev: Link)
    requires IsEntry(b)
    ensures IsEntry(Patched(b, OFFSET_PREV_ID, prev))
    ensures DecodeEntry(Patched(b, OFFSET_PREV_ID, prev)) == DecodeEntry(b).(prev := prev)
  {
    PatchField(b, OFFSET_PREV_ID, prev);
  }

  lemma PatchField(b: Bytes, at: nat, v: Link)
    requires IsEntry(b) && (at == OFFSET_NEXT_ID || at == OFFSET_PREV_ID)
    ensures var p := Patched(b, at, v);
      && |p| == |b|
      && Get16(p, OFFSET_NAMESPACE_LEN) == Get16(b, OFFSET_NAMESPACE_LEN)
      && Get16(p, OFFSET_KEY_LEN) == Get16(b, OFFSET_KEY_LEN)
      && Get32(p, OFFSET_NEXT_ID) == (if at == OFFSET_NEXT_ID then v else Get32(b, OFFSET_NEXT_ID))
      && Get32(p, OFFSET_PREV_ID) == (if at == OFFSET_PREV_ID then v else Get32(b, OFFSET_PREV_ID))
      && p[FIXED_HEADER_BYTES..] == b[FIXED_HEADER_BYTES..]
  {
    hide Le32;
    var p := Patched(b, at, v);
    assert p[at..at + 4] == Le32(v);
    Read32(p, at, v);
    assert forall i :: 0 <= i < |b| && !(at <= i < at + 4) ==> p[i] == b[i];
  }

  // ---- head/tail record

  function EncodeHeadTail(head: Link, tail: Link): Bytes {
    Le32(head) + Le32(tail)
  }

  predicate IsHeadTail(b: Bytes) {
    |b| == 8 && IsLink(Get32(b, 0)) && IsLink(Get32(b, 4))
  }

  lemma HeadTailRoundTrip(head: Link, tail: Link)
    ensures var b := EncodeHeadTail(head, tail);
      IsHeadTail(b) && Get32(b, 0) == head && Get32(b, 4) == tail
  {
    hide Le32, Get32;
    var b := EncodeHeadTail(head, tail);
    assert b[0..4] == Le32(head);
    Read32(b, 0, head);
    assert b[4..8] == Le32(tail);
    Read32(b, 4, tail);
  }

  // ---- intent block

  function StateByte(intent: Intent): Byte {
    match intent
    case Idle => 0
    case Intent(op, _, _, _) => match op case Inserting => 1 case Updating => 2 case Deleting => 3 case Shifting => 4
  }

  /** The state byte, three bytes of padding and the three identifiers; a cleared block has all of them zero. */
  function EncodeIntent(intent: Intent): Bytes {
    match intent
    case Idle => [0, 0, 0, 0] + Le32(0) + Le32(0) + Le32(0)
    case Intent(op, target, first, second) =>
      [StateByte(intent), 0, 0, 0] + Le32(target) + Le32(first) + Le32(second)
  }

  predicate IsIntent(b: Bytes) {
    && |b| == 16
    && b[0] <= 4
    && (b[0] != 0 ==> IsSlot(Get32(b, 4)) && IsLink(Get32(b, 8)) && IsLink(Get32(b, 12)))
  }

  function DecodeIntent(b: Bytes): Intent
    requires IsIntent(b)
  {
    if b[0] == 0 then Idle
    else
      var op := if b[0] == 1 then Inserting else if b[0] == 2 then Updating else if b[0] == 3 then Deleting else Shifting;
      Intent(op, Get32(b, 4), Get32(b, 8), Get32(b, 12))
  }

  lemma IntentRoundTrip(intent: Intent)
    ensures IsIntent(EncodeIntent(intent)) && DecodeIntent(EncodeIntent(intent)) == intent
  {
    hide Le32, Get32;
    var b := EncodeIntent(intent);
    match intent {
      case Idle =>
      case Intent(op, target, first, second) =>
        assert b[4..8] == Le32(target);
        Read32(b, 4, target);
        assert b[8..12] == Le32(first);
        Read32(b, 8, first);
        var front := [StateByte(intent), 0, 0, 0] + Le32(target) + Le32(first);
        assert b == front + Le32(second) && |front| == 12 && |b| == 16;
        assert forall i :: 0 <= i < 4 ==> b[12 + i] == Le32(second)[i];
        assert b[12..16] == Le32(second);
        Read32(b, 12, second);
    }
  }
}
