/** Byte layout of a stored outgoing message and of the decimal keys it is stored under. */
module TransmissionMsg {
  import opened Bytes
  import opened KvStore
  import opened Buffers
  import opened Decimals

  /** Length of a size field; the layout follows a target with 32-bit `size_t` and `int`. */
  const SIZE_T_BYTES := 4
  const STATIC_BYTES := 4 + 8 + 8 + 4 + 4 + 4

  /** A payload whose length fits a signed 32-bit integer. */
  type Payload = b: Bytes | |b| < 0x8000_0000

  datatype Msg = Msg(interfaceName: Field, path: Field, payload: Payload, qos: I32, timestamp: U64, sequenceNumber: U64)

  function Static(m: Msg): (b: Bytes)
    ensures |b| == STATIC_BYTES
  {
    Le32(Unsigned(m.qos)) + Le64(m.timestamp) + Le64(m.sequenceNumber) + Le32(|m.interfaceName|) + Le32(|m.path|)
    + Le32(|m.payload|)
  }

  function Encode(m: Msg): Bytes {
    Static(m) + m.interfaceName + m.path + m.payload
  }

  /** The fixed fields at the start of a buffer. */
  lemma StaticFields(b: Bytes, m: Msg)
    requires STATIC_BYTES <= |b| && b[..STATIC_BYTES] == Static(m)
    ensures Get32(b, 0) == Unsigned(m.qos) && Get64(b, 4) == m.timestamp && Get64(b, 12) == m.sequenceNumber
    ensures Get32(b, 20) == |m.interfaceName| && Get32(b, 24) == |m.path| && Get32(b, 28) == |m.payload|
  {
    hide Le32, Le64, Get32, Get64, Unsigned;
    var s := Static(m);
    assert b[0..4] == b[..STATIC_BYTES][0..4] == Le32(Unsigned(m.qos));
    Read32(b, 0, Unsigned(m.qos));
    assert b[4..12] == b[..STATIC_BYTES][4..12] == Le64(m.timestamp);
    Read64(b, 4, m.timestamp);
    assert b[12..20] == b[..STATIC_BYTES][12..20] == Le64(m.sequenceNumber);
    Read64(b, 12, m.sequenceNumber);
    assert b[20..24] == b[..STATIC_BYTES][20..24] == Le32(|m.interfaceName|);
    Read32(b, 20, |m.interfaceName|);
    assert b[24..28] == b[..STATIC_BYTES][24..28] == Le32(|m.path|);
    Read32(b, 24, |m.path|);
    assert b[28..32] == b[..STATIC_BYTES][28..32] == Le32(|m.payload|);
    Read32(b, 28, |m.payload|);
  }

  /** A buffer starts with at most one encoded message. */
  lemma EncodeIsPrefixFree(a: Msg, b: Msg, buffer: Bytes)
    requires Encode(a) <= buffer && Encode(b) <= buffer
    ensures a == b
  {
    hide Le32, Le64, Get32, Get64, Static;
    assert buffer[..STATIC_BYTES] == Encode(a)[..STATIC_BYTES] == Static(a);
    assert buffer[..STATIC_BYTES] == Encode(b)[..STATIC_BYTES] == Static(b);
    StaticFields(buffer, a);
    StaticFields(buffer, b);
    var i := STATIC_BYTES + |a.interfaceName|;
    var p := i + |a.path|;
    assert Encode(a)[STATIC_BYTES..i] == a.interfaceName && Encode(b)[STATIC_BYTES..i] == b.interfaceName;
    assert Encode(a)[i..p] == a.path && Encode(b)[i..p] == b.path;
    assert Encode(a)[p..] == a.payload && Encode(b)[p..] == b.payload;
    assert Encode(a) == buffer[..|Encode(a)|] && Encode(b) == buffer[..|Encode(b)|];
  }

  /** Lays a message out in a buffer of exactly its size. */
  method Serialize(m: Msg) returns (buffer: array<Byte>)
    ensures fresh(buffer) && buffer[..] == Encode(m)
  {
    hide Le32, Le64, Unsigned;
    var size := STATIC_BYTES + |m.interfaceName| + |m.path| + |m.payload|;
    buffer := new Byte[size](_ => 0);
    var qos, ts, seqNo := Le32(Unsigned(m.qos)), Le64(m.timestamp), Le64(m.sequenceNumber);
    var offset := AppendTo(buffer, 0, qos, []);
    offset := AppendTo(buffer, offset, ts, qos);
    offset := AppendTo(buffer, offset, seqNo, qos + ts);
    offset := AppendTo(buffer, offset, Le32(|m.interfaceName|), qos + ts + seqNo);
    ghost var done := qos + ts + seqNo + Le32(|m.interfaceName|);
    offset := AppendTo(buffer, offset, Le32(|m.path|), done);
    offset := AppendTo(buffer, offset, Le32(|m.payload|), done + Le32(|m.path|));
    assert done + Le32(|m.path|) + Le32(|m.payload|) == Static(m);
    if |m.interfaceName| > 0 {
      offset := AppendTo(buffer, offset, m.interfaceName, Static(m));
    }
    assert buffer[..offset] == Static(m) + m.interfaceName;
    if |m.path| > 0 {
      offset := AppendTo(buffer, offset, m.path, Static(m) + m.interfaceName);
    }
    assert buffer[..offset] == Static(m) + m.interfaceName + m.path;
    if |m.payload| > 0 {
      offset := AppendTo(buffer, offset, m.payload, Static(m) + m.interfaceName + m.path);
    }
    assert buffer[..] == buffer[..offset];
  }

  /** Reads a message back. It succeeds exactly when the buffer starts with an encoded message, and returns that
      message. */
  method Decode(buffer: Bytes) returns (code: Code, msg: Msg)
    ensures code == Ok <==> exists m :: Encode(m) <= buffer
    ensures code == Ok ==> Encode(msg) <= buffer
    ensures code == Ok || code == InternalError
  {
    hide Le32, Le64, Get32, Get64, Static, Signed, Unsigned;
    msg := Msg([], [], [], 0, 0, 0);
    if STATIC_BYTES > |buffer| {
      return InternalError, msg;
    }
    var qos := Signed(Get32(buffer, 0));
    var timestamp := Get64(buffer, 4);
    var sequenceNumber := Get64(buffer, 12);
    var nameLen := Get32(buffer, 20);
    var pathLen := Get32(buffer, 24);
    var payloadLen := Signed(Get32(buffer, 28));
    var offset := STATIC_BYTES;
    forall m | Encode(m) <= buffer
      ensures offset + nameLen + pathLen + payloadLen <= |buffer| && payloadLen >= 0
    {
      assert buffer[..STATIC_BYTES] == Encode(m)[..STATIC_BYTES] == Static(m);
      StaticFields(buffer, m);
      SignedLength(m);
    }
    if offset + nameLen > |buffer| {
      return InternalError, msg;
    }
    var interfaceName := buffer[offset..offset + nameLen];
    offset := offset + nameLen;
    if offset + pathLen > |buffer| {
      return InternalError, msg;
    }
    var path := buffer[offset..offset + pathLen];
    offset := offset + pathLen;
    if payloadLen < 0 {
      return InternalError, msg;
    }
    var payload := [];
    if payloadLen > 0 {
      if offset + payloadLen > |buffer| {
        return InternalError, msg;
      }
      payload := buffer[offset..offset + payloadLen];
    }
    msg := Msg(interfaceName, path, payload, qos, timestamp, sequenceNumber);
    DecodedStatic(buffer, msg);
    assert Encode(msg) <= buffer;
    return Ok, msg;
  }

  lemma SignedLength(m: Msg)
    ensures Signed(|m.payload|) == |m.payload|
  {
  }

  lemma DecodedStatic(b: Bytes, m: Msg)
    requires STATIC_BYTES <= |b|
    requires m.qos == Signed(Get32(b, 0)) && m.timestamp == Get64(b, 4) && m.sequenceNumber == Get64(b, 12)
    requires |m.interfaceName| == Get32(b, 20) && |m.path| == Get32(b, 24) && |m.payload| == Signed(Get32(b, 28))
    ensures b[..STATIC_BYTES] == Static(m)
  {
    hide Le32, Le64, Get32, Get64;
    Read32(b, 0, Get32(b, 0));
    Read64(b, 4, Get64(b, 4));
    Read64(b, 12, Get64(b, 12));
    Read32(b, 20, Get32(b, 20));
    Read32(b, 24, Get32(b, 24));
    Read32(b, 28, Get32(b, 28));
    assert b[..STATIC_BYTES] == b[0..4] + b[4..12] + b[12..20] + b[20..24] + b[24..28] + b[28..32];
  }

  // ---- keys

  const KEY_DIGITS := 10

  /** The key of an identifier, and back. */
  function KeyOf(id: U32): (b: Bytes)
    ensures |b| == KEY_DIGITS
  {
    Pow10Ten();
    DecimalLength(id, KEY_DIGITS);
    Padded(id, KEY_DIGITS)
  }

  lemma KeyRoundTrip(id: U32)
    ensures Parse(KeyOf(id)) == id
  {
    ParsePadded(id, KEY_DIGITS);
  }
}
