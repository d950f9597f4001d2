/** Byte buffers that are filled field by field. */
module Buffers {
  import opened Bytes

  /** The output buffer of a reader; without one only the size is asked for. */
  datatype Room = NoBuffer | Room(capacity: nat)

  method BufferOf(bytes: Bytes) returns (raw: array<Byte>)
    ensures fresh(raw) && raw[..] == bytes
  {
    raw := new Byte[|bytes|](i requires 0 <= i < |bytes| => bytes[i]);
  }

  /** Overwrites part of a buffer. */
  method CopyInto(raw: array<Byte>, at: nat, bytes: Bytes)
    requires at + |bytes| <= raw.Length
    modifies raw
    ensures raw[..] == old(raw[..at]) + bytes + old(raw[at + |bytes|..])
  {
    for i := 0 to |bytes|
      invariant raw[..] == old(raw[..at]) + bytes[..i] + old(raw[at + i..])
    {
      raw[at + i] := bytes[i];
    }
  }

  /** Copies a field behind those already in the buffer and returns the offset after it. */
  method AppendTo(raw: array<Byte>, offset: nat, bytes: Bytes, ghost done: Bytes) returns (next: nat)
    requires offset + |bytes| <= raw.Length && raw[..offset] == done
    modifies raw
    ensures next == offset + |bytes| && raw[..next] == done + bytes
  {
    CopyInto(raw, offset, bytes);
    next := offset + |bytes|;
  }
}
