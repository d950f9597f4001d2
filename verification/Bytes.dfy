/** Byte strings and the little-endian integers stored in them. */
module Bytes {
  type Byte = x: int | 0 <= x < 0x100
  type Bytes = seq<Byte>

  /** Bytes without a NUL, as a C string holds them. */
  type Text = b: Bytes | 0 !in b

  const TWO32 := 0x1_0000_0000

  type U16 = x: int | 0 <= x < 0x1_0000
  type U32 = x: int | 0 <= x < 0x1_0000_0000
  type U64 = x: int | 0 <= x < 0x1_0000_0000_0000_0000

  type I32 = x: int | -0x8000_0000 <= x < 0x8000_0000

  type I64 = x: int | -0x8000_0000_0000_0000 <= x < 0x8000_0000_0000_0000

  /** A byte string whose length fits a 32-bit size. */
  type Field = b: Bytes | |b| < 0x1_0000_0000

  /** The two's complement representation of a signed integer. */
  function Unsigned(x: I32): U32 {
    if x < 0 then x + 0x1_0000_0000 else x
  }

  function Signed(x: U32): I32 {
    if x < 0x8000_0000 then x else x - 0x1_0000_0000
  }

  function Unsigned64(x: I64): U64 {
    if x < 0 then x + 0x1_0000_0000_0000_0000 else x
  }

  function Signed64(x: U64): I64 {
    if x < 0x8000_0000_0000_0000 then x else x - 0x1_0000_0000_0000_0000
  }

  function Le16(v: U16): (b: Bytes)
    ensures |b| == 2
  {
    [v % 0x100, v / 0x100]
  }

  function Le32(v: U32): (b: Bytes)
    ensures |b| == 4
  {
    Le16(v % 0x1_0000) + Le16(v / 0x1_0000)
  }

  function Le64(v: U64): (b: Bytes)
    ensures |b| == 8
  {
    Le32(v % 0x1_0000_0000) + Le32(v / 0x1_0000_0000)
  }

  function Get16(b: Bytes, at: nat): U16
    requires at + 2 <= |b|
  {
    b[at] as int + 0x100 * b[at + 1] as int
  }

  function Get32(b: Bytes, at: nat): U32
    requires at + 4 <= |b|
  {
    Get16(b, at) as int + 0x1_0000 * Get16(b, at + 2) as int
  }

  function Get64(b: Bytes, at: nat): U64
    requires at + 8 <= |b|
  {
    Get32(b, at) as int + 0x1_0000_0000 * Get32(b, at + 4) as int
  }

  /** Reading back a 16-bit field returns what was stored there, and nothing else is stored so. */
  lemma Read16(b: Bytes, at: nat, v: U16)
    requires at + 2 <= |b|
    ensures b[at..at + 2] == Le16(v) <==> Get16(b, at) == v
  {
    assert b[at..at + 2] == [b[at], b[at + 1]];
  }

  lemma Read32(b: Bytes, at: nat, v: U32)
    requires at + 4 <= |b|
    ensures b[at..at + 4] == Le32(v) <==> Get32(b, at) == v
  {
    Read16(b, at, v % 0x1_0000);
    Read16(b, at + 2, v / 0x1_0000);
    assert b[at..at + 4] == b[at..at + 2] + b[at + 2..at + 4];
    if b[at..at + 4] == Le32(v) {
      assert b[at..at + 2] == Le32(v)[..2] && b[at + 2..at + 4] == Le32(v)[2..];
    }
  }

  lemma Read64(b: Bytes, at: nat, v: U64)
    requires at + 8 <= |b|
    ensures b[at..at + 8] == Le64(v) <==> Get64(b, at) == v
  {
    Read32(b, at, v % 0x1_0000_0000);
    Read32(b, at + 4, v / 0x1_0000_0000);
    assert b[at..at + 8] == b[at..at + 4] + b[at + 4..at + 8];
    if b[at..at + 8] == Le64(v) {
      assert b[at..at + 4] == Le64(v)[..4] && b[at + 4..at + 8] == Le64(v)[4..];
    }
  }

  /** A field of a part of a buffer is a field of the buffer. */
  lemma Get32Within(b: Bytes, at: nat, end: nat)
    requires at + 4 <= end <= |b|
    ensures Get32(b[at..end], 0) == Get32(b, at)
  {
    var p := b[at..end];
    assert p[0] == b[at] && p[1] == b[at + 1] && p[2] == b[at + 2] && p[3] == b[at + 3];
  }

  lemma PartOfPart(b: Bytes, at: nat, end: nat, i: nat, j: nat)
    requires at <= end <= |b| && i <= j <= end - at
    ensures b[at..end][i..j] == b[at + i..at + j]
  {
    var part := b[at..end];
    assert forall k :: i <= k < j ==> part[k] == b[at + k];
    assert forall k :: 0 <= k < j - i ==> part[i..j][k] == b[at + i..at + j][k];
  }
}
