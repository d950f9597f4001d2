/** Natural slot of an entry: the two string hashes combined, then reduced to the slot range. */
module EntryHash {
  import opened Bytes
  import opened SlotIds

  const HASH_COMBINE_MAGIC: bv32 := 0x9e3779b9

  /** A namespace or key string; its length has to fit the 16-bit length field of an entry. */
  type Name = b: Bytes | |b| < 0x1_0000

  /** The entry's identity: the namespace it lives in and its key there. */
  datatype Key = Key(ns: Name, name: Name)

  /** Maps every key to the slot where probing for it starts. */
  type Home = Key -> Slot

  function Combine(nsp: bv32, key: bv32): bv32 {
    nsp ^ (key + HASH_COMBINE_MAGIC + (nsp << 6) + (nsp >> 2))
  }

  /** Multiply-and-shift reduction of a 32-bit hash to the slot range. */
  function Reduce(hash: U32): (s: Slot)
    ensures (s - MIN_ID) * 0x1_0000_0000 <= hash * RANGE < (s - MIN_ID + 1) * 0x1_0000_0000
  {
    ReduceBound(hash);
    MIN_ID + (hash * RANGE) / 0x1_0000_0000
  }

  lemma ReduceBound(hash: U32)
    ensures 0 <= (hash * RANGE) / 0x1_0000_0000 < RANGE
  {
  }

  /** The reduction is monotone and reaches both ends of the range, so no slot is out of its reach by more
      than the width of one step. */
  lemma ReduceSpansRange(a: U32, b: U32)
    requires a <= b
    ensures Reduce(a) <= Reduce(b)
    ensures Reduce(0) == MIN_ID && Reduce(0xFFFF_FFFF) == MAX_ID
    ensures a < 0xFFFF_FFFF ==> Reduce(a + 1) - Reduce(a) <= 1
  {
  }

  function Value(h: bv32): U32 {
    h as U32
  }

  function Generate(sysHash: Bytes -> bv32, k: Key): Slot {
    Reduce(Value(Combine(sysHash(k.ns), sysHash(k.name))))
  }

  /** The probing start used by the store, for a given system hash function. */
  function HomeOf(sysHash: Bytes -> bv32): Home {
    k => Generate(sysHash, k)
  }
}
