/** Direct access to the flash: values under 16-bit keys, in two spaces, beside the key-value store. */
module DirectAccess {
  import opened Bytes
  import opened Buffers
  import opened SlotIds
  import opened KvStore
  import opened KvPrograms
  import opened EntryCodec
  import opened KvFlash

  /** The flash identifier of a direct key. */
  function FullKey(alternate: bool, key: U16): U32 {
    if alternate then 0x1_0000 + key as int else key
  }

  /** The two key spaces never collide, and no direct key is a slot or a record of the key-value store. */
  lemma FullKeysApart(a: bool, k: U16, b: bool, l: U16)
    ensures FullKey(a, k) == FullKey(b, l) <==> a == b && k == l
    ensures Elsewhere(FullKey(a, k)) && FullKey(a, k) < MIN_ID
  {
  }

  lemma DirectKeepsStore(before: Image, after: Image)
    requires WellFormedImage(before) && 0 !in after
    requires forall id :: id >= MIN_ID ==> (id in after <==> id in before) && (id in after ==> after[id] == before[id])
    ensures WellFormedImage(after) && Decode(after) == Decode(before)
  {
    hide IsEntry, IsIntent, IsHeadTail, DecodeEntry, DecodeIntent, Get32;
  }

  method DirectInsert(flash: Flash, alternate: bool, key: U16, value: Bytes) returns (code: Code)
    requires flash.Valid() && FullKey(alternate, key) != 0
    modifies flash`data
    ensures flash.Valid() && flash.Store() == old(flash.Store())
    ensures code == if value == [] then InvalidParam else Ok
    ensures flash.data == if value == [] then old(flash.data) else old(flash.data)[FullKey(alternate, key) := value]
  {
    hide WellFormedImage, Decode;
    if value == [] {
      return InvalidParam;
    }
    ghost var before := flash.data;
    ImageHasNoZero(before);
    flash.data := flash.data[FullKey(alternate, key) := value];
    DirectKeepsStore(before, flash.data);
    return Ok;
  }

  /** Without a buffer only the size is returned. */
  method DirectFind(flash: Flash, alternate: bool, key: U16, buffer: Room) returns (code: Code, value: Bytes, size: nat)
    ensures var id := FullKey(alternate, key);
      if id !in flash.data then code == NotFound
      else if buffer.NoBuffer? then code == Ok && size == |flash.data[id]|
      else if buffer.capacity < |flash.data[id]| then code == InvalidParam && size == |flash.data[id]|
      else code == Ok && value == flash.data[id] && size == |value|
  {
    var id := FullKey(alternate, key);
    if id !in flash.data {
      return NotFound, [], 0;
    }
    size := |flash.data[id]|;
    if buffer.NoBuffer? {
      return Ok, [], size;
    }
    if buffer.capacity < size {
      return InvalidParam, [], size;
    }
    return Ok, flash.data[id], size;
  }

  method DirectDelete(flash: Flash, alternate: bool, key: U16) returns (code: Code)
    requires flash.Valid()
    modifies flash`data
    ensures flash.Valid() && flash.Store() == old(flash.Store())
    ensures code == Ok && flash.data == old(flash.data) - {FullKey(alternate, key)}
  {
    hide WellFormedImage, Decode;
    ghost var before := flash.data;
    ImageHasNoZero(before);
    flash.data := flash.data - {FullKey(alternate, key)};
    DirectKeepsStore(before, flash.data);
    return Ok;
  }

  lemma ImageHasNoZero(data: Image)
    requires WellFormedImage(data)
    ensures 0 !in data
  {
  }
}
