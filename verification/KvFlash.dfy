/** The storage routines on the flash image itself. Each is proved to write exactly the sequence of states, and to
    return exactly the code, of its program in KvPrograms. */
module KvFlash {
  import opened Bytes
  import opened SlotIds
  import opened EntryHash
  import opened KvStore
  import opened KvPrograms
  import opened KvProbing
  import opened EntryCodec
  import opened Buffers

  type Image = map<U32, Bytes>

  /** Every record has the layout of its kind, and the direct-access key 0 is unused. */
  predicate WellFormedImage(data: Image) {
    && (forall id :: id in data && IsSlot(id) ==> IsEntry(data[id]))
    && (HEAD_AND_TAIL_ID in data ==> IsHeadTail(data[HEAD_AND_TAIL_ID]))
    && (INTENT_ID in data ==> IsIntent(data[INTENT_ID]))
    && 0 !in data
  }

  /** The store that a flash image stands for; an absent record reads as null pointers and no intent. */
  function Decode(data: Image): Store
    requires WellFormedImage(data)
  {
    Store(
      map id: U32 | id in data && IsSlot(id) :: id := DecodeEntry(data[id]),
      if HEAD_AND_TAIL_ID in data then Get32(data[HEAD_AND_TAIL_ID], 0) else NULL_ID,
      if HEAD_AND_TAIL_ID in data then Get32(data[HEAD_AND_TAIL_ID], 4) else NULL_ID,
      if INTENT_ID in data then DecodeIntent(data[INTENT_ID]) else Idle)
  }

  lemma DecodeWithEntry(data: Image, id: Slot, raw: Bytes)
    requires WellFormedImage(data) && IsEntry(raw)
    ensures WellFormedImage(data[id := raw])
    ensures Decode(data[id := raw]) == Decode(data).(slots := Decode(data).slots[id := DecodeEntry(raw)])
  {
    hide IsEntry, DecodeEntry, IsIntent, DecodeIntent, IsHeadTail, Get32;
    HeadTailLinks(data);
  }

  lemma DecodeWithoutEntry(data: Image, id: Slot)
    requires WellFormedImage(data)
    ensures WellFormedImage(data - {id})
    ensures Decode(data - {id}) == Decode(data).(slots := Decode(data).slots - {id})
  {
    hide IsEntry, DecodeEntry, IsIntent, DecodeIntent, IsHeadTail, Get32;
    HeadTailLinks(data);
  }

  lemma DecodeWithHeadTail(data: Image, head: Link, tail: Link)
    requires WellFormedImage(data)
    ensures var d := data[HEAD_AND_TAIL_ID := EncodeHeadTail(head, tail)];
      WellFormedImage(d) && Decode(d) == Decode(data).(head := head, tail := tail)
  {
    hide IsEntry, DecodeEntry, IsIntent, DecodeIntent, Get32, EncodeHeadTail;
    HeadTailRoundTrip(head, tail);
  }

  lemma DecodeWithIntent(data: Image, intent: Intent)
    requires WellFormedImage(data)
    ensures var d := data[INTENT_ID := EncodeIntent(intent)];
      WellFormedImage(d) && Decode(d) == Decode(data).(intent := intent)
  {
    hide IsEntry, DecodeEntry, IsIntent, DecodeIntent, IsHeadTail, Get32, EncodeIntent;
    HeadTailLinks(data);
    IntentRoundTrip(intent);
  }

  lemma HeadTailLinks(data: Image)
    requires WellFormedImage(data)
    ensures HEAD_AND_TAIL_ID in data ==>
      var b := data[HEAD_AND_TAIL_ID]; |b| == 8 && IsLink(Get32(b, 0)) && IsLink(Get32(b, 4))
  {
  }

  predicate Elsewhere(id: U32) {
    !IsSlot(id) && id != HEAD_AND_TAIL_ID && id != INTENT_ID
  }

  ghost predicate SameElsewhere(before: Image, after: Image) {
    forall id :: Elsewhere(id) ==> (id in after <==> id in before) && (id in after ==> after[id] == before[id])
  }

  /** From image `before` to image `after`, the flash went through exactly the states `states`; identifiers outside
      the slots and the two records of the store kept their contents. */
  ghost predicate Wrote(before: Image, log0: seq<Store>, after: Image, log1: seq<Store>, states: seq<Store>) {
    && WellFormedImage(before) && WellFormedImage(after)
    && Decode(after) == (if states == [] then Decode(before) else states[|states| - 1])
    && log1 == log0 + states
    && SameElsewhere(before, after)
  }

  lemma WroteNothing(data: Image, log: seq<Store>)
    requires WellFormedImage(data)
    ensures Wrote(data, log, data, log, [])
  {
  }

  lemma WroteThen(d0: Image, l0: seq<Store>, d1: Image, l1: seq<Store>, d2: Image, l2: seq<Store>,
                  a: seq<Store>, b: seq<Store>)
    requires Wrote(d0, l0, d1, l1, a) && Wrote(d1, l1, d2, l2, b)
    ensures Wrote(d0, l0, d2, l2, a + b)
  {
    hide WellFormedImage, Decode;
    assert l0 + a + b == l0 + (a + b);
  }

  lemma SameTrans(a: Image, b: Image, c: Image)
    requires SameElsewhere(a, b) && SameElsewhere(b, c)
    ensures SameElsewhere(a, c)
  {
  }

  lemma SameRefl(a: Image)
    ensures SameElsewhere(a, a)
  {
  }

  /** The fixed part of an entry's header. */
  datatype FixedHeader = FixedHeader(nspLen: U16, keyLen: U16, next: U32, prev: U32)

  function FixedHeaderOf(raw: Bytes): FixedHeader
    requires FIXED_HEADER_BYTES <= |raw|
  {
    FixedHeader(Get16(raw, OFFSET_NAMESPACE_LEN), Get16(raw, OFFSET_KEY_LEN),
                Get32(raw, OFFSET_NEXT_ID), Get32(raw, OFFSET_PREV_ID))
  }

  lemma EntryAt(data: Image, idx: Slot)
    requires WellFormedImage(data)
    ensures idx in data <==> idx in Decode(data).slots
    ensures idx in data ==> IsEntry(data[idx]) && Decode(data).slots[idx] == DecodeEntry(data[idx])
    ensures idx in data ==>
      var e := Decode(data).slots[idx];
      FixedHeaderOf(data[idx]) == FixedHeader(|e.key.ns|, |e.key.name|, e.next, e.prev)
  {
  }

  // ---- the shift loop's progress

  /** What one round of the shift loop writes. */
  function ShiftBack(h: Home, s: Store, idx: Slot, hole: Slot): Run {
    if idx !in s.slots then Nothing(NotFound)
    else if Moves(h, s, hole, idx) then Move(s, idx, hole)
    else Nothing(Ok)
  }

  lemma MoveCode(s: Store, from: Slot, hole: Slot)
    requires from in s.slots
    ensures Move(s, from, hole).code != NotFound
  {
  }

  /** One round of the shift loop and the rest of it. */
  lemma ShiftRound(h: Home, s: Store, hole: Slot, curr: Slot)
    requires curr != hole
    ensures var r, all := ShiftBack(h, s, curr, hole), ShiftFrom(h, s, hole, curr);
      && (r.code == NotFound <==> curr !in s.slots)
      && (r.code == NotFound ==> r.log == [] && all == Nothing(Ok))
      && (r.code != NotFound && r.code != Ok ==> all == r)
      && (r.code == Ok && !Moves(h, s, hole, curr) ==> r.log == [] && all == ShiftFrom(h, s, hole, Next(curr)))
      && (r.code == Ok && Moves(h, s, hole, curr) ==>
            var s1 := End(s, r).(intent := Intent(Shifting, curr, NULL_ID, NULL_ID));
            var rest := ShiftFrom(h, s1, curr, Next(curr));
            && all == Run(r.log + [s1] + rest.log, rest.code)
            && Displacement(h, s1.slots) < Displacement(h, s.slots))
  {
    hide Move, Moves;
    if curr in s.slots {
      MoveCode(s, curr, hole);
      if Moves(h, s, hole, curr) && Move(s, curr, hole).code == Ok {
        MoveLowersDisplacement(h, s, curr, hole);
      }
    }
  }

  /** What the loop has written and what it is still to write make up its whole run. */
  ghost predicate Progress(h: Home, d0: Image, l0: seq<Store>, d: Image, l: seq<Store>, done: seq<Store>, run: Run,
                           hole: Slot, curr: Slot)
  {
    && Wrote(d0, l0, d, l, done)
    && var rest := ShiftFrom(h, Decode(d), hole, curr);
       run == Run(done + rest.log, rest.code)
  }

  lemma ShiftStarts(h: Home, d: Image, l: seq<Store>, hole: Slot)
    requires WellFormedImage(d)
    ensures Progress(h, d, l, d, l, [], ResumeShift(h, Decode(d), hole), hole, Next(hole))
  {
    hide ShiftFrom, Decode, WellFormedImage;
    WroteNothing(d, l);
    assert [] + ResumeShift(h, Decode(d), hole).log == ResumeShift(h, Decode(d), hole).log;
  }

  lemma ShiftLaps(h: Home, d0: Image, l0: seq<Store>, d: Image, l: seq<Store>, done: seq<Store>, run: Run, hole: Slot)
    requires Progress(h, d0, l0, d, l, done, run, hole, hole)
    ensures Wrote(d0, l0, d, l, run.log) && run.code == Ok
  {
    hide Wrote;
    assert done + [] == done;
  }

  /** The round found no entry, or failed: the loop returns. */
  lemma ShiftStops(h: Home, d0: Image, l0: seq<Store>, d1: Image, l1: seq<Store>, d2: Image, l2: seq<Store>,
                   done: seq<Store>, run: Run, hole: Slot, curr: Slot)
    requires Progress(h, d0, l0, d1, l1, done, run, hole, curr) && curr != hole
    requires var r := ShiftBack(h, Decode(d1), curr, hole); r.code != Ok && Wrote(d1, l1, d2, l2, r.log)
    ensures Wrote(d0, l0, d2, l2, run.log)
    ensures var r := ShiftBack(h, Decode(d1), curr, hole); run.code == if r.code == NotFound then Ok else r.code
  {
    hide ShiftFrom, ShiftBack, Decode, WellFormedImage, Moves, SameElsewhere;
    ShiftRound(h, Decode(d1), hole, curr);
    WroteThen(d0, l0, d1, l1, d2, l2, done, ShiftBack(h, Decode(d1), curr, hole).log);
  }

  /** The round left its entry alone. */
  lemma ShiftPasses(h: Home, d0: Image, l0: seq<Store>, d1: Image, l1: seq<Store>, d2: Image, l2: seq<Store>,
                    done: seq<Store>, run: Run, hole: Slot, curr: Slot)
    requires Progress(h, d0, l0, d1, l1, done, run, hole, curr) && curr != hole
    requires var r := ShiftBack(h, Decode(d1), curr, hole); r.code == Ok && Wrote(d1, l1, d2, l2, r.log)
    requires curr in Decode(d1).slots && !Moves(h, Decode(d1), hole, curr)
    ensures Progress(h, d0, l0, d2, l2, done, run, hole, Next(curr)) && Decode(d2) == Decode(d1)
  {
    hide ShiftFrom, ShiftBack, Decode, WellFormedImage, Moves, SameElsewhere;
    ShiftRound(h, Decode(d1), hole, curr);
    WroteThen(d0, l0, d1, l1, d2, l2, done, []);
    assert done + [] == done;
  }

  /** The round moved its entry, and the intent block now names the new hole. */
  lemma ShiftRelocates(h: Home, d0: Image, l0: seq<Store>, d1: Image, l1: seq<Store>, d2: Image, l2: seq<Store>,
                       d3: Image, l3: seq<Store>, done: seq<Store>, run: Run, hole: Slot, curr: Slot)
    requires Progress(h, d0, l0, d1, l1, done, run, hole, curr) && curr != hole
    requires var r := ShiftBack(h, Decode(d1), curr, hole); r.code == Ok && Wrote(d1, l1, d2, l2, r.log)
    requires curr in Decode(d1).slots && Moves(h, Decode(d1), hole, curr)
    requires Wrote(d2, l2, d3, l3, [Decode(d2).(intent := Intent(Shifting, curr, NULL_ID, NULL_ID))])
    ensures Progress(h, d0, l0, d3, l3, done + ShiftBack(h, Decode(d1), curr, hole).log + [Decode(d3)], run,
                     curr, Next(curr))
    ensures Displacement(h, Decode(d3).slots) < Displacement(h, Decode(d1).slots)
  {
    hide ShiftFrom, ShiftBack, Decode, WellFormedImage, Moves, SameElsewhere, Displacement;
    ShiftRound(h, Decode(d1), hole, curr);
    var r := ShiftBack(h, Decode(d1), curr, hole);
    WroteThen(d0, l0, d1, l1, d2, l2, done, r.log);
    WroteThen(d0, l0, d2, l2, d3, l3, done + r.log, [Decode(d3)]);
    var rest := ShiftFrom(h, Decode(d3), curr, Next(curr));
    assert done + (r.log + [Decode(d3)] + rest.log) == done + r.log + [Decode(d3)] + rest.log;
  }

  // ---- unlinking and recovery, step by step

  /** The head/tail record after an entry between `prev` and `next` is gone. */
  function DetachEnds(s: Store, prev: Link, next: Link): Run {
    if prev == NULL_ID || next == NULL_ID then
      SetHeadTail(s, if prev == NULL_ID then next else s.head, if next == NULL_ID then prev else s.tail)
    else Nothing(Ok)
  }

  lemma DetachSteps(s: Store, idx: Slot, prev: Link, next: Link)
    ensures var r1 := if prev != NULL_ID then SetNext(s, prev, next) else Nothing(Ok);
      if r1.code != Ok then Detach(s, idx, prev, next) == r1
      else
        var s1 := End(s, r1);
        var r2 := if next != NULL_ID then SetPrev(s1, next, prev) else Nothing(Ok);
        if r2.code != Ok then Detach(s, idx, prev, next) == Run(r1.log + r2.log, r2.code)
        else
          var s2 := End(s1, r2);
          var r3 := DetachEnds(s2, prev, next);
          var s3 := End(s2, r3);
          Detach(s, idx, prev, next) == Run(r1.log + r2.log + r3.log + Erase(s3, idx).log, Ok)
  {
    hide SetNext, SetPrev;
    var r1 := if prev != NULL_ID then SetNext(s, prev, next) else Nothing(Ok);
    if r1.code == Ok {
      var s1 := End(s, r1);
      var r2 := if next != NULL_ID then SetPrev(s1, next, prev) else Nothing(Ok);
      if r2.code == Ok {
        var s2 := End(s1, r2);
        var r3 := DetachEnds(s2, prev, next);
        var s3 := End(s2, r3);
        assert r1.log + (r2.log + (r3.log + Erase(s3, idx).log)) == r1.log + r2.log + r3.log + Erase(s3, idx).log;
      }
    }
  }

  lemma EntryWriteSteps(s: Store, idx: Slot, k: Key, value: Bytes)
    ensures var there := idx in s.slots;
      var prev, next := if there then s.slots[idx].prev else s.tail, if there then s.slots[idx].next else NULL_ID;
      var s1 := s.(intent := Intent(if there then Updating else Inserting, idx, prev, next));
      var s2 := s1.(slots := s1.slots[idx := Entry(k, next, prev, value)]);
      var r := if there then Nothing(Ok) else UpdateTail(s2, idx);
      KvPrograms.EntryWrite(s, idx, k, value)
        == Run([s1, s2] + r.log + if r.code == Ok then [End(s2, r).(intent := Idle)] else [], r.code)
  {
  }

  lemma HeaderFits(raw: Bytes)
    requires IsEntry(raw)
    ensures FIXED_HEADER_BYTES <= |raw|
  {
  }

  lemma FirstHoleIs(slots: Slots, target: Slot, hole: Slot)
    requires target <= hole && hole !in slots && forall x: Slot :: target <= x < hole ==> x in slots
    ensures !ScanLeavesRange(slots, target) && FirstHole(slots, target) == hole
  {
    assert !ScanLeavesRange(slots, target);
    assert FirstHole(slots, target) !in slots;
  }

  lemma IntentAt(data: Image)
    requires WellFormedImage(data)
    ensures INTENT_ID !in data ==> Decode(data).intent == Idle
    ensures INTENT_ID in data ==> IsIntent(data[INTENT_ID]) && Decode(data).intent == DecodeIntent(data[INTENT_ID])
  {
  }

  class Flash {
    const sysHash: Bytes -> bv32
    var data: Image
    /** The decoded flash state after each write. */
    ghost var log: seq<Store>

    ghost predicate Valid()
      reads this
    {
      WellFormedImage(data)
    }

    ghost function Store(): Store
      reads this
      requires Valid()
    {
      Decode(data)
    }

    ghost function Home(): Home {
      HomeOf(sysHash)
    }

    constructor (sysHash: Bytes -> bv32)
      ensures Valid() && Store() == KvStore.Store(map[], NULL_ID, NULL_ID, Idle)
      ensures log == [] && this.sysHash == sysHash
    {
      this.sysHash := sysHash;
      data := map[];
      log := [];
    }

    // ---- single writes

    method WriteEntry(id: Slot, raw: Bytes)
      requires Valid() && IsEntry(raw)
      modifies this
      ensures var s := old(Store());
        Wrote(old(data), old(log), data, log, [s.(slots := s.slots[id := DecodeEntry(raw)])])
    {
      DecodeWithEntry(data, id, raw);
      data := data[id := raw];
      log := log + [Decode(data)];
    }

    method Delete(id: Slot)
      requires Valid()
      modifies this
      ensures Wrote(old(data), old(log), data, log, Erase(old(Store()), id).log)
    {
      DecodeWithoutEntry(data, id);
      data := data - {id};
      log := log + [Decode(data)];
    }

    method WriteHeadAndTailIds(head: Link, tail: Link)
      requires Valid()
      modifies this
      ensures Wrote(old(data), old(log), data, log, SetHeadTail(old(Store()), head, tail).log)
    {
      DecodeWithHeadTail(data, head, tail);
      data := data[HEAD_AND_TAIL_ID := EncodeHeadTail(head, tail)];
      log := log + [Decode(data)];
    }

    method IntentWrite(op: Operation, target: Slot, first: Link, second: Link)
      requires Valid()
      modifies this
      ensures Wrote(old(data), old(log), data, log, SetIntent(old(Store()), Intent(op, target, first, second)).log)
    {
      var intent := Intent(op, target, first, second);
      DecodeWithIntent(data, intent);
      data := data[INTENT_ID := EncodeIntent(intent)];
      log := log + [Decode(data)];
    }

    method IntentClear()
      requires Valid()
      modifies this
      ensures Wrote(old(data), old(log), data, log, SetIntent(old(Store()), Idle).log)
    {
      DecodeWithIntent(data, Idle);
      data := data[INTENT_ID := EncodeIntent(Idle)];
      log := log + [Decode(data)];
    }

    // ---- reads

    method HeaderReadFixed(idx: U32) returns (code: Code, header: FixedHeader, rawSize: nat)
      ensures code == (if idx !in data then NotFound else if |data[idx]| < FIXED_HEADER_BYTES then ZmsError else Ok)
      ensures code == Ok ==> header == FixedHeaderOf(data[idx]) && rawSize == |data[idx]|
    {
      header := FixedHeader(0, 0, 0, 0);
      rawSize := 0;
      if idx !in data {
        return NotFound, header, rawSize;
      }
      var raw := data[idx];
      if |raw| < FIXED_HEADER_BYTES {
        return ZmsError, header, rawSize;
      }
      header := FixedHeader(Get16(raw, OFFSET_NAMESPACE_LEN), Get16(raw, OFFSET_KEY_LEN),
                            Get32(raw, OFFSET_NEXT_ID), Get32(raw, OFFSET_PREV_ID));
      return Ok, header, |raw|;
    }

    /** Reads the header with the namespace and key strings behind it. */
    method HeaderRead(idx: U32) returns (code: Code, header: FixedHeader, key: Key, rawSize: nat)
      ensures idx !in data ==> code == NotFound
      ensures idx in data && IsEntry(data[idx]) ==>
        && code == Ok && header == FixedHeaderOf(data[idx]) && rawSize == |data[idx]|
        && key == DecodeEntry(data[idx]).key
      ensures idx in data && code != Ok ==> code == ZmsError
    {
      key := Key([], []);
      code, header, rawSize := HeaderReadFixed(idx);
      if code != Ok {
        return;
      }
      var size := FIXED_HEADER_BYTES + header.nspLen + header.keyLen;
      if rawSize < size {
        return ZmsError, header, key, rawSize;
      }
      var raw := data[idx][..size];
      var nsp := FIXED_HEADER_BYTES + header.nspLen;
      key := Key(raw[FIXED_HEADER_BYTES..nsp], raw[nsp..size]);
      assert raw[FIXED_HEADER_BYTES..nsp] == data[idx][FIXED_HEADER_BYTES..nsp];
      assert raw[nsp..size] == data[idx][nsp..size];
    }

    method ReadHeadAndTailIds() returns (head: Link, tail: Link)
      requires Valid()
      ensures head == Store().head && tail == Store().tail
    {
      if HEAD_AND_TAIL_ID !in data {
        return NULL_ID, NULL_ID;
      }
      var ids := data[HEAD_AND_TAIL_ID];
      return Get32(ids, 0), Get32(ids, 4);
    }

    /** The size of a stored value. */
    method ReadValueSize(idx: Slot) returns (code: Code, size: nat)
      requires Valid()
      ensures var slots := Store().slots;
        if idx in slots then code == Ok && size == |slots[idx].value| else code == NotFound && size == 0
    {
      var header, rawSize;
      code, header, rawSize := HeaderReadFixed(idx);
      if code != Ok {
        return code, 0;
      }
      size := rawSize - (FIXED_HEADER_BYTES + header.nspLen + header.keyLen);
    }

    /** A stored value, unless the caller's buffer is too small for it. */
    method ReadValue(idx: Slot, capacity: nat) returns (code: Code, value: Bytes)
      requires Valid()
      ensures var slots := Store().slots;
        if idx !in slots then code == NotFound && value == []
        else if capacity < |slots[idx].value| then code == InvalidParam && value == []
        else code == Ok && value == slots[idx].value
    {
      value := [];
      var header, rawSize;
      code, header, rawSize := HeaderReadFixed(idx);
      if code != Ok {
        return;
      }
      var headerSize := FIXED_HEADER_BYTES + header.nspLen + header.keyLen;
      if capacity < rawSize - headerSize {
        return InvalidParam, [];
      }
      value := data[idx][headerSize..];
    }

    /** A stored key with a terminator, if the caller's buffer has room for both, or the size of the two. */
    method ReadKey(idx: Slot, buffer: Room) returns (code: Code, key: Bytes, size: nat)
      requires Valid()
      ensures var slots := Store().slots;
        if idx !in slots then code == NotFound
        else
          var name := slots[idx].key.name;
          if buffer.NoBuffer? then code == Ok && size == |name| + 1
          else if buffer.capacity < |name| + 1 then code == InvalidParam
          else code == Ok && key == name + [0] && size == |key|
    {
      key, size := [], 0;
      var header, k, rawSize;
      code, header, k, rawSize := HeaderRead(idx);
      if code != Ok {
        return;
      }
      if buffer.NoBuffer? {
        size := header.keyLen + 1;
        return;
      }
      if buffer.capacity < header.keyLen + 1 {
        code := InvalidParam;
        return;
      }
      key := k.name + [0];
      size := header.keyLen + 1;
    }

    method CheckNamespace(idx: Slot, ns: Name) returns (matches: bool)
      requires Valid()
      ensures matches <==> idx in Store().slots && Store().slots[idx].key.ns == ns
    {
      var code, header, key, rawSize := HeaderRead(idx);
      if code != Ok {
        return false;
      }
      if header.nspLen != |ns| {
        return false;
      }
      return key.ns == ns;
    }

    /** The entry after `idx` in the list, or the head when there is no current entry. */
    method GetNextId(idx: Link) returns (code: Code, next: Link)
      requires Valid()
      ensures var s := Store();
        if idx == NULL_ID then code == Ok && next == s.head
        else if idx in s.slots then code == Ok && next == s.slots[idx].next
        else code == NotFound && next == NULL_ID
    {
      if idx == NULL_ID {
        var headId, tailId := ReadHeadAndTailIds();
        return Ok, headId;
      }
      EntryAt(data, idx);
      var header, rawSize;
      code, header, rawSize := HeaderReadFixed(idx);
      if code != Ok {
        return code, NULL_ID;
      }
      return Ok, header.next;
    }

    method GetPrevId(idx: Link) returns (code: Code, prev: Link)
      requires Valid()
      ensures var s := Store();
        if idx == NULL_ID then code == Ok && prev == NULL_ID
        else if idx in s.slots then code == Ok && prev == s.slots[idx].prev
        else code == NotFound && prev == NULL_ID
    {
      if idx == NULL_ID {
        return Ok, NULL_ID;
      }
      EntryAt(data, idx);
      var header, rawSize;
      code, header, rawSize := HeaderReadFixed(idx);
      if code != Ok {
        return code, NULL_ID;
      }
      return Ok, header.prev;
    }

    // ---- entry_list.c

    /** Overwrites the next pointer inside a stored entry. */
    method UpdateNextId(idx: Slot, next: Link) returns (code: Code)
      requires Valid()
      modifies this
      ensures code == SetNext(old(Store()), idx, next).code
      ensures Wrote(old(data), old(log), data, log, SetNext(old(Store()), idx, next).log)
    {
      hide SameElsewhere, WellFormedImage, DecodeEntry, IsEntry, Le32;
      EntryAt(data, idx);
      WroteNothing(data, log);
      if idx !in data {
        return ZmsError;
      }
      HeaderFits(data[idx]);
      var raw := BufferOf(data[idx]);
      CopyInto(raw, OFFSET_NEXT_ID, Le32(next));
      PatchNext(data[idx], next);
      WriteEntry(idx, raw[..]);
      return Ok;
    }

    method UpdatePrevId(idx: Slot, prev: Link) returns (code: Code)
      requires Valid()
      modifies this
      ensures code == SetPrev(old(Store()), idx, prev).code
      ensures Wrote(old(data), old(log), data, log, SetPrev(old(Store()), idx, prev).log)
    {
      hide SameElsewhere, WellFormedImage, DecodeEntry, IsEntry, Le32;
      EntryAt(data, idx);
      WroteNothing(data, log);
      if idx !in data {
        return ZmsError;
      }
      HeaderFits(data[idx]);
      var raw := BufferOf(data[idx]);
      CopyInto(raw, OFFSET_PREV_ID, Le32(prev));
      PatchPrev(data[idx], prev);
      WriteEntry(idx, raw[..]);
      return Ok;
    }

    // ---- entry.c

    /** Whether the entry at `idx` holds the key. */
    method CheckEntryMatch(idx: Slot, k: Key) returns (code: Code)
      requires Valid()
      ensures var slots := Store().slots;
        code == if idx !in slots then NotFound else if slots[idx].key == k then Ok else Mismatch
    {
      var header, key, rawSize;
      code, header, key, rawSize := HeaderRead(idx);
      if code != Ok {
        return;
      }
      if header.nspLen != |k.ns| || header.keyLen != |k.name| {
        return Mismatch;
      }
      if key.ns != k.ns || key.name != k.name {
        return Mismatch;
      }
    }

    /** Linear probing from the natural slot. */
    method FindOrAlloc(k: Key, allocate: bool) returns (code: Code, idx: Slot)
      requires Valid()
      ensures match Lookup(Home(), Store().slots, k)
        case Found(at) => code == Ok && idx == at
        case Hole(at) => if allocate then code == Ok && idx == at else code == NotFound
        case NoRoom => code == Full
    {
      var start := Generate(sysHash, k);
      var curr: Slot := start;
      ghost var left: nat := RANGE;
      while true
        invariant 0 < left <= RANGE && Dist(start, curr) == RANGE - left
        invariant Lookup(Home(), Store().slots, k) == ProbeFrom(Store().slots, k, curr, left)
        decreases left
      {
        code := CheckEntryMatch(curr, k);
        if code == NotFound {
          if !allocate {
            return NotFound, curr;
          }
          return Ok, curr;
        }
        if code == Ok {
          return Ok, curr;
        }
        DistNext(start, curr);
        curr := if curr + 1 > MAX_ID then MIN_ID else curr + 1;
        left := left - 1;
        if curr == start {
          break;
        }
      }
      return Full, start;
    }

    method SerializeEntry(e: Entry) returns (entry: array<Byte>)
      ensures fresh(entry) && entry[..] == EncodeEntry(e)
    {
      hide Le16, Le32;
      var size := FIXED_HEADER_BYTES + |e.key.ns| + |e.key.name| + |e.value|;
      entry := new Byte[size](_ => 0);
      var offset := AppendTo(entry, 0, Le16(|e.key.ns|), []);
      offset := AppendTo(entry, offset, Le16(|e.key.name|), Le16(|e.key.ns|));
      ghost var done := Le16(|e.key.ns|) + Le16(|e.key.name|);
      offset := AppendTo(entry, offset, Le32(e.next), done);
      offset := AppendTo(entry, offset, Le32(e.prev), done + Le32(e.next));
      done := done + Le32(e.next) + Le32(e.prev);
      offset := AppendTo(entry, offset, e.key.ns, done);
      offset := AppendTo(entry, offset, e.key.name, done + e.key.ns);
      offset := AppendTo(entry, offset, e.value, done + e.key.ns + e.key.name);
      assert entry[..] == entry[..offset];
    }

    method UpdateListTail(tail: Slot) returns (code: Code)
      requires Valid()
      modifies this
      ensures code == UpdateTail(old(Store()), tail).code
      ensures Wrote(old(data), old(log), data, log, UpdateTail(old(Store()), tail).log)
    {
      var headId, tailId := ReadHeadAndTailIds();
      ghost var r := Nothing(Ok);
      ghost var d0, l0 := data, log;
      if tailId != NULL_ID {
        r := SetNext(Store(), tailId, tail);
        code := UpdateNextId(tailId, tail);
        if code != Ok {
          return;
        }
      } else {
        headId := tail;
      }
      ghost var d1, l1 := data, log;
      WriteHeadAndTailIds(headId, tail);
      WroteThen(d0, l0, d1, l1, data, log, r.log, SetHeadTail(Decode(d1), headId, tail).log);
      return Ok;
    }

    /** Writes an entry into the slot found for it, under an intent block. */
    method EntryWrite(idx: Slot, k: Key, value: Bytes) returns (code: Code)
      requires Valid()
      modifies this
      ensures code == KvPrograms.EntryWrite(old(Store()), idx, k, value).code
      ensures Wrote(old(data), old(log), data, log, KvPrograms.EntryWrite(old(Store()), idx, k, value).log)
    {
      hide Decode, SameElsewhere, WellFormedImage, DecodeEntry, IsEntry, EncodeEntry, UpdateTail, Le32,
        KvPrograms.EntryWrite;
      EntryAt(data, idx);
      EntryWriteSteps(Store(), idx, k, value);
      var endOfList := false;
      var prev, next: Link := NULL_ID, NULL_ID;
      var found, header, rawSize := HeaderReadFixed(idx);
      if found == Ok {
        next, prev := header.next, header.prev;
      } else {
        var headId, tailId := ReadHeadAndTailIds();
        prev := tailId;
        endOfList := true;
      }
      var raw := SerializeEntry(Entry(k, next, prev, value));
      EntryRoundTrip(Entry(k, next, prev, value));
      ghost var d0, l0 := data, log;
      IntentWrite(if endOfList then Inserting else Updating, idx, prev, next);
      ghost var d1, l1 := data, log;
      WriteEntry(idx, raw[..]);
      ghost var s1, s2 := Decode(d1), Store();
      WroteThen(d0, l0, d1, l1, data, log, [s1], [s2]);
      ghost var r := Nothing(Ok);
      ghost var d2, l2 := data, log;
      if endOfList {
        r := UpdateTail(s2, idx);
        code := UpdateListTail(idx);
        WroteThen(d0, l0, d2, l2, data, log, [s1, s2], r.log);
        if code != Ok {
          assert KvPrograms.EntryWrite(Decode(d0), idx, k, value).log == [s1, s2] + r.log;
          return;
        }
      }
      ghost var d3, l3 := data, log;
      IntentClear();
      WroteThen(d0, l0, d3, l3, data, log, [s1, s2] + r.log, [Store()]);
      assert KvPrograms.EntryWrite(Decode(d0), idx, k, value).log == [s1, s2] + r.log + [Store()];
      return Ok;
    }

    // ---- entry_delete.c

    method UpdateShiftedEntryNeighbors(header: FixedHeader, hole: Slot) returns (code: Code)
      requires Valid() && IsLink(header.prev) && IsLink(header.next)
      modifies this
      ensures code == Relink(old(Store()), header.prev, header.next, hole).code
      ensures Wrote(old(data), old(log), data, log, Relink(old(Store()), header.prev, header.next, hole).log)
    {
      ghost var d0, l0 := data, log;
      if header.prev != NULL_ID {
        code := UpdateNextId(header.prev, hole);
        if code != Ok {
          return;
        }
      } else {
        var headId, tailId := ReadHeadAndTailIds();
        WriteHeadAndTailIds(hole, tailId);
      }
      ghost var d1, l1 := data, log;
      if header.next != NULL_ID {
        code := UpdatePrevId(header.next, hole);
        WroteThen(d0, l0, d1, l1, data, log, LinkPrev(Decode(d0), header.prev, hole).log,
                  LinkNext(Decode(d1), header.next, hole).log);
      } else {
        var headId, tailId := ReadHeadAndTailIds();
        WriteHeadAndTailIds(headId, hole);
        WroteThen(d0, l0, d1, l1, data, log, LinkPrev(Decode(d0), header.prev, hole).log,
                  LinkNext(Decode(d1), header.next, hole).log);
        code := Ok;
      }
    }

    method ShiftBackSingleEntry(idx: U32, hole: U32) returns (code: Code, performed: bool)
      requires Valid() && (idx <= 1 || (IsSlot(idx) && IsSlot(hole)))
      modifies this
      ensures idx <= 1 ==> code == InternalError && data == old(data) && log == old(log)
      ensures idx > 1 ==>
        && code == ShiftBack(Home(), old(Store()), idx, hole).code
        && Wrote(old(data), old(log), data, log, ShiftBack(Home(), old(Store()), idx, hole).log)
        && (code == Ok ==> performed == Moves(Home(), old(Store()), hole, idx))
    {
      hide SameElsewhere, WellFormedImage, DecodeEntry, Relink;
      performed := false;
      if idx <= 1 {
        return InternalError, performed;
      }
      EntryAt(data, idx);
      WroteNothing(data, log);
      var header, key, rawSize;
      code, header, key, rawSize := HeaderRead(idx);
      if code != Ok {
        return;
      }
      var raw := data[idx];
      var natural := Generate(sysHash, key);
      var range := MAX_ID - MIN_ID + 1;
      var dCurr := if idx >= natural then idx - natural else range - (natural - idx);
      var dHole := if hole >= natural then hole - natural else range - (natural - hole);
      if dHole < dCurr {
        ghost var d0, l0 := data, log;
        WriteEntry(hole, raw);
        ghost var d1, l1 := data, log;
        code := UpdateShiftedEntryNeighbors(header, hole);
        ghost var r := Relink(Decode(d1), header.prev, header.next, hole);
        WroteThen(d0, l0, d1, l1, data, log, [Decode(d1)], r.log);
        if code != Ok {
          return;
        }
        ghost var d2, l2 := data, log;
        Delete(idx);
        WroteThen(d0, l0, d2, l2, data, log, [Decode(d1)] + r.log, [Store()]);
        assert [Decode(d1)] + r.log + [Store()] == [Decode(d1)] + (r.log + [Store()]);
        performed := true;
      }
    }

    /** Moves entries back into the hole until the cluster is repaired. */
    method DeleteResumeShift(holeId: U32) returns (code: Code)
      requires Valid() && (holeId == 0 || IsSlot(holeId))
      modifies this
      ensures holeId == 0 ==> code == InternalError && data == old(data) && log == old(log)
      ensures holeId != 0 ==>
        && code == ResumeShift(Home(), old(Store()), holeId).code
        && Wrote(old(data), old(log), data, log, ResumeShift(Home(), old(Store()), holeId).log)
    {
      hide SameElsewhere, WellFormedImage, Decode, ShiftFrom, Displacement, Progress, Moves;
      var hole := holeId;
      var curr := hole + 1;
      if curr > MAX_ID {
        curr := MIN_ID;
      }
      if hole == 0 {
        var performed;
        code, performed := ShiftBackSingleEntry(curr, hole);
        return;
      }
      ghost var d0, l0 := data, log;
      ghost var run := ResumeShift(Home(), Store(), holeId);
      ghost var done: seq<KvStore.Store> := [];
      ShiftStarts(Home(), data, log, hole);
      while curr != hole
        invariant Valid() && IsSlot(hole) && IsSlot(curr)
        invariant Progress(Home(), d0, l0, data, log, done, run, hole, curr)
        decreases Displacement(Home(), Store().slots), Dist(curr, hole)
      {
        ghost var d1, l1 := data, log;
        var performed;
        code, performed := ShiftBackSingleEntry(curr, hole);
        if code != Ok {
          ShiftStops(Home(), d0, l0, d1, l1, data, log, done, run, hole, curr);
          if code == NotFound {
            return Ok;
          }
          return;
        }
        if performed {
          ghost var d2, l2 := data, log;
          IntentWrite(Shifting, curr, NULL_ID, NULL_ID);
          ShiftRelocates(Home(), d0, l0, d1, l1, d2, l2, data, log, done, run, hole, curr);
          done := done + ShiftBack(Home(), Decode(d1), curr, hole).log + [Store()];
          hole := curr;
        } else {
          ShiftPasses(Home(), d0, l0, d1, l1, data, log, done, run, hole, curr);
        }
        DistNext(hole, curr);
        curr := curr + 1;
        if curr > MAX_ID {
          curr := MIN_ID;
        }
      }
      ShiftLaps(Home(), d0, l0, data, log, done, run, hole);
      return Ok;
    }

    /** Takes the entry at `idx` out from between `prev` and `next` and deletes it; deletion and its recovery both
        do this. */
    method DetachEntry(idx: Slot, prev: Link, next: Link) returns (code: Code)
      requires Valid()
      modifies this
      ensures code == Detach(old(Store()), idx, prev, next).code
      ensures Wrote(old(data), old(log), data, log, Detach(old(Store()), idx, prev, next).log)
    {
      hide SameElsewhere, WellFormedImage, Decode, Detach;
      ghost var d0, l0 := data, log;
      DetachSteps(Store(), idx, prev, next);
      WroteNothing(data, log);
      var updateHeadTail := false;
      var headId, tailId := ReadHeadAndTailIds();
      ghost var w: seq<KvStore.Store> := [];
      if prev != NULL_ID {
        w := SetNext(Store(), prev, next).log;
        code := UpdateNextId(prev, next);
        if code != Ok {
          return;
        }
      } else {
        updateHeadTail := true;
        headId := next;
      }
      ghost var d1, l1 := data, log;
      if next != NULL_ID {
        ghost var w1 := SetPrev(Store(), next, prev).log;
        code := UpdatePrevId(next, prev);
        WroteThen(d0, l0, d1, l1, data, log, w, w1);
        w := w + w1;
        if code != Ok {
          return;
        }
      } else {
        updateHeadTail := true;
        tailId := prev;
      }
      ghost var d2, l2 := data, log;
      if updateHeadTail {
        WriteHeadAndTailIds(headId, tailId);
        WroteThen(d0, l0, d2, l2, data, log, w, [Store()]);
        w := w + [Store()];
      }
      ghost var d3, l3 := data, log;
      Delete(idx);
      WroteThen(d0, l0, d3, l3, data, log, w, [Store()]);
      return Ok;
    }

    method DeleteAndUnlinkSingleEntry(idx: Slot) returns (code: Code)
      requires Valid()
      modifies this
      ensures code == Unlink(old(Store()), idx).code
      ensures Wrote(old(data), old(log), data, log, Unlink(old(Store()), idx).log)
    {
      hide SameElsewhere, WellFormedImage, DecodeEntry, Detach;
      EntryAt(data, idx);
      WroteNothing(data, log);
      var header, rawSize;
      code, header, rawSize := HeaderReadFixed(idx);
      if code != Ok {
        return;
      }
      ghost var d0, l0 := data, log;
      IntentWrite(Deleting, idx, header.prev, header.next);
      ghost var d1, l1 := data, log;
      code := DetachEntry(idx, header.prev, header.next);
      WroteThen(d0, l0, d1, l1, data, log, [Decode(d1)], Detach(Decode(d1), idx, header.prev, header.next).log);
    }

    /** Deletes an entry; an absent one counts as deleted. */
    method EntryDelete(idx: Slot) returns (code: Code)
      requires Valid()
      modifies this
      ensures code == KvPrograms.EntryDelete(Home(), old(Store()), idx).code
      ensures Wrote(old(data), old(log), data, log, KvPrograms.EntryDelete(Home(), old(Store()), idx).log)
    {
      hide SameElsewhere, WellFormedImage, Decode, Unlink, ShiftFrom;
      WroteNothing(data, log);
      ghost var s := Store();
      UnlinkCode(s, idx);
      ghost var d0, l0 := data, log;
      code := DeleteAndUnlinkSingleEntry(idx);
      if code == NotFound {
        return Ok;
      }
      if code != Ok {
        return;
      }
      ghost var w := Unlink(s, idx).log;
      ghost var d1, l1 := data, log;
      IntentWrite(Shifting, idx, NULL_ID, NULL_ID);
      WroteThen(d0, l0, d1, l1, data, log, w, [Store()]);
      w := w + [Store()];
      ghost var d2, l2 := data, log;
      ghost var r := ResumeShift(Home(), Store(), idx);
      code := DeleteResumeShift(idx);
      WroteThen(d0, l0, d2, l2, data, log, w, r.log);
      assert Unlink(s, idx).log + ([Decode(d2)] + r.log) == w + r.log;
      w := w + r.log;
      if code != Ok {
        return;
      }
      ghost var d3, l3 := data, log;
      IntentClear();
      WroteThen(d0, l0, d3, l3, data, log, w, [Store()]);
      assert Unlink(s, idx).log + ([Decode(d2)] + (r.log + [Store()])) == w + [Store()];
      return Ok;
    }

    lemma UnlinkCode(s: KvStore.Store, idx: Slot)
      ensures idx in s.slots <==> Unlink(s, idx).code != NotFound
      ensures idx !in s.slots ==> Unlink(s, idx) == Nothing(NotFound)
    {
    }

    // ---- entry_intent.c

    method ResolveInsertIntent(target: Slot, prev: Link) returns (code: Code)
      requires Valid()
      modifies this
      ensures code == ResolveInsert(old(Store()), target, prev).code
      ensures Wrote(old(data), old(log), data, log, ResolveInsert(old(Store()), target, prev).log)
    {
      hide SameElsewhere, WellFormedImage, Decode;
      WroteNothing(data, log);
      var headId, tailId := ReadHeadAndTailIds();
      if tailId == target {
        return Ok;
      }
      ghost var d0, l0 := data, log;
      ghost var w: seq<KvStore.Store> := [];
      if prev != NULL_ID {
        w := SetNext(Store(), prev, NULL_ID).log;
        code := UpdateNextId(prev, NULL_ID);
        if code != Ok {
          return;
        }
      }
      ghost var d1, l1 := data, log;
      Delete(target);
      WroteThen(d0, l0, d1, l1, data, log, w, [Store()]);
      return Ok;
    }

    method ResolveDeleteIntent(target: Slot, prev: Link, next: Link) returns (code: Code)
      requires Valid()
      modifies this
      ensures code == ResolveDelete(old(Store()), target, prev, next).code
      ensures Wrote(old(data), old(log), data, log, ResolveDelete(old(Store()), target, prev, next).log)
    {
      hide SameElsewhere, WellFormedImage, DecodeEntry, Detach;
      EntryAt(data, target);
      WroteNothing(data, log);
      ghost var d0, l0 := data, log;
      ghost var w: seq<KvStore.Store> := [];
      var header, rawSize;
      code, header, rawSize := HeaderReadFixed(target);
      if code != NotFound {
        w := Detach(Store(), target, prev, next).log;
        code := DetachEntry(target, prev, next);
        if code != Ok {
          return;
        }
      }
      ghost var d1, l1 := data, log;
      IntentWrite(Shifting, target, NULL_ID, NULL_ID);
      WroteThen(d0, l0, d1, l1, data, log, w, [Store()]);
      return Ok;
    }

    /** Scans forward for the hole and resumes the shift there. Past the last slot the scan goes on at identifier 0,
        which no record uses. */
    method ResolveShiftIntent(target: Slot) returns (code: Code)
      requires Valid()
      modifies this
      ensures code == ResolveShift(Home(), old(Store()), target).code
      ensures Wrote(old(data), old(log), data, log, ResolveShift(Home(), old(Store()), target).log)
    {
      hide SameElsewhere, DecodeEntry, ShiftFrom;
      WroteNothing(data, log);
      var current: U32 := target;
      while true
        invariant Valid() && data == old(data) && log == old(log)
        invariant current == 0 || IsSlot(current)
        invariant current != 0 ==> target <= current && forall x: Slot :: target <= x < current ==> x in Store().slots
        invariant current == 0 ==> ScanLeavesRange(Store().slots, target)
        decreases if current == 0 then 0 else RANGE + MAX_ID - current
      {
        var header, rawSize;
        code, header, rawSize := HeaderReadFixed(current);
        if code == NotFound {
          break;
        }
        current := current + 1;
        if current > MAX_ID {
          current := 0;
        }
      }
      if current != 0 {
        FirstHoleIs(Store().slots, target, current);
      }
      code := DeleteResumeShift(current);
    }

    /** Brings the store back to a state without a pending operation. */
    method IntentResolve() returns (code: Code)
      requires Valid()
      modifies this
      ensures code == Resolve(Home(), old(Store())).code
      ensures Wrote(old(data), old(log), data, log, Resolve(Home(), old(Store())).log)
    {
      hide Decode, SameElsewhere, WellFormedImage, DecodeEntry, ResolveInsert, ResolveDelete, ResolveShift;
      WroteNothing(data, log);
      IntentAt(data);
      if INTENT_ID !in data || data[INTENT_ID][0] == 0 {
        return Ok;
      }
      var intent := DecodeIntent(data[INTENT_ID]);
      ghost var d0, l0 := data, log;
      ghost var w: seq<KvStore.Store> := [];
      code := Ok;
      var shifting := intent.op == Shifting;
      if intent.op == Inserting {
        w := ResolveInsert(Store(), intent.target, intent.first).log;
        code := ResolveInsertIntent(intent.target, intent.first);
      } else if intent.op == Deleting {
        w := ResolveDelete(Store(), intent.target, intent.first, intent.second).log;
        code := ResolveDeleteIntent(intent.target, intent.first, intent.second);
        shifting := true;
      }
      if code != Ok {
        return RecoveryFailed;
      }
      ghost var d1, l1 := data, log;
      if shifting {
        ghost var r := ResolveShift(Home(), Store(), intent.target);
        code := ResolveShiftIntent(intent.target);
        WroteThen(d0, l0, d1, l1, data, log, w, r.log);
        w := w + r.log;
      }
      if code != Ok {
        return RecoveryFailed;
      }
      ghost var d2, l2 := data, log;
      IntentClear();
      WroteThen(d0, l0, d2, l2, data, log, w, [Store()]);
      return Ok;
    }
  }
}
