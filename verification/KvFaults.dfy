/** Two flash images, reached by a removal that loses power, from which recovery does not restore the store. They show
    that the conditions of RecoveryIff and SafeRemoval are needed. */
module KvFaults {
  import opened Bytes
  import opened SlotIds
  import opened EntryHash
  import opened KvStore
  import opened KvPrograms
  import opened KvList
  import opened KvShift
  import opened KvCrash
  import opened KvOperations
  import opened KvDurability
  import opened KvBoot

  const FIRST := Key([1], [1])
  const SECOND := Key([1], [2])

  /** Two entries with the same natural slot `a`, in the order in which they were stored. */
  function Pair(a: Slot): Store {
    Store(map[a := Entry(FIRST, Next(a), NULL_ID, [1]), Next(a) := Entry(SECOND, NULL_ID, a, [2])], a, Next(a), Idle)
  }

  /** The second entry once it is the only one. */
  const LONE := Entry(SECOND, NULL_ID, NULL_ID, [2])

  lemma PairDetached(a: Slot)
    ensures var s1 := Pair(a).(intent := Intent(Deleting, a, NULL_ID, Next(a)));
      LinksPresent(s1, NULL_ID, Next(a))
      && Detached(s1, a, NULL_ID, Next(a)) == Store(map[Next(a) := LONE], Next(a), Next(a), s1.intent)
  {
  }

  /** Every key has the same natural slot. */
  ghost predicate Everywhere(h: Home, a: Slot) {
    forall k :: h(k) == a
  }

  const FIRST_HASH: bv32 := 0x6125fc1d
  const LAST_HASH: bv32 := 0x71894e58

  /** The natural slots under a system hash that does not tell strings apart. */
  function Constant(hash: bv32): Home {
    HomeOf((b: Bytes) => hash)
  }

  /** Two hash values that put every key into the first slot, and into the last. */
  lemma ConstantHomes()
    ensures Everywhere(Constant(FIRST_HASH), MIN_ID)
    ensures Everywhere(Constant(LAST_HASH), MAX_ID)
  {
    assert Combine(FIRST_HASH, FIRST_HASH) == 0;
    assert Combine(LAST_HASH, LAST_HASH) == 0xFFFF_FFFF;
    ReduceSpansRange(0, 0);
  }

  lemma PairWellFormed(h: Home, a: Slot)
    requires Everywhere(h, a)
    ensures WellFormed(h, Pair(a), [a, Next(a)])
  {
    var s, order := Pair(a), [a, Next(a)];
    assert PathFull(s.slots, a, a);
    assert PathFull(s.slots, a, Next(a));
    assert Probeable(h, s.slots);
    assert ChainedAt(s.slots, order, 0) && ChainedAt(s.slots, order, 1);
    assert order[0] == a && order[1] == Next(a);
    assert Enumerates(s.slots.Keys, order);
  }

  /** Removing the first of them moves the second into its place: the copy and the finished move are both states of the
      flash on the way. */
  lemma PairRemoval(h: Home, a: Slot) returns (u: Store)
    requires Everywhere(h, a)
    ensures u == Store(map[Next(a) := LONE], Next(a), Next(a), Intent(Shifting, a, NULL_ID, NULL_ID))
    ensures u.slots.Keys == {Next(a)} && u.slots[Next(a)].key == SECOND
    ensures u.intent == Intent(Shifting, a, NULL_ID, NULL_ID)
    ensures LinksPresent(u, u.slots[Next(a)].prev, u.slots[Next(a)].next)
    ensures var log := EntryDelete(h, Pair(a), a).log;
      Copied(u, Next(a), a) in log && Moved(u, Next(a), a) in log
  {
    hide WellFormed, EntryDelete, Detach, Detached, Holed, ShiftFrom, Copied, Moved, Means;
    var s, order, b := Pair(a), [a, Next(a)], Next(a);
    PairWellFormed(h, a);
    u := DeleteRuns(h, s, order, 0);
    var s1 := s.(intent := Intent(Deleting, a, NULL_ID, b));
    PairDetached(a);
    ShiftStep(h, u, a, b);
  }

  /** What recovery leaves of the copy: the entry is in both slots. */
  function Twice(a: Slot): Store {
    Store(map[a := LONE, Next(a) := LONE], Next(a), Next(a), Idle)
  }

  /** Power lost after the copy of a relocation: recovery reports success and leaves the entry in two slots. */
  lemma RecoveryKeepsDuplicate()
    ensures var h := Constant(FIRST_HASH);
      exists c :: c in EntryDelete(h, Pair(MIN_ID), MIN_ID).log
        && Resolve(h, c).code == Ok && End(c, Resolve(h, c)) == Twice(MIN_ID) && !KeysUnique(Twice(MIN_ID).slots)
  {
    hide EntryDelete, Moved, ShiftFrom, Constant;
    var a: Slot := MIN_ID;
    var h, b := Constant(FIRST_HASH), Next(a);
    ConstantHomes();
    var u := PairRemoval(h, a);
    var c := Copied(u, b, a);
    assert c == Twice(a).(intent := u.intent);
    assert c.slots[a].key == c.slots[b].key;
    assert PathFull(c.slots, a, a) && PathFull(c.slots, a, b);
    assert MidMove(h, c);
    var free: Slot := MAX_ID;
    assert free !in c.slots;
    MidMoveStays(h, c);
  }

  /** For a caller this means that a removed key comes back: removing it from the recovered store succeeds, and the same
      key with its value is found right after. */
  lemma RemovedKeyReturns()
    ensures var h, t := Constant(FIRST_HASH), Twice(MIN_ID);
      var r := Execute(h, t, Remove(SECOND));
      && r.code == Ok
      && End(t, r) == Store(map[MIN_ID := LONE], MIN_ID, MIN_ID, Idle)
      && Lookup(h, End(t, r).slots, SECOND) == Found(MIN_ID)
  {
    hide ShiftFrom, Unlink, Constant;
    var a: Slot := MIN_ID;
    var h, t := Constant(FIRST_HASH), Twice(a);
    ConstantHomes();
    CopyUnlinked(a);
    var s1 := End(t, Unlink(t, a));
    var s2 := s1.(intent := Intent(Shifting, a, NULL_ID, NULL_ID));
    OtherMovesBack(h, a);
  }

  lemma CopyUnlinked(a: Slot)
    ensures Unlink(Twice(a), a).code == Ok
    ensures End(Twice(a), Unlink(Twice(a), a))
         == Store(map[Next(a) := LONE], NULL_ID, NULL_ID, Intent(Deleting, a, NULL_ID, NULL_ID))
  {
  }

  /** The other copy moves into the slot that was emptied. */
  lemma OtherMovesBack(h: Home, a: Slot)
    requires Everywhere(h, a)
    ensures var s := Store(map[Next(a) := LONE], NULL_ID, NULL_ID, Intent(Shifting, a, NULL_ID, NULL_ID));
      var r := ResumeShift(h, s, a);
      && r.code == Ok
      && End(s, r) == Store(map[a := LONE], a, a, Intent(Shifting, Next(a), NULL_ID, NULL_ID))
  {
    hide Move;
    var b := Next(a);
    var s := Store(map[b := LONE], NULL_ID, NULL_ID, Intent(Shifting, a, NULL_ID, NULL_ID));
    OtherMove(a);
    var m := End(s, Move(s, b, a));
    var s1 := m.(intent := Intent(Shifting, b, NULL_ID, NULL_ID));
    assert Next(b) !in s1.slots;
    assert ShiftFrom(h, s1, b, Next(b)) == Nothing(Ok);
    assert Moves(h, s, a, b);
  }

  lemma OtherMove(a: Slot)
    ensures var s := Store(map[Next(a) := LONE], NULL_ID, NULL_ID, Intent(Shifting, a, NULL_ID, NULL_ID));
      && Move(s, Next(a), a).code == Ok
      && End(s, Move(s, Next(a), a)) == Store(map[a := LONE], a, a, s.intent)
  {
  }

  /** Power lost after a relocation across the end of the slot range: nothing is duplicated, but the scan for the hole
      runs out of the range, and recovery fails. The boot answers that by erasing everything, so that the other entry, which
      nobody removed, is lost with the one that was being removed. */
  lemma RecoveryCannotWrap()
    ensures var h := Constant(LAST_HASH);
      exists c :: c in EntryDelete(h, Pair(MAX_ID), MAX_ID).log
        && KeysUnique(c.slots) && Resolve(h, c) == Nothing(RecoveryFailed) && Boot(h, c) == EMPTY
  {
    hide EntryDelete, ShiftFrom, ResumeShift, Constant;
    var a: Slot := MAX_ID;
    var h, b := Constant(LAST_HASH), Next(a);
    ConstantHomes();
    var u := PairRemoval(h, a);
    var c := Moved(u, b, a);
    assert c.slots.Keys == {a};
    assert ScanLeavesRange(c.slots, a);
  }
}
