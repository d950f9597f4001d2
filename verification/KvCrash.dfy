/** Power losses: every flash state that an interrupted operation or an interrupted recovery can leave, and what
    the next recovery makes of it. */
module KvCrash {
  import opened Bytes
  import opened SlotIds
  import opened EntryHash
  import opened KvStore
  import opened KvPrograms
  import opened KvProbing
  import opened KvList
  import opened KvShift

  ghost predicate ResolvesTo(h: Home, c: Store, t: Store) {
    Resolve(h, c).code == Ok && End(c, Resolve(h, c)) == t
  }

  /** The interrupted shift left its hole behind the end of the slot range: every slot from the one named in the
      intent block up to the last is taken. */
  ghost predicate Stranded(s: Store) {
    s.intent.Intent? && s.intent.op == Shifting && ScanLeavesRange(s.slots, s.intent.target)
  }

  /** The condition under which recovery works, which can be checked on the flash image before it starts. */
  ghost predicate Clean(s: Store) {
    KeysUnique(s.slots) && !Stranded(s)
  }

  // ---- the states an interrupted operation can leave

  /** The table without the payload that an unfinished insertion left behind the tail. */
  function Undone(slots: Slots, idx: Slot, tail: Link): Slots
    requires tail != NULL_ID ==> tail in slots
  {
    (if tail != NULL_ID then slots[tail := slots[tail].(next := NULL_ID)] else slots) - {idx}
  }

  /** An insertion whose head/tail record was not written yet; recovery undoes it. */
  ghost predicate Rolling(c: Store, t: Store) {
    && c.intent.Intent? && c.intent.op == Inserting && c.intent.first == t.tail
    && t.intent == Idle && c.head == t.head && c.tail == t.tail && t.tail != c.intent.target
    && (t.tail != NULL_ID ==> t.tail in c.slots)
    && Undone(c.slots, c.intent.target, t.tail) == t.slots
  }

  /** An update, or an insertion whose head/tail record was written; only the intent block is left to clear. */
  ghost predicate Committed(c: Store, t: Store) {
    && c.intent.Intent? && (c.intent.op == Updating || (c.intent.op == Inserting && c.tail == c.intent.target))
    && c.(intent := Idle) == t
  }

  /** An unlinking in progress; recovery finishes it and then shifts. */
  ghost predicate Unlinking(h: Home, c: Store, t: Store) {
    && c.intent.Intent? && c.intent.op == Deleting
    && (c.intent.target in c.slots ==> LinksPresent(c, c.intent.first, c.intent.second))
    && var idx := c.intent.target;
       var u := if idx in c.slots then Detached(c, idx, c.intent.first, c.intent.second) else c;
       Holed(h, u, idx) && Final(h, u, idx, Next(idx)) == t
  }

  /** A state from which a complete recovery should end in `t`. */
  ghost predicate InFlight(h: Home, c: Store, t: Store) {
    && KeysUnique(c.slots)
    && t.intent == Idle
    && (c == t || Rolling(c, t) || Committed(c, t) || Unlinking(h, c, t) || exists hole :: Pending(h, c, hole, t))
  }

  // ---- recovery, case by case

  lemma RollingResolves(h: Home, c: Store, t: Store)
    requires Rolling(c, t)
    ensures ResolvesTo(h, c, t)
    ensures forall d :: d in Resolve(h, c).log ==> d == t || Rolling(d, t)
  {
    var idx, tail := c.intent.target, t.tail;
    var s1 := if tail != NULL_ID then c.(slots := c.slots[tail := c.slots[tail].(next := NULL_ID)]) else c;
    var s2 := s1.(slots := s1.slots - {idx});
    var s3 := s2.(intent := Idle);
    assert s3 == t;
    var r := ResolveInsert(c, idx, tail);
    assert r == Run(if tail != NULL_ID then [s1, s2] else [s2], Ok);
    assert Resolve(h, c) == Run(r.log + [s3], Ok);
    assert Rolling(s2, t) by {
      assert Undone(s2.slots, idx, tail) == t.slots;
    }
    assert Rolling(s1, t);
  }

  lemma CommittedResolves(h: Home, c: Store, t: Store)
    requires Committed(c, t)
    ensures Resolve(h, c) == Run([t], Ok)
  {
  }

  /** The forward scan finds the hole exactly when the hole is not behind the slot named in the intent block. */
  lemma ScanFindsHole(s: Store, hole: Slot)
    requires NamesHole(s, hole) && hole !in s.slots
    ensures Stranded(s) <==> hole < s.intent.target
    ensures !Stranded(s) ==> FirstHole(s.slots, s.intent.target) == hole
  {
    var target := s.intent.target;
    if hole < target {
      forall x: Slot | target <= x
        ensures x in s.slots
      {
        assert Before(target, x, hole);
      }
    } else {
      assert !ScanLeavesRange(s.slots, target);
      var f := FirstHole(s.slots, target);
      assert !Before(target, f, hole);
    }
  }

  lemma PendingResolves(h: Home, c: Store, hole: Slot, t: Store)
    requires Pending(h, c, hole, t) && t.intent == Idle
    ensures !Stranded(c) ==> Resolve(h, c) == Run(ResumeShift(h, c, hole).log + [t], Ok)
    ensures Stranded(c) ==> Resolve(h, c) == Nothing(RecoveryFailed)
  {
    hide Holed, ShiftFrom, FirstHole, ScanLeavesRange, Means;
    HoledHole(h, c, hole);
    var items := Meaning(c);
    ScanFindsHole(c, hole);
    if !Stranded(c) {
      SettledAtStart(h, c.slots, hole);
      ShiftRepairs(h, c, hole, Next(hole), items);
      assert ResolveShift(h, c, c.intent.target) == ResumeShift(h, c, hole);
    }
  }

  lemma SettledAtStart(h: Home, slots: Slots, hole: Slot)
    ensures Settled(h, slots, hole, Next(hole))
  {
    DistNext(hole, hole);
  }

  /** A shift that was interrupted inside a relocation keeps its duplicate for good. */
  lemma MidMoveStays(h: Home, c: Store)
    requires MidMove(h, c)
    ensures Resolve(h, c) == if Stranded(c) then Nothing(RecoveryFailed) else Run([c.(intent := Idle)], Ok)
  {
    if !Stranded(c) {
      var f := FirstHole(c.slots, c.intent.target);
      FalseHoleMovesNothing(h, c, f, Next(f));
    }
  }

  /** The store once the unlinking is done, and the states recovery writes on the way there. */
  lemma UnlinkingStates(h: Home, c: Store, t: Store) returns (u: Store)
    requires Unlinking(h, c, t)
    ensures u.intent == Intent(Shifting, c.intent.target, NULL_ID, NULL_ID)
    ensures Pending(h, u, c.intent.target, t)
    ensures var r := ResolveDelete(c, c.intent.target, c.intent.first, c.intent.second);
      && r.code == Ok && r.log != [] && End(c, r) == u
      && forall d :: d in r.log && d != u ==> Unlinking(h, d, t)
  {
    hide Holed, ShiftFrom, Detach, Detached, Bridged1, Bridged2, Bridged3, FirstHole, ScanLeavesRange, KeysUnique;
    var idx, prev, next := c.intent.target, c.intent.first, c.intent.second;
    var v := if idx in c.slots then Detached(c, idx, prev, next) else c;
    u := v.(intent := Intent(Shifting, idx, NULL_ID, NULL_ID));
    HoledHole(h, v, idx);
    var items := Meaning(v);
    HoledIgnoresIntent(h, v, idx, u.intent, items);
    FinalIgnoresIntent(h, v, idx, Next(idx), u.intent);
    NamesOwnHole(u, idx);
    if idx in c.slots {
      DetachEnds(c, idx, prev, next);
      var r := Detach(c, idx, prev, next);
      assert ResolveDelete(c, idx, prev, next) == Run(r.log + [u], Ok);
      forall d | d in r.log
        ensures Unlinking(h, d, t)
      {
        DetachingUnlinks(h, c, t, d);
      }
    }
  }

  lemma DetachingUnlinks(h: Home, c: Store, t: Store, d: Store)
    requires Unlinking(h, c, t) && c.intent.target in c.slots
    requires d in Detach(c, c.intent.target, c.intent.first, c.intent.second).log
    ensures Unlinking(h, d, t)
  {
    hide Holed, ShiftFrom, Final;
    var idx, prev, next := c.intent.target, c.intent.first, c.intent.second;
    DetachEnds(c, idx, prev, next);
    DetachIntents(c, idx, prev, next);
    if d != Detached(c, idx, prev, next) {
      DetachRepeats(c, d, idx, prev, next);
    }
  }

  /** Recovery of an unlinking finishes it and then runs the whole shift. */
  lemma UnlinkingResolves(h: Home, c: Store, t: Store) returns (u: Store)
    requires Unlinking(h, c, t) && t.intent == Idle
    ensures Pending(h, u, c.intent.target, t) && !Stranded(u)
    ensures var r := ResolveDelete(c, c.intent.target, c.intent.first, c.intent.second);
      && (forall d :: d in r.log && d != u ==> Unlinking(h, d, t))
      && Resolve(h, c) == Run(r.log + ResumeShift(h, u, c.intent.target).log + [t], Ok)
  {
    hide Holed, ShiftFrom, ResolveDelete, FirstHole, Detached, Detach;
    var idx := c.intent.target;
    u := UnlinkingStates(h, c, t);
    HoledHole(h, u, idx);
    ScanFindsHole(u, idx);
    SettledAtStart(h, u.slots, idx);
    var items := Meaning(u);
    ShiftRepairs(h, u, idx, Next(idx), items);
    var r := ResolveDelete(c, idx, c.intent.first, c.intent.second);
    assert ResolveShift(h, u, idx) == ResumeShift(h, u, idx);
    var q := Then(c, r, s1 => ResolveShift(h, s1, idx));
    assert q == Run(r.log + ResumeShift(h, u, idx).log, Ok);
    assert End(c, q) == End(u, ResumeShift(h, u, idx));
  }

  /** Recovery from any interrupted state ends in the state aimed at, exactly when the flash image holds no
      entry twice and its shift is not stranded. */
  lemma RecoveryIff(h: Home, c: Store, t: Store)
    requires (InFlight(h, c, t) || MidMove(h, c)) && KeysUnique(t.slots) && t.intent == Idle
    ensures ResolvesTo(h, c, t) <==> Clean(c)
    ensures !Clean(c) ==> Resolve(h, c).code != Ok || !KeysUnique(End(c, Resolve(h, c)).slots)
  {
    hide Rolling, Pending, Holed, Unlinking, Resolve, ScanLeavesRange, KeysUnique;
    if MidMove(h, c) {
      MidMoveResult(h, c, t);
    } else if Rolling(c, t) {
      RollingResolves(h, c, t);
      RollingIntent(c, t);
    } else if Committed(c, t) {
      CommittedResolves(h, c, t);
    } else if Unlinking(h, c, t) {
      var u := UnlinkingResolves(h, c, t);
      UnlinkingIntent(h, c, t);
    } else if c == t {
      IdleResolves(h, c);
    } else {
      var hole :| Pending(h, c, hole, t);
      PendingResolves(h, c, hole, t);
    }
  }

  lemma MidMoveResult(h: Home, c: Store, t: Store)
    requires MidMove(h, c) && KeysUnique(t.slots)
    ensures !ResolvesTo(h, c, t) && !Clean(c)
    ensures Resolve(h, c).code != Ok || !KeysUnique(End(c, Resolve(h, c)).slots)
  {
    MidMoveStays(h, c);
  }

  lemma RollingIntent(c: Store, t: Store)
    requires Rolling(c, t)
    ensures c.intent.Intent? && c.intent.op == Inserting
  {
  }

  lemma UnlinkingIntent(h: Home, c: Store, t: Store)
    requires Unlinking(h, c, t)
    ensures c.intent.Intent? && c.intent.op == Deleting
  {
  }

  lemma IdleResolves(h: Home, c: Store)
    requires c.intent == Idle
    ensures Resolve(h, c) == Nothing(Ok)
  {
  }

  /** A recovery that is itself interrupted leaves a state that aims at the same result, or one inside a
      relocation. */
  lemma RecoveryStates(h: Home, c: Store, t: Store, d: Store)
    requires InFlight(h, c, t) && KeysUnique(t.slots) && d in Resolve(h, c).log
    ensures InFlight(h, d, t) || MidMove(h, d)
  {
    hide Rolling, Pending, Holed, Unlinking, Resolve, KeysUnique, ResolveDelete, ResumeShift;
    if Rolling(c, t) {
      RollingResolves(h, c, t);
      RollingKeys(h, c, t, d);
    } else if Committed(c, t) {
      CommittedResolves(h, c, t);
    } else if Unlinking(h, c, t) {
      UnlinkingIntent(h, c, t);
      var u := UnlinkingResolves(h, c, t);
      PendingKeysUnique(h, u, c.intent.target, t);
      if d in ResumeShift(h, u, c.intent.target).log {
        ResumeStates(h, u, c.intent.target, t, d);
      } else if d != u && d != t {
        UnlinkingKeys(h, c, t, d);
      }
    } else if c == t {
      IdleResolves(h, c);
    } else {
      var hole :| Pending(h, c, hole, t);
      PendingResolves(h, c, hole, t);
      if d in ResumeShift(h, c, hole).log {
        ResumeStates(h, c, hole, t, d);
      }
    }
  }

  lemma FewerKeysUnique(a: Slots, b: Slots)
    requires KeysUnique(b) && forall x :: x in a ==> x in b && a[x].key == b[x].key
    ensures KeysUnique(a)
  {
  }

  lemma RollingKeys(h: Home, c: Store, t: Store, d: Store)
    requires Rolling(c, t) && KeysUnique(c.slots) && d in Resolve(h, c).log
    ensures KeysUnique(d.slots)
  {
    hide KeysUnique;
    FewerKeysUnique(d.slots, c.slots);
  }

  lemma UnlinkingKeys(h: Home, c: Store, t: Store, d: Store)
    requires Unlinking(h, c, t) && KeysUnique(c.slots)
    requires d in ResolveDelete(c, c.intent.target, c.intent.first, c.intent.second).log
    ensures KeysUnique(d.slots)
  {
    hide KeysUnique, Holed, Final, Detach, Detached;
    var idx, prev, next := c.intent.target, c.intent.first, c.intent.second;
    if idx in c.slots {
      var r := Detach(c, idx, prev, next);
      DetachSteps(c, idx, prev, next);
      var e := if d in r.log then d else r.log[|r.log| - 1];
      DetachKeys(c, idx, prev, next, e);
    }
    FewerKeysUnique(d.slots, c.slots);
  }

  lemma PendingKeysUnique(h: Home, c: Store, hole: Slot, t: Store)
    requires Pending(h, c, hole, t)
    ensures KeysUnique(c.slots)
  {
  }

  lemma ResumeStates(h: Home, c: Store, hole: Slot, t: Store, d: Store)
    requires Pending(h, c, hole, t) && d in ResumeShift(h, c, hole).log
    ensures (exists hole' :: Pending(h, d, hole', t) && KeysUnique(d.slots)) || MidMove(h, d)
  {
    hide Holed, ShiftFrom, NamesHole, Settled;
    SettledAtStart(h, c.slots, hole);
    ShiftStates(h, c, hole, Next(hole), d);
    if !MidMove(h, d) {
      var hole' :| Pending(h, d, hole', t);
      PendingKeysUnique(h, d, hole', t);
    }
  }
}
