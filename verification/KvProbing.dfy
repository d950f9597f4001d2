/** Open addressing: what probing finds, and how insertion, deletion and relocation affect the probe invariant. */
module KvProbing {
  import opened Bytes
  import opened SlotIds
  import opened EntryHash
  import opened KvStore
  import opened KvPrograms

  // ---- cyclic distances

  lemma DistNext(a: Slot, x: Slot)
    ensures Dist(a, Next(x)) == if Dist(a, x) + 1 < RANGE then Dist(a, x) + 1 else 0
  {
  }

  /** If probing from `n` passes `hole` before `s` but does not pass `stop`, then `s` is met before `stop` on the
      way from `hole`. */
  lemma MetBeforeStop(n: Slot, hole: Slot, s: Slot, stop: Slot)
    requires Before(n, hole, s) && !Before(n, stop, s) && stop != s
    ensures 0 < Dist(hole, s) < Dist(hole, stop)
  {
  }

  // ---- lookup

  predicate Holds(slots: Slots, k: Key) {
    exists s :: s in slots && slots[s].key == k
  }

  lemma {:induction false} ProbeWalk(slots: Slots, n: Slot, k: Key, curr: Slot, left: nat)
    requires left <= RANGE
    requires left > 0 ==> Dist(n, curr) == RANGE - left
    requires forall x: Slot :: Dist(n, x) < RANGE - left ==> x in slots && slots[x].key != k
    ensures match ProbeFrom(slots, k, curr, left)
      case Found(at) => at in slots && slots[at].key == k
      case Hole(at) => at !in slots && PathFull(slots, n, at) &&
                       forall x: Slot :: Before(n, x, at) && x in slots ==> slots[x].key != k
      case NoRoom => forall x: Slot :: x in slots && slots[x].key != k
    decreases left
  {
    if left > 0 && curr in slots && slots[curr].key != k {
      DistNext(n, curr);
      forall x: Slot | Dist(n, x) < RANGE - (left - 1)
        ensures x in slots && slots[x].key != k
      {
        assert Dist(n, x) == Dist(n, curr) ==> x == curr;
      }
      ProbeWalk(slots, n, k, Next(curr), left - 1);
    }
  }

  /** Probing decides membership: it finds the one slot that holds the key, or else names a hole at the end of
      the key's probe path, or reports that every slot is taken. */
  lemma LookupDecides(h: Home, slots: Slots, k: Key)
    requires Probeable(h, slots)
    ensures match Lookup(h, slots, k)
      case Found(at) => at in slots && slots[at].key == k
      case Hole(at) => !Holds(slots, k) && at !in slots && PathFull(slots, h(k), at)
      case NoRoom => !Holds(slots, k) && forall x: Slot :: x in slots
  {
    var n := h(k);
    ProbeWalk(slots, n, k, n, RANGE);
    match Lookup(h, slots, k) {
      case Hole(at) =>
        forall s | s in slots
          ensures slots[s].key != k
        {
          assert PathFull(slots, h(slots[s].key), s);
        }
      case _ =>
    }
  }

  /** Filling the hole that ended a key's probe path keeps both invariants of the table. */
  lemma InsertKeepsProbing(h: Home, slots: Slots, at: Slot, e: Entry)
    requires Probeable(h, slots) && KeysUnique(slots)
    requires !Holds(slots, e.key) && at !in slots && PathFull(slots, h(e.key), at)
    ensures Probeable(h, slots[at := e]) && KeysUnique(slots[at := e])
  {
    var t := slots[at := e];
    forall s | s in t
      ensures PathFull(t, h(t[s].key), s)
    {
      if s != at {
        assert PathFull(slots, h(slots[s].key), s);
      }
    }
  }

  /** Both invariants depend on the keys only. */
  lemma ProbingOfKeys(h: Home, a: Slots, b: Slots)
    requires Probeable(h, a) && KeysUnique(a)
    requires a.Keys == b.Keys && forall s :: s in a ==> a[s].key == b[s].key
    ensures Probeable(h, b) && KeysUnique(b)
  {
    forall s | s in b
      ensures PathFull(b, h(b[s].key), s)
    {
      assert PathFull(a, h(a[s].key), s);
      forall x: Slot | Before(h(b[s].key), x, s)
        ensures x in b
      {
        assert x in a;
      }
    }
    forall s, t | s in b && t in b && b[s].key == b[t].key
      ensures s == t
    {
      assert a[s].key == a[t].key;
    }
  }

  // ---- a table with one hole

  /** Every entry can be reached from its natural slot by crossing at most the one hole. */
  ghost predicate ProbeableAround(h: Home, slots: Slots, hole: Slot) {
    && hole !in slots
    && forall s, x: Slot :: s in slots && Before(h(slots[s].key), x, s) ==> x in slots || x == hole
  }

  lemma ProbeableAroundOfKeys(h: Home, a: Slots, b: Slots, hole: Slot)
    requires ProbeableAround(h, a, hole) && KeysUnique(a)
    requires a.Keys == b.Keys && forall s :: s in a ==> a[s].key == b[s].key
    ensures ProbeableAround(h, b, hole) && KeysUnique(b)
  {
    forall s, x: Slot | s in b && Before(h(b[s].key), x, s)
      ensures x in b || x == hole
    {
      assert Before(h(a[s].key), x, s);
    }
    forall s, t | s in b && t in b && b[s].key == b[t].key
      ensures s == t
    {
      assert a[s].key == a[t].key;
    }
  }

  /** How far the shift loop has walked from the hole to `curr`; coming full circle counts as a whole lap. */
  function Walked(hole: Slot, curr: Slot): nat {
    if curr == hole then RANGE else Dist(hole, curr)
  }

  /** The slots between the hole and `curr` are taken, and none of their entries belongs in the hole. */
  ghost predicate Settled(h: Home, slots: Slots, hole: Slot, curr: Slot) {
    forall x: Slot :: 0 < Dist(hole, x) < Walked(hole, curr) ==>
      x in slots && !Before(h(slots[x].key), hole, x)
  }

  lemma DeleteLeavesHole(h: Home, slots: Slots, idx: Slot)
    requires Probeable(h, slots) && KeysUnique(slots)
    ensures ProbeableAround(h, slots - {idx}, idx) && KeysUnique(slots - {idx})
    ensures Settled(h, slots - {idx}, idx, Next(idx))
  {
    forall s, x: Slot | s in slots - {idx} && Before(h(slots[s].key), x, s)
      ensures x in slots - {idx} || x == idx
    {
      assert PathFull(slots, h(slots[s].key), s);
    }
    DistNext(idx, idx);
  }

  /** An entry that does not belong in the hole extends the settled stretch. */
  lemma SettledNext(h: Home, slots: Slots, hole: Slot, curr: Slot)
    requires Settled(h, slots, hole, curr) && curr != hole
    requires curr in slots && !Before(h(slots[curr].key), hole, curr)
    ensures Settled(h, slots, hole, Next(curr))
  {
    DistNext(hole, curr);
    forall x: Slot | 0 < Dist(hole, x) < Walked(hole, Next(curr))
      ensures x in slots && !Before(h(slots[x].key), hole, x)
    {
      assert Dist(hole, x) == Dist(hole, curr) ==> x == curr;
    }
  }

  /** When the loop stops, at an empty slot or after a whole lap, no entry is cut off by the hole. */
  lemma SettledIsProbeable(h: Home, slots: Slots, hole: Slot, curr: Slot)
    requires ProbeableAround(h, slots, hole) && Settled(h, slots, hole, curr)
    requires curr == hole || curr !in slots
    ensures Probeable(h, slots)
  {
    forall s | s in slots
      ensures PathFull(slots, h(slots[s].key), s)
    {
      var n := h(slots[s].key);
      if Before(n, hole, s) && curr != hole {
        MetBeforeStop(n, hole, s, curr);
      }
    }
  }

  /** Moving the entry at `from` into the hole makes `from` the hole. */
  lemma RelocationMovesHole(h: Home, a: Slots, b: Slots, from: Slot, hole: Slot)
    requires ProbeableAround(h, a, hole) && KeysUnique(a)
    requires from in a && Before(h(a[from].key), hole, from)
    requires b.Keys == a.Keys - {from} + {hole}
    requires forall x :: x in b ==> b[x].key == if x == hole then a[from].key else a[x].key
    ensures ProbeableAround(h, b, from) && KeysUnique(b)
    ensures Settled(h, b, from, Next(from))
  {
    forall s, x: Slot | s in b && Before(h(b[s].key), x, s)
      ensures x in b || x == from
    {
      if s == hole {
        assert Before(h(a[from].key), x, from);
      } else {
        assert Before(h(a[s].key), x, s);
      }
    }
    forall s, t | s in b && t in b && b[s].key == b[t].key
      ensures s == t
    {
      var s0, t0 := if s == hole then from else s, if t == hole then from else t;
      assert a[s0].key == a[t0].key;
    }
    DistNext(from, from);
  }
}
