/** Backward-shift deletion: the loop's invariant, its result, and every flash state it passes through. */
module KvShift {
  import opened Bytes
  import opened SlotIds
  import opened EntryHash
  import opened KvStore
  import opened KvPrograms
  import opened KvProbing
  import opened KvList

  /** The list of items that a store stands for. */
  ghost predicate Means(s: Store, items: seq<Item>) {
    exists order :: Linked(s, order) && items == ItemsOf(s, order)
  }

  function ItemsOf(s: Store, order: seq<Slot>): seq<Item>
    requires Enumerates(s.slots.Keys, order)
  {
    Contents(s.slots, order)
  }

  lemma MeaningOf(s: Store, items: seq<Item>) returns (order: seq<Slot>)
    requires Means(s, items)
    ensures Linked(s, order) && Enumerates(s.slots.Keys, order) && items == ItemsOf(s, order)
  {
    order :| Linked(s, order) && items == ItemsOf(s, order);
  }

  lemma Meaning(s: Store) returns (items: seq<Item>)
    requires exists order :: Linked(s, order)
    ensures Means(s, items)
  {
    var order :| Linked(s, order);
    items := ItemsOf(s, order);
  }

  /** A store with one hole in its table, as left by an unlinked entry or by a relocated one. */
  ghost predicate Holed(h: Home, s: Store, hole: Slot) {
    && ProbeableAround(h, s.slots, hole)
    && KeysUnique(s.slots)
    && exists order :: Linked(s, order)
  }

  lemma MovedMeans(s: Store, order: seq<Slot>, i: nat, hole: Slot)
    requires Linked(s, order) && i < |order| && hole !in s.slots
    requires order[i] in s.slots && LinksPresent(s, s.slots[order[i]].prev, s.slots[order[i]].next)
    ensures Linked(Moved(s, order[i], hole), order[i := hole])
    ensures ItemsOf(Moved(s, order[i], hole), order[i := hole]) == ItemsOf(s, order)
  {
    MovedLinked(s, order, i, hole);
    var t, q := Moved(s, order[i], hole), order[i := hole];
    forall j | 0 <= j < |order|
      ensures ItemsOf(t, q)[j] == ItemsOf(s, order)[j]
    {
      assert order[j] in order && q[j] in q;
      assert q[j] in t.slots;
    }
  }

  /** One relocation: the four flash states it passes through. */
  lemma MoveRuns(s: Store, hole: Slot, curr: Slot, order: seq<Slot>) returns (i: nat)
    requires Linked(s, order) && curr in s.slots
    ensures i < |order| && order[i] == curr
    ensures LinksPresent(s, s.slots[curr].prev, s.slots[curr].next)
    ensures var s1 := Copied(s, curr, hole);
      var s2 := Pointed1(s1, s.slots[curr].prev, hole);
      var s3 := Pointed2(s2, s.slots[curr].next, hole);
      Move(s, curr, hole) == Run([s1, s2, s3, Moved(s, curr, hole)], Ok)
  {
    i :| 0 <= i < |order| && order[i] == curr;
    NeighboursPresent(s, order, i);
    MoveEnds(s, curr, hole);
  }

  lemma MoveTable(h: Home, s: Store, hole: Slot, order: seq<Slot>, i: nat)
    requires ProbeableAround(h, s.slots, hole) && KeysUnique(s.slots)
    requires Linked(s, order) && i < |order| && order[i] in s.slots && Moves(h, s, hole, order[i])
    requires LinksPresent(s, s.slots[order[i]].prev, s.slots[order[i]].next)
    ensures var t := Moved(s, order[i], hole);
      && ProbeableAround(h, t.slots, order[i]) && KeysUnique(t.slots)
      && Settled(h, t.slots, order[i], Next(order[i]))
      && t.slots.Keys == s.slots.Keys - {order[i]} + {hole} && t.intent == s.intent
  {
    MovedLinked(s, order, i, hole);
    RelocationMovesHole(h, s.slots, Moved(s, order[i], hole).slots, order[i], hole);
  }

  lemma HoledHole(h: Home, s: Store, hole: Slot)
    requires Holed(h, s, hole)
    ensures hole !in s.slots && exists order :: Linked(s, order)
  {
  }

  /** The store after a relocation, before the intent block names the new hole. */
  lemma MoveKeeps(h: Home, s: Store, hole: Slot, curr: Slot, items: seq<Item>)
    requires Holed(h, s, hole) && Means(s, items)
    requires curr in s.slots && Moves(h, s, hole, curr)
    ensures LinksPresent(s, s.slots[curr].prev, s.slots[curr].next)
    ensures var t := Moved(s, curr, hole);
      && Holed(h, t, curr) && Settled(h, t.slots, curr, Next(curr)) && Means(t, items)
      && t.slots.Keys == s.slots.Keys - {curr} + {hole} && t.intent == s.intent
  {
    hide Moved, Settled, Linked, KeysUnique, Enumerates, ItemsOf, Means, ProbeableAround;
    var order := MeaningOf(s, items);
    var i := MoveRuns(s, hole, curr, order);
    HoledHole(h, s, hole);
    MoveTable(h, s, hole, order, i);
    MovedMeans(s, order, i, hole);
    MeansBy(Moved(s, curr, hole), order[i := hole]);
  }

  lemma MeansBy(s: Store, order: seq<Slot>)
    requires Linked(s, order)
    ensures Means(s, ItemsOf(s, order))
  {
  }

  /** One round of the loop that relocates an entry: its flash states, then those of the rest of the loop. */
  lemma ShiftStep(h: Home, s: Store, hole: Slot, curr: Slot)
    requires Holed(h, s, hole)
    requires curr != hole && curr in s.slots && Moves(h, s, hole, curr)
    ensures LinksPresent(s, s.slots[curr].prev, s.slots[curr].next)
    ensures Move(s, curr, hole).code == Ok
    ensures var s1 := Copied(s, curr, hole);
      var s2 := Pointed1(s1, s.slots[curr].prev, hole);
      var s3 := Pointed2(s2, s.slots[curr].next, hole);
      var m := Moved(s, curr, hole);
      var s4 := m.(intent := Intent(Shifting, curr, NULL_ID, NULL_ID));
      var rest := ShiftFrom(h, s4, curr, Next(curr));
      && ShiftFrom(h, s, hole, curr) == Run([s1, s2, s3, m, s4] + rest.log, rest.code)
      && End(s, ShiftFrom(h, s, hole, curr)) == End(s4, rest)
      && Displacement(h, s4.slots) < Displacement(h, s.slots)
  {
    hide Moved, Linked, KeysUnique, ProbeableAround, Copied, Pointed1, Pointed2, Move, Displacement;
    var order :| Linked(s, order);
    var i := MoveRuns(s, hole, curr, order);
    MoveLowersDisplacement(h, s, curr, hole);
    var m := Moved(s, curr, hole);
    assert End(s, Move(s, curr, hole)) == m;
    var s4 := m.(intent := Intent(Shifting, curr, NULL_ID, NULL_ID));
    var rest := ShiftFrom(h, s4, curr, Next(curr));
    assert ShiftFrom(h, s, hole, curr) == Run(Move(s, curr, hole).log + [s4] + rest.log, rest.code);
  }

  /** The final store of the loop, whatever intent block it leaves. */
  ghost function Final(h: Home, s: Store, hole: Slot, curr: Slot): Store {
    End(s, ShiftFrom(h, s, hole, curr)).(intent := Idle)
  }

  /** The loop leaves an entry alone that does not belong in the hole, and stops at an empty slot. */
  lemma ShiftSkips(h: Home, s: Store, hole: Slot, curr: Slot)
    requires curr == hole || curr !in s.slots || !Moves(h, s, hole, curr)
    ensures ShiftFrom(h, s, hole, curr)
         == if curr == hole || curr !in s.slots then Nothing(Ok) else ShiftFrom(h, s, hole, Next(curr))
    ensures curr != hole && curr in s.slots ==> Final(h, s, hole, curr) == Final(h, s, hole, Next(curr))
  {
  }

  /** The rest of the loop after a relocation. */
  lemma ShiftContinues(h: Home, s: Store, hole: Slot, curr: Slot)
    requires Holed(h, s, hole)
    requires curr != hole && curr in s.slots && Moves(h, s, hole, curr)
    ensures LinksPresent(s, s.slots[curr].prev, s.slots[curr].next)
    ensures var s4 := Moved(s, curr, hole).(intent := Intent(Shifting, curr, NULL_ID, NULL_ID));
      && End(s, ShiftFrom(h, s, hole, curr)) == End(s4, ShiftFrom(h, s4, curr, Next(curr)))
      && Final(h, s, hole, curr) == Final(h, s4, curr, Next(curr))
      && ShiftFrom(h, s, hole, curr).code == ShiftFrom(h, s4, curr, Next(curr)).code
      && Displacement(h, s4.slots) < Displacement(h, s.slots)
  {
    hide Moved, Holed, Moves, Copied, Pointed1, Pointed2, ShiftFrom, End;
    ShiftStep(h, s, hole, curr);
  }

  /** The intent block is no part of the table or of the list. */
  lemma HoledIgnoresIntent(h: Home, s: Store, hole: Slot, intent: Intent, items: seq<Item>)
    requires Holed(h, s, hole) && Means(s, items)
    ensures Holed(h, s.(intent := intent), hole) && Means(s.(intent := intent), items)
  {
    var order :| Linked(s, order) && items == ItemsOf(s, order);
    assert Linked(s.(intent := intent), order);
    assert ItemsOf(s.(intent := intent), order) == items;
  }

  /** The shift loop succeeds, restores the probe invariant, and keeps keys unique, the list linked and the
      items in their order. */
  lemma {:induction false} ShiftRepairs(h: Home, s: Store, hole: Slot, curr: Slot, items: seq<Item>)
    requires Holed(h, s, hole) && Settled(h, s.slots, hole, curr) && Means(s, items)
    ensures var r := ShiftFrom(h, s, hole, curr);
      && r.code == Ok
      && Probeable(h, End(s, r).slots) && KeysUnique(End(s, r).slots) && Means(End(s, r), items)
    decreases Displacement(h, s.slots), Dist(curr, hole)
  {
    hide Moved, Means, Linked;
    if curr == hole || curr !in s.slots {
      SettledIsProbeable(h, s.slots, hole, curr);
    } else if !Moves(h, s, hole, curr) {
      SettledNext(h, s.slots, hole, curr);
      ShiftRepairs(h, s, hole, Next(curr), items);
    } else {
      MoveKeeps(h, s, hole, curr, items);
      ShiftContinues(h, s, hole, curr);
      var m := Moved(s, curr, hole);
      var s4 := m.(intent := Intent(Shifting, curr, NULL_ID, NULL_ID));
      HoledIgnoresIntent(h, m, curr, s4.intent, items);
      ShiftRepairs(h, s4, curr, Next(curr), items);
    }
  }

  lemma MoveIgnoresIntent(s: Store, from: Slot, hole: Slot, intent: Intent)
    requires from in s.slots && LinksPresent(s, s.slots[from].prev, s.slots[from].next)
    ensures Moved(s.(intent := intent), from, hole) == Moved(s, from, hole).(intent := intent)
  {
  }

  /** The loop does not read the intent block. */
  lemma {:induction false} FinalIgnoresIntent(h: Home, s: Store, hole: Slot, curr: Slot, intent: Intent)
    requires Holed(h, s, hole)
    ensures Final(h, s.(intent := intent), hole, curr) == Final(h, s, hole, curr)
    decreases Displacement(h, s.slots), Dist(curr, hole)
  {
    hide Moved, Holed, Means, Linked;
    HoledHole(h, s, hole);
    var items := Meaning(s);
    var t := s.(intent := intent);
    HoledIgnoresIntent(h, s, hole, intent, items);
    if curr == hole || curr !in s.slots {
    } else if !Moves(h, s, hole, curr) {
      FinalIgnoresIntent(h, s, hole, Next(curr), intent);
    } else {
      ShiftContinues(h, s, hole, curr);
      ShiftContinues(h, t, hole, curr);
      MoveIgnoresIntent(s, curr, hole, intent);
    }
  }

  /** What a power loss during the shift can leave: a store with one hole whose intent block names either the
      hole or an earlier one since filled, every slot from there up to the hole being taken, and from which the
      loop ends in `final`. */
  ghost predicate Pending(h: Home, s: Store, hole: Slot, final: Store) {
    && Holed(h, s, hole)
    && NamesHole(s, hole)
    && Final(h, s, hole, Next(hole)) == final
  }

  /** The flash state inside a relocation, after the copy and before the source is deleted. */
  ghost predicate MidMove(h: Home, s: Store) {
    && Probeable(h, s.slots)
    && !KeysUnique(s.slots)
    && s.intent.Intent? && s.intent.op == Shifting
    && s.intent.target in s.slots
  }

  /** After the copy, both slots hold the entry and no probe path has a hole. */
  lemma DuplicateFillsHole(h: Home, a: Slots, b: Slots, hole: Slot, curr: Slot)
    requires ProbeableAround(h, a, hole) && curr in a && Before(h(a[curr].key), hole, curr)
    requires b.Keys == a.Keys + {hole}
    requires forall x :: x in b ==> b[x].key == if x == hole then a[curr].key else a[x].key
    ensures Probeable(h, b) && !KeysUnique(b)
  {
    forall t | t in b
      ensures PathFull(b, h(b[t].key), t)
    {
      var t0 := if t == hole then curr else t;
      forall x: Slot | Before(h(b[t].key), x, t)
        ensures x in b
      {
        assert Before(h(a[t0].key), x, t0);
      }
    }
    assert b[hole].key == b[curr].key && hole != curr;
  }

  lemma PointedKeys(s: Store, link: Link, to: Slot)
    requires link != NULL_ID ==> link in s.slots
    ensures Pointed1(s, link, to).slots.Keys == s.slots.Keys && Pointed2(s, link, to).slots.Keys == s.slots.Keys
    ensures forall x :: x in s.slots ==>
      Pointed1(s, link, to).slots[x].key == s.slots[x].key && Pointed2(s, link, to).slots[x].key == s.slots[x].key
    ensures Pointed1(s, link, to).intent == s.intent && Pointed2(s, link, to).intent == s.intent
  {
  }

  lemma CopiedKeys(s: Store, hole: Slot, curr: Slot)
    requires curr in s.slots
    ensures var d := Copied(s, curr, hole);
      && d.slots.Keys == s.slots.Keys + {hole} && d.intent == s.intent
      && forall x :: x in d.slots ==> d.slots[x].key == if x == hole then s.slots[curr].key else s.slots[x].key
  {
  }

  lemma CopyKeys(s: Store, hole: Slot, curr: Slot, d: Store)
    requires curr in s.slots && LinksPresent(s, s.slots[curr].prev, s.slots[curr].next)
    requires d == Copied(s, curr, hole)
          || d == Pointed1(Copied(s, curr, hole), s.slots[curr].prev, hole)
          || d == Pointed2(Pointed1(Copied(s, curr, hole), s.slots[curr].prev, hole), s.slots[curr].next, hole)
    ensures d.slots.Keys == s.slots.Keys + {hole} && d.intent == s.intent
    ensures forall x :: x in d.slots ==>
      d.slots[x].key == if x == hole then s.slots[curr].key else s.slots[x].key
  {
    hide Pointed1, Pointed2, Copied;
    var s1 := Copied(s, curr, hole);
    CopiedKeys(s, hole, curr);
    PointedKeys(s1, s.slots[curr].prev, hole);
    PointedKeys(Pointed1(s1, s.slots[curr].prev, hole), s.slots[curr].next, hole);
  }

  lemma CopyIsMidMove(h: Home, s: Store, hole: Slot, curr: Slot, d: Store)
    requires Holed(h, s, hole) && curr in s.slots && Moves(h, s, hole, curr)
    requires s.intent.Intent? && s.intent.op == Shifting && (s.intent.target == hole || s.intent.target in s.slots)
    requires LinksPresent(s, s.slots[curr].prev, s.slots[curr].next)
    requires d == Copied(s, curr, hole)
          || d == Pointed1(Copied(s, curr, hole), s.slots[curr].prev, hole)
          || d == Pointed2(Pointed1(Copied(s, curr, hole), s.slots[curr].prev, hole), s.slots[curr].next, hole)
    ensures MidMove(h, d)
  {
    hide Copied, Pointed1, Pointed2, ProbeableAround, KeysUnique, Probeable, Linked;
    CopyKeys(s, hole, curr, d);
    DuplicateFillsHole(h, s.slots, d.slots, hole, curr);
  }

  /** The slots from an earlier hole up to the new one stay taken when the hole moves on. */
  lemma StaleTargetStaysBehind(h: Home, s: Slots, t: Slots, target: Slot, hole: Slot, curr: Slot)
    requires forall x: Slot :: Before(target, x, hole) ==> x in s
    requires Settled(h, s, hole, curr)
    requires t.Keys == s.Keys - {curr} + {hole} && curr in s && hole !in s
    ensures forall x: Slot :: Before(target, x, curr) ==> x in t
  {
  }

  /** The power loss may come at any write of the shift: the intent block then names the hole, or an earlier one
      since filled. */
  ghost predicate NamesHole(s: Store, hole: Slot) {
    && s.intent.Intent? && s.intent.op == Shifting
    && forall x: Slot :: Before(s.intent.target, x, hole) ==> x in s.slots
  }

  /** Once the source of a relocation is deleted, the rest of the loop is all that is missing. */
  lemma VacatedIsPending(h: Home, s: Store, hole: Slot, curr: Slot)
    requires Holed(h, s, hole) && Settled(h, s.slots, hole, curr) && NamesHole(s, hole)
    requires curr != hole && curr in s.slots && Moves(h, s, hole, curr)
    requires LinksPresent(s, s.slots[curr].prev, s.slots[curr].next)
    ensures Pending(h, Moved(s, curr, hole), curr, Final(h, s, hole, curr))
    ensures Pending(h, Moved(s, curr, hole).(intent := Intent(Shifting, curr, NULL_ID, NULL_ID)), curr,
                    Final(h, s, hole, curr))
  {
    hide Moved, Holed, Means, Settled, ShiftFrom, Moves, End, Linked;
    HoledHole(h, s, hole);
    var items := Meaning(s);
    var m := Moved(s, curr, hole);
    var moved := Intent(Shifting, curr, NULL_ID, NULL_ID);
    MoveKeeps(h, s, hole, curr, items);
    HoledIgnoresIntent(h, m, curr, moved, items);
    StaleTargetStaysBehind(h, s.slots, m.slots, s.intent.target, hole, curr);
    FinalIgnoresIntent(h, m, curr, Next(curr), moved);
    ShiftContinues(h, s, hole, curr);
  }

  lemma NamesOwnHole(s: Store, hole: Slot)
    requires s.intent == Intent(Shifting, hole, NULL_ID, NULL_ID)
    ensures NamesHole(s, hole)
  {
  }

  /** The flash states of one relocation. */
  lemma MoveStates(h: Home, s: Store, hole: Slot, curr: Slot, d: Store)
    requires Holed(h, s, hole) && Settled(h, s.slots, hole, curr) && NamesHole(s, hole)
    requires curr != hole && curr in s.slots && Moves(h, s, hole, curr)
    requires LinksPresent(s, s.slots[curr].prev, s.slots[curr].next)
    requires var s1 := Copied(s, curr, hole);
      var s2 := Pointed1(s1, s.slots[curr].prev, hole);
      var s3 := Pointed2(s2, s.slots[curr].next, hole);
      var m := Moved(s, curr, hole);
      d in [s1, s2, s3, m, m.(intent := Intent(Shifting, curr, NULL_ID, NULL_ID))]
    ensures Pending(h, d, curr, Final(h, s, hole, curr)) || MidMove(h, d)
  {
    hide Holed, Pending, MidMove, Settled, Copied, Pointed1, Pointed2, Moved, Final, Moves;
    var target := s.intent.target;
    assert target != hole ==> Before(target, target, hole);
    var m := Moved(s, curr, hole);
    if d == m || d == m.(intent := Intent(Shifting, curr, NULL_ID, NULL_ID)) {
      VacatedIsPending(h, s, hole, curr);
    } else {
      CopyIsMidMove(h, s, hole, curr, d);
    }
  }

  lemma {:induction false} RelocationStates(h: Home, s: Store, hole: Slot, curr: Slot, d: Store)
    requires Holed(h, s, hole) && Settled(h, s.slots, hole, curr) && NamesHole(s, hole)
    requires curr != hole && curr in s.slots && Moves(h, s, hole, curr)
    requires LinksPresent(s, s.slots[curr].prev, s.slots[curr].next)
    requires var s4 := Moved(s, curr, hole).(intent := Intent(Shifting, curr, NULL_ID, NULL_ID));
      d in ShiftFrom(h, s, hole, curr).log && d !in ShiftFrom(h, s4, curr, Next(curr)).log
    ensures Pending(h, d, curr, Final(h, s, hole, curr)) || MidMove(h, d)
  {
    hide Holed, Settled, Moves, Copied, Pointed1, Pointed2, Moved, ShiftFrom, Pending, MidMove, NamesHole, End;
    ShiftStep(h, s, hole, curr);
    MoveStates(h, s, hole, curr, d);
  }

  /** Every flash state of the shift loop is pending towards the loop's result or inside a relocation. */
  lemma {:induction false} ShiftStates(h: Home, s: Store, hole: Slot, curr: Slot, d: Store)
    requires Holed(h, s, hole) && Settled(h, s.slots, hole, curr) && NamesHole(s, hole)
    requires d in ShiftFrom(h, s, hole, curr).log
    ensures (exists hole' :: Pending(h, d, hole', Final(h, s, hole, curr))) || MidMove(h, d)
    decreases Displacement(h, s.slots), Dist(curr, hole)
  {
    hide Moved, Holed, MidMove, Means, Settled, Pending, Linked, ShiftFrom, End;
    HoledHole(h, s, hole);
    if curr == hole || curr !in s.slots {
      ShiftSkips(h, s, hole, curr);
    } else if !Moves(h, s, hole, curr) {
      ShiftSkips(h, s, hole, curr);
      SettledNext(h, s.slots, hole, curr);
      ShiftStates(h, s, hole, Next(curr), d);
    } else {
      var items := Meaning(s);
      MoveKeeps(h, s, hole, curr, items);
      ShiftContinues(h, s, hole, curr);
      var m := Moved(s, curr, hole);
      var s4 := m.(intent := Intent(Shifting, curr, NULL_ID, NULL_ID));
      HoledIgnoresIntent(h, m, curr, s4.intent, items);
      NamesOwnHole(s4, curr);
      if d in ShiftFrom(h, s4, curr, Next(curr)).log {
        ShiftStates(h, s4, curr, Next(curr), d);
      } else {
        RelocationStates(h, s, hole, curr, d);
      }
    }
  }

  /** A loop started at an empty slot that no probe path crosses writes nothing. */
  lemma {:induction false} FalseHoleMovesNothing(h: Home, s: Store, hole: Slot, curr: Slot)
    requires Probeable(h, s.slots) && hole !in s.slots
    ensures ShiftFrom(h, s, hole, curr) == Nothing(Ok)
    decreases Dist(curr, hole)
  {
    if curr != hole && curr in s.slots {
      assert PathFull(s.slots, h(s.slots[curr].key), curr);
      FalseHoleMovesNothing(h, s, hole, Next(curr));
    }
  }
}
