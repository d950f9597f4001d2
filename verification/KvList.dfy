/** The doubly linked list inside the entries: what appending, unlinking and relocating do to its order. */
module KvList {
  import opened Bytes
  import opened SlotIds
  import opened EntryHash
  import opened KvStore
  import opened KvPrograms

  function Without<T>(q: seq<T>, i: nat): seq<T>
    requires i < |q|
  {
    q[..i] + q[i + 1..]
  }

  /** The list order is a function of the store. */
  lemma {:induction false} OrderPrefixUnique(s: Store, a: seq<Slot>, b: seq<Slot>, n: nat)
    requires Linked(s, a) && Linked(s, b) && n <= |a|
    ensures n <= |b| && a[..n] == b[..n]
  {
    if n > 0 {
      OrderPrefixUnique(s, a, b, n - 1);
      if n == 1 {
        assert LinkAt(a, 0) == LinkAt(b, 0);
      } else {
        assert a[n - 2] == a[..n - 1][n - 2] == b[..n - 1][n - 2] == b[n - 2];
        assert ChainedAt(s.slots, a, n - 2) && ChainedAt(s.slots, b, n - 2);
        assert LinkAt(a, n - 1) == s.slots[a[n - 2]].next == LinkAt(b, n - 1);
      }
      assert a[..n] == a[..n - 1] + [a[n - 1]];
      assert b[..n] == b[..n - 1] + [b[n - 1]];
    }
  }

  lemma OrderUnique(s: Store, a: seq<Slot>, b: seq<Slot>)
    requires Linked(s, a) && Linked(s, b)
    ensures a == b
  {
    OrderPrefixUnique(s, a, b, |a|);
    OrderPrefixUnique(s, b, a, |b|);
    assert a[..|a|] == a && b[..|b|] == b;
  }

  // ---- insertion and update

  /** The store after a new entry was written behind the tail. */
  function Appended(s: Store, idx: Slot, k: Key, value: Bytes): Store
    requires s.tail != NULL_ID ==> s.tail in s.slots
  {
    var linked := if s.tail != NULL_ID then s.slots[s.tail := s.slots[s.tail].(next := idx)] else s.slots;
    Store(linked[idx := Entry(k, NULL_ID, s.tail, value)], if s.tail != NULL_ID then s.head else idx, idx, Idle)
  }

  lemma AppendedLinked(s: Store, order: seq<Slot>, idx: Slot, k: Key, value: Bytes)
    requires Linked(s, order) && idx !in s.slots
    ensures s.tail != NULL_ID ==> s.tail in s.slots
    ensures Linked(Appended(s, idx, k, value), order + [idx])
  {
    var n := |order|;
    if n > 0 {
      assert ChainedAt(s.slots, order, n - 1);
    }
    var t := Appended(s, idx, k, value);
    var q := order + [idx];
    assert Enumerates(t.slots.Keys, q);
    forall i | 0 <= i < |q|
      ensures ChainedAt(t.slots, q, i)
    {
      if i < n {
        assert ChainedAt(s.slots, order, i);
        assert order[i] == order[n - 1] ==> i == n - 1;
      }
    }
  }

  lemma EntryWriteAppends(s: Store, order: seq<Slot>, idx: Slot, k: Key, value: Bytes)
    requires Linked(s, order) && s.intent == Idle && idx !in s.slots
    ensures s.tail != NULL_ID ==> s.tail in s.slots
    ensures var s1 := s.(intent := Intent(Inserting, idx, s.tail, NULL_ID));
      var s2 := s1.(slots := s1.slots[idx := Entry(k, NULL_ID, s.tail, value)]);
      var s3 := if s.tail == NULL_ID then s2 else s2.(slots := s2.slots[s.tail := s2.slots[s.tail].(next := idx)]);
      var s4 := s3.(head := if s.tail == NULL_ID then idx else s.head, tail := idx);
      EntryWrite(s, idx, k, value)
        == Run((if s.tail == NULL_ID then [s1, s2] else [s1, s2, s3]) + [s4, Appended(s, idx, k, value)], Ok)
  {
    if |order| > 0 {
      assert ChainedAt(s.slots, order, |order| - 1);
    }
    var s1 := s.(intent := Intent(Inserting, idx, s.tail, NULL_ID));
    var s2 := s1.(slots := s1.slots[idx := Entry(k, NULL_ID, s.tail, value)]);
    var s3 := if s.tail == NULL_ID then s2 else s2.(slots := s2.slots[s.tail := s2.slots[s.tail].(next := idx)]);
    var s4 := s3.(head := if s.tail == NULL_ID then idx else s.head, tail := idx);
    var s5 := s4.(intent := Idle);
    assert s5 == Appended(s, idx, k, value);
    var r := UpdateTail(s2, idx);
    assert r == Run(if s.tail == NULL_ID then [s4] else [s3] + [s4], Ok);
    assert End(s2, r) == s4;
  }

  /** The store after an existing entry got a new value. */
  function Updated(s: Store, idx: Slot, value: Bytes): Store
    requires idx in s.slots
  {
    s.(slots := s.slots[idx := s.slots[idx].(value := value)])
  }

  lemma UpdatedLinked(s: Store, order: seq<Slot>, idx: Slot, value: Bytes)
    requires Linked(s, order) && idx in s.slots
    ensures Linked(Updated(s, idx, value), order)
  {
    forall i | 0 <= i < |order|
      ensures ChainedAt(Updated(s, idx, value).slots, order, i)
    {
      assert ChainedAt(s.slots, order, i);
    }
  }

  // ---- unlinking

  function Bridged1(s: Store, prev: Link, next: Link): Store
    requires prev != NULL_ID ==> prev in s.slots
  {
    if prev != NULL_ID then s.(slots := s.slots[prev := s.slots[prev].(next := next)]) else s
  }

  function Bridged2(s: Store, prev: Link, next: Link): Store
    requires next != NULL_ID ==> next in s.slots
  {
    if next != NULL_ID then s.(slots := s.slots[next := s.slots[next].(prev := prev)]) else s
  }

  function Bridged3(s: Store, prev: Link, next: Link): Store {
    s.(head := if prev == NULL_ID then next else s.head, tail := if next == NULL_ID then prev else s.tail)
  }

  predicate LinksPresent(s: Store, prev: Link, next: Link) {
    (prev != NULL_ID ==> prev in s.slots) && (next != NULL_ID ==> next in s.slots)
  }

  /** The store after the entry at `idx` was taken out from between `prev` and `next`. */
  function Detached(s: Store, idx: Slot, prev: Link, next: Link): Store
    requires LinksPresent(s, prev, next)
  {
    var t := Bridged3(Bridged2(Bridged1(s, prev, next), prev, next), prev, next);
    t.(slots := t.slots - {idx})
  }

  /** The writes of an unlinking, in order; a record or entry that is not concerned is skipped. */
  lemma DetachSteps(s: Store, idx: Slot, prev: Link, next: Link)
    requires LinksPresent(s, prev, next)
    ensures var s1 := Bridged1(s, prev, next);
      var s2 := Bridged2(s1, prev, next);
      var s3 := Bridged3(s2, prev, next);
      Detach(s, idx, prev, next) == Run(
        (if prev != NULL_ID then [s1] else []) + (if next != NULL_ID then [s2] else [])
        + (if prev == NULL_ID || next == NULL_ID then [s3] else []) + [s3.(slots := s3.slots - {idx})], Ok)
  {
    var s1 := Bridged1(s, prev, next);
    var s2 := Bridged2(s1, prev, next);
    var s3 := Bridged3(s2, prev, next);
    var r3 := Erase(s3, idx);
    var r2 := if prev == NULL_ID || next == NULL_ID then Run([s3] + r3.log, Ok) else r3;
    var r1 := if next != NULL_ID then Run([s2] + r2.log, Ok) else r2;
    assert Detach(s, idx, prev, next) == if prev != NULL_ID then Run([s1] + r1.log, Ok) else r1;
  }

  lemma DetachEnds(s: Store, idx: Slot, prev: Link, next: Link)
    requires LinksPresent(s, prev, next)
    ensures Detach(s, idx, prev, next).code == Ok
    ensures End(s, Detach(s, idx, prev, next)) == Detached(s, idx, prev, next)
    ensures forall d :: d in Detach(s, idx, prev, next).log ==>
      || d == Bridged1(s, prev, next)
      || d == Bridged2(Bridged1(s, prev, next), prev, next)
      || d == Bridged3(Bridged2(Bridged1(s, prev, next), prev, next), prev, next)
      || d == Detached(s, idx, prev, next)
  {
    hide Detach;
    DetachSteps(s, idx, prev, next);
  }

  lemma DetachIntents(s: Store, idx: Slot, prev: Link, next: Link)
    requires LinksPresent(s, prev, next)
    ensures forall d :: d in Detach(s, idx, prev, next).log ==> d.intent == s.intent
    ensures Detached(s, idx, prev, next).intent == s.intent && idx !in Detached(s, idx, prev, next).slots
    ensures forall d :: d in Detach(s, idx, prev, next).log && d != Detached(s, idx, prev, next) && idx in s.slots ==>
      idx in d.slots
  {
    DetachEnds(s, idx, prev, next);
  }

  lemma BridgedKeys(s: Store, prev: Link, next: Link)
    requires LinksPresent(s, prev, next)
    ensures forall t :: t in [Bridged1(s, prev, next), Bridged2(s, prev, next), Bridged3(s, prev, next)] ==>
      t.slots.Keys == s.slots.Keys && forall x :: x in s.slots ==> t.slots[x].key == s.slots[x].key
  {
  }

  lemma DetachKeys(s: Store, idx: Slot, prev: Link, next: Link, d: Store)
    requires LinksPresent(s, prev, next)
    requires d in Detach(s, idx, prev, next).log
    ensures forall x :: x in d.slots ==> x in s.slots && d.slots[x].key == s.slots[x].key
  {
    hide Bridged1, Bridged2, Bridged3, Detach;
    DetachEnds(s, idx, prev, next);
    BridgedKeys(s, prev, next);
    var s1 := Bridged1(s, prev, next);
    BridgedKeys(s1, prev, next);
    BridgedKeys(Bridged2(s1, prev, next), prev, next);
  }

  /** Repeating the detachment from any state it passes through ends in the same store. */
  lemma DetachRepeats(s: Store, d: Store, idx: Slot, prev: Link, next: Link)
    requires LinksPresent(s, prev, next)
    requires d == s || d == Bridged1(s, prev, next) || d == Bridged2(Bridged1(s, prev, next), prev, next)
          || d == Bridged3(Bridged2(Bridged1(s, prev, next), prev, next), prev, next)
    ensures LinksPresent(d, prev, next)
    ensures Detached(d, idx, prev, next) == Detached(s, idx, prev, next)
    ensures Bridged1(d, prev, next).intent == Bridged1(s, prev, next).intent
  {
    var s1 := Bridged1(s, prev, next);
    var s2 := Bridged2(s1, prev, next);
    var s3 := Bridged3(s2, prev, next);
    assert Bridged1(s1, prev, next) == s1;
    assert Bridged1(s2, prev, next) == s2;
    assert Bridged2(s2, prev, next) == s2;
  }

  lemma NeighboursPresent(s: Store, order: seq<Slot>, i: nat)
    requires Linked(s, order) && i < |order|
    ensures order[i] in s.slots
    ensures s.slots[order[i]].prev == LinkAt(order, i - 1) && s.slots[order[i]].next == LinkAt(order, i + 1)
    ensures LinksPresent(s, LinkAt(order, i - 1), LinkAt(order, i + 1))
  {
    assert ChainedAt(s.slots, order, i);
    if i > 0 { assert ChainedAt(s.slots, order, i - 1); }
    if i + 1 < |order| { assert ChainedAt(s.slots, order, i + 1); }
  }

  lemma WithoutEnumerates(ids: set<Slot>, order: seq<Slot>, i: nat)
    requires Enumerates(ids, order) && i < |order|
    ensures Enumerates(ids - {order[i]}, Without(order, i))
  {
    var q := Without(order, i);
    forall j, k | 0 <= j < k < |q|
      ensures q[j] != q[k]
    {
      var j0, k0 := if j < i then j else j + 1, if k < i then k else k + 1;
      assert q[j] == order[j0] && q[k] == order[k0];
    }
    forall id: Slot
      ensures id in ids - {order[i]} <==> id in q
    {
      if id in ids - {order[i]} {
        var j :| 0 <= j < |order| && order[j] == id;
        assert q[if j < i then j else j - 1] == id;
      }
      if id in q {
        var j :| 0 <= j < |q| && q[j] == id;
        assert order[if j < i then j else j + 1] == id;
      }
    }
  }

  /** Unlinking takes the entry out of the order and leaves every other key and value alone. */
  lemma DetachedLinked(s: Store, order: seq<Slot>, i: nat)
    requires Linked(s, order) && i < |order|
    requires order[i] in s.slots && LinksPresent(s, s.slots[order[i]].prev, s.slots[order[i]].next)
    ensures var t := Detached(s, order[i], s.slots[order[i]].prev, s.slots[order[i]].next);
      && Linked(t, Without(order, i))
      && t.slots.Keys == s.slots.Keys - {order[i]}
      && (forall x :: x in t.slots ==> t.slots[x].key == s.slots[x].key && t.slots[x].value == s.slots[x].value)
      && t.intent == s.intent
  {
    NeighboursPresent(s, order, i);
    var idx := order[i];
    var t := Detached(s, idx, s.slots[idx].prev, s.slots[idx].next);
    var q := Without(order, i);
    WithoutEnumerates(s.slots.Keys, order, i);
    assert t.slots.Keys == s.slots.Keys - {idx};
    forall j | 0 <= j < |q|
      ensures ChainedAt(t.slots, q, j)
    {
      DetachedChainedAt(s, order, i, j);
    }
  }

  lemma DetachedChainedAt(s: Store, order: seq<Slot>, i: nat, j: nat)
    requires Linked(s, order) && i < |order| && j < |order| - 1
    requires order[i] in s.slots && LinksPresent(s, s.slots[order[i]].prev, s.slots[order[i]].next)
    ensures ChainedAt(Detached(s, order[i], s.slots[order[i]].prev, s.slots[order[i]].next).slots, Without(order, i), j)
  {
    NeighboursPresent(s, order, i);
    var j0 := if j < i then j else j + 1;
    var q := Without(order, i);
    assert q[j] == order[j0];
    assert ChainedAt(s.slots, order, j0);
    assert LinkAt(q, j + 1) == LinkAt(order, if j + 1 < i then j + 1 else j + 2);
    assert LinkAt(q, j - 1) == LinkAt(order, if j - 1 < i then j - 1 else j);
    assert i > 0 && j0 != i - 1 ==> order[j0] != order[i - 1];
    assert i + 1 < |order| && j0 != i + 1 ==> order[j0] != order[i + 1];
  }

  // ---- relocation

  function Pointed1(s: Store, prev: Link, to: Slot): Store
    requires prev != NULL_ID ==> prev in s.slots
  {
    if prev != NULL_ID then s.(slots := s.slots[prev := s.slots[prev].(next := to)]) else s.(head := to)
  }

  function Pointed2(s: Store, next: Link, to: Slot): Store
    requires next != NULL_ID ==> next in s.slots
  {
    if next != NULL_ID then s.(slots := s.slots[next := s.slots[next].(prev := to)]) else s.(tail := to)
  }

  function Copied(s: Store, from: Slot, hole: Slot): Store
    requires from in s.slots
  {
    s.(slots := s.slots[hole := s.slots[from]])
  }

  /** The store after the entry at `from` was moved to `hole`. */
  function Moved(s: Store, from: Slot, hole: Slot): Store
    requires from in s.slots && LinksPresent(s, s.slots[from].prev, s.slots[from].next)
  {
    var e := s.slots[from];
    var t := Pointed2(Pointed1(Copied(s, from, hole), e.prev, hole), e.next, hole);
    t.(slots := t.slots - {from})
  }

  lemma PointedIsLink(s: Store, link: Link, to: Slot)
    requires link != NULL_ID ==> link in s.slots
    ensures LinkPrev(s, link, to) == Run([Pointed1(s, link, to)], Ok)
    ensures LinkNext(s, link, to) == Run([Pointed2(s, link, to)], Ok)
    ensures Pointed1(s, link, to).slots.Keys == s.slots.Keys
  {
  }

  lemma MoveEnds(s: Store, from: Slot, hole: Slot)
    requires from in s.slots && LinksPresent(s, s.slots[from].prev, s.slots[from].next)
    ensures var e := s.slots[from];
      var s1 := Copied(s, from, hole);
      var s2 := Pointed1(s1, e.prev, hole);
      var s3 := Pointed2(s2, e.next, hole);
      Move(s, from, hole) == Run([s1, s2, s3, Moved(s, from, hole)], Ok)
  {
    hide Pointed1, Pointed2, LinkPrev, LinkNext;
    var e := s.slots[from];
    var s1 := Copied(s, from, hole);
    PointedIsLink(s1, e.prev, hole);
    var s2 := Pointed1(s1, e.prev, hole);
    PointedIsLink(s2, e.next, hole);
    var s3 := Pointed2(s2, e.next, hole);
    assert Relink(s1, e.prev, e.next, hole) == Run([s2, s3], Ok);
    var s4 := Moved(s, from, hole);
    assert Then(s1, Relink(s1, e.prev, e.next, hole), x => Erase(x, from)) == Run([s2, s3] + [s4], Ok);
  }

  lemma RenamedEnumerates(ids: set<Slot>, order: seq<Slot>, i: nat, hole: Slot)
    requires Enumerates(ids, order) && i < |order| && hole !in ids
    ensures Enumerates(ids - {order[i]} + {hole}, order[i := hole])
  {
    var q := order[i := hole];
    assert forall j :: 0 <= j < |order| ==> order[j] in order;
    forall id: Slot
      ensures id in ids - {order[i]} + {hole} <==> id in q
    {
      if id in ids - {order[i]} {
        var j :| 0 <= j < |order| && order[j] == id;
        assert q[j] == id;
      }
      assert q[i] == hole;
    }
  }

  lemma MovedChainedAt(s: Store, order: seq<Slot>, i: nat, hole: Slot, j: nat)
    requires Linked(s, order) && i < |order| && hole !in s.slots && j < |order|
    requires order[i] in s.slots && LinksPresent(s, s.slots[order[i]].prev, s.slots[order[i]].next)
    ensures ChainedAt(Moved(s, order[i], hole).slots, order[i := hole], j)
  {
    NeighboursPresent(s, order, i);
    assert ChainedAt(s.slots, order, j) && ChainedAt(s.slots, order, i);
    var q := order[i := hole];
    assert LinkAt(q, j + 1) == if j + 1 == i then hole else LinkAt(order, j + 1);
    assert LinkAt(q, j - 1) == if j - 1 == i then hole else LinkAt(order, j - 1);
    assert j != i ==> order[j] != order[i];
    assert i > 0 && j != i - 1 ==> order[j] != order[i - 1];
    assert i + 1 < |order| && j != i + 1 ==> order[j] != order[i + 1];
  }

  /** Relocation renames one slot in the order; keys and values move with it and the list order is kept. */
  lemma MovedLinked(s: Store, order: seq<Slot>, i: nat, hole: Slot)
    requires Linked(s, order) && i < |order| && hole !in s.slots
    requires order[i] in s.slots && LinksPresent(s, s.slots[order[i]].prev, s.slots[order[i]].next)
    ensures var t := Moved(s, order[i], hole);
      && Linked(t, order[i := hole])
      && t.slots.Keys == s.slots.Keys - {order[i]} + {hole}
      && (forall x :: x in t.slots ==>
            var y := if x == hole then order[i] else x;
            t.slots[x].key == s.slots[y].key && t.slots[x].value == s.slots[y].value)
      && t.intent == s.intent
  {
    NeighboursPresent(s, order, i);
    var t := Moved(s, order[i], hole);
    var q := order[i := hole];
    RenamedEnumerates(s.slots.Keys, order, i, hole);
    assert t.slots.Keys == s.slots.Keys - {order[i]} + {hole};
    forall j | 0 <= j < |q|
      ensures ChainedAt(t.slots, q, j)
    {
      MovedChainedAt(s, order, i, hole, j);
    }
    if i > 0 { assert order[i - 1] != order[i]; }
    if i + 1 < |order| { assert order[i + 1] != order[i]; }
  }
}
