/** The operations as their callers see them: what they do to the ordered list of items, and what a power loss
    at any of their flash writes leads to. */
module KvOperations {
  import opened Bytes
  import opened SlotIds
  import opened EntryHash
  import opened KvStore
  import opened KvPrograms
  import opened KvProbing
  import opened KvList
  import opened KvShift
  import opened KvCrash

  datatype Op = Put(key: Key, value: Bytes) | Remove(key: Key)

  /** An operation on a store without a pending intent. */
  ghost function Execute(h: Home, s: Store, op: Op): Run {
    match op
    case Put(k, value) =>
      (match Lookup(h, s.slots, k)
       case Found(at) => EntryWrite(s, at, k, value)
       case Hole(at) => EntryWrite(s, at, k, value)
       case NoRoom => Nothing(Full))
    case Remove(k) =>
      (match Lookup(h, s.slots, k)
       case Found(at) => EntryDelete(h, s, at)
       case Hole(at) => Nothing(NotFound)
       case NoRoom => Nothing(Full))
  }

  // ---- the insertion-ordered map that the store implements

  /** Index of a key in the list, or the list's length if it is not there. */
  function Position(items: seq<Item>, k: Key): (i: nat)
    ensures i <= |items|
    ensures i < |items| ==> items[i].key == k
    ensures forall j :: 0 <= j < i ==> items[j].key != k
  {
    if items == [] then 0
    else if items[0].key == k then 0
    else 1 + Position(items[1..], k)
  }

  /** A new key goes to the end, a known key keeps its place, a removed key leaves the rest as it was. */
  function Outcome(items: seq<Item>, op: Op): seq<Item> {
    var i := Position(items, op.key);
    match op
    case Put(k, value) => if i < |items| then items[i := Item(k, value)] else items + [Item(k, value)]
    case Remove(k) => if i < |items| then Without(items, i) else items
  }

  ghost predicate Saturated(slots: Slots) {
    forall x: Slot :: x in slots
  }

  /** A store without a pending intent that keeps all invariants. */
  ghost predicate Well(h: Home, s: Store) {
    exists order :: WellFormed(h, s, order)
  }

  /** Lookup in the table and position in the list are the same question. */
  lemma LookupIsPosition(h: Home, s: Store, order: seq<Slot>, k: Key)
    requires WellFormed(h, s, order)
    ensures match Lookup(h, s.slots, k)
      case Found(at) => Position(ItemsOf(s, order), k) < |order| && order[Position(ItemsOf(s, order), k)] == at
      case Hole(at) => Position(ItemsOf(s, order), k) == |order| && at !in s.slots
      case NoRoom => Position(ItemsOf(s, order), k) == |order| && Saturated(s.slots)
  {
    hide Lookup, Probeable;
    LookupDecides(h, s.slots, k);
    var items := ItemsOf(s, order);
    var i := Position(items, k);
    if i < |order| {
      assert order[i] in s.slots && s.slots[order[i]].key == k;
      assert Holds(s.slots, k);
    }
    match Lookup(h, s.slots, k) {
      case Found(at) =>
        assert at in order;
        var j :| 0 <= j < |order| && order[j] == at;
        assert items[j].key == k;
      case _ =>
    }
  }

  /** Keys are unique in the list. */
  lemma PositionOfItem(h: Home, s: Store, order: seq<Slot>, i: nat)
    requires WellFormed(h, s, order) && i < |order|
    ensures Position(ItemsOf(s, order), ItemsOf(s, order)[i].key) == i
  {
    hide Probeable, ChainedAt;
    var p := Position(ItemsOf(s, order), ItemsOf(s, order)[i].key);
    assert order[i] in order && order[p] in order;
    assert s.slots[order[p]].key == s.slots[order[i]].key;
  }

  // ---- insertion and update

  lemma AppendKeeps(h: Home, s: Store, order: seq<Slot>, idx: Slot, k: Key, value: Bytes)
    requires WellFormed(h, s, order) && Lookup(h, s.slots, k) == Hole(idx)
    ensures s.tail != NULL_ID ==> s.tail in s.slots
    ensures WellFormed(h, Appended(s, idx, k, value), order + [idx])
    ensures ItemsOf(Appended(s, idx, k, value), order + [idx]) == ItemsOf(s, order) + [Item(k, value)]
  {
    hide Lookup, Probeable, KeysUnique, Linked;
    LookupDecides(h, s.slots, k);
    AppendedLinked(s, order, idx, k, value);
    var t := Appended(s, idx, k, value);
    var plain := s.slots[idx := Entry(k, NULL_ID, s.tail, value)];
    InsertKeepsProbing(h, s.slots, idx, plain[idx]);
    ProbingOfKeys(h, plain, t.slots);
    AppendedItems(s, order, idx, k, value);
  }

  lemma AppendedItems(s: Store, order: seq<Slot>, idx: Slot, k: Key, value: Bytes)
    requires Linked(s, order) && idx !in s.slots
    requires s.tail != NULL_ID ==> s.tail in s.slots
    requires Enumerates(Appended(s, idx, k, value).slots.Keys, order + [idx])
    ensures ItemsOf(Appended(s, idx, k, value), order + [idx]) == ItemsOf(s, order) + [Item(k, value)]
  {
    assert forall i :: 0 <= i < |order| ==> order[i] in order;
  }

  lemma UpdateKeeps(h: Home, s: Store, order: seq<Slot>, i: nat, value: Bytes)
    requires WellFormed(h, s, order) && i < |order| && order[i] in s.slots
    ensures WellFormed(h, Updated(s, order[i], value), order)
    ensures ItemsOf(Updated(s, order[i], value), order)
         == ItemsOf(s, order)[i := Item(s.slots[order[i]].key, value)]
  {
    hide Probeable, KeysUnique;
    UpdatedLinked(s, order, order[i], value);
    ProbingOfKeys(h, s.slots, Updated(s, order[i], value).slots);
  }

  // ---- deletion

  /** The unlinked store, its one hole and its remaining items. */
  lemma DetachedHoled(h: Home, s: Store, order: seq<Slot>, i: nat)
    requires Probeable(h, s.slots) && KeysUnique(s.slots) && Linked(s, order) && i < |order|
    ensures order[i] in s.slots && LinksPresent(s, s.slots[order[i]].prev, s.slots[order[i]].next)
    ensures var u := Detached(s, order[i], s.slots[order[i]].prev, s.slots[order[i]].next);
      && Holed(h, u, order[i]) && Means(u, Without(ItemsOf(s, order), i)) && u.intent == s.intent
  {
    hide Probeable, KeysUnique, Linked, ProbeableAround, Detached, Settled;
    NeighboursPresent(s, order, i);
    DetachedLinked(s, order, i);
    var u := Detached(s, order[i], s.slots[order[i]].prev, s.slots[order[i]].next);
    DeleteLeavesHole(h, s.slots, order[i]);
    ProbeableAroundOfKeys(h, s.slots - {order[i]}, u.slots, order[i]);
    LinkedEnumerates(s, order);
    LinkedEnumerates(u, Without(order, i));
    WithoutItems(s, u, order, i);
  }

  lemma LinkedEnumerates(s: Store, order: seq<Slot>)
    requires Linked(s, order)
    ensures Enumerates(s.slots.Keys, order)
  {
  }

  lemma WithoutItems(s: Store, u: Store, order: seq<Slot>, i: nat)
    requires Linked(s, order) && i < |order| && Linked(u, Without(order, i))
    requires Enumerates(s.slots.Keys, order) && Enumerates(u.slots.Keys, Without(order, i))
    requires forall x :: x in u.slots ==>
      x in s.slots && u.slots[x].key == s.slots[x].key && u.slots[x].value == s.slots[x].value
    ensures Means(u, Without(ItemsOf(s, order), i))
  {
    hide ChainedAt, Distinct, Linked;
    var q := Without(order, i);
    forall j | 0 <= j < |q|
      ensures ItemsOf(u, q)[j] == Without(ItemsOf(s, order), i)[j]
    {
      assert q[j] in q;
    }
    assert ItemsOf(u, q) == Without(ItemsOf(s, order), i);
  }

  /** The flash states of a deletion: the intent, the unlinking, the shift, the cleared intent. */
  lemma DeleteRuns(h: Home, s: Store, order: seq<Slot>, i: nat) returns (u: Store)
    requires WellFormed(h, s, order) && i < |order|
    ensures var idx := order[i];
      && idx in s.slots
      && u.intent == Intent(Shifting, idx, NULL_ID, NULL_ID)
      && Holed(h, u, idx) && Means(u, Without(ItemsOf(s, order), i))
      && var prev, next := s.slots[idx].prev, s.slots[idx].next;
         var s1 := s.(intent := Intent(Deleting, idx, prev, next));
         && LinksPresent(s1, prev, next)
         && u == Detached(s1, idx, prev, next).(intent := u.intent)
         && EntryDelete(h, s, idx)
            == Run([s1] + Detach(s1, idx, prev, next).log + [u] + ResumeShift(h, u, idx).log
                   + [Final(h, u, idx, Next(idx))], Ok)
  {
    hide Linked, Detach, Detached, Holed, ShiftFrom, Probeable, KeysUnique;
    var idx := order[i];
    NeighboursPresent(s, order, i);
    var prev, next := s.slots[idx].prev, s.slots[idx].next;
    var s1 := s.(intent := Intent(Deleting, idx, prev, next));
    LinkedIgnoresIntent(s, order, s1.intent);
    DetachedHoled(h, s1, order, i);
    DetachEnds(s1, idx, prev, next);
    var v := Detached(s1, idx, prev, next);
    u := v.(intent := Intent(Shifting, idx, NULL_ID, NULL_ID));
    var items := Without(ItemsOf(s, order), i);
    HoledIgnoresIntent(h, v, idx, u.intent, items);
    SettledAtStart(h, u.slots, idx);
    ShiftRepairs(h, u, idx, Next(idx), items);
    var r := Detach(s1, idx, prev, next);
    assert Unlink(s, idx) == Run([s1] + r.log, Ok);
    assert r.log != [] by { DetachWrites(s1, idx, prev, next); }
    DeleteSequence(h, s, s1, r, u, idx);
  }

  lemma DetachWrites(s: Store, idx: Slot, prev: Link, next: Link)
    requires LinksPresent(s, prev, next)
    ensures Detach(s, idx, prev, next).log != []
  {
  }

  lemma DeleteSequence(h: Home, s: Store, s1: Store, r: Run, u: Store, idx: Slot)
    requires idx in s.slots && r.log != [] && Unlink(s, idx) == Run([s1] + r.log, Ok)
    requires u == End(s1, r).(intent := Intent(Shifting, idx, NULL_ID, NULL_ID))
    requires ResumeShift(h, u, idx).code == Ok
    ensures EntryDelete(h, s, idx)
         == Run([s1] + r.log + [u] + ResumeShift(h, u, idx).log + [Final(h, u, idx, Next(idx))], Ok)
  {
    hide Unlink, ShiftFrom;
    var q := ResumeShift(h, u, idx);
    var last := End(u, q).(intent := Idle);
    assert Then(u, q, s3 => SetIntent(s3, Idle)) == Run(q.log + [last], Ok);
    var tail := Then(End(s1, r), SetIntent(End(s1, r), u.intent), s2 =>
                  Then(s2, ResumeShift(h, s2, idx), s3 => SetIntent(s3, Idle)));
    assert tail == Run([u] + (q.log + [last]), Ok);
    assert [s1] + r.log + ([u] + (q.log + [last])) == [s1] + r.log + [u] + q.log + [last];
  }

  lemma LinkedIgnoresIntent(s: Store, order: seq<Slot>, intent: Intent)
    requires Linked(s, order)
    ensures Linked(s.(intent := intent), order)
    ensures ItemsOf(s.(intent := intent), order) == ItemsOf(s, order)
  {
    assert forall i :: 0 <= i < |order| ==> ChainedAt(s.(intent := intent).slots, order, i);
  }

  /** The result of a complete shift is a store without a pending intent and with the same items. */
  lemma ShiftedIsWell(h: Home, u: Store, hole: Slot, items: seq<Item>)
    requires Holed(h, u, hole) && Means(u, items)
    ensures Well(h, Final(h, u, hole, Next(hole))) && Means(Final(h, u, hole, Next(hole)), items)
  {
    hide ShiftFrom, Holed, Linked, Probeable, KeysUnique;
    SettledAtStart(h, u.slots, hole);
    ShiftRepairs(h, u, hole, Next(hole), items);
    var e := End(u, ResumeShift(h, u, hole));
    var order := MeaningOf(e, items);
    LinkedIgnoresIntent(e, order, Idle);
    assert WellFormed(h, e.(intent := Idle), order);
  }

  // ---- every operation refines the insertion-ordered map

  ghost predicate Succeeds(h: Home, s: Store, items: seq<Item>, op: Op) {
    match op
    case Put(k, _) => !Saturated(s.slots) || Position(items, k) < |items|
    case Remove(k) => Position(items, k) < |items|
  }

  /** The store and the items after an operation, for a given list order. */
  ghost predicate Refines(h: Home, s: Store, items: seq<Item>, op: Op) {
    var r := Execute(h, s, op);
    && Well(h, End(s, r)) && Means(End(s, r), if r.code == Ok then Outcome(items, op) else items)
    && (r.code == Ok <==> Succeeds(h, s, items, op))
    && (r.code != Ok ==> r.log == [] && (r.code == Full || (r.code == NotFound && op.Remove?)))
    && (r.code == Full ==> Saturated(s.slots))
  }

  lemma ExecuteRefinesOrder(h: Home, s: Store, order: seq<Slot>, op: Op)
    requires WellFormed(h, s, order)
    ensures Refines(h, s, ItemsOf(s, order), op)
  {
    hide WellFormed, Refines, ItemsOf;
    LookupIsPosition(h, s, order, op.key);
    match op {
      case Put(k, value) => PutRefines(h, s, order, k, value);
      case Remove(k) => RemoveRefines(h, s, order, k);
    }
  }

  lemma PutRefines(h: Home, s: Store, order: seq<Slot>, k: Key, value: Bytes)
    requires WellFormed(h, s, order)
    ensures Refines(h, s, ItemsOf(s, order), Put(k, value))
  {
    hide Lookup, EntryWrite, Updated, Appended, Probeable, KeysUnique, ChainedAt, Saturated;
    LookupIsPosition(h, s, order, k);
    match Lookup(h, s.slots, k) {
      case Found(at) => PutUpdates(h, s, order, k, value, at);
      case Hole(at) => PutAppends(h, s, order, k, value, at);
      case NoRoom => assert Means(s, ItemsOf(s, order));
    }
  }

  lemma RefinesOk(h: Home, s: Store, items: seq<Item>, op: Op)
    requires var r := Execute(h, s, op);
      r.code == Ok && Well(h, End(s, r)) && Means(End(s, r), Outcome(items, op)) && Succeeds(h, s, items, op)
    ensures Refines(h, s, items, op)
  {
    hide Execute, Well, Means, Outcome, Succeeds;
  }

  lemma PutUpdates(h: Home, s: Store, order: seq<Slot>, k: Key, value: Bytes, at: Slot)
    requires WellFormed(h, s, order) && Lookup(h, s.slots, k) == Found(at)
    ensures Refines(h, s, ItemsOf(s, order), Put(k, value))
  {
    hide Lookup, EntryWrite, Updated, Probeable, KeysUnique, ChainedAt, Saturated, Distinct, Refines;
    LookupIsPosition(h, s, order, k);
    LookupFindsKey(h, s, k, at);
    EntryWriteUpdates(s, at, k, value);
    var items := ItemsOf(s, order);
    var i := Position(items, k);
    UpdateKeeps(h, s, order, i, value);
    assert Means(Updated(s, at, value), items[i := Item(k, value)]);
    RefinesOk(h, s, items, Put(k, value));
  }

  lemma PutAppends(h: Home, s: Store, order: seq<Slot>, k: Key, value: Bytes, at: Slot)
    requires WellFormed(h, s, order) && Lookup(h, s.slots, k) == Hole(at)
    ensures Refines(h, s, ItemsOf(s, order), Put(k, value))
  {
    hide Lookup, EntryWrite, Appended, Probeable, KeysUnique, ChainedAt, Saturated;
    LookupIsPosition(h, s, order, k);
    EntryWriteAppends(s, order, at, k, value);
    AppendKeeps(h, s, order, at, k, value);
    NotSaturated(s.slots, at);
    assert Means(Appended(s, at, k, value), ItemsOf(s, order) + [Item(k, value)]);
  }

  lemma RemoveRefines(h: Home, s: Store, order: seq<Slot>, k: Key)
    requires WellFormed(h, s, order)
    ensures Refines(h, s, ItemsOf(s, order), Remove(k))
  {
    hide Lookup, EntryDelete, Probeable, KeysUnique, ChainedAt, Saturated;
    LookupIsPosition(h, s, order, k);
    match Lookup(h, s.slots, k) {
      case Found(at) => RemoveDeletes(h, s, order, k, at);
      case _ => assert Means(s, ItemsOf(s, order));
    }
  }

  lemma RemoveDeletes(h: Home, s: Store, order: seq<Slot>, k: Key, at: Slot)
    requires WellFormed(h, s, order) && Lookup(h, s.slots, k) == Found(at)
    ensures Refines(h, s, ItemsOf(s, order), Remove(k))
  {
    hide Lookup, EntryDelete, Probeable, KeysUnique, ChainedAt, Saturated, Detach, Detached, ShiftFrom, Means, Well, Holed;
    LookupIsPosition(h, s, order, k);
    var items := ItemsOf(s, order);
    var i := Position(items, k);
    var u := DeleteRuns(h, s, order, i);
    ShiftedIsWell(h, u, at, Without(items, i));
  }

  /** Every operation on a well-formed store refines the insertion-ordered map: it succeeds exactly when the map's
      operation has room and, for a removal, a key to remove; then the items change as in the map, and otherwise
      nothing is written. */
  lemma ExecuteRefines(h: Home, s: Store, items: seq<Item>, op: Op)
    requires Well(h, s) && Means(s, items)
    ensures Refines(h, s, items, op)
  {
    hide Refines;
    var order :| WellFormed(h, s, order);
    var order' := MeaningOf(s, items);
    OrderUnique(s, order, order');
    ExecuteRefinesOrder(h, s, order, op);
  }

  lemma NotSaturated(slots: Slots, at: Slot)
    requires at !in slots
    ensures !Saturated(slots)
  {
  }

  lemma EntryWriteUpdates(s: Store, idx: Slot, k: Key, value: Bytes)
    requires idx in s.slots && s.slots[idx].key == k && s.intent == Idle
    ensures var e := s.slots[idx];
      var s1 := s.(intent := Intent(Updating, idx, e.prev, e.next));
      EntryWrite(s, idx, k, value)
        == Run([s1, Updated(s, idx, value).(intent := s1.intent), Updated(s, idx, value)], Ok)
  {
  }

  /** Deleting the entry at a position of the list. */
  lemma EntryDeleteRemoves(h: Home, s: Store, order: seq<Slot>, i: nat)
    requires WellFormed(h, s, order) && i < |order|
    ensures var r := EntryDelete(h, s, order[i]);
      r.code == Ok && Well(h, End(s, r)) && Means(End(s, r), Without(ItemsOf(s, order), i))
  {
    hide EntryDelete, Probeable, KeysUnique, ChainedAt, Detach, Detached, ShiftFrom, Means, Well, Holed;
    var u := DeleteRuns(h, s, order, i);
    ShiftedIsWell(h, u, order[i], Without(ItemsOf(s, order), i));
  }

  // ---- crash atomicity

  lemma PutStates(h: Home, s: Store, order: seq<Slot>, k: Key, value: Bytes, c: Store)
    requires WellFormed(h, s, order) && c in Execute(h, s, Put(k, value)).log
    ensures var t := End(s, Execute(h, s, Put(k, value)));
      KeysUnique(t.slots) && t.intent == Idle && (InFlight(h, c, s) || InFlight(h, c, t))
  {
    hide Lookup, EntryWrite, Probeable, Updated;
    LookupIsPosition(h, s, order, k);
    match Lookup(h, s.slots, k) {
      case Found(at) =>
        EntryWriteUpdates(s, at, k, value);
        LookupFindsKey(h, s, k, at);
        UpdateStates(h, s, at, k, value, c);
      case Hole(at) =>
        EntryWriteAppends(s, order, at, k, value);
        AppendKeeps(h, s, order, at, k, value);
        TailIsLast(s, order);
        AppendStates(h, s, at, k, value, c);
      case NoRoom =>
    }
  }

  lemma TailIsLast(s: Store, order: seq<Slot>)
    requires Linked(s, order)
    ensures s.tail != NULL_ID ==> s.tail in s.slots && s.slots[s.tail].next == NULL_ID
  {
    if |order| > 0 {
      assert ChainedAt(s.slots, order, |order| - 1);
    }
  }

  lemma LookupFindsKey(h: Home, s: Store, k: Key, at: Slot)
    requires Probeable(h, s.slots) && Lookup(h, s.slots, k) == Found(at)
    ensures at in s.slots && s.slots[at].key == k
  {
    LookupDecides(h, s.slots, k);
  }

  lemma UpdateStates(h: Home, s: Store, idx: Slot, k: Key, value: Bytes, c: Store)
    requires KeysUnique(s.slots) && s.intent == Idle && idx in s.slots && s.slots[idx].key == k
    requires c in EntryWrite(s, idx, k, value).log
    ensures var t := End(s, EntryWrite(s, idx, k, value));
      KeysUnique(t.slots) && t.intent == Idle && (InFlight(h, c, s) || InFlight(h, c, t))
  {
    hide EntryWrite, Unlinking, Pending;
    EntryWriteUpdates(s, idx, k, value);
    var t := Updated(s, idx, value);
    assert t.slots.Keys == s.slots.Keys && forall x :: x in s.slots ==> t.slots[x].key == s.slots[x].key;
  }

  lemma AppendStates(h: Home, s: Store, idx: Slot, k: Key, value: Bytes, c: Store)
    requires KeysUnique(s.slots) && s.intent == Idle && idx !in s.slots
    requires s.tail != NULL_ID ==> s.tail in s.slots
    requires KeysUnique(Appended(s, idx, k, value).slots)
    requires var s1 := s.(intent := Intent(Inserting, idx, s.tail, NULL_ID));
      var s2 := s1.(slots := s1.slots[idx := Entry(k, NULL_ID, s.tail, value)]);
      var s3 := if s.tail == NULL_ID then s2 else s2.(slots := s2.slots[s.tail := s2.slots[s.tail].(next := idx)]);
      var s4 := s3.(head := if s.tail == NULL_ID then idx else s.head, tail := idx);
      c in [s1, s2, s3, s4, Appended(s, idx, k, value)]
    requires s.tail != NULL_ID ==> s.slots[s.tail].next == NULL_ID
    ensures InFlight(h, c, s) || InFlight(h, c, Appended(s, idx, k, value))
  {
    hide Unlinking, Pending, KeysUnique, Rolling;
    var t := Appended(s, idx, k, value);
    AppendKeys(s, idx, k, value, c);
    FewerKeysUnique(c.slots, t.slots);
    if c != t && c.tail == idx {
      assert c.(intent := Idle) == t;
      assert Committed(c, t);
    } else if c != t {
      AppendRolls(s, idx, k, value, c);
    }
  }

  lemma AppendKeys(s: Store, idx: Slot, k: Key, value: Bytes, c: Store)
    requires idx !in s.slots && (s.tail != NULL_ID ==> s.tail in s.slots)
    requires var s2 := s.slots[idx := Entry(k, NULL_ID, s.tail, value)];
      var s3 := if s.tail == NULL_ID then s2 else s2[s.tail := s2[s.tail].(next := idx)];
      c.slots in [s.slots, s2, s3, Appended(s, idx, k, value).slots]
    ensures forall x :: x in c.slots ==>
      x in Appended(s, idx, k, value).slots && c.slots[x].key == Appended(s, idx, k, value).slots[x].key
  {
  }

  lemma AppendRolls(s: Store, idx: Slot, k: Key, value: Bytes, c: Store)
    requires s.intent == Idle && idx !in s.slots
    requires s.tail != NULL_ID ==> s.tail in s.slots && s.slots[s.tail].next == NULL_ID
    requires var s1 := s.(intent := Intent(Inserting, idx, s.tail, NULL_ID));
      var s2 := s1.(slots := s1.slots[idx := Entry(k, NULL_ID, s.tail, value)]);
      var s3 := if s.tail == NULL_ID then s2 else s2.(slots := s2.slots[s.tail := s2.slots[s.tail].(next := idx)]);
      c in [s1, s2, s3]
    ensures Rolling(c, s)
  {
    assert Undone(c.slots, idx, s.tail) == s.slots;
  }

  lemma RemoveStates(h: Home, s: Store, order: seq<Slot>, k: Key, c: Store)
    requires WellFormed(h, s, order) && c in Execute(h, s, Remove(k)).log
    ensures var t := End(s, Execute(h, s, Remove(k)));
      KeysUnique(t.slots) && t.intent == Idle && (InFlight(h, c, t) || MidMove(h, c))
  {
    hide Lookup, EntryDelete, Probeable, ChainedAt, Saturated, KeysUnique, InFlight, MidMove;
    LookupIsPosition(h, s, order, k);
    var at := Lookup(h, s.slots, k).at;
    DeleteStates(h, s, order, Position(ItemsOf(s, order), k), c);
  }

  lemma DeleteStates(h: Home, s: Store, order: seq<Slot>, i: nat, c: Store)
    requires WellFormed(h, s, order) && i < |order| && c in EntryDelete(h, s, order[i]).log
    ensures var t := End(s, EntryDelete(h, s, order[i]));
      KeysUnique(t.slots) && t.intent == Idle && (InFlight(h, c, t) || MidMove(h, c))
  {
    hide EntryDelete, Probeable, Linked, KeysUnique, MidMove, Detach, Detached, Holed, ShiftFrom, LinksPresent, Final,
      InFlight, Means, Well;
    var u := DeleteRuns(h, s, order, i);
    DeleteStatesFrom(h, s, order, i, u, c);
  }

  lemma DeleteStatesFrom(h: Home, s: Store, order: seq<Slot>, i: nat, u: Store, c: Store)
    requires KeysUnique(s.slots) && i < |order| && order[i] in s.slots
    requires var idx := order[i];
      && u.intent == Intent(Shifting, idx, NULL_ID, NULL_ID) && Holed(h, u, idx)
      && var prev, next := s.slots[idx].prev, s.slots[idx].next;
         var s1 := s.(intent := Intent(Deleting, idx, prev, next));
         && LinksPresent(s1, prev, next) && u == Detached(s1, idx, prev, next).(intent := u.intent)
         && c in [s1] + Detach(s1, idx, prev, next).log + [u] + ResumeShift(h, u, idx).log
                 + [Final(h, u, idx, Next(idx))]
    ensures var t := Final(h, u, order[i], Next(order[i]));
      KeysUnique(t.slots) && t.intent == Idle && (InFlight(h, c, t) || MidMove(h, c))
  {
    hide KeysUnique, MidMove, Detach, Detached, Holed, ShiftFrom, LinksPresent, Final, Pending, Unlinking, Rolling,
      Committed, Means, Well;
    var idx := order[i];
    var t := Final(h, u, idx, Next(idx));
    FinalIsWell(h, u, idx);
    WellKeysUnique(h, t);
    var prev, next := s.slots[idx].prev, s.slots[idx].next;
    var s1 := s.(intent := Intent(Deleting, idx, prev, next));
    UnlinkingStarts(h, s1, u, t);
    PendingAtStart(h, u, idx);
    if c in Detach(s1, idx, prev, next).log {
      DetachingUnlinks(h, s1, t, c);
      DetachKeys(s1, idx, prev, next, c);
      FewerKeysUnique(c.slots, s1.slots);
    } else if c in ResumeShift(h, u, idx).log {
      ShiftingStates(h, u, idx, t, c);
    } else if c == u {
      PendingKeysUnique(h, u, idx, t);
    }
  }

  lemma FinalIsWell(h: Home, u: Store, hole: Slot)
    requires Holed(h, u, hole)
    ensures Well(h, Final(h, u, hole, Next(hole)))
  {
    hide Holed, Final, Well;
    HoledHole(h, u, hole);
    var items := Meaning(u);
    ShiftedIsWell(h, u, hole, items);
  }

  lemma WellKeysUnique(h: Home, s: Store)
    requires Well(h, s)
    ensures KeysUnique(s.slots) && s.intent == Idle
  {
  }

  lemma PendingAtStart(h: Home, u: Store, hole: Slot)
    requires Holed(h, u, hole) && u.intent == Intent(Shifting, hole, NULL_ID, NULL_ID)
    ensures Pending(h, u, hole, Final(h, u, hole, Next(hole)))
  {
    hide ShiftFrom, Holed;
  }

  lemma UnlinkingStarts(h: Home, s1: Store, u: Store, t: Store)
    requires s1.intent.Intent? && s1.intent.op == Deleting && s1.intent.target in s1.slots
    requires LinksPresent(s1, s1.intent.first, s1.intent.second)
    requires u == Detached(s1, s1.intent.target, s1.intent.first, s1.intent.second).(intent := u.intent)
    requires Holed(h, u, s1.intent.target) && t == Final(h, u, s1.intent.target, Next(s1.intent.target))
    ensures Unlinking(h, s1, t)
  {
    hide Holed, Detached, Final, Means;
    var idx := s1.intent.target;
    var v := Detached(s1, idx, s1.intent.first, s1.intent.second);
    HoledHole(h, u, idx);
    var items := Meaning(u);
    HoledIgnoresIntent(h, u, idx, v.intent, items);
    assert v == u.(intent := v.intent);
    FinalIgnoresIntent(h, u, idx, Next(idx), v.intent);
  }

  lemma ShiftingStates(h: Home, u: Store, hole: Slot, t: Store, c: Store)
    requires Pending(h, u, hole, t) && t.intent == Idle && c in ResumeShift(h, u, hole).log
    ensures InFlight(h, c, t) || MidMove(h, c)
  {
    hide Holed, ShiftFrom, NamesHole, Settled, MidMove;
    SettledAtStart(h, u.slots, hole);
    ShiftStates(h, u, hole, Next(hole), c);
    if !MidMove(h, c) {
      var hole' :| Pending(h, c, hole', t);
      PendingKeysUnique(h, c, hole', t);
    }
  }

  lemma IdleInFlight(h: Home, s: Store)
    requires KeysUnique(s.slots) && s.intent == Idle
    ensures InFlight(h, s, s)
  {
  }

  lemma InFlightKeysUnique(h: Home, c: Store, t: Store)
    requires InFlight(h, c, t)
    ensures KeysUnique(c.slots)
  {
  }

  lemma PutNotStranded(h: Home, s: Store, k: Key, value: Bytes, c: Store)
    requires s.intent == Idle && c in Execute(h, s, Put(k, value)).log
    ensures !Stranded(c)
  {
    hide ScanLeavesRange, Lookup;
  }

  /** The power-loss theorem. An operation on a well-formed store stops after any number of its flash writes, in
      state `c`. If no entry is stored twice in `c` and its shift is not stranded, recovery succeeds and the store
      is exactly what it was before the operation, or exactly what the whole operation would have made of it; for
      a removal that wrote anything, the latter. Otherwise recovery fails or leaves an entry stored twice. An
      insertion or update never runs into that. */
  lemma CrashAtomicity(h: Home, s: Store, op: Op, c: Store)
    requires Well(h, s) && (c == s || c in Execute(h, s, op).log)
    ensures var t := End(s, Execute(h, s, op));
      && ((ResolvesTo(h, c, s) || ResolvesTo(h, c, t)) <==> Clean(c))
      && (op.Remove? && c != s ==> (ResolvesTo(h, c, t) <==> Clean(c)))
      && (op.Put? ==> Clean(c))
      && (!Clean(c) ==> Resolve(h, c).code != Ok || !KeysUnique(End(c, Resolve(h, c)).slots))
  {
    hide Execute, Resolve, InFlight, MidMove, KeysUnique, ScanLeavesRange, WellFormed;
    var order :| WellFormed(h, s, order);
    WellKeysUnique(h, s);
    var t := End(s, Execute(h, s, op));
    if c == s {
      IdleInFlight(h, s);
      RecoveryIff(h, s, s);
    } else {
      match op {
        case Put(k, value) => PutStates(h, s, order, k, value, c); PutNotStranded(h, s, k, value, c);
        case Remove(k) => RemoveStates(h, s, order, k, c);
      }
      if InFlight(h, c, s) {
        InFlightKeysUnique(h, c, s);
        RecoveryIff(h, c, s);
      }
      if InFlight(h, c, t) {
        InFlightKeysUnique(h, c, t);
        RecoveryIff(h, c, t);
      }
      if MidMove(h, c) {
        RecoveryIff(h, c, t);
      }
    }
  }
}
