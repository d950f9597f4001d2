/** Whole histories with power losses, and the exact conditions under which a removal can be hurt by one. */
module KvDurability {
  import opened Bytes
  import opened SlotIds
  import opened EntryHash
  import opened KvStore
  import opened KvPrograms
  import opened KvProbing
  import opened KvList
  import opened KvShift
  import opened KvCrash
  import opened KvOperations

  /** The flash state when power is lost after `n` writes of a routine, or its last state if it writes fewer. */
  function CutAt(s: Store, r: Run, n: nat): Store {
    if n == 0 || r.log == [] then s
    else if n <= |r.log| then r.log[n - 1]
    else r.log[|r.log| - 1]
  }

  /** The flash state after recoveries that were each interrupted in turn. */
  ghost function AfterCuts(h: Home, c: Store, cuts: seq<nat>): Store
    decreases |cuts|
  {
    if cuts == [] then c else AfterCuts(h, CutAt(c, Resolve(h, c), cuts[0]), cuts[1..])
  }

  /** Every state that one of these recoveries starts from can be recovered from. */
  ghost predicate AllClean(h: Home, c: Store, cuts: seq<nat>)
    decreases |cuts|
  {
    Clean(c) && (cuts != [] ==> AllClean(h, CutAt(c, Resolve(h, c), cuts[0]), cuts[1..]))
  }

  /** Recovery may be interrupted any number of times; the first one that completes ends in the same store. */
  lemma {:induction false} RepeatedRecovery(h: Home, c: Store, t: Store, cuts: seq<nat>)
    requires InFlight(h, c, t) && KeysUnique(t.slots) && AllClean(h, c, cuts)
    ensures ResolvesTo(h, AfterCuts(h, c, cuts), t)
    decreases |cuts|
  {
    hide InFlight, Resolve, KeysUnique, Stranded;
    InFlightTarget(h, c, t);
    RecoveryIff(h, c, t);
    if cuts != [] {
      var d := CutAt(c, Resolve(h, c), cuts[0]);
      if d != c {
        assert d in Resolve(h, c).log;
        RecoveryStates(h, c, t, d);
      }
      RepeatedRecovery(h, d, t, cuts[1..]);
    }
  }

  lemma InFlightTarget(h: Home, c: Store, t: Store)
    requires InFlight(h, c, t)
    ensures t.intent == Idle
  {
  }

  // ---- histories

  /** An operation that loses power after `stop` flash writes, and the recoveries cut short after that. */
  datatype Attempt = Attempt(op: Op, stop: nat, cuts: seq<nat>)

  ghost function Interrupted(h: Home, s: Store, a: Attempt): Store {
    CutAt(s, Execute(h, s, a.op), a.stop)
  }

  /** The store once the attempt is over and a recovery has completed. */
  ghost function Attempted(h: Home, s: Store, a: Attempt): Store {
    var c := AfterCuts(h, Interrupted(h, s, a), a.cuts);
    End(c, Resolve(h, c))
  }

  ghost predicate Completes(h: Home, s: Store, a: Attempt) {
    a.stop >= |Execute(h, s, a.op).log|
  }

  ghost function History(h: Home, s: Store, attempts: seq<Attempt>): Store
    decreases |attempts|
  {
    if attempts == [] then s else History(h, Attempted(h, s, attempts[0]), attempts[1..])
  }

  ghost predicate CleanHistory(h: Home, s: Store, attempts: seq<Attempt>)
    decreases |attempts|
  {
    attempts == [] ||
    (AllClean(h, Interrupted(h, s, attempts[0]), attempts[0].cuts) &&
     CleanHistory(h, Attempted(h, s, attempts[0]), attempts[1..]))
  }

  /** `result` comes from `items` by a subsequence of the attempted operations, in order, that leaves out no
      operation that completed and succeeded. */
  ghost predicate Explains(h: Home, s: Store, items: seq<Item>, attempts: seq<Attempt>, result: seq<Item>)
    decreases |attempts|
  {
    if attempts == [] then result == items
    else exists items1 ::
      && StepExplained(h, s, items, attempts[0], items1)
      && Explains(h, Attempted(h, s, attempts[0]), items1, attempts[1..], result)
  }

  ghost predicate StepExplained(h: Home, s: Store, items: seq<Item>, a: Attempt, items1: seq<Item>) {
    && (items1 == items || (items1 == Outcome(items, a.op) && Succeeds(h, s, items, a.op)))
    && (Completes(h, s, a) && Succeeds(h, s, items, a.op) ==> items1 == Outcome(items, a.op))
  }

  /** One attempt leaves a well-formed store with the items before it or after it. */
  lemma AttemptIsAtomic(h: Home, s: Store, items: seq<Item>, a: Attempt) returns (items1: seq<Item>)
    requires Well(h, s) && Means(s, items) && AllClean(h, Interrupted(h, s, a), a.cuts)
    ensures Well(h, Attempted(h, s, a)) && Means(Attempted(h, s, a), items1)
    ensures StepExplained(h, s, items, a, items1)
    ensures Resolve(h, AfterCuts(h, Interrupted(h, s, a), a.cuts)).code == Ok
  {
    hide Execute, Resolve, InFlight, KeysUnique, Stranded, Well, Means, Succeeds, Outcome, MidMove;
    var r := Execute(h, s, a.op);
    var c := Interrupted(h, s, a);
    var t := End(s, r);
    ExecuteRefines(h, s, items, a.op);
    WellKeysUnique(h, s);
    WellKeysUnique(h, t);
    IdleInFlight(h, s);
    IdleInFlight(h, t);
    if c == t {
      RepeatedRecovery(h, c, t, a.cuts);
      items1 := if r.code == Ok then Outcome(items, a.op) else items;
    } else {
      assert c == s || c in r.log;
      StatesInFlight(h, s, a.op, c);
      if InFlight(h, c, t) {
        RepeatedRecovery(h, c, t, a.cuts);
        items1 := if r.code == Ok then Outcome(items, a.op) else items;
      } else {
        RepeatedRecovery(h, c, s, a.cuts);
        items1 := items;
      }
    }
  }

  lemma StatesInFlight(h: Home, s: Store, op: Op, c: Store)
    requires Well(h, s) && (c == s || c in Execute(h, s, op).log) && Clean(c)
    ensures InFlight(h, c, s) || InFlight(h, c, End(s, Execute(h, s, op)))
  {
    hide Execute, InFlight, Stranded, WellFormed;
    var order :| WellFormed(h, s, order);
    WellKeysUnique(h, s);
    if c == s {
      IdleInFlight(h, s);
    } else {
      match op {
        case Put(k, value) => PutStates(h, s, order, k, value, c);
        case Remove(k) => RemoveStates(h, s, order, k, c);
      }
    }
  }

  /** Over any history of operations, power losses and interrupted recoveries in which no recovery starts from an
      unclean flash image, the store stays well-formed and holds the outcome of the operations that completed and
      of some of those that were interrupted, each applied whole and in order. */
  lemma {:induction false} HistoryIsAtomic(h: Home, s: Store, items: seq<Item>, attempts: seq<Attempt>)
      returns (result: seq<Item>)
    requires Well(h, s) && Means(s, items) && CleanHistory(h, s, attempts)
    ensures Well(h, History(h, s, attempts)) && Means(History(h, s, attempts), result)
    ensures Explains(h, s, items, attempts, result)
    decreases |attempts|
  {
    hide Well, Means, Attempted, StepExplained, AllClean;
    if attempts == [] {
      result := items;
    } else {
      var items1 := AttemptIsAtomic(h, s, items, attempts[0]);
      result := HistoryIsAtomic(h, Attempted(h, s, attempts[0]), items1, attempts[1..]);
    }
  }

  // ---- which removals a power loss can hurt

  /** If the hole cuts an entry off, the shift loop relocates one, and passes through a state that holds it
      twice. */
  lemma {:induction false} CutOffEntryIsCopied(h: Home, u: Store, hole: Slot, curr: Slot) returns (c: Store)
    requires Holed(h, u, hole) && Settled(h, u.slots, hole, curr) && !Probeable(h, u.slots)
    ensures c in ShiftFrom(h, u, hole, curr).log && !KeysUnique(c.slots)
    decreases Displacement(h, u.slots), Dist(curr, hole)
  {
    hide Probeable, Settled, Linked, Pointed1, Pointed2, Moved, KeysUnique, Copied;
    if curr == hole || curr !in u.slots {
      SettledIsProbeable(h, u.slots, hole, curr);
      c := u;
    } else if !Moves(h, u, hole, curr) {
      SettledNext(h, u.slots, hole, curr);
      c := CutOffEntryIsCopied(h, u, hole, Next(curr));
    } else {
      ShiftStep(h, u, hole, curr);
      c := Copied(u, curr, hole);
      CopiedTwice(u, hole, curr);
    }
  }

  lemma CopiedTwice(s: Store, hole: Slot, curr: Slot)
    requires curr in s.slots && curr != hole
    ensures !KeysUnique(Copied(s, curr, hole).slots)
  {
    var t := Copied(s, curr, hole).slots;
    assert t[hole].key == t[curr].key;
  }

  /** A removal can be interrupted at any of its writes without harm exactly when no remaining entry's probe path
      runs through the removed slot. */
  lemma SafeRemoval(h: Home, s: Store, order: seq<Slot>, i: nat)
    requires WellFormed(h, s, order) && i < |order|
    ensures (forall c :: c in EntryDelete(h, s, order[i]).log ==> Clean(c))
       <==> Probeable(h, s.slots - {order[i]})
  {
    hide EntryDelete, Probeable, Linked, KeysUnique, Detach, Detached, Holed, ShiftFrom, LinksPresent, MidMove,
      InFlight, Stranded, Well;
    var idx := order[i];
    var u := DeleteRuns(h, s, order, i);
    var prev, next := s.slots[idx].prev, s.slots[idx].next;
    var s1 := s.(intent := Intent(Deleting, idx, prev, next));
    DetachedTable(s1, u, idx, prev, next);
    SettledAtStart(h, u.slots, idx);
    HoledHole(h, u, idx);
    if Probeable(h, s.slots - {idx}) {
      ProbeableOfKeys(h, s.slots - {idx}, u.slots);
      FalseHoleMovesNothing(h, u, idx, Next(idx));
      forall c | c in EntryDelete(h, s, idx).log
        ensures Clean(c)
      {
        DetachIntents(s1, idx, prev, next);
        assert c.intent.Idle? || c.intent.op == Deleting || c == u;
        DeleteStates(h, s, order, i, c);
        EmptyTargetNotStranded(u, idx);
        UnshiftedIsClean(h, c, End(s, EntryDelete(h, s, idx)), u);
      }
    } else {
      if Probeable(h, u.slots) {
        ProbeableOfKeys(h, u.slots, s.slots - {idx});
      }
      var c := CutOffEntryIsCopied(h, u, idx, Next(idx));
      assert c in EntryDelete(h, s, idx).log;
    }
  }

  lemma UnshiftedIsClean(h: Home, c: Store, t: Store, u: Store)
    requires InFlight(h, c, t) || MidMove(h, c)
    requires c.intent.Idle? || c.intent.op == Deleting || c == u
    requires !Stranded(u) && u.intent.Intent? && u.intent.target !in u.slots
    ensures Clean(c)
  {
    hide Rolling, Committed, Unlinking, Pending, ScanLeavesRange;
  }

  lemma EmptyTargetNotStranded(u: Store, idx: Slot)
    requires u.intent == Intent(Shifting, idx, NULL_ID, NULL_ID) && idx !in u.slots
    ensures !Stranded(u)
  {
  }

  lemma DetachedTable(s1: Store, u: Store, idx: Slot, prev: Link, next: Link)
    requires LinksPresent(s1, prev, next) && u == Detached(s1, idx, prev, next).(intent := u.intent)
    ensures u.slots.Keys == (s1.slots - {idx}).Keys
    ensures forall x :: x in u.slots ==> u.slots[x].key == s1.slots[x].key
  {
  }

  lemma ProbeableOfKeys(h: Home, a: Slots, b: Slots)
    requires Probeable(h, a) && a.Keys == b.Keys && forall s :: s in a ==> a[s].key == b[s].key
    ensures Probeable(h, b)
  {
    forall s | s in b
      ensures PathFull(b, h(b[s].key), s)
    {
      assert PathFull(a, h(a[s].key), s);
      forall x: Slot | Before(h(b[s].key), x, s)
        ensures x in b
      {
        assert x in a;
      }
    }
  }
}
