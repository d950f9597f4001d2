/** What a boot makes of every image that operations and recoveries can leave when they lose power: it recovers the
    store, or finds it beyond recovery and erases the partition. */
module KvBoot {
  import opened SlotIds
  import opened EntryHash
  import opened KvStore
  import opened KvPrograms
  import opened KvShift
  import opened KvCrash
  import opened KvOperations
  import opened KvDurability

  /** An erased partition. */
  const EMPTY := Store(map[], NULL_ID, NULL_ID, Idle)

  ghost function Boot(h: Home, c: Store): Store {
    var r := Resolve(h, c);
    if r.code == Ok then End(c, r) else EMPTY
  }

  lemma EmptyIsWell(h: Home)
    ensures Well(h, EMPTY) && Means(EMPTY, [])
  {
    assert WellFormed(h, EMPTY, []);
  }

  /** An entry is stored twice, and no recovery will ever remove one of the copies. */
  ghost predicate Doubled(h: Home, c: Store) {
    !KeysUnique(c.slots) && (c.intent == Idle || MidMove(h, c))
  }

  lemma StrandedFails(h: Home, c: Store)
    requires Stranded(c)
    ensures Resolve(h, c) == Nothing(RecoveryFailed)
  {
    hide ScanLeavesRange;
  }

  lemma InFlightBoots(h: Home, c: Store, t: Store)
    requires InFlight(h, c, t) && KeysUnique(t.slots)
    ensures KeysUnique(c.slots)
    ensures !Stranded(c) ==> Resolve(h, c).code == Ok && Boot(h, c) == t
  {
    hide InFlight, Resolve, KeysUnique, Stranded;
    InFlightTarget(h, c, t);
    InFlightKeysUnique(h, c, t);
    RecoveryIff(h, c, t);
  }

  lemma DoubledBoots(h: Home, c: Store)
    requires Doubled(h, c)
    ensures !Stranded(c) ==> Resolve(h, c).code == Ok && Boot(h, c) == c.(intent := Idle)
    ensures forall d :: d in Resolve(h, c).log ==> Doubled(h, d)
  {
    hide Resolve, KeysUnique, ScanLeavesRange, Probeable;
    if c.intent == Idle {
      IdleResolves(h, c);
    } else {
      MidMoveStays(h, c);
    }
  }

  /** Recoveries that lose power in turn keep aiming at the same store, or end up with an entry stored twice. */
  lemma {:induction false} CutsKeepAiming(h: Home, c: Store, t: Store, cuts: seq<nat>)
    requires (InFlight(h, c, t) && KeysUnique(t.slots)) || Doubled(h, c)
    ensures var d := AfterCuts(h, c, cuts); (InFlight(h, d, t) && KeysUnique(t.slots)) || Doubled(h, d)
    decreases |cuts|
  {
    hide InFlight, Resolve, KeysUnique, Doubled;
    if cuts != [] {
      var d := CutAt(c, Resolve(h, c), cuts[0]);
      if d != c {
        assert d in Resolve(h, c).log;
        OneCut(h, c, t, d);
      }
      CutsKeepAiming(h, d, t, cuts[1..]);
    }
  }

  lemma OneCut(h: Home, c: Store, t: Store, d: Store)
    requires (InFlight(h, c, t) && KeysUnique(t.slots)) || Doubled(h, c)
    requires d in Resolve(h, c).log
    ensures (InFlight(h, d, t) && KeysUnique(t.slots)) || Doubled(h, d)
  {
    hide InFlight, Resolve, KeysUnique;
    if Doubled(h, c) {
      DoubledBoots(h, c);
    } else {
      RecoveryStates(h, c, t, d);
      if MidMove(h, d) { MidMoveDoubled(h, d); }
    }
  }

  lemma MidMoveDoubled(h: Home, d: Store)
    requires MidMove(h, d)
    ensures Doubled(h, d)
  {
  }

  /** The image from which the boot starts. */
  ghost function Left(h: Home, s: Store, a: Attempt): Store {
    AfterCuts(h, Interrupted(h, s, a), a.cuts)
  }

  /** What an interrupted operation aims at: the store before it or the store after it, unless an entry is stored twice. */
  lemma AimOf(h: Home, s: Store, items: seq<Item>, op: Op, n: nat) returns (t: Store)
    requires Well(h, s) && Means(s, items)
    ensures var r := Execute(h, s, op);
      var c := CutAt(s, r, n);
      && (t == s || t == End(s, r)) && ((InFlight(h, c, t) && KeysUnique(t.slots)) || Doubled(h, c))
      && (n >= |r.log| ==> t == End(s, r))
  {
    hide Execute, InFlight, Well, Means, KeysUnique, MidMove;
    var r := Execute(h, s, op);
    var c := CutAt(s, r, n);
    ExecuteRefines(h, s, items, op);
    WellKeysUnique(h, s);
    WellKeysUnique(h, End(s, r));
    IdleInFlight(h, s);
    IdleInFlight(h, End(s, r));
    if c == s && n < |r.log| {
      t := s;
    } else if c == End(s, r) {
      t := c;
    } else {
      t := AimInside(h, s, op, c);
    }
  }

  lemma AimInside(h: Home, s: Store, op: Op, c: Store) returns (t: Store)
    requires Well(h, s) && c in Execute(h, s, op).log
    ensures t == s || t == End(s, Execute(h, s, op))
    ensures (InFlight(h, c, t) && KeysUnique(t.slots)) || Doubled(h, c)
  {
    hide Execute, InFlight, WellFormed, KeysUnique, MidMove;
    var order :| WellFormed(h, s, order);
    WellKeysUnique(h, s);
    t := End(s, Execute(h, s, op));
    match op {
      case Put(k, value) =>
        PutStates(h, s, order, k, value, c);
        if InFlight(h, c, s) { t := s; }
      case Remove(k) =>
        RemoveStates(h, s, order, k, c);
        if MidMove(h, c) { MidMoveDoubled(h, c); }
    }
  }

  /** Whatever image an operation leaves that loses power, and recoveries that lose power after it, the next boot meets
      one of three cases, which the image shows beforehand. If it is clean, the boot ends in the store before the operation
      or after it. If its shift is stranded, recovery fails, and the boot erases everything. Otherwise an entry is stored
      twice, and stays so. */
  lemma BootOutcome(h: Home, s: Store, items: seq<Item>, a: Attempt) returns (items1: seq<Item>)
    requires Well(h, s) && Means(s, items)
    ensures var c := Left(h, s, a);
      var b := Boot(h, c);
      && (Resolve(h, c).code != Ok <==> Stranded(c))
      && (Stranded(c) ==> b == EMPTY)
      && (Clean(c) ==> Well(h, b) && Means(b, items1) && StepExplained(h, s, items, a, items1))
      && (!Clean(c) && !Stranded(c) ==> b == c.(intent := Idle))
      && (KeysUnique(b.slots) <==> Clean(c) || Stranded(c))
  {
    hide Execute, Resolve, InFlight, KeysUnique, Stranded, Well, Means, Doubled, Succeeds, Outcome;
    var r := Execute(h, s, a.op);
    var c := Left(h, s, a);
    ExecuteRefines(h, s, items, a.op);
    var t := AimOf(h, s, items, a.op, a.stop);
    CutsKeepAiming(h, Interrupted(h, s, a), t, a.cuts);
    EmptyIsWell(h);
    WellKeysUnique(h, EMPTY);
    WellKeysUnique(h, s);
    WellKeysUnique(h, End(s, r));
    items1 := if t == End(s, r) && r.code == Ok then Outcome(items, a.op) else items;
    if Stranded(c) {
      StrandedFails(h, c);
    } else if Doubled(h, c) {
      DoubledBoots(h, c);
      DoubledSlots(h, c);
    } else {
      InFlightBoots(h, c, t);
    }
  }

  lemma DoubledSlots(h: Home, c: Store)
    requires Doubled(h, c)
    ensures !KeysUnique(c.slots)
  {
  }

  // ---- histories

  ghost function Booted(h: Home, s: Store, a: Attempt): Store {
    Boot(h, Left(h, s, a))
  }

  ghost function BootedHistory(h: Home, s: Store, attempts: seq<Attempt>): Store
    decreases |attempts|
  {
    if attempts == [] then s else BootedHistory(h, Booted(h, s, attempts[0]), attempts[1..])
  }

  /** No boot finds an entry stored twice. */
  ghost predicate NeverDoubled(h: Home, s: Store, attempts: seq<Attempt>)
    decreases |attempts|
  {
    attempts == []
    || (KeysUnique(Booted(h, s, attempts[0]).slots) && NeverDoubled(h, Booted(h, s, attempts[0]), attempts[1..]))
  }

  /** Nothing is left by a boot that erases, and otherwise the items before the operation or after it. */
  ghost predicate BootExplained(h: Home, s: Store, items: seq<Item>, a: Attempt, items1: seq<Item>) {
    if Stranded(Left(h, s, a)) then items1 == [] else StepExplained(h, s, items, a, items1)
  }

  ghost predicate BootsExplain(h: Home, s: Store, items: seq<Item>, attempts: seq<Attempt>, result: seq<Item>)
    decreases |attempts|
  {
    if attempts == [] then result == items
    else exists items1 ::
      && BootExplained(h, s, items, attempts[0], items1)
      && BootsExplain(h, Booted(h, s, attempts[0]), items1, attempts[1..], result)
  }

  /** Over any history of operations, power losses, interrupted recoveries and boots in which no boot finds an entry stored
      twice, the store stays well-formed. It holds the outcome of the operations since the last erasing boot that completed,
      and of some of those that were interrupted, each applied whole and in order. */
  lemma {:induction false} BootsAreAtomic(h: Home, s: Store, items: seq<Item>, attempts: seq<Attempt>)
      returns (result: seq<Item>)
    requires Well(h, s) && Means(s, items) && NeverDoubled(h, s, attempts)
    ensures Well(h, BootedHistory(h, s, attempts)) && Means(BootedHistory(h, s, attempts), result)
    ensures BootsExplain(h, s, items, attempts, result)
    decreases |attempts|
  {
    hide Well, Means, Boot, Left, StepExplained, KeysUnique, Clean, Stranded;
    if attempts == [] {
      result := items;
    } else {
      var items1 := BootOutcome(h, s, items, attempts[0]);
      EmptyIsWell(h);
      if Stranded(Left(h, s, attempts[0])) { items1 := []; }
      result := BootsAreAtomic(h, Booted(h, s, attempts[0]), items1, attempts[1..]);
    }
  }
}
