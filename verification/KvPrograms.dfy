/** Every storage routine as the sequence of flash states it writes. A power loss leaves the state before the
    routine or one of the states in its log, so crash properties are statements about that log. */
module KvPrograms {
  import opened Bytes
  import opened SlotIds
  import opened EntryHash
  import opened KvStore

  /** The flash states after each write, oldest first, and the code returned. */
  datatype Run = Run(log: seq<Store>, code: Code)

  /** The flash state when the routine returns. */
  function End(s: Store, r: Run): Store {
    if r.log == [] then s else r.log[|r.log| - 1]
  }

  function Write(s: Store): Run {
    Run([s], Ok)
  }

  function Nothing(code: Code): Run {
    Run([], code)
  }

  /** Continue with `k` from where `r` ended, unless `r` failed. */
  function Then(s: Store, r: Run, k: Store -> Run): Run {
    if r.code != Ok then r else var q := k(End(s, r)); Run(r.log + q.log, q.code)
  }

  lemma ThenEnds(s: Store, r: Run, k: Store -> Run)
    requires r.code == Ok
    ensures Then(s, r, k).code == k(End(s, r)).code
    ensures End(s, Then(s, r, k)) == End(End(s, r), k(End(s, r)))
  {
  }

  // ---- entry_list.c

  function SetNext(s: Store, id: Link, next: Link): Run {
    if id !in s.slots then Nothing(ZmsError)
    else Write(s.(slots := s.slots[id := s.slots[id].(next := next)]))
  }

  function SetPrev(s: Store, id: Link, prev: Link): Run {
    if id !in s.slots then Nothing(ZmsError)
    else Write(s.(slots := s.slots[id := s.slots[id].(prev := prev)]))
  }

  function SetHeadTail(s: Store, head: Link, tail: Link): Run {
    Write(s.(head := head, tail := tail))
  }

  function Erase(s: Store, id: Slot): Run {
    Write(s.(slots := s.slots - {id}))
  }

  function SetIntent(s: Store, intent: Intent): Run {
    Write(s.(intent := intent))
  }

  // ---- entry.c

  /** Outcome of probing: the key was found, its probe ended at a hole, or every slot is taken. */
  datatype Probe = Found(at: Slot) | Hole(at: Slot) | NoRoom

  function ProbeFrom(slots: Slots, k: Key, curr: Slot, left: nat): Probe
    decreases left
  {
    if left == 0 then NoRoom
    else if curr !in slots then Hole(curr)
    else if slots[curr].key == k then Found(curr)
    else ProbeFrom(slots, k, Next(curr), left - 1)
  }

  /** Probing starts at the natural slot and gives up when it comes back there. */
  function Lookup(h: Home, slots: Slots, k: Key): Probe {
    ProbeFrom(slots, k, h(k), RANGE)
  }

  function UpdateTail(s: Store, tail: Slot): Run {
    if s.tail != NULL_ID then
      Then(s, SetNext(s, s.tail, tail), s1 => SetHeadTail(s1, s.head, tail))
    else
      SetHeadTail(s, tail, tail)
  }

  function EntryWrite(s: Store, idx: Slot, k: Key, value: Bytes): Run {
    if idx in s.slots then
      var e := s.slots[idx];
      var s1 := s.(intent := Intent(Updating, idx, e.prev, e.next));
      var s2 := s1.(slots := s1.slots[idx := Entry(k, e.next, e.prev, value)]);
      Run([s1, s2, s2.(intent := Idle)], Ok)
    else
      var s1 := s.(intent := Intent(Inserting, idx, s.tail, NULL_ID));
      var s2 := s1.(slots := s1.slots[idx := Entry(k, NULL_ID, s.tail, value)]);
      var r := UpdateTail(s2, idx);
      if r.code != Ok then Run([s1, s2] + r.log, r.code)
      else Run([s1, s2] + r.log + [End(s2, r).(intent := Idle)], Ok)
  }

  // ---- entry_delete.c

  /** The entry before and the entry after a removed or moved one, or the head/tail record in their place. */
  function LinkPrev(s: Store, prev: Link, to: Link): Run {
    if prev != NULL_ID then SetNext(s, prev, to) else SetHeadTail(s, to, s.tail)
  }

  function LinkNext(s: Store, next: Link, to: Link): Run {
    if next != NULL_ID then SetPrev(s, next, to) else SetHeadTail(s, s.head, to)
  }

  /** Point both neighbours of a copied entry to the copy. */
  function Relink(s: Store, prev: Link, next: Link, to: Slot): Run {
    Then(s, LinkPrev(s, prev, to), s1 => LinkNext(s1, next, to))
  }

  /** Move the entry at `from` to `hole`: copy, re-point both neighbours, delete the source. */
  function Move(s: Store, from: Slot, hole: Slot): Run
    requires from in s.slots
  {
    var e := s.slots[from];
    Then(s, Write(s.(slots := s.slots[hole := e])), s1 =>
      Then(s1, Relink(s1, e.prev, e.next, hole), s2 =>
        Erase(s2, from)))
  }

  /** Whether the entry at `curr` is moved into the hole. */
  predicate Moves(h: Home, s: Store, hole: Slot, curr: Slot)
    requires curr in s.slots
  {
    Before(h(s.slots[curr].key), hole, curr)
  }

  /** Sum over the entries of the distance from the natural slot. */
  ghost function Displacement(h: Home, slots: Slots): nat
    decreases |slots|
  {
    if slots == map[] then 0
    else
      var s :| s in slots;
      Dist(h(slots[s].key), s) + Displacement(h, slots - {s})
  }

  lemma {:induction false} DisplacementWithout(h: Home, slots: Slots, s: Slot)
    requires s in slots
    ensures Displacement(h, slots) == Dist(h(slots[s].key), s) + Displacement(h, slots - {s})
    decreases |slots|
  {
    var t :| t in slots && Displacement(h, slots) == Dist(h(slots[t].key), t) + Displacement(h, slots - {t});
    if t != s {
      DisplacementWithout(h, slots - {t}, s);
      DisplacementWithout(h, slots - {s}, t);
      assert slots - {t} - {s} == slots - {s} - {t};
    }
  }

  lemma {:induction false} DisplacementOfKeys(h: Home, a: Slots, b: Slots)
    requires a.Keys == b.Keys
    requires forall s :: s in a ==> a[s].key == b[s].key
    ensures Displacement(h, a) == Displacement(h, b)
    decreases |a|
  {
    if a != map[] {
      var s :| s in a;
      DisplacementWithout(h, a, s);
      DisplacementWithout(h, b, s);
      DisplacementOfKeys(h, a - {s}, b - {s});
    }
  }

  lemma RelinkKeys(s: Store, prev: Link, next: Link, to: Slot)
    requires Relink(s, prev, next, to).code == Ok
    ensures var t := End(s, Relink(s, prev, next, to)).slots;
      t.Keys == s.slots.Keys && forall x :: x in t ==> t[x].key == s.slots[x].key
  {
    hide LinkPrev, LinkNext, End;
    var r := LinkPrev(s, prev, to);
    var s1 := End(s, r);
    ThenEnds(s, r, s1 => LinkNext(s1, next, to));
    LinkKeys(s, prev, to);
    LinkKeys(s1, next, to);
  }

  lemma LinkKeys(s: Store, link: Link, to: Slot)
    ensures LinkPrev(s, link, to).code == Ok ==> SameKeys(s, End(s, LinkPrev(s, link, to)))
    ensures LinkNext(s, link, to).code == Ok ==> SameKeys(s, End(s, LinkNext(s, link, to)))
  {
  }

  ghost predicate SameKeys(s: Store, t: Store) {
    t.slots.Keys == s.slots.Keys && forall x :: x in t.slots ==> t.slots[x].key == s.slots[x].key
  }

  /** Links aside, moving an entry is the copy followed by the deletion. */
  lemma MoveKeys(s: Store, from: Slot, hole: Slot)
    requires from in s.slots && from != hole && Move(s, from, hole).code == Ok
    ensures var t := End(s, Move(s, from, hole)).slots;
      && t.Keys == s.slots.Keys - {from} + {hole}
      && (forall x :: x in t ==> t[x].key == if x == hole then s.slots[from].key else s.slots[x].key)
  {
    var e := s.slots[from];
    var s1 := s.(slots := s.slots[hole := e]);
    var r := Relink(s1, e.prev, e.next, hole);
    assert Move(s, from, hole)
        == Run([s1] + Then(s1, r, s2 => Erase(s2, from)).log, Then(s1, r, s2 => Erase(s2, from)).code);
    RelinkKeys(s1, e.prev, e.next, hole);
    ThenEnds(s1, r, s2 => Erase(s2, from));
  }

  lemma RelocationLowersDisplacement(h: Home, a: Slots, b: Slots, from: Slot, hole: Slot)
    requires from in a && from != hole && Before(h(a[from].key), hole, from)
    requires b.Keys == a.Keys - {from} + {hole}
    requires forall x :: x in b ==> b[x].key == if x == hole then a[from].key else a[x].key
    ensures Displacement(h, b) < Displacement(h, a)
  {
    DisplacementWithout(h, b, hole);
    DisplacementWithout(h, a, from);
    var rest := a - {from};
    if hole in rest {
      DisplacementWithout(h, rest, hole);
    }
    assert (b - {hole}).Keys == (rest - {hole}).Keys;
    DisplacementOfKeys(h, b - {hole}, rest - {hole});
    assert hole !in rest ==> rest - {hole} == rest;
  }

  lemma MoveLowersDisplacement(h: Home, s: Store, from: Slot, hole: Slot)
    requires from in s.slots && from != hole && Moves(h, s, hole, from) && Move(s, from, hole).code == Ok
    ensures Displacement(h, End(s, Move(s, from, hole)).slots) < Displacement(h, s.slots)
  {
    MoveKeys(s, from, hole);
    RelocationLowersDisplacement(h, s.slots, End(s, Move(s, from, hole)).slots, from, hole);
  }

  /** The loop that moves entries back into the hole until it meets an empty slot or comes full circle. */
  ghost function ShiftFrom(h: Home, s: Store, hole: Slot, curr: Slot): Run
    decreases Displacement(h, s.slots), Dist(curr, hole)
  {
    if curr == hole || curr !in s.slots then Nothing(Ok)
    else if !Moves(h, s, hole, curr) then ShiftFrom(h, s, hole, Next(curr))
    else
      var moved := Move(s, curr, hole);
      if moved.code != Ok then moved
      else
        MoveLowersDisplacement(h, s, curr, hole);
        var s1 := End(s, moved).(intent := Intent(Shifting, curr, NULL_ID, NULL_ID));
        var rest := ShiftFrom(h, s1, curr, Next(curr));
        Run(moved.log + [s1] + rest.log, rest.code)
  }

  ghost function ResumeShift(h: Home, s: Store, hole: Slot): Run {
    ShiftFrom(h, s, hole, Next(hole))
  }

  function Unlink(s: Store, idx: Slot): Run {
    if idx !in s.slots then Nothing(NotFound)
    else
      var prev, next := s.slots[idx].prev, s.slots[idx].next;
      Then(s, SetIntent(s, Intent(Deleting, idx, prev, next)), s1 => Detach(s1, idx, prev, next))
  }

  /** The writes that take `idx` out of the list, given its neighbours. Recovery repeats exactly these. */
  function Detach(s: Store, idx: Slot, prev: Link, next: Link): Run {
    Then(s, if prev != NULL_ID then SetNext(s, prev, next) else Nothing(Ok), s1 =>
      Then(s1, if next != NULL_ID then SetPrev(s1, next, prev) else Nothing(Ok), (s2: Store) =>
        Then(s2,
          if prev == NULL_ID || next == NULL_ID then
            SetHeadTail(s2, if prev == NULL_ID then next else s2.head, if next == NULL_ID then prev else s2.tail)
          else Nothing(Ok),
          s3 => Erase(s3, idx))))
  }

  ghost function EntryDelete(h: Home, s: Store, idx: Slot): Run {
    if idx !in s.slots then Nothing(Ok)
    else
      Then(s, Unlink(s, idx), s1 =>
        Then(s1, SetIntent(s1, Intent(Shifting, idx, NULL_ID, NULL_ID)), s2 =>
          Then(s2, ResumeShift(h, s2, idx), s3 => SetIntent(s3, Idle))))
  }

  // ---- entry_intent.c

  function ResolveInsert(s: Store, target: Slot, prev: Link): Run {
    if s.tail == target then Nothing(Ok)
    else
      Then(s, if prev != NULL_ID then SetNext(s, prev, NULL_ID) else Nothing(Ok), s1 => Erase(s1, target))
  }

  function ResolveDelete(s: Store, target: Slot, prev: Link, next: Link): Run {
    Then(s, if target in s.slots then Detach(s, target, prev, next) else Nothing(Ok), s1 =>
      SetIntent(s1, Intent(Shifting, target, NULL_ID, NULL_ID)))
  }

  /** Every slot from `from` up to the last one is taken, so the forward scan leaves the slot range. */
  ghost predicate ScanLeavesRange(slots: Slots, from: Slot) {
    forall x: Slot :: from <= x ==> x in slots
  }

  /** The first empty slot at or after `from`, found by the forward scan. */
  ghost function FirstHole(slots: Slots, from: Slot): (hole: Slot)
    requires !ScanLeavesRange(slots, from)
    ensures from <= hole && hole !in slots
    ensures forall x: Slot :: from <= x < hole ==> x in slots
    decreases MAX_ID - from
  {
    if from !in slots then from else FirstHole(slots, from + 1)
  }

  /** Past the last slot the scan continues at identifier 0, which is never written, takes it for the hole and
      fails: the slot after it is below the smallest one that may be shifted. */
  ghost function ResolveShift(h: Home, s: Store, target: Slot): Run {
    if ScanLeavesRange(s.slots, target) then Nothing(InternalError)
    else ResumeShift(h, s, FirstHole(s.slots, target))
  }

  ghost function Resolve(h: Home, s: Store): Run {
    match s.intent
    case Idle => Nothing(Ok)
    case Intent(op, target, first, second) =>
      var r :=
        match op
        case Inserting => ResolveInsert(s, target, first)
        case Updating => Nothing(Ok)
        case Deleting => Then(s, ResolveDelete(s, target, first, second), s1 => ResolveShift(h, s1, target))
        case Shifting => ResolveShift(h, s, target);
      if r.code != Ok then r.(code := RecoveryFailed)
      else Then(s, r, s1 => SetIntent(s1, Idle))
  }
}
