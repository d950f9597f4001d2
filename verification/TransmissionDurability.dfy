/** The queue in flash across power losses: what a cut push or discard leaves, and what the reboot makes of it. */
module TransmissionDurability {
  import opened Bytes
  import opened EntryHash
  import opened KvStore
  import opened KvPrograms
  import opened KvShift
  import opened KvCrash
  import opened KvOperations
  import opened KvDurability
  import opened KvFlash
  import opened KeyValueStorage
  import opened RingIndexes
  import opened TransmissionRing
  import Message = TransmissionMsg

  /** An image left by an operation that lost power after some writes and by recoveries that lost power in turn. */
  ghost predicate LeftBy(flash: Flash, s: Store, a: Attempt)
    reads flash
  {
    && flash.Valid()
    && AllClean(flash.Home(), Interrupted(flash.Home(), s, a), a.cuts)
    && flash.Store() == AfterCuts(flash.Home(), Interrupted(flash.Home(), s, a), a.cuts)
  }

  /** Such an image opens with the items before the operation or after it. */
  lemma LeftOpens(flash: Flash, s: Store, items: seq<Item>, a: Attempt) returns (items1: seq<Item>)
    requires Well(flash.Home(), s) && Means(s, items) && LeftBy(flash, s, a)
    ensures Opened(flash, items1) && Resolve(flash.Home(), flash.Store()).code == Ok
    ensures items1 == items || items1 == Outcome(items, a.op)
    ensures Completes(flash.Home(), s, a) && Succeeds(flash.Home(), s, items, a.op) ==> items1 == Outcome(items, a.op)
  {
    hide Well, Means, Resolve, AllClean, AfterCuts, Execute, Succeeds, Outcome, WellFormedImage, Decode;
    items1 := AttemptIsAtomic(flash.Home(), s, items, a);
  }

  /** The reboot after a push that was cut: the queue is as it was, or has the whole message at its end. */
  method RebootAfterPush(ring: Ring, m: Msg, ghost s: Store, ghost stop: nat, ghost cuts: seq<nat>,
                         ghost items: seq<Item>, ghost head: U32, ghost tail: U32, ghost q: seq<Msg>)
      returns (code: Code, ghost items1: seq<Item>, ghost q1: seq<Msg>)
    requires Well(ring.kv.flash.Home(), s) && Means(s, items)
    requires Queued(items, ring.kv.ns, head, tail, q) && |q| + 1 < TWO32
    requires LeftBy(ring.kv.flash, s, Attempt(PushOp(ring.kv.ns, tail, m), stop, cuts))
    modifies ring, ring.kv.flash
    ensures code == Ok && ring.Holds(items1, q1)
    ensures q1 == q || q1 == q + [m]
    ensures var a := Attempt(PushOp(ring.kv.ns, tail, m), stop, cuts);
      Completes(ring.kv.flash.Home(), s, a) && Succeeds(ring.kv.flash.Home(), s, items, a.op) ==> q1 == q + [m]
  {
    hide Well, Means, Resolve, LeftBy, Opened, Queued, Outcome, Completes, Succeeds, Steady;
    items1 := LeftOpens(ring.kv.flash, s, items, Attempt(PushOp(ring.kv.ns, tail, m), stop, cuts));
    PushQueues(items, ring.kv.ns, head, tail, q, m);
    q1 := q;
    ghost var tail1 := tail;
    if items1 == Outcome(items, PushOp(ring.kv.ns, tail, m)) {
      q1, tail1 := q + [m], Wrapped(tail, 1);
    }
    code := ring.GetIndexes(items1, head, tail1, q1);
  }

  /** The reboot after a discard that was cut: the oldest message is still there, or it is gone. */
  method RebootAfterDiscard(ring: Ring, ghost s: Store, ghost stop: nat, ghost cuts: seq<nat>,
                            ghost items: seq<Item>, ghost head: U32, ghost tail: U32, ghost q: seq<Msg>)
      returns (code: Code, ghost items1: seq<Item>, ghost q1: seq<Msg>)
    requires Well(ring.kv.flash.Home(), s) && Means(s, items)
    requires Queued(items, ring.kv.ns, head, tail, q)
    requires LeftBy(ring.kv.flash, s, Attempt(DiscardOp(ring.kv.ns, head), stop, cuts))
    modifies ring, ring.kv.flash
    ensures code == Ok && ring.Holds(items1, q1)
    ensures q1 == q || (q != [] && q1 == q[1..])
    ensures var a := Attempt(DiscardOp(ring.kv.ns, head), stop, cuts);
      q != [] && Completes(ring.kv.flash.Home(), s, a) && Succeeds(ring.kv.flash.Home(), s, items, a.op) ==>
        q1 == q[1..]
  {
    hide Well, Means, Resolve, LeftBy, Opened, Queued, Outcome, Completes, Succeeds, Steady;
    items1 := LeftOpens(ring.kv.flash, s, items, Attempt(DiscardOp(ring.kv.ns, head), stop, cuts));
    q1 := q;
    ghost var head1 := head;
    if q != [] {
      PopQueues(items, ring.kv.ns, head, tail, q);
      if items1 == Outcome(items, DiscardOp(ring.kv.ns, head)) {
        q1, head1 := q[1..], Wrapped(head, 1);
      }
    } else {
      HeadIsStored(items, ring.kv.ns, head, tail, q);
      OutcomeOfAbsent(items, Key(ring.kv.ns, Message.KeyOf(head)));
    }
    code := ring.GetIndexes(items1, head1, tail, q1);
  }
}
