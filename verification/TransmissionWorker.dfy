/** The worker that drains the transmission queue, and the order in which messages leave the queue over whole runs. */
module TransmissionWorker {
  import opened Options
  import opened Bytes
  import opened SlotIds
  import opened KvStore
  import opened KvPrograms
  import opened KeyValueStorage
  import opened TransmissionRing
  import opened TransmissionQueue
  import opened Pacing

  const INT32_MAX := 0x7FFF_FFFF

  /** The table in flash is full and holds no message: whatever waits in memory, nothing is taken. */
  predicate Blocked(items: seq<Item>, q: seq<Msg>) {
    q == [] && |items| >= RANGE
  }

  /** The worker sleeps until the next token is due, which is 20 ms after the last refill, and no longer than a sleep can
      last. */
  predicate WaitsForToken(now: int, lastRefill: int, wait: int) {
    if now >= lastRefill + 20 then wait == 0
    else wait == if lastRefill + 20 - now > INT32_MAX then INT32_MAX else lastRefill + 20 - now
  }

  /** Then there is a token. */
  lemma TokenIsDue(b: Bucket, now: int, wait: int)
    requires b.lastRefill <= now && WaitsForToken(now, b.lastRefill, wait)
    ensures Refilled(b, now + wait).tokens > 0
  {
  }

  class Worker {
    const queue: Queue
    var tokens: nat
    var lastRefill: int
    /** Interface changes applied and messages published, in that order. */
    var handled: seq<QueueMsg>

    constructor (queue: Queue, now: int)
      ensures this.queue == queue && Tokens() == Bucket(MAX_TOKENS, now) && handled == []
    {
      this.queue := queue;
      tokens := MAX_TOKENS;
      lastRefill := now;
      handled := [];
    }

    function Tokens(): Bucket
      reads this
    {
      Bucket(tokens, lastRefill)
    }

    method RefillTransmissionTokens(now: int)
      modifies this`tokens, this`lastRefill
      ensures Tokens() == Refilled(old(Tokens()), now)
    {
      var elapsed := now - lastRefill;
      if elapsed >= TOKEN_VALUE_MS {
        var generatedTokens := elapsed / TOKEN_VALUE_MS;
        if tokens + generatedTokens > MAX_TOKENS {
          tokens := MAX_TOKENS;
        } else {
          tokens := tokens + generatedTokens;
        }
        lastRefill := lastRefill + generatedTokens * TOKEN_VALUE_MS;
      }
    }

    /** Takes the oldest message. An interface change is applied and discarded at once. Anything else needs a token: it
        is published, and discarded if publishing succeeds. `delivers` is what publishing answers, and `wait` is how
        long the worker sleeps for the next token. */
    method ProcessTransmissionQueue(now: int, delivers: bool, ghost items: seq<Item>, ghost q: seq<Msg>)
        returns (published: bool, wait: int, ghost taken: Option<Lane>, ghost items': seq<Item>, ghost q': seq<Msg>)
      requires queue.Valid(items, q)
      modifies this`tokens, this`handled, queue`interfaces, queue`vol, queue`disc, queue.ring`head, queue.ring.kv`usage,
               queue.ring.kv.flash
      ensures queue.Valid(items', q')
      ensures taken.None? ==> queue.View(q') == old(queue.View(q)) && handled == old(handled) && !published
      ensures taken.Some? ==>
        && OldestIn(old(queue.View(q)), taken.value)
        && queue.View(q') == Popped(old(queue.View(q)), taken.value)
        && handled == old(handled) + [HandedOut(old(queue.View(q)), taken.value)]
        && (published <==> taken.value != InterfaceLane)
      ensures published ==> delivers && old(tokens) > 0
      ensures tokens == if published then old(tokens) - 1 else old(tokens)
      ensures Blocked(items, q) || Empty(old(queue.View(q))) ==> taken.None? && wait == 0
      ensures !Blocked(items, q) && OldestIn(old(queue.View(q)), InterfaceLane) ==>
        taken == Some(InterfaceLane) && wait == 0
      ensures !Blocked(items, q) && !Empty(old(queue.View(q))) && !OldestIn(old(queue.View(q)), InterfaceLane) ==>
        && (taken.Some? <==> delivers && old(tokens) > 0)
        && (old(tokens) == 0 ==> WaitsForToken(now, lastRefill, wait))
        && (old(tokens) > 0 ==> wait == 0)
    {
      hide Ordered, Steady, Queued, OldestIn, Numbers, Popped, HandedOut, Empty;
      published, wait, taken, items', q' := false, 0, None, items, q;
      ghost var l := queue.View(q);
      if OldestIn(l, InterfaceLane) { OldestExists(l, InterfaceLane); }
      var code, msg;
      ghost var lane;
      code, msg, lane := queue.Peek(items, q);
      if code != Ok {
        return;
      }
      OldestExists(l, lane);
      if OldestIn(l, InterfaceLane) { OldestOnce(l, lane, InterfaceLane); }
      if msg.InterfaceChange? {
        handled := handled + [msg];
        code := queue.DiscardInterface(items, q);
        taken := Some(lane);
        return;
      }
      if tokens == 0 {
        wait := TOKEN_VALUE_MS - (now - lastRefill);
        if wait > INT32_MAX {
          wait := INT32_MAX;
        }
        wait := if wait > 0 then wait else 0;
        return;
      }
      if delivers {
        handled := handled + [msg];
        code, items', q' := queue.DiscardByRetention(msg.retention, items, q);
        tokens := tokens - 1;
        published := true;
        taken := Some(lane);
      }
    }

    /** One iteration of the worker while the device is connected, as the pacing sees it. */
    method Iterate(now: int, later: int, delivers: bool, ghost items: seq<Item>, ghost q: seq<Msg>)
        returns (published: bool, ghost taken: Option<Lane>, ghost items': seq<Item>, ghost q': seq<Msg>)
      requires queue.Valid(items, q) && now <= later
      modifies this`tokens, this`lastRefill, this`handled, queue`interfaces, queue`vol, queue`disc, queue.ring`head,
               queue.ring.kv`usage, queue.ring.kv.flash
      ensures queue.Valid(items', q')
      ensures published ==> Refilled(old(Tokens()), now).tokens > 0
      ensures Tokens() == After(old(Tokens()), Iteration(now, published))
      ensures Steps(old(queue.View(q)), if taken.Some? then Removal(taken.value) else Rest, queue.View(q'))
      ensures published ==> taken.Some?
      ensures handled == old(handled) + if taken.Some? then [HandedOut(old(queue.View(q)), taken.value)] else []
      ensures Blocked(items, q) ==> taken.None?
    {
      hide Ordered, Steady, Queued, OldestIn, Numbers, Popped, HandedOut, Empty, Refilled;
      RefillTransmissionTokens(now);
      var wait;
      published, wait, taken, items', q' := ProcessTransmissionQueue(later, delivers, items, q);
    }
  }

  /** Only one lane holds the oldest message. */
  lemma OldestOnce(l: Lanes, a: Lane, b: Lane)
    requires Ordered(l) && OldestIn(l, a) && OldestIn(l, b)
    ensures a == b
  {
    hide Numbers;
    assert Numbers(l, a)[0] in Numbers(l, a) && Numbers(l, b)[0] in Numbers(l, b);
  }

  lemma OldestExists(l: Lanes, lane: Lane)
    requires OldestIn(l, lane)
    ensures Numbers(l, lane) != [] && !Empty(l)
  {
  }

  // ---- whole runs

  /** What can happen to the queue: a message is offered at some time, a number is used up for a message of no known kind,
      the oldest message of all is taken, or nothing. */
  datatype Step = Offer(msg: QueueMsg, timestamp: U64, evicts: bool, accepted: bool) | Skip | Removal(lane: Lane) | Rest

  ghost predicate Steps(l: Lanes, step: Step, l': Lanes) {
    match step
    case Offer(msg, timestamp, evicts, accepted) =>
      && LaneOf(msg).Some? && l.next <= UINT64_MAX && (evicts ==> Numbers(l, LaneOf(msg).value) != [])
      && l' == Inserted(l, msg, timestamp, evicts, accepted)
    case Skip => l' == l.(next := l.next + 1)
    case Removal(lane) => OldestIn(l, lane) && l' == Popped(l, lane)
    case Rest => l' == l
  }

  ghost predicate IsRun(l: Lanes, run: seq<(Step, Lanes)>)
    decreases |run|
  {
    run == [] || (Steps(l, run[0].0, run[0].1) && IsRun(run[0].1, run[1..]))
  }

  function End(l: Lanes, run: seq<(Step, Lanes)>): Lanes
    decreases |run|
  {
    if run == [] then l else End(run[0].1, run[1..])
  }

  /** The numbers of the messages taken, in the order in which they were taken. */
  ghost function Taken(l: Lanes, run: seq<(Step, Lanes)>): seq<nat>
    requires IsRun(l, run)
    decreases |run|
  {
    if run == [] then []
    else
      (if run[0].0.Removal? then [Numbers(l, run[0].0.lane)[0]] else []) + Taken(run[0].1, run[1..])
  }

  ghost function TakenIn(l: Lanes, step: Step): multiset<nat>
    requires exists l' :: Steps(l, step, l')
  {
    if step.Removal? then multiset{Numbers(l, step.lane)[0]} else multiset{}
  }

  /** The numbers lost: evicted, refused, or given to a message of no known kind. */
  ghost function LostIn(l: Lanes, step: Step): multiset<nat>
    requires exists l' :: Steps(l, step, l')
  {
    match step
    case Offer(msg, _, evicts, accepted) =>
      (if evicts then multiset{Numbers(l, LaneOf(msg).value)[0]} else multiset{}) + (if accepted then multiset{} else multiset{l.next})
    case Skip => multiset{l.next}
    case Removal(_) => multiset{}
    case Rest => multiset{}
  }

  ghost function Lost(l: Lanes, run: seq<(Step, Lanes)>): multiset<nat>
    requires IsRun(l, run)
    decreases |run|
  {
    if run == [] then multiset{} else LostIn(l, run[0].0) + Lost(run[0].1, run[1..])
  }

  function Waiting(l: Lanes): multiset<nat> {
    multiset(Numbers(l, InterfaceLane)) + multiset(Numbers(l, VolatileLane))
    + multiset(Numbers(l, DiscardLane)) + multiset(Numbers(l, StoredLane))
  }

  /** The numbers given out from `a` up to but not including `b`. */
  function Given(a: nat, b: nat): multiset<nat>
    requires a <= b
    decreases b - a
  {
    if a == b then multiset{} else multiset{a} + Given(a + 1, b)
  }

  ghost predicate AllAbove(l: Lanes, n: int) {
    n < l.next && forall lane, x :: x in Numbers(l, lane) ==> n < x
  }

  lemma StepKeepsOrder(l: Lanes, step: Step, l': Lanes, n: int)
    requires Ordered(l) && Steps(l, step, l') && AllAbove(l, n)
    ensures Ordered(l') && AllAbove(l', n)
    ensures step.Removal? ==> n < Numbers(l, step.lane)[0] && AllAbove(l', Numbers(l, step.lane)[0])
  {
    hide Ordered, Numbers, Popped, Offered;
    match step {
      case Offer(msg, timestamp, evicts, accepted) =>
        var lane := LaneOf(msg).value;
        InsertedOffers(l, msg, timestamp, evicts, accepted);
        OfferedOrdered(l, lane, evicts, accepted, l');
        OfferedNext(l, lane, evicts, accepted, l');
      case Skip =>
        NumberSkipped(l, l');
        SkippedNumbers(l, l');
      case Removal(lane) =>
        PoppedOrdered(l, lane);
        PoppedIsBelow(l, lane);
        PoppedKeepsNext(l, lane);
        OldestBelowNext(l, lane);
      case Rest =>
    }
  }

  lemma OfferedNext(l: Lanes, lane: Lane, evicts: bool, accepted: bool, l': Lanes)
    requires Offered(l, lane, evicts, accepted, l')
    ensures l'.next == l.next + 1
  {
  }

  lemma SkippedNumbers(l: Lanes, l': Lanes)
    requires l' == l.(next := l.next + 1)
    ensures forall lane :: Numbers(l', lane) == Numbers(l, lane)
  {
  }

  lemma OldestBelowNext(l: Lanes, lane: Lane)
    requires Ordered(l) && OldestIn(l, lane)
    ensures Numbers(l, lane)[0] in Numbers(l, lane) && Numbers(l, lane)[0] < l.next
  {
  }

  lemma IncreasingFrom(x: nat, q: seq<nat>)
    requires Increasing(q) && forall y :: y in q ==> x < y
    ensures Increasing([x] + q)
    ensures forall y :: y in [x] + q ==> y == x || y in q
  {
    forall i, j | 0 <= i < j < |[x] + q|
      ensures ([x] + q)[i] < ([x] + q)[j]
    {
      assert q[j - 1] in q;
    }
  }

  /** Over a whole run messages leave the queue in the order of their numbers, which is the order of insertion,
      whichever lanes they waited in and however many others were evicted. */
  lemma {:induction false} TakenInOrder(l: Lanes, run: seq<(Step, Lanes)>, n: int)
    requires Ordered(l) && IsRun(l, run) && AllAbove(l, n)
    ensures Ordered(End(l, run)) && AllAbove(End(l, run), n)
    ensures Increasing(Taken(l, run)) && (forall x :: x in Taken(l, run) ==> n < x)
    ensures forall x :: x in Taken(l, run) ==> AllAbove(End(l, run), x)
    decreases |run|
  {
    if run != [] {
      hide Ordered, Numbers, AllAbove, Steps;
      var step, l', rest := run[0].0, run[0].1, run[1..];
      StepKeepsOrder(l, step, l', n);
      TakenInOrder(l', rest, n);
      if step.Removal? {
        var x := Numbers(l, step.lane)[0];
        TakenInOrder(l', rest, x);
        assert Taken(l, run) == [x] + Taken(l', rest);
        IncreasingFrom(x, Taken(l', rest));
      } else {
        assert Taken(l, run) == Taken(l', rest);
      }
    }
  }

  /** The messages taken, with their numbers. */
  ghost function TakenOut(l: Lanes, run: seq<(Step, Lanes)>): seq<(nat, QueueMsg)>
    requires IsRun(l, run)
    decreases |run|
  {
    if run == [] then []
    else
      (if run[0].0.Removal? then [(Numbers(l, run[0].0.lane)[0], HandedOut(l, run[0].0.lane))] else [])
      + TakenOut(run[0].1, run[1..])
  }

  /** The message was waiting from the start, or was offered in the run and got this number. */
  ghost predicate GivenIn(l: Lanes, run: seq<(Step, Lanes)>, n: nat, msg: QueueMsg)
    requires IsRun(l, run)
    decreases |run|
  {
    || (exists lane :: (n, msg) in InLane(l, lane))
    || (run != [] && ((run[0].0.Offer? && n == l.next && msg == run[0].0.msg) || GivenIn(run[0].1, run[1..], n, msg)))
  }

  /** What waits after a step waited before it or was offered in it. */
  lemma StepKeepsMessages(l: Lanes, step: Step, l': Lanes, n: nat, msg: QueueMsg, lane: Lane)
    requires Steps(l, step, l') && (n, msg) in InLane(l', lane)
    ensures (n, msg) in InLane(l, lane) || (step.Offer? && n == l.next && msg == step.msg)
  {
    hide Numbers, Popped, InLane, Inserted, HandedOut, OldestIn;
    match step {
      case Offer(offered, timestamp, evicts, accepted) =>
        InsertedContents(l, offered, timestamp, evicts, accepted);
      case Skip =>
        SkippedContents(l, l', lane);
      case Removal(from) =>
        OldestExists(l, from);
        PoppedContents(l, from);
      case Rest =>
    }
  }

  lemma SkippedContents(l: Lanes, l': Lanes, lane: Lane)
    requires l' == l.(next := l.next + 1)
    ensures InLane(l', lane) == InLane(l, lane)
  {
  }

  /** Over a whole run every message is handed out as it was put in, under the number that it got then. */
  lemma {:induction false} TakenAsGiven(l: Lanes, run: seq<(Step, Lanes)>, n: nat, msg: QueueMsg)
    requires IsRun(l, run) && (n, msg) in TakenOut(l, run)
    ensures GivenIn(l, run, n, msg)
    decreases |run|
  {
    hide Steps, Numbers, InLane, HandedOut;
    var step, l', rest := run[0].0, run[0].1, run[1..];
    if (n, msg) in TakenOut(l', rest) {
      TakenAsGiven(l', rest, n, msg);
      if exists lane :: (n, msg) in InLane(l', lane) {
        var lane :| (n, msg) in InLane(l', lane);
        StepKeepsMessages(l, step, l', n, msg, lane);
      }
    } else {
      RemovalTakes(l, step, l');
    }
  }

  lemma RemovalTakes(l: Lanes, step: Step, l': Lanes)
    requires Steps(l, step, l') && step.Removal?
    ensures Numbers(l, step.lane) != [] && (Numbers(l, step.lane)[0], HandedOut(l, step.lane)) in InLane(l, step.lane)
  {
    OldestExists(l, step.lane);
    PoppedContents(l, step.lane);
  }

  lemma TailMultiset(q: seq<nat>)
    requires q != []
    ensures multiset(q) == multiset{q[0]} + multiset(q[1..])
  {
    assert q == [q[0]] + q[1..];
  }

  lemma SumOfLanes(a: multiset<nat>, a': multiset<nat>, rest: multiset<nat>, plus: multiset<nat>, minus: multiset<nat>)
    requires a' + minus == a + plus
    ensures (a' + rest) + minus == (a + rest) + plus
  {
    assert (a' + rest) + minus == (a' + minus) + rest;
    assert (a + rest) + plus == (a + plus) + rest;
  }

  /** If one lane changes by these numbers, so does the whole queue. */
  lemma LaneChanges(l: Lanes, lane: Lane, l': Lanes, plus: multiset<nat>, minus: multiset<nat>)
    requires forall other :: other != lane ==> Numbers(l', other) == Numbers(l, other)
    requires multiset(Numbers(l', lane)) + minus == multiset(Numbers(l, lane)) + plus
    ensures Waiting(l') + minus == Waiting(l) + plus
  {
    hide Numbers;
    var i, v, d, s := multiset(Numbers(l, InterfaceLane)), multiset(Numbers(l, VolatileLane)),
      multiset(Numbers(l, DiscardLane)), multiset(Numbers(l, StoredLane));
    var a, a' := multiset(Numbers(l, lane)), multiset(Numbers(l', lane));
    var rest := match lane
      case InterfaceLane => v + d + s
      case VolatileLane => i + d + s
      case DiscardLane => i + v + s
      case StoredLane => i + v + d;
    SumOfLanes(a, a', rest, plus, minus);
    assert Waiting(l) == a + rest;
    assert Waiting(l') == a' + rest;
  }

  lemma WaitingSame(l: Lanes, l': Lanes)
    requires forall lane :: Numbers(l', lane) == Numbers(l, lane)
    ensures Waiting(l') == Waiting(l)
  {
  }

  lemma StepConserves(l: Lanes, step: Step, l': Lanes)
    requires Steps(l, step, l')
    ensures l.next <= l'.next <= l.next + 1
    ensures Waiting(l) + Given(l.next, l'.next)
         == Waiting(l') + LostIn(l, step) + TakenIn(l, step)
  {
    hide Numbers, Popped, OldestIn, Waiting, Inserted, InLane, HandedOut, Increasing;
    match step {
      case Offer(msg, timestamp, evicts, accepted) =>
        InsertedOffers(l, msg, timestamp, evicts, accepted);
        var lane := LaneOf(msg).value;
        var q, n := Numbers(l, lane), l.next;
        if evicts { TailMultiset(q); }
        assert LostIn(l, step) + TakenIn(l, step) == LostIn(l, step);
        assert multiset(Numbers(l', lane)) + LostIn(l, step) == multiset(q) + multiset{n};
        LaneChanges(l, lane, l', multiset{n}, LostIn(l, step));
      case Skip =>
        SkippedNumbers(l, l');
        WaitingSame(l, l');
      case Removal(lane) =>
        OldestExists(l, lane);
        PoppedNumbers(l, lane);
        PoppedKeepsNext(l, lane);
        TailMultiset(Numbers(l, lane));
        LaneChanges(l, lane, l', multiset{}, TakenIn(l, step));
      case Rest =>
    }
  }

  lemma {:induction false} GivenSplits(a: nat, b: nat, c: nat)
    requires a <= b <= c
    ensures Given(a, c) == Given(a, b) + Given(b, c)
    decreases b - a
  {
    if a < b {
      GivenSplits(a + 1, b, c);
    }
  }

  lemma SumOfSteps(w0: multiset<nat>, g1: multiset<nat>, w1: multiset<nat>, l1: multiset<nat>, t1: multiset<nat>,
                   g2: multiset<nat>, w2: multiset<nat>, l2: multiset<nat>, t2: multiset<nat>)
    requires w0 + g1 == w1 + l1 + t1 && w1 + g2 == w2 + l2 + t2
    ensures w0 + (g1 + g2) == w2 + (l1 + l2) + (t1 + t2)
  {
    calc {
      w0 + (g1 + g2);
      w1 + l1 + t1 + g2;
      (w1 + g2) + l1 + t1;
      w2 + (l1 + l2) + (t1 + t2);
    }
  }

  /** No message is lost silently and none is taken twice: what waited and what was given out during a run is what was
      taken, what was lost, and what still waits. */
  lemma {:induction false} RunConserves(l: Lanes, run: seq<(Step, Lanes)>)
    requires IsRun(l, run)
    ensures l.next <= End(l, run).next
    ensures Waiting(l) + Given(l.next, End(l, run).next)
         == Waiting(End(l, run)) + Lost(l, run) + multiset(Taken(l, run))
    decreases |run|
  {
    hide Steps, Numbers, LostIn, Waiting, Given;
    if run == [] {
      GivenNone(l.next);
    } else {
      var step, l', rest := run[0].0, run[0].1, run[1..];
      StepConserves(l, step, l');
      RunConserves(l', rest);
      GivenSplits(l.next, l'.next, End(l, run).next);
      TakenSplits(l, run);
      SumOfSteps(Waiting(l), Given(l.next, l'.next), Waiting(l'), LostIn(l, step), TakenIn(l, step),
                 Given(l'.next, End(l, run).next), Waiting(End(l, run)), Lost(l', rest), multiset(Taken(l', rest)));
    }
  }

  lemma GivenNone(n: nat)
    ensures Given(n, n) == multiset{}
  {
  }

  lemma TakenSplits(l: Lanes, run: seq<(Step, Lanes)>)
    requires run != [] && IsRun(l, run)
    ensures multiset(Taken(l, run)) == TakenIn(l, run[0].0) + multiset(Taken(run[0].1, run[1..]))
  {
    hide Numbers, Popped;
    if run[0].0.Removal? { OldestExists(l, run[0].0.lane); }
    var first := if run[0].0.Removal? then [Numbers(l, run[0].0.lane)[0]] else [];
    assert multiset(first + Taken(run[0].1, run[1..])) == multiset(first) + multiset(Taken(run[0].1, run[1..]));
  }
}
