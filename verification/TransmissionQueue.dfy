/** The outgoing queue of the device: three lanes in memory and one in flash, merged by sequence number. */
module TransmissionQueue {
  import opened Options
  import opened Bytes
  import opened SlotIds
  import opened KvStore
  import opened KvPrograms
  import KvOperations
  import opened KvFlash
  import opened KvQuota
  import opened KeyValueStorage
  import opened TransmissionRing
  import Message = TransmissionMsg

  const UINT64_MAX := 0xFFFF_FFFF_FFFF_FFFF

  datatype Operation = AddInterface | RemoveInterface

  datatype Retention = Discard | Volatile | Stored | Unknown

  /** A message as the caller hands it in and as it is handed out. */
  datatype QueueMsg =
    | InterfaceChange(operation: Operation, interface: Bytes)
    | Publication(interfaceName: Field, path: Field, payload: Message.Payload, qos: I32,
                  retention: Retention)

  datatype InterfaceMsg = InterfaceMsg(operation: Operation, interface: Bytes, timestamp: U64, sequenceNumber: U64)

  datatype Lane = InterfaceLane | VolatileLane | DiscardLane | StoredLane

  /** The four lanes, oldest message first, and the number the next message gets. */
  datatype Lanes = Lanes(interfaces: seq<InterfaceMsg>, vol: seq<Msg>, disc: seq<Msg>, stored: seq<Msg>, next: nat)

  function MsgNumbers(q: seq<Msg>): (n: seq<nat>)
    ensures |n| == |q| && forall i :: 0 <= i < |q| ==> n[i] == q[i].sequenceNumber
  {
    seq(|q|, i requires 0 <= i < |q| => q[i].sequenceNumber)
  }

  function InterfaceNumbers(q: seq<InterfaceMsg>): (n: seq<nat>)
    ensures |n| == |q| && forall i :: 0 <= i < |q| ==> n[i] == q[i].sequenceNumber
  {
    seq(|q|, i requires 0 <= i < |q| => q[i].sequenceNumber)
  }

  /** The sequence numbers waiting in a lane. */
  function Numbers(l: Lanes, lane: Lane): seq<nat> {
    match lane
    case InterfaceLane => InterfaceNumbers(l.interfaces)
    case VolatileLane => MsgNumbers(l.vol)
    case DiscardLane => MsgNumbers(l.disc)
    case StoredLane => MsgNumbers(l.stored)
  }

  ghost predicate Increasing(q: seq<nat>) {
    forall i, j :: 0 <= i < j < |q| ==> q[i] < q[j]
  }

  /** Each lane is strictly increasing, every number is below the next one to give out, and no number is in two
      lanes. */
  ghost predicate Ordered(l: Lanes) {
    && (forall lane :: Increasing(Numbers(l, lane)))
    && (forall lane, x :: x in Numbers(l, lane) ==> x < l.next)
    && (forall a, b, x :: x in Numbers(l, a) && x in Numbers(l, b) ==> a == b)
  }

  /** The lane whose front is the oldest message of all. */
  ghost predicate OldestIn(l: Lanes, lane: Lane) {
    && Numbers(l, lane) != []
    && forall other, x :: x in Numbers(l, other) ==> Numbers(l, lane)[0] <= x
  }

  ghost predicate Empty(l: Lanes) {
    forall lane :: Numbers(l, lane) == []
  }

  /** Without the oldest message of a lane. */
  function Popped(l: Lanes, lane: Lane): Lanes
    requires Numbers(l, lane) != []
  {
    match lane
    case InterfaceLane => l.(interfaces := l.interfaces[1..])
    case VolatileLane => l.(vol := l.vol[1..])
    case DiscardLane => l.(disc := l.disc[1..])
    case StoredLane => l.(stored := l.stored[1..])
  }

  lemma PoppedNumbers(l: Lanes, lane: Lane)
    requires Numbers(l, lane) != []
    ensures forall other :: Numbers(Popped(l, lane), other)
                        == if other == lane then Numbers(l, lane)[1..] else Numbers(l, other)
  {
  }

  lemma PoppedOrdered(l: Lanes, lane: Lane)
    requires Ordered(l) && Numbers(l, lane) != []
    ensures Ordered(Popped(l, lane))
    ensures forall other, x :: x in Numbers(Popped(l, lane), other) ==> x in Numbers(l, other)
  {
    hide Popped, Numbers;
    PoppedNumbers(l, lane);
    var p := Popped(l, lane);
    forall other, x | x in Numbers(p, other)
      ensures x in Numbers(l, other)
    {
      var i :| 0 <= i < |Numbers(p, other)| && Numbers(p, other)[i] == x;
      assert other == lane ==> Numbers(l, other)[i + 1] == x;
    }
    assert p.next == l.next by { PoppedKeepsNext(l, lane); }
    forall other
      ensures Increasing(Numbers(p, other))
    {
      assert Increasing(Numbers(l, other));
    }
  }

  lemma PoppedKeepsNext(l: Lanes, lane: Lane)
    requires Numbers(l, lane) != []
    ensures Popped(l, lane).next == l.next
  {
  }

  /** Once the oldest message of all is gone, every other number is above it. */
  lemma PoppedIsBelow(l: Lanes, lane: Lane)
    requires Ordered(l) && OldestIn(l, lane)
    ensures forall other, x :: x in Numbers(Popped(l, lane), other) ==> Numbers(l, lane)[0] < x
  {
    hide Popped, Numbers;
    PoppedNumbers(l, lane);
    PoppedOrdered(l, lane);
    var p := Popped(l, lane);
    forall other, x | x in Numbers(p, other)
      ensures Numbers(l, lane)[0] < x
    {
      assert x in Numbers(l, other) && Numbers(l, lane)[0] in Numbers(l, lane);
      if other == lane {
        var i :| 0 <= i < |Numbers(p, other)| && Numbers(p, other)[i] == x;
        assert Increasing(Numbers(l, lane));
        assert Numbers(l, lane)[0] < Numbers(l, lane)[i + 1];
      }
    }
  }

  /** A message with the next number is offered to a lane: the lane drops its oldest message or not, and takes the new
      one or not. The number is used up in any case. */
  ghost predicate Offered(l: Lanes, lane: Lane, evicts: bool, accepted: bool, l': Lanes) {
    && l'.next == l.next + 1
    && (forall other :: other != lane ==> Numbers(l', other) == Numbers(l, other))
    && (evicts ==> Numbers(l, lane) != [])
    && Numbers(l', lane) == (if evicts then Numbers(l, lane)[1..] else Numbers(l, lane))
                            + (if accepted then [l.next] else [])
  }

  lemma OfferedOrdered(l: Lanes, lane: Lane, evicts: bool, accepted: bool, l': Lanes)
    requires Ordered(l) && Offered(l, lane, evicts, accepted, l')
    ensures Ordered(l')
    ensures forall other, x :: x in Numbers(l', other) ==> x in Numbers(l, other) || (other == lane && x == l.next)
  {
    hide Numbers;
    forall other, x | x in Numbers(l', other)
      ensures x in Numbers(l, other) || (other == lane && x == l.next)
    {
      if other == lane && x != l.next {
        var i :| 0 <= i < |Numbers(l', lane)| && Numbers(l', lane)[i] == x;
        assert x == Numbers(l, lane)[i] || (i + 1 < |Numbers(l, lane)| && x == Numbers(l, lane)[i + 1]);
      }
    }
    forall other
      ensures Increasing(Numbers(l', other))
    {
      assert Increasing(Numbers(l, other));
      assert forall i :: 0 <= i < |Numbers(l, other)| ==> Numbers(l, other)[i] in Numbers(l, other);
    }
  }

  /** The lane that a message goes to. */
  function LaneOf(msg: QueueMsg): Option<Lane> {
    match msg
    case InterfaceChange(_, _) => Some(InterfaceLane)
    case Publication(_, _, _, _, retention) =>
      match retention
      case Discard => Some(DiscardLane)
      case Volatile => Some(VolatileLane)
      case Stored => Some(StoredLane)
      case Unknown => None
  }

  /** What waits in a lane, with its numbers. */
  function InLane(l: Lanes, lane: Lane): (c: seq<(nat, QueueMsg)>)
    ensures |c| == |Numbers(l, lane)| && forall i :: 0 <= i < |c| ==> c[i].0 == Numbers(l, lane)[i]
  {
    match lane
    case InterfaceLane => InterfaceContents(l.interfaces)
    case VolatileLane => MsgContents(l.vol, Volatile)
    case DiscardLane => MsgContents(l.disc, Discard)
    case StoredLane => MsgContents(l.stored, Stored)
  }

  function InterfaceContents(q: seq<InterfaceMsg>): (c: seq<(nat, QueueMsg)>)
    ensures |c| == |q|
    ensures forall i :: 0 <= i < |q| ==> c[i] == (q[i].sequenceNumber, InterfaceChange(q[i].operation, q[i].interface))
  {
    seq(|q|, i requires 0 <= i < |q| => (q[i].sequenceNumber, InterfaceChange(q[i].operation, q[i].interface)))
  }

  function MsgContents(q: seq<Msg>, retention: Retention): (c: seq<(nat, QueueMsg)>)
    ensures |c| == |q|
    ensures forall i :: 0 <= i < |q| ==> c[i] == (q[i].sequenceNumber, PublicationOf(q[i], retention))
  {
    seq(|q|, i requires 0 <= i < |q| => (q[i].sequenceNumber, PublicationOf(q[i], retention)))
  }

  /** A message handed out of a lane. */
  function HandedOut(l: Lanes, lane: Lane): QueueMsg
    requires Numbers(l, lane) != []
  {
    match lane
    case InterfaceLane => InterfaceChange(l.interfaces[0].operation, l.interfaces[0].interface)
    case VolatileLane => PublicationOf(l.vol[0], Volatile)
    case DiscardLane => PublicationOf(l.disc[0], Discard)
    case StoredLane => PublicationOf(l.stored[0], Stored)
  }

  function PublicationOf(m: Msg, retention: Retention): QueueMsg {
    Publication(m.interfaceName, m.path, m.payload, m.qos, retention)
  }

  /** A lane after a message is offered to it. */
  function Put<T>(q: seq<T>, evicts: bool, accepted: bool, m: T): seq<T>
    requires evicts ==> q != []
  {
    (if evicts then q[1..] else q) + (if accepted then [m] else [])
  }

  /** The lanes after a message was offered, with the next number and a time. */
  function Inserted(l: Lanes, msg: QueueMsg, timestamp: U64, evicts: bool, accepted: bool): Lanes
    requires LaneOf(msg).Some? && l.next <= UINT64_MAX && (evicts ==> Numbers(l, LaneOf(msg).value) != [])
  {
    var lane := LaneOf(msg).value;
    match msg
    case InterfaceChange(op, interface) =>
      var m := InterfaceMsg(op, interface, timestamp, l.next);
      l.(interfaces := Put(l.interfaces, evicts, accepted, m), next := l.next + 1)
    case Publication(name, path, payload, qos, _) =>
      var m := Message.Msg(name, path, payload, qos, timestamp, l.next);
      WithMessages(l, lane, Put(MessagesIn(l, lane), evicts, accepted, m)).(next := l.next + 1)
  }

  /** Insertion puts the very message that it was given, under the next number, behind what waits in its lane, less the
      oldest if that is evicted, and leaves all other lanes alone. */
  lemma InsertedContents(l: Lanes, msg: QueueMsg, timestamp: U64, evicts: bool, accepted: bool)
    requires LaneOf(msg).Some? && l.next <= UINT64_MAX && (evicts ==> Numbers(l, LaneOf(msg).value) != [])
    ensures var l', lane := Inserted(l, msg, timestamp, evicts, accepted), LaneOf(msg).value;
      && InLane(l', lane) == (if evicts then InLane(l, lane)[1..] else InLane(l, lane))
                               + (if accepted then [(l.next, msg)] else [])
      && (forall other :: other != lane ==> InLane(l', other) == InLane(l, other))
      && l'.next == l.next + 1
  {
  }

  lemma InsertedOffers(l: Lanes, msg: QueueMsg, timestamp: U64, evicts: bool, accepted: bool)
    requires LaneOf(msg).Some? && l.next <= UINT64_MAX && (evicts ==> Numbers(l, LaneOf(msg).value) != [])
    ensures Offered(l, LaneOf(msg).value, evicts, accepted, Inserted(l, msg, timestamp, evicts, accepted))
  {
    hide Inserted, InLane, Numbers;
    InsertedContents(l, msg, timestamp, evicts, accepted);
    var l', lane := Inserted(l, msg, timestamp, evicts, accepted), LaneOf(msg).value;
    var before, after := InLane(l, lane), InLane(l', lane);
    assert |after| == |Numbers(l', lane)| && |before| == |Numbers(l, lane)|;
    forall other | other != lane
      ensures Numbers(l', other) == Numbers(l, other)
    {
      SameContents(l, l', other);
    }
    assert forall i :: 0 <= i < |after| ==> after[i].0 == Numbers(l', lane)[i];
    assert evicts ==> forall i :: 0 <= i < |before| - 1 ==> before[1..][i].0 == Numbers(l, lane)[1..][i];
  }

  lemma SameContents(l: Lanes, l': Lanes, lane: Lane)
    requires InLane(l', lane) == InLane(l, lane)
    ensures Numbers(l', lane) == Numbers(l, lane)
  {
    hide InLane, Numbers;
    assert forall i :: 0 <= i < |Numbers(l, lane)| ==> InLane(l, lane)[i].0 == Numbers(l, lane)[i];
  }

  /** A lane hands out the first of its messages, and taking the oldest leaves all others. */
  lemma PoppedContents(l: Lanes, lane: Lane)
    requires Numbers(l, lane) != []
    ensures InLane(l, lane)[0] == (Numbers(l, lane)[0], HandedOut(l, lane))
    ensures forall other :: InLane(Popped(l, lane), other)
                        == if other == lane then InLane(l, lane)[1..] else InLane(l, other)
  {
  }

  function MessagesIn(l: Lanes, lane: Lane): seq<Msg>
    requires lane != InterfaceLane
  {
    match lane
    case VolatileLane => l.vol
    case DiscardLane => l.disc
    case StoredLane => l.stored
  }

  function WithMessages(l: Lanes, lane: Lane, q: seq<Msg>): Lanes
    requires lane != InterfaceLane
  {
    match lane
    case VolatileLane => l.(vol := q)
    case DiscardLane => l.(disc := q)
    case StoredLane => l.(stored := q)
  }

  lemma NumberSkipped(l: Lanes, l': Lanes)
    requires Ordered(l) && l' == l.(next := l.next + 1)
    ensures Ordered(l')
  {
    assert forall lane :: Numbers(l', lane) == Numbers(l, lane);
  }

  lemma RebootOrdered(q: seq<Msg>, next: nat)
    requires Increasing(Numbers(Lanes([], [], [], q, 0), StoredLane))
    requires q != [] ==> next == q[|q| - 1].sequenceNumber + 1
    ensures Ordered(Lanes([], [], [], q, next))
    ensures forall m :: m in q ==> m.sequenceNumber < next
  {
    var l := Lanes([], [], [], q, next);
    var n := Numbers(l, StoredLane);
    assert n == Numbers(Lanes([], [], [], q, 0), StoredLane);
    forall i | 0 <= i < |q|
      ensures n[i] < next && q[i].sequenceNumber == n[i]
    {
      assert i < |q| - 1 ==> n[i] < n[|q| - 1];
    }
  }

  /** The front with the smallest number is the oldest message of all. */
  lemma SmallestFrontIsOldest(l: Lanes, lane: Lane)
    requires Ordered(l) && Numbers(l, lane) != []
    requires forall other :: Numbers(l, other) != [] ==> Numbers(l, lane)[0] <= Numbers(l, other)[0]
    ensures OldestIn(l, lane)
  {
    hide Numbers;
    forall other, x | x in Numbers(l, other)
      ensures Numbers(l, lane)[0] <= x
    {
      assert Increasing(Numbers(l, other));
    }
  }

  lemma NumberFits(l: Lanes, lane: Lane)
    requires Ordered(l) && l.next <= UINT64_MAX && Numbers(l, lane) != []
    ensures Numbers(l, lane)[0] < UINT64_MAX
  {
    assert Numbers(l, lane)[0] in Numbers(l, lane);
  }

  /** The oldest message is dropped exactly if there is one and no room for the new one, and the new one is stored exactly
      if there is room for it, before or after that. */
  predicate Stores(maxQuota: nat, usage: nat, stored: nat, q: seq<Msg>, m: Msg, evicts: bool, ok: bool) {
    var size := |Message.Encode(m)|;
    var fits := stored < RANGE && (maxQuota > 0 ==> usage + size <= maxQuota);
    && (evicts <==> !fits && q != [])
    && (ok <==> fits || (q != [] && (maxQuota > 0 ==> Less(usage, |Message.Encode(q[0])|) + size <= maxQuota)))
  }

  /** A bounded message queue in memory. If it is full, its oldest message is taken out to make room. */
  method PutEvicting<T>(q: seq<T>, capacity: nat, m: T) returns (q': seq<T>, evicts: bool)
    requires |q| <= capacity && capacity > 0
    ensures evicts <==> |q| == capacity
    ensures q' == Put(q, evicts, true, m) && |q'| <= capacity
  {
    evicts := |q| == capacity;
    q' := q;
    if evicts {
      q' := q'[1..];
    }
    q' := q' + [m];
  }

  class Queue {
    const ring: Ring
    const capacity: nat
    var interfaces: seq<InterfaceMsg>
    var vol: seq<Msg>
    var disc: seq<Msg>
    var nextSequenceNumber: nat
    var timeValid: bool
    /** The queue in flash could be read when the device started. */
    var initialized: bool

    ghost function View(q: seq<Msg>): Lanes
      reads this
    {
      Lanes(interfaces, vol, disc, q, nextSequenceNumber)
    }

    /** The lanes are in order and fit, and the flash lane holds the messages of `q`. */
    ghost predicate Valid(items: seq<Item>, q: seq<Msg>)
      reads this, ring, ring.kv, ring.kv.flash
    {
      && ring.Holds(items, q)
      && Ordered(View(q)) && nextSequenceNumber <= UINT64_MAX
      && capacity > 0 && |interfaces| <= capacity && |vol| <= capacity && |disc| <= capacity
    }

    /** After a reboot the lanes in memory are empty, the one in flash is as it was, and numbering goes on after the
        newest message in flash. */
    constructor (ring: Ring, capacity: nat, timeValid: bool, ghost items: seq<Item>, ghost head: U32, ghost tail: U32,
                 ghost q: seq<Msg>)
      requires capacity > 0
      requires Opened(ring.kv.flash, items) && Queued(items, ring.kv.ns, head, tail, q)
      requires Increasing(Numbers(Lanes([], [], [], q, 0), StoredLane))
      requires forall m :: m in q ==> m.sequenceNumber < UINT64_MAX
      modifies ring, ring.kv.flash
      ensures this.ring == ring && this.capacity == capacity && this.timeValid == timeValid
      ensures initialized <==> old(Resolve(ring.kv.flash.Home(), ring.kv.flash.Store())).code == Ok
      ensures initialized ==> Valid(items, q)
      ensures interfaces == [] && vol == [] && disc == []
      ensures initialized ==> forall m :: m in q ==> m.sequenceNumber < nextSequenceNumber
      ensures nextSequenceNumber == if initialized && q != [] then q[|q| - 1].sequenceNumber + 1 else 0
    {
      hide Ordered, Steady, Opened, Queued, Numbers, Increasing, Resolve;
      this.ring := ring;
      this.capacity := capacity;
      this.timeValid := timeValid;
      interfaces, vol, disc := [], [], [];
      nextSequenceNumber := 0;
      initialized := false;
      new;
      var code := ring.GetIndexes(items, head, tail, q);
      if code != Ok {
        return;
      }
      initialized := true;
      var last;
      code, last := ring.GetLastSequenceNumber(items, q);
      if code == Ok {
        nextSequenceNumber := last as int + 1;
      }
      RebootOrdered(q, nextSequenceNumber);
    }

    /** Queues a message in the lane of its kind, dropping the lane's oldest message if there is no room. */
    method Insert(msg: QueueMsg, now: U64, ghost items: seq<Item>, ghost q: seq<Msg>)
        returns (ok: bool, ghost evicts: bool, ghost items': seq<Item>, ghost q': seq<Msg>)
      requires Valid(items, q) && nextSequenceNumber < UINT64_MAX
      modifies this`interfaces, this`vol, this`disc, this`nextSequenceNumber, ring, ring.kv`usage, ring.kv.flash
      ensures Valid(items', q')
      ensures LaneOf(msg).None? ==> !ok && View(q') == old(View(q)).(next := old(nextSequenceNumber) + 1)
      ensures LaneOf(msg).Some? ==>
        && (evicts ==> old(Numbers(View(q), LaneOf(msg).value)) != [])
        && View(q') == Inserted(old(View(q)), msg, if timeValid then now else 0, evicts, ok)
      ensures LaneOf(msg).Some? && LaneOf(msg) != Some(StoredLane) ==>
        ok && (evicts <==> |old(Numbers(View(q), LaneOf(msg).value))| == capacity)
      ensures LaneOf(msg) == Some(StoredLane) ==>
        var m := Message.Msg(msg.interfaceName, msg.path, msg.payload, msg.qos, if timeValid then now else 0,
                             old(nextSequenceNumber));
        Stores(ring.kv.maxQuota, old(ring.kv.usage), |items|, q, m, evicts, ok)
    {
      hide Ordered, Offered, Steady, Queued, Stores, InLane;
      ghost var l := View(q);
      var timestamp := if !timeValid then 0 else now;
      var seqNum := nextSequenceNumber;
      nextSequenceNumber := nextSequenceNumber + 1;
      items', q' := items, q;
      ok := true;
      match msg {
        case InterfaceChange(op, interface) =>
          var m := InterfaceMsg(op, interface, timestamp, seqNum);
          var full;
          interfaces, full := PutEvicting(interfaces, capacity, m);
          evicts := full;
        case Publication(name, path, payload, qos, retention) =>
          var m := Message.Msg(name, path, payload, qos, timestamp, seqNum);
          if retention == Discard {
            var full;
            disc, full := PutEvicting(disc, capacity, m);
            evicts := full;
          } else if retention == Volatile {
            var full;
            vol, full := PutEvicting(vol, capacity, m);
            evicts := full;
          } else if retention == Stored {
            ok, evicts, items', q' := InsertStored(m, items, q);
          } else {
            NumberSkipped(l, View(q'));
            evicts := false;
            return false, evicts, items', q';
          }
      }
      InsertedOffers(l, msg, timestamp, evicts, ok);
      OfferedOrdered(l, LaneOf(msg).value, evicts, ok, View(q'));
    }

    /** Stores a message in flash. If there is no room the oldest stored message is dropped, and storing is tried again. */
    method InsertStored(m: Msg, ghost items: seq<Item>, ghost q: seq<Msg>)
        returns (ok: bool, ghost evicts: bool, ghost items': seq<Item>, ghost q': seq<Msg>)
      requires ring.Holds(items, q)
      modifies ring, ring.kv`usage, ring.kv.flash
      ensures ring.Holds(items', q')
      ensures evicts ==> q != []
      ensures q' == Put(q, evicts, ok, m)
      ensures Stores(ring.kv.maxQuota, old(ring.kv.usage), |items|, q, m, evicts, ok)
    {
      hide Steady, Queued, KvOperations.Outcome, Message.Encode, PushOp, DiscardOp;
      ItemsFit(ring.kv.flash, items);
      ghost var head := ring.head;
      q', evicts := q, false;
      var code;
      code, items' := ring.Push(m, items, q);
      if code == Ok {
        return true, evicts, items', q + [m];
      }
      var dropped;
      dropped, items' := ring.Discard(items', q);
      if dropped == Ok {
        evicts := true;
        q' := q[1..];
        HeadRemoved(items, ring.kv.ns, head, ring.tail, q);
        code, items' := ring.Push(m, items', q');
        if code == Ok {
          q' := q' + [m];
        }
      }
      return code == Ok, evicts, items', q';
    }

    /** Hands out the oldest message of all four lanes and leaves it in its lane. */
    method Peek(ghost items: seq<Item>, ghost q: seq<Msg>) returns (code: Code, msg: QueueMsg, ghost lane: Lane)
      requires Valid(items, q)
      modifies ring.kv.flash
      ensures Valid(items, q)
      ensures code == Ok ==> OldestIn(View(q), lane) && msg == HandedOut(View(q), lane) && LaneOf(msg) == Some(lane)
      ensures code == Full <==> q == [] && |items| >= RANGE
      ensures code != Full ==> code == if Empty(View(q)) then NotFound else Ok
    {
      hide Ordered, Steady, Queued, OldestIn;
      msg := InterfaceChange(AddInterface, []);
      lane := InterfaceLane;
      ghost var l := View(q);
      var storedCode, stored := ring.Peek(items, q);
      if storedCode != Ok && storedCode != NotFound {
        return storedCode, msg, lane;
      }
      FrontsFit(l);
      var volSeq := if vol != [] then vol[0].sequenceNumber else UINT64_MAX;
      var discSeq := if disc != [] then disc[0].sequenceNumber else UINT64_MAX;
      var interfaceSeq := if interfaces != [] then interfaces[0].sequenceNumber else UINT64_MAX;
      var storedSeq := if storedCode == Ok then stored.sequenceNumber else UINT64_MAX;
      var minSeq := interfaceSeq;
      if volSeq < minSeq {
        minSeq := volSeq;
      }
      if discSeq < minSeq {
        minSeq := discSeq;
      }
      if storedSeq < minSeq {
        minSeq := storedSeq;
      }
      if minSeq == UINT64_MAX {
        return NotFound, msg, lane;
      }
      if minSeq == interfaceSeq {
        lane := InterfaceLane;
        msg := InterfaceChange(interfaces[0].operation, interfaces[0].interface);
      } else if minSeq == volSeq {
        lane := VolatileLane;
        msg := PublicationOf(vol[0], Volatile);
      } else if minSeq == discSeq {
        lane := DiscardLane;
        msg := PublicationOf(disc[0], Discard);
      } else {
        lane := StoredLane;
        msg := PublicationOf(stored, Stored);
      }
      SmallestFrontIsOldest(l, lane);
      return Ok, msg, lane;
    }

    /** Removes the oldest message of the lane with this retention. */
    method DiscardByRetention(retention: Retention, ghost items: seq<Item>, ghost q: seq<Msg>)
        returns (code: Code, ghost items': seq<Item>, ghost q': seq<Msg>)
      requires Valid(items, q)
      modifies this`vol, this`disc, ring`head, ring.kv`usage, ring.kv.flash
      ensures Valid(items', q')
      ensures retention == Unknown ==> code == InvalidParam && View(q') == old(View(q))
      ensures retention != Unknown ==>
        var lane := if retention == Volatile then VolatileLane else if retention == Discard then DiscardLane else StoredLane;
        if old(Numbers(View(q), lane)) != [] then code == Ok && View(q') == Popped(old(View(q)), lane)
        else code == (if lane == StoredLane && |items| >= RANGE then Full else NotFound) && View(q') == old(View(q))
    {
      hide Ordered, Steady, Queued, KvOperations.Outcome, DiscardOp, Message.Encode;
      ghost var l := View(q);
      items', q' := items, q;
      if retention == Volatile {
        if vol != [] {
          vol := vol[1..];
          PoppedOrdered(l, VolatileLane);
          return Ok, items', q';
        }
        return NotFound, items', q';
      }
      if retention == Discard {
        if disc != [] {
          disc := disc[1..];
          PoppedOrdered(l, DiscardLane);
          return Ok, items', q';
        }
        return NotFound, items', q';
      }
      if retention == Stored {
        code, items' := ring.Discard(items, q);
        if code == Ok {
          q' := q[1..];
          PoppedOrdered(l, StoredLane);
        }
        return code, items', q';
      }
      return InvalidParam, items', q';
    }

    method DiscardInterface(ghost items: seq<Item>, ghost q: seq<Msg>) returns (code: Code)
      requires Valid(items, q)
      modifies this`interfaces
      ensures Valid(items, q)
      ensures if old(Numbers(View(q), InterfaceLane)) != [] then code == Ok && View(q) == Popped(old(View(q)), InterfaceLane)
              else code == NotFound && View(q) == old(View(q))
    {
      hide Ordered, Steady, Queued;
      ghost var l := View(q);
      if interfaces != [] {
        interfaces := interfaces[1..];
        PoppedOrdered(l, InterfaceLane);
        return Ok;
      }
      return NotFound;
    }
  }

  lemma FrontsFit(l: Lanes)
    requires Ordered(l) && l.next <= UINT64_MAX
    ensures forall lane :: Numbers(l, lane) != [] ==> Numbers(l, lane)[0] < UINT64_MAX
  {
    forall lane | Numbers(l, lane) != []
      ensures Numbers(l, lane)[0] < UINT64_MAX
    {
      NumberFits(l, lane);
    }
  }
}
