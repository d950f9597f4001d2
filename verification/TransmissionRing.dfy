/** The persistent queue of outgoing messages, kept in a namespace of the key-value storage under consecutive
    decimal keys. */
module TransmissionRing {
  import opened Bytes
  import opened SlotIds
  import opened EntryHash
  import opened KvStore
  import opened KvPrograms
  import opened KvList
  import opened KvOperations
  import opened KvQuota
  import opened KvFlash
  import opened KvShift
  import opened KvCrash
  import opened Buffers
  import opened KeyValueStorage
  import opened RingIndexes
  import Decimals
  import Message = TransmissionMsg

  type Msg = Message.Msg

  // ---- the part of the store that belongs to one namespace

  /** Room for a decimal key and its terminator. */
  const MAX_UINT32_STR_LEN := 11

  function OfNamespace(items: seq<Item>, ns: Name): seq<Item> {
    if items == [] then []
    else (if items[0].key.ns == ns then [items[0]] else []) + OfNamespace(items[1..], ns)
  }

  lemma {:induction false} OfNamespaceConcat(a: seq<Item>, b: seq<Item>, ns: Name)
    ensures OfNamespace(a + b, ns) == OfNamespace(a, ns) + OfNamespace(b, ns)
  {
    if a == [] {
      assert a + b == b;
    } else {
      assert (a + b)[1..] == a[1..] + b && (a + b)[0] == a[0];
      OfNamespaceConcat(a[1..], b, ns);
      var first := if a[0].key.ns == ns then [a[0]] else [];
      assert first + (OfNamespace(a[1..], ns) + OfNamespace(b, ns)) == first + OfNamespace(a[1..], ns) + OfNamespace(b, ns);
    }
  }

  lemma OfNamespaceSplit(items: seq<Item>, i: nat, ns: Name)
    requires i < |items|
    ensures OfNamespace(items, ns)
         == OfNamespace(items[..i], ns) + (if items[i].key.ns == ns then [items[i]] else []) + OfNamespace(items[i + 1..], ns)
  {
    assert items == items[..i] + ([items[i]] + items[i + 1..]);
    OfNamespaceConcat(items[..i], [items[i]] + items[i + 1..], ns);
    OfNamespaceConcat([items[i]], items[i + 1..], ns);
    assert OfNamespace([items[i]], ns) == if items[i].key.ns == ns then [items[i]] else [];
  }

  lemma {:induction false} InNamespace(items: seq<Item>, ns: Name, item: Item)
    ensures item in OfNamespace(items, ns) <==> item in items && item.key.ns == ns
    ensures |OfNamespace(items, ns)| <= |items|
  {
    if items != [] {
      InNamespace(items[1..], ns, item);
      assert item in items <==> item == items[0] || item in items[1..];
    }
  }

  // ---- how a queue of messages is stored

  function EntryOf(ns: Name, head: U32, q: seq<Msg>, i: nat): Item
    requires i < |q|
  {
    Item(Key(ns, Message.KeyOf(Wrapped(head, i))), Message.Encode(q[i]))
  }

  function Entries(ns: Name, head: U32, q: seq<Msg>): (e: seq<Item>)
    ensures |e| == |q|
    ensures forall i :: 0 <= i < |q| ==> e[i] == EntryOf(ns, head, q, i)
  {
    seq(|q|, i requires 0 <= i < |q| => EntryOf(ns, head, q, i))
  }

  /** The namespace holds exactly the messages of `q`, under the consecutive keys from `head` to `tail`. */
  ghost predicate Queued(items: seq<Item>, ns: Name, head: U32, tail: U32, q: seq<Msg>) {
    && |q| < TWO32
    && tail == Wrapped(head, |q| + TWO32 - 1)
    && OfNamespace(items, ns) == Entries(ns, head, q)
  }

  lemma WrappedDiffers(head: U32, i: nat, j: nat)
    requires i < j < i + TWO32
    ensures Wrapped(head, i) != Wrapped(head, j)
  {
  }

  lemma WrappedAdds(head: U32, i: nat, j: nat)
    ensures Wrapped(Wrapped(head, i), j) == Wrapped(head, i + j)
  {
  }

  /** All the way round is where it started. */
  lemma WrappedTurns(head: U32, i: nat)
    ensures Wrapped(head, i + TWO32) == Wrapped(head, i)
  {
  }

  lemma KeysDiffer(a: U32, b: U32)
    requires a != b
    ensures Message.KeyOf(a) != Message.KeyOf(b)
  {
    Message.KeyRoundTrip(a);
    Message.KeyRoundTrip(b);
  }

  /** The key of the next message is not in the store yet. */
  lemma NextKeyIsNew(items: seq<Item>, ns: Name, head: U32, tail: U32, q: seq<Msg>)
    requires Queued(items, ns, head, tail, q)
    ensures Wrapped(tail, 1) == Wrapped(head, |q|)
    ensures Position(items, Key(ns, Message.KeyOf(Wrapped(tail, 1)))) == |items|
  {
    hide Position, OfNamespace, Message.KeyOf, Wrapped;
    WrappedAdds(head, |q| + TWO32 - 1, 1);
    WrappedTurns(head, |q|);
    var k := Key(ns, Message.KeyOf(Wrapped(head, |q|)));
    var p := Position(items, k);
    if p < |items| {
      InNamespace(items, ns, items[p]);
      var i :| 0 <= i < |q| && Entries(ns, head, q)[i] == items[p];
      WrappedDiffers(head, i, |q|);
      KeysDiffer(Wrapped(head, i), Wrapped(head, |q|));
    }
  }

  lemma PushQueues(items: seq<Item>, ns: Name, head: U32, tail: U32, q: seq<Msg>, m: Msg)
    requires Queued(items, ns, head, tail, q) && |q| + 1 < TWO32
    ensures Queued(Outcome(items, Put(Key(ns, Message.KeyOf(Wrapped(tail, 1))), Message.Encode(m))), ns, head,
                   Wrapped(tail, 1), q + [m])
  {
    hide Position, OfNamespace, Message.KeyOf, Message.Encode, Wrapped;
    NextKeyIsNew(items, ns, head, tail, q);
    var item := Item(Key(ns, Message.KeyOf(Wrapped(tail, 1))), Message.Encode(m));
    OfNamespaceConcat(items, [item], ns);
    OneOfNamespace(item, ns);
    assert Entries(ns, head, q + [m]) == Entries(ns, head, q) + [item];
    WrappedTurns(head, |q|);
  }

  lemma OneOfNamespace(item: Item, ns: Name)
    ensures OfNamespace([item], ns) == if item.key.ns == ns then [item] else []
  {
  }

  /** The entry of the oldest message is where probing by its key leads. */
  lemma HeadIsStored(items: seq<Item>, ns: Name, head: U32, tail: U32, q: seq<Msg>)
    requires Queued(items, ns, head, tail, q)
    ensures var p := Position(items, Key(ns, Message.KeyOf(head)));
      if q == [] then p == |items|
      else p < |items| && items[p] == EntryOf(ns, head, q, 0) && OfNamespace(items[..p], ns) == []
  {
    hide Position, OfNamespace, Message.KeyOf;
    assert Wrapped(head, 0) == head;
    var k := Key(ns, Message.KeyOf(head));
    var p := Position(items, k);
    if q == [] {
      if p < |items| {
        InNamespace(items, ns, items[p]);
      }
    } else {
      InNamespace(items, ns, EntryOf(ns, head, q, 0));
      assert EntryOf(ns, head, q, 0) == Entries(ns, head, q)[0];
      assert p < |items|;
      OfNamespaceSplit(items, p, ns);
      var front := OfNamespace(items[..p], ns);
      if front != [] {
        assert front[0] == Entries(ns, head, q)[0];
        InNamespace(items[..p], ns, front[0]);
      }
    }
  }

  lemma PopQueues(items: seq<Item>, ns: Name, head: U32, tail: U32, q: seq<Msg>)
    requires Queued(items, ns, head, tail, q) && q != []
    ensures Queued(Outcome(items, Remove(Key(ns, Message.KeyOf(head)))), ns, Wrapped(head, 1), tail, q[1..])
  {
    hide Position, OfNamespace, Message.KeyOf, Message.Encode;
    HeadIsStored(items, ns, head, tail, q);
    var p := Position(items, Key(ns, Message.KeyOf(head)));
    OfNamespaceSplit(items, p, ns);
    OfNamespaceConcat(items[..p], items[p + 1..], ns);
    WrappedAdds(head, 1, |q| - 1 + TWO32 - 1);
    forall i | 0 <= i < |q| - 1
      ensures Entries(ns, Wrapped(head, 1), q[1..])[i] == Entries(ns, head, q)[i + 1]
    {
      WrappedAdds(head, 1, i);
    }
    assert Entries(ns, Wrapped(head, 1), q[1..]) == Entries(ns, head, q)[1..];
  }

  // ---- the table bounds the number of messages

  lemma ItemsFit(flash: Flash, items: seq<Item>)
    requires Steady(flash, items)
    ensures |items| <= RANGE
  {
    var order := MeaningOf(flash.Store(), items);
    DistinctFit(order, MIN_ID, MAX_ID + 1);
  }

  lemma QueueFits(flash: Flash, items: seq<Item>, ns: Name, head: U32, tail: U32, q: seq<Msg>)
    requires Steady(flash, items) && Queued(items, ns, head, tail, q)
    ensures |q| + 1 < TWO32
  {
    ItemsFit(flash, items);
    InNamespace(items, ns, Item(Key([], []), []));
  }

  /** The put that a push performs, and the removal that a discard performs. */
  function PushOp(ns: Name, tail: U32, m: Msg): Op {
    Put(Key(ns, Message.KeyOf(Wrapped(tail, 1))), Message.Encode(m))
  }

  function DiscardOp(ns: Name, head: U32): Op {
    Remove(Key(ns, Message.KeyOf(head)))
  }

  lemma SteadyResolves(flash: Flash, items: seq<Item>)
    requires Steady(flash, items)
    ensures Opened(flash, items) && Resolve(flash.Home(), flash.Store()) == Nothing(Ok)
    ensures Resolved(flash.Home(), flash.Store()) == flash.Store()
  {
    hide Steady, Opened, Resolve;
    SteadyIsOpened(flash, items);
  }

  lemma EntryOfHead(ns: Name, head: U32, q: seq<Msg>)
    requires q != []
    ensures EntryOf(ns, head, q, 0).value == Message.Encode(q[0])
  {
  }

  /** Removing the oldest message makes room for one. */
  lemma HeadRemoved(items: seq<Item>, ns: Name, head: U32, tail: U32, q: seq<Msg>)
    requires Queued(items, ns, head, tail, q) && q != []
    ensures |Outcome(items, DiscardOp(ns, head))| == |items| - 1
  {
    hide Position, Queued, Message.KeyOf;
    HeadIsStored(items, ns, head, tail, q);
  }

  lemma StoredKeyCosts(items: seq<Item>, k: Key)
    ensures OldSize(items, k) == if Position(items, k) < |items| then |items[Position(items, k)].value| else 0
  {
    hide Position;
  }

  lemma NewKeyCosts(usage: nat, items: seq<Item>, k: Key, size: nat)
    requires Position(items, k) == |items|
    ensures OldSize(items, k) == 0 && Synced(usage, items, k) == usage && Projected(usage, items, k, size) == usage + size
  {
    hide Position;
  }

  class Ring {
    const kv: KeyValue
    var head: U32
    var tail: U32

    constructor (kv: KeyValue)
      ensures this.kv == kv && head == 1 && tail == 0
    {
      this.kv := kv;
      head, tail := 1, 0;
    }

    /** The store holds these items, and among them the messages of `q`, oldest first. */
    ghost predicate Holds(items: seq<Item>, q: seq<Msg>)
      reads this, kv, kv.flash
    {
      Steady(kv.flash, items) && Queued(items, kv.ns, head, tail, q)
    }

    /** Appends a message, if and only if there is a free slot and the quota allows it; otherwise the queue stays. */
    method Push(m: Msg, ghost items: seq<Item>, ghost q: seq<Msg>) returns (code: Code, ghost items': seq<Item>)
      requires Holds(items, q)
      modifies this`tail, kv`usage, kv.flash
      ensures Holds(items', if code == Ok then q + [m] else q)
      ensures code == Ok || code == Full || code == OutOfSpace
      ensures code == Full <==> |items| >= RANGE
      ensures code == OutOfSpace <==>
        |items| < RANGE && kv.maxQuota > 0 && old(kv.usage) + |Message.Encode(m)| > kv.maxQuota
      ensures items' == if code == Ok then Outcome(items, PushOp(kv.ns, old(tail), m)) else items
      ensures kv.usage == if code == Ok && kv.maxQuota > 0 then old(kv.usage) + |Message.Encode(m)| else old(kv.usage)
      ensures kv.flash.log == old(kv.flash.log)
        + if code == Ok then Execute(kv.flash.Home(), old(kv.flash.Store()), PushOp(kv.ns, old(tail), m)).log else []
      ensures SameElsewhere(old(kv.flash.data), kv.flash.data)
    {
      hide Queued, Steady, Opened, Outcome, Position, Message.Encode, Message.KeyOf, Execute, Resolve, Resolved,
        Wrapped, OfNamespace, SameElsewhere;
      SteadyResolves(kv.flash, items);
      QueueFits(kv.flash, items, kv.ns, head, tail, q);
      NextKeyIsNew(items, kv.ns, head, tail, q);
      NewKeyCosts(kv.usage, items, Key(kv.ns, Message.KeyOf(Wrapped(tail, 1))), |Message.Encode(m)|);
      var buffer := Message.Serialize(m);
      var key := Message.KeyOf(Wrapped(tail, 1));
      code := kv.Insert(key, buffer[..], items);
      if code != Ok {
        return code, items;
      }
      PushQueues(items, kv.ns, head, tail, q, m);
      items' := Outcome(items, Put(Key(kv.ns, key), Message.Encode(m)));
      tail := Wrapped(tail, 1);
    }

    /** Reads the oldest message. */
    method Peek(ghost items: seq<Item>, ghost q: seq<Msg>) returns (code: Code, m: Msg)
      requires Holds(items, q)
      modifies kv.flash
      ensures Holds(items, q)
      ensures if q == [] then code == (if |items| >= RANGE then Full else NotFound) else code == Ok && m == q[0]
      ensures SameElsewhere(old(kv.flash.data), kv.flash.data)
    {
      hide Queued, Steady, Position, Message.Encode, Message.KeyOf, OfNamespace, SameElsewhere;
      m := Message.Msg([], [], [], 0, 0, 0);
      SteadyIsOpened(kv.flash, items);
      HeadIsStored(items, kv.ns, head, tail, q);
      HeadKey(head);
      var key := Message.KeyOf(head);
      var size;
      code, size := kv.FindSize(key, items);
      if code != Ok {
        return;
      }
      SteadyIsOpened(kv.flash, items);
      ghost var sized := kv.flash.data;
      var buffer;
      code, buffer := kv.Find(key, size, items);
      SameTrans(old(kv.flash.data), sized, kv.flash.data);
      code, m := Message.Decode(buffer);
      Message.EncodeIsPrefixFree(q[0], m, buffer);
    }

    /** Reads and removes the oldest message. */
    method Get(ghost items: seq<Item>, ghost q: seq<Msg>) returns (code: Code, m: Msg, ghost items': seq<Item>)
      requires Holds(items, q)
      modifies this`head, kv`usage, kv.flash
      ensures if q == [] then code == (if |items| >= RANGE then Full else NotFound) && items' == items && Holds(items, [])
              else code == Ok && m == q[0] && Holds(items', q[1..]) && items' == Outcome(items, DiscardOp(kv.ns, old(head)))
      ensures kv.usage == if q != [] && kv.maxQuota > 0 then Less(old(kv.usage), |Message.Encode(q[0])|) else old(kv.usage)
      ensures SameElsewhere(old(kv.flash.data), kv.flash.data)
    {
      hide Queued, Steady, Position, Message.Encode, Message.KeyOf, OfNamespace, Outcome, SameElsewhere;
      code, m := Peek(items, q);
      if code != Ok {
        return code, m, items;
      }
      ghost var peeked := kv.flash.data;
      code, items' := Discard(items, q);
      SameTrans(old(kv.flash.data), peeked, kv.flash.data);
    }

    /** Removes the oldest message. */
    method Discard(ghost items: seq<Item>, ghost q: seq<Msg>) returns (code: Code, ghost items': seq<Item>)
      requires Holds(items, q)
      modifies this`head, kv`usage, kv.flash
      ensures if q == [] then code == (if |items| >= RANGE then Full else NotFound) && items' == items && Holds(items, [])
              else code == Ok && Holds(items', q[1..]) && items' == Outcome(items, DiscardOp(kv.ns, old(head)))
      ensures kv.usage == if q != [] && kv.maxQuota > 0 then Less(old(kv.usage), |Message.Encode(q[0])|) else old(kv.usage)
      ensures kv.flash.log == old(kv.flash.log)
        + if code == Ok then Execute(kv.flash.Home(), old(kv.flash.Store()), DiscardOp(kv.ns, old(head))).log else []
      ensures SameElsewhere(old(kv.flash.data), kv.flash.data)
    {
      hide Queued, Steady, Opened, Position, Message.Encode, Message.KeyOf, OfNamespace, Outcome, Wrapped, EntryOf,
        Resolve, Resolved, Execute, SameElsewhere;
      SteadyResolves(kv.flash, items);
      HeadIsStored(items, kv.ns, head, tail, q);
      var key := Message.KeyOf(head);
      StoredKeyCosts(items, Key(kv.ns, key));
      if q != [] { EntryOfHead(kv.ns, head, q); }
      OutcomeOfAbsent(items, Key(kv.ns, key));
      items' := Outcome(items, Remove(Key(kv.ns, key)));
      code := kv.Delete(key, items);
      if code == Ok {
        PopQueues(items, kv.ns, head, tail, q);
        head := Wrapped(head, 1);
      }
    }

    /** Visits every stored key of the namespace once, in list order. */
    method MeasureIds(ghost items: seq<Item>, ghost oldHead: U32, ghost oldTail: U32, ghost q: seq<Msg>)
        returns (code: Code, count: U32, minId: U32, maxId: U32, sumId: U64)
      requires Opened(kv.flash, items) && Queued(items, kv.ns, oldHead, oldTail, q)
      modifies kv.flash
      ensures code == if old(Resolve(kv.flash.Home(), kv.flash.Store())).code == Ok then Ok else RecoveryFailed
      ensures code == Ok ==>
        Steady(kv.flash, items) && count == |q| && |q| + 1 < TWO32 && Measured(oldHead, count, minId, maxId, sumId)
      ensures SameElsewhere(old(kv.flash.data), kv.flash.data)
    {
      hide Queued, Steady, AtPosition, Message.KeyOf, Decimals.Parse, Message.Encode, NextMatch, NoMatch, Measured,
        Scanned, EntryOf, Wrapped, WellFormedImage, KvFlash.Decode, Stands, Opened, Resolve, SameElsewhere;
      minId, maxId, sumId, count := TWO32 - 1, 0, 0, 0;
      ghost var order := FirstStanding(kv.flash, items);
      var iter := new Iterator(kv);
      ghost var pos := -1;
      code, pos := iter.Next(items, order, pos);
      if code == RecoveryFailed {
        return;
      }
      PositionIsSteady(kv.flash, items, order, pos, iter.currentId);
      QueueFits(kv.flash, items, kv.ns, oldHead, oldTail, q);
      ScanStarts(items, kv.ns, pos, code == Ok, oldHead, q);
      while code == Ok
        invariant SameElsewhere(old(kv.flash.data), kv.flash.data)
        invariant AtPosition(kv.flash, items, order, pos, iter.currentId)
        invariant Scanned(items, kv.ns, if code == Ok then pos else |items|, oldHead, q, count)
        invariant code == Ok ==> 0 <= pos < |items| && items[pos].key.ns == kv.ns
        invariant Measured(oldHead, count, minId, maxId, sumId)
        decreases if code == Ok then |items| - pos else -1
      {
        ghost var before := kv.flash.data;
        PositionStands(kv.flash, items, order, pos, iter.currentId);
        ScanMeets(items, kv.ns, pos, oldHead, oldTail, q, count);
        var got, key, size := iter.Get(Room(MAX_UINT32_STR_LEN), items, order, pos);
        MeasuresGrow(oldHead, count, minId, maxId, sumId);
        var currentId: U32 := Decimals.Parse(key[..size - 1]);
        minId := if currentId < minId then currentId else minId;
        maxId := if currentId > maxId then currentId else maxId;
        sumId := sumId + currentId;
        count := count + 1;
        SameTrans(old(kv.flash.data), before, kv.flash.data);
        ghost var p, read := pos, kv.flash.data;
        PositionStands(kv.flash, items, order, pos, iter.currentId);
        code, pos := iter.Next(items, order, pos);
        SameTrans(old(kv.flash.data), read, kv.flash.data);
        ScanAdvances(items, kv.ns, p, pos, code == Ok, oldHead, oldTail, q, count - 1);
      }
      ScanEnds(items, kv.ns, oldHead, oldTail, q, count);
      PositionIsSteady(kv.flash, items, order, pos, iter.currentId);
      code := Ok;
    }

    /** Recomputes head and tail after a reboot, from whatever order the stored keys come in; a pending operation is
        recovered first. */
    method GetIndexes(ghost items: seq<Item>, ghost oldHead: U32, ghost oldTail: U32, ghost q: seq<Msg>)
        returns (code: Code)
      requires Opened(kv.flash, items) && Queued(items, kv.ns, oldHead, oldTail, q)
      modifies this, kv.flash
      ensures code == if old(Resolve(kv.flash.Home(), kv.flash.Store())).code == Ok then Ok else RecoveryFailed
      ensures code == Ok ==>
        && Holds(items, q)
        && (q != [] ==> head == oldHead && tail == oldTail)
        && (q == [] ==> head == 1 && tail == 0)
      ensures SameElsewhere(old(kv.flash.data), kv.flash.data)
    {
      hide Queued, Steady, Opened, Measured, Recover, WrapArguments, Wrapped, Resolve, SameElsewhere;
      QueuedAgain(items, kv.ns, oldHead, oldTail, q);
      var count, minId, maxId, sumId;
      code, count, minId, maxId, sumId := MeasureIds(items, oldHead, oldTail, q);
      if code != Ok {
        return;
      }
      if count > 0 {
        MeasuresRecover(oldHead, count, minId, maxId, sumId);
        var indexes := Recover(minId, maxId, sumId, count);
        head, tail := indexes.head, indexes.tail;
      } else {
        head, tail := 1, 0;
      }
    }

    /** The sequence number of the newest message. */
    method GetLastSequenceNumber(ghost items: seq<Item>, ghost q: seq<Msg>) returns (code: Code, sequenceNumber: U64)
      requires Holds(items, q)
      modifies kv.flash
      ensures Holds(items, q)
      ensures if q == [] then code == NotFound else code == Ok && sequenceNumber == q[|q| - 1].sequenceNumber
      ensures SameElsewhere(old(kv.flash.data), kv.flash.data)
    {
      hide Queued, Steady, Opened, Position, Message.Encode, Message.KeyOf, OfNamespace, Wrapped, Resolve,
        SameElsewhere;
      sequenceNumber := 0;
      SameRefl(kv.flash.data);
      EmptyIndexes(items, kv.ns, head, tail, q);
      if head == Wrapped(tail, 1) {
        return NotFound, sequenceNumber;
      }
      SteadyIsOpened(kv.flash, items);
      TailIsStored(items, kv.ns, head, tail, q);
      var key := Message.KeyOf(tail);
      var size;
      code, size := kv.FindSize(key, items);
      SteadyIsOpened(kv.flash, items);
      ghost var sized := kv.flash.data;
      var buffer;
      code, buffer := kv.Find(key, size, items);
      EncodedSequenceNumber(q[|q| - 1]);
      SameTrans(old(kv.flash.data), sized, kv.flash.data);
      sequenceNumber := Get64(buffer, 12);
    }
  }

  lemma HeadKey(head: U32)
    ensures Wrapped(head, 0) == head
  {
  }

  lemma OutcomeOfAbsent(items: seq<Item>, k: Key)
    ensures Position(items, k) == |items| ==> Outcome(items, Remove(k)) == items
  {
  }

  lemma EncodedSequenceNumber(m: Msg)
    ensures |Message.Encode(m)| >= Message.STATIC_BYTES && Get64(Message.Encode(m), 12) == m.sequenceNumber
  {
    var b := Message.Encode(m);
    assert b[..Message.STATIC_BYTES] == Message.Static(m);
    Message.StaticFields(b, m);
  }

  /** The indexes tell an empty queue from a non-empty one. */
  lemma EmptyIndexes(items: seq<Item>, ns: Name, head: U32, tail: U32, q: seq<Msg>)
    requires Queued(items, ns, head, tail, q)
    ensures head == Wrapped(tail, 1) <==> q == []
  {
    hide Wrapped;
    WrappedAdds(head, |q| + TWO32 - 1, 1);
    WrappedTurns(head, |q|);
    HeadKey(head);
    if q != [] {
      WrappedDiffers(head, 0, |q|);
    }
  }

  lemma TailIsStored(items: seq<Item>, ns: Name, head: U32, tail: U32, q: seq<Msg>)
    requires Queued(items, ns, head, tail, q) && q != []
    ensures var p := Position(items, Key(ns, Message.KeyOf(tail)));
      p < |items| && items[p].value == Message.Encode(q[|q| - 1])
  {
    hide Position, OfNamespace, Message.KeyOf, Message.Encode, Wrapped;
    var n := |q| - 1;
    WrappedTurns(head, n);
    var k := Key(ns, Message.KeyOf(tail));
    assert EntryOf(ns, head, q, n) == Entries(ns, head, q)[n];
    InNamespace(items, ns, EntryOf(ns, head, q, n));
    var j :| 0 <= j < |items| && items[j] == EntryOf(ns, head, q, n);
    assert items[j].key == k;
    var p := Position(items, k);
    InNamespace(items, ns, items[p]);
    var i :| 0 <= i < |q| && Entries(ns, head, q)[i] == items[p];
    if i != n {
      WrappedDiffers(head, i, n);
      KeysDiffer(Wrapped(head, i), Wrapped(head, n));
    }
  }

  // ---- the scan over the stored keys

  /** The first `n` items contain exactly the first `count` messages of the queue. */
  ghost predicate Scanned(items: seq<Item>, ns: Name, n: int, head: U32, q: seq<Msg>, count: nat) {
    && 0 <= n <= |items| && count <= |q|
    && |OfNamespace(items[..n], ns)| == count
  }

  lemma {:induction false} SkipOthers(items: seq<Item>, ns: Name, a: nat, b: nat)
    requires a <= b <= |items| && forall x :: a <= x < b ==> items[x].key.ns != ns
    ensures OfNamespace(items[..b], ns) == OfNamespace(items[..a], ns)
  {
    if a < b {
      SkipOthers(items, ns, a, b - 1);
      assert items[..b] == items[..b - 1] + [items[b - 1]];
      OfNamespaceConcat(items[..b - 1], [items[b - 1]], ns);
    }
  }

  lemma ScanStarts(items: seq<Item>, ns: Name, j: int, found: bool, head: U32, q: seq<Msg>)
    requires if found then NextMatch(items, ns, -1, j) else NoMatch(items, ns, -1)
    ensures found ==> 0 <= j < |items| && items[j].key.ns == ns
    ensures Scanned(items, ns, if found then j else |items|, head, q, 0)
    ensures Measured(head, 0, TWO32 - 1, 0, 0)
  {
    SkipOthers(items, ns, 0, if found then j else |items|);
    assert items[..0] == [];
  }

  /** The entry the iterator stands at is the next message of the queue. */
  lemma ScanMeets(items: seq<Item>, ns: Name, pos: nat, head: U32, tail: U32, q: seq<Msg>, count: nat)
    requires Queued(items, ns, head, tail, q) && pos < |items| && items[pos].key.ns == ns
    requires Scanned(items, ns, pos, head, q, count)
    ensures count < |q| && items[pos] == EntryOf(ns, head, q, count)
    ensures |items[pos].key.name| + 1 == MAX_UINT32_STR_LEN
    ensures Decimals.Parse(items[pos].key.name) == Wrapped(head, count)
  {
    hide OfNamespace, Message.KeyOf, Message.Encode, Decimals.Parse;
    OfNamespaceSplit(items, pos, ns);
    assert OfNamespace(items, ns)[count] == items[pos];
    Message.KeyRoundTrip(Wrapped(head, count));
  }

  lemma ScanAdvances(items: seq<Item>, ns: Name, pos: nat, j: int, found: bool, head: U32, tail: U32, q: seq<Msg>,
                     count: nat)
    requires Queued(items, ns, head, tail, q) && pos < |items| && items[pos].key.ns == ns
    requires Scanned(items, ns, pos, head, q, count) && count < |q|
    requires if found then NextMatch(items, ns, pos, j) else NoMatch(items, ns, pos)
    ensures found ==> pos < j < |items| && items[j].key.ns == ns
    ensures Scanned(items, ns, if found then j else |items|, head, q, count + 1)
  {
    hide OfNamespace;
    assert items[..pos + 1] == items[..pos] + [items[pos]];
    OfNamespaceConcat(items[..pos], [items[pos]], ns);
    OneOfNamespace(items[pos], ns);
    SkipOthers(items, ns, pos + 1, if found then j else |items|);
  }

  lemma ScanEnds(items: seq<Item>, ns: Name, head: U32, tail: U32, q: seq<Msg>, count: nat)
    requires Queued(items, ns, head, tail, q) && Scanned(items, ns, |items|, head, q, count)
    ensures count == |q|
  {
    assert items[..|items|] == items;
  }

  /** Minimum, maximum and sum of the first `n` identifiers of the ring. */
  ghost predicate Measured(head: U32, n: nat, minId: U32, maxId: U32, sumId: U64) {
    var ids := RingIds(head, n);
    minId == MinOf(ids) && maxId == MaxOf(ids) && sumId == SumOf(ids)
  }

  lemma MeasuresGrow(head: U32, n: nat, minId: U32, maxId: U32, sumId: U64)
    requires n + 1 < TWO32 && Measured(head, n, minId, maxId, sumId)
    ensures var next := Wrapped(head, n);
      && sumId + next < 0x1_0000_0000_0000_0000
      && Measured(head, n + 1, if next < minId then next else minId, if next > maxId then next else maxId, sumId + next)
  {
    var ids := RingIds(head, n + 1);
    assert ids[..n] == RingIds(head, n);
    SumBelow(ids);
  }

  lemma MeasuresRecover(head: U32, n: U32, minId: U32, maxId: U32, sumId: U64)
    requires 0 < n && Measured(head, n, minId, maxId, sumId)
    ensures maxId - minId + 1 != n ==> WrapArguments(sumId, n)
    ensures Recover(minId, maxId, sumId, n) == Indexes(head, Wrapped(head, n - 1))
  {
    RecoverIsExact(head, n);
  }

  /** Recomputed indexes describe the same queue; those of an empty one restart at the initial values. */
  lemma QueuedAgain(items: seq<Item>, ns: Name, head: U32, tail: U32, q: seq<Msg>)
    requires Queued(items, ns, head, tail, q)
    ensures q == [] ==> Queued(items, ns, 1, 0, q)
    ensures q != [] ==> tail == Wrapped(head, |q| - 1)
  {
    assert q == [] ==> Entries(ns, 1, q) == Entries(ns, head, q);
    if q != [] { WrappedTurns(head, |q| - 1); }
  }
}
