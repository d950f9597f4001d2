/** The namespaced key-value storage and its iterator. */
module KeyValueStorage {
  import opened Bytes
  import opened SlotIds
  import opened EntryHash
  import opened KvStore
  import opened KvPrograms
  import opened KvProbing
  import opened KvList
  import opened KvShift
  import opened KvCrash
  import opened KvOperations
  import opened KvFlash
  import opened Buffers
  import opened KvQuota

  /** The store once a pending operation is resolved. */
  ghost function Resolved(h: Home, s: Store): Store {
    End(s, Resolve(h, s))
  }

  /** The flash image is well-formed or can be recovered to a well-formed store with these items; or recovery
      fails, and then so does every operation. */
  ghost predicate Opened(flash: Flash, items: seq<Item>)
    reads flash
  {
    && flash.Valid()
    && var r := Resolve(flash.Home(), flash.Store());
       r.code == Ok ==> Well(flash.Home(), Resolved(flash.Home(), flash.Store()))
                        && Means(Resolved(flash.Home(), flash.Store()), items)
  }

  ghost predicate Steady(flash: Flash, items: seq<Item>)
    reads flash
  {
    flash.Valid() && Well(flash.Home(), flash.Store()) && Means(flash.Store(), items)
  }

  lemma SteadyIsOpened(flash: Flash, items: seq<Item>)
    requires Steady(flash, items)
    ensures Opened(flash, items) && Resolve(flash.Home(), flash.Store()) == Nothing(Ok)
  {
    hide Means, Probeable, KeysUnique, Linked;
    WellKeysUnique(flash.Home(), flash.Store());
    IdleResolves(flash.Home(), flash.Store());
  }

  lemma FoundHolds(h: Home, s: Store, items: seq<Item>, k: Key)
    requires Well(h, s) && Means(s, items)
    ensures match Lookup(h, s.slots, k)
      case Found(at) =>
        var i := Position(items, k);
        && i < |items| && at in s.slots && s.slots[at].key == k && s.slots[at].value == items[i].value
        && OldSize(items, k) == |s.slots[at].value|
      case Hole(at) => Position(items, k) == |items| < RANGE && at !in s.slots && OldSize(items, k) == 0
      case NoRoom => Position(items, k) == |items| >= RANGE && OldSize(items, k) == 0
  {
    hide Lookup, Saturated, Probeable, KeysUnique, Distinct;
    var order :| WellFormed(h, s, order);
    var order' := MeaningOf(s, items);
    OrderUnique(s, order, order');
    LookupIsPosition(h, s, order, k);
    match Lookup(h, s.slots, k) {
      case Found(at) => LookupFindsKey(h, s, k, at);
      case Hole(at) => HoleLeavesRoom(s, order, at);
      case NoRoom => SaturatedIsFull(s, order);
    }
  }

  /** A free slot and the listed ones are different slots, so the list is not as long as the table. */
  lemma HoleLeavesRoom(s: Store, order: seq<Slot>, at: Slot)
    requires Linked(s, order) && at !in s.slots
    ensures |order| < RANGE
  {
    var all := order + [at];
    assert forall x :: x in order ==> x in s.slots;
    forall i, j | 0 <= i < j < |all|
      ensures all[i] != all[j]
    {
      assert order[i] in order;
    }
    DistinctFit(all, MIN_ID, MAX_ID + 1);
  }

  lemma {:induction false} DistinctFit(order: seq<Slot>, lo: int, hi: int)
    requires lo <= hi && Distinct(order) && forall x :: x in order ==> lo <= x < hi
    ensures |order| <= hi - lo
    decreases hi - lo
  {
    if order != [] {
      assert order[0] in order;
      if hi - 1 in order {
        var i :| 0 <= i < |order| && order[i] == hi - 1;
        var rest := Without(order, i);
        forall j, k | 0 <= j < k < |rest|
          ensures rest[j] != rest[k]
        {
          assert rest[j] == order[if j < i then j else j + 1] && rest[k] == order[if k < i then k else k + 1];
        }
        forall x | x in rest
          ensures lo <= x < hi - 1
        {
          var j :| 0 <= j < |rest| && rest[j] == x;
          var j0 := if j < i then j else j + 1;
          assert order[j0] == x && order[j0] in order && order[j0] != order[i];
        }
        DistinctFit(rest, lo, hi - 1);
      } else {
        DistinctFit(order, lo, hi - 1);
      }
    }
  }

  lemma SaturatedIsFull(s: Store, order: seq<Slot>)
    requires Saturated(s.slots) && Linked(s, order)
    ensures |order| >= RANGE
  {
    CoversRange(order, MIN_ID, MAX_ID + 1);
  }

  lemma {:induction false} CoversRange(order: seq<Slot>, lo: int, hi: int)
    requires MIN_ID <= lo <= hi <= MAX_ID + 1 && forall x: Slot :: lo <= x < hi ==> x in order
    ensures |order| >= hi - lo
    decreases hi - lo
  {
    if lo < hi {
      var last: Slot := hi - 1;
      assert last in order;
      var i :| 0 <= i < |order| && order[i] == last;
      forall x: Slot | lo <= x < hi - 1
        ensures x in Without(order, i)
      {
        assert x in order;
        var j :| 0 <= j < |order| && order[j] == x;
        assert Without(order, i)[if j < i then j else j - 1] == x;
      }
      CoversRange(Without(order, i), lo, hi - 1);
    }
  }

  /** The quota as it is computed in 32-bit arithmetic from the size of the partition and a percentage. */
  function QuotaBytes(sectorSize: U32, sectorCount: U32, pct: Byte): nat {
    sectorSize * sectorCount % TWO32 * pct % TWO32 / 100
  }

  /** The quota is that percentage of the partition's size if and only if the product fits 32 bits. */
  lemma QuotaExact(sectorSize: U32, sectorCount: U32, pct: Byte)
    ensures QuotaBytes(sectorSize, sectorCount, pct) == sectorSize * sectorCount * pct / 100
       <==> sectorSize * sectorCount * pct < TWO32
  {
    NotNegative(sectorSize, sectorCount);
    var k := QuotaWraps(sectorSize * sectorCount, pct);
  }

  lemma NotNegative(a: nat, b: nat)
    ensures a * b >= 0
  {
  }

  /** The remainder of a product is that of the product of remainders. */
  lemma QuotaWraps(total: nat, pct: nat) returns (k: nat)
    ensures total % TWO32 * pct % TWO32 == total * pct - k * TWO32
  {
    var q, r := total / TWO32, total % TWO32;
    NotNegative(r, pct);
    NotNegative(q, pct);
    k := q * pct + r * pct / TWO32;
    assert total * pct == q * pct * TWO32 + r * pct;
  }

  class KeyValue {
    const ns: Name
    const flash: Flash
    const maxQuota: nat
    var usage: nat

    /** Opens the namespace on a store whose pending operation was resolved when the partition was opened. With a
        quota, the sizes of its values are summed up over a first iteration. */
    constructor (flash: Flash, ns: Name, sectorSize: U32, sectorCount: U32, maxQuotaPct: Byte, ghost items: seq<Item>)
      requires Opened(flash, items)
      modifies flash
      ensures this.flash == flash && this.ns == ns && maxQuota == QuotaBytes(sectorSize, sectorCount, maxQuotaPct)
      ensures maxQuota == 0 ==> Opened(flash, items) && usage == 0
      ensures maxQuota > 0 ==>
        if old(Resolve(flash.Home(), flash.Store())).code == Ok then Steady(flash, items) && usage == Used(items, ns)
        else usage == 0
      ensures SameElsewhere(old(flash.data), flash.data)
    {
      hide Opened, Steady, Used, Resolve, SameElsewhere;
      SameRefl(flash.data);
      this.flash := flash;
      this.ns := ns;
      maxQuota := QuotaBytes(sectorSize, sectorCount, maxQuotaPct);
      usage := 0;
      new;
      if maxQuota > 0 {
        InitUsage(items);
      }
    }

    /** Sums up the sizes of the namespace's values; nothing if the pending operation cannot be recovered. */
    method InitUsage(ghost items: seq<Item>)
      requires Opened(flash, items) && usage == 0
      modifies this`usage, flash
      ensures if old(Resolve(flash.Home(), flash.Store())).code == Ok then Steady(flash, items) && usage == Used(items, ns)
              else usage == 0
      ensures SameElsewhere(old(flash.data), flash.data)
    {
      hide AtPosition, Stands, Opened, Steady, Used, SizeAt, NextMatch, NoMatch, WellFormedImage, Decode, Resolve;
      ghost var order := FirstStanding(flash, items);
      var iter := new Iterator(this);
      var code;
      ghost var pos;
      code, pos := iter.Next(items, order, -1);
      if code == RecoveryFailed {
        return;
      }
      UsedUpTo(items, ns, -1, code == Ok, pos);
      while code == Ok
        invariant AtPosition(flash, items, order, pos, iter.currentId)
        invariant SameElsewhere(old(flash.data), flash.data)
        invariant code == Ok ==> 0 <= pos < |items| && items[pos].key.ns == ns
        invariant usage == Used(items[..if code == Ok then pos else |items|], ns)
        decreases if code == Ok then |items| - pos else -1
      {
        EntryAtPosition(flash, items, order, pos, iter.currentId);
        var size;
        code, size := flash.ReadValueSize(iter.currentId);
        usage := usage + size;
        UsedNext(items, ns, pos);
        SizeOfMatch(items, pos, ns);
        ghost var p, before := pos, flash.data;
        PositionStands(flash, items, order, pos, iter.currentId);
        code, pos := iter.Next(items, order, pos);
        SameTrans(old(flash.data), before, flash.data);
        UsedUpTo(items, ns, p, code == Ok, pos);
      }
      assert items[..|items|] == items;
      PositionIsSteady(flash, items, order, pos, iter.currentId);
    }

    /** Stores a value under a key. It fails without changing any item when recovery fails, when there is no room in
        the table, or when the namespace's quota does not allow it. */
    method Insert(name: Name, value: Bytes, ghost items: seq<Item>) returns (code: Code)
      requires Opened(flash, items)
      modifies this`usage, flash
      ensures code == RecoveryFailed <==> old(Resolve(flash.Home(), flash.Store())).code != Ok
      ensures code != RecoveryFailed ==>
        && Steady(flash, if code == Ok then Outcome(items, Put(Key(ns, name), value)) else items)
        && (code == Ok || code == Full || code == OutOfSpace)
      ensures code != RecoveryFailed ==> (code == Full <==> Position(items, Key(ns, name)) == |items| >= RANGE)
      ensures code == RecoveryFailed || maxQuota == 0 ==> usage == old(usage) && code != OutOfSpace
      ensures code != RecoveryFailed && maxQuota > 0 ==>
        && (code == Ok || code == OutOfSpace ==>
              (code == OutOfSpace <==> Projected(old(usage), items, Key(ns, name), |value|) > maxQuota))
        && Account(usage, if code == Ok then Outcome(items, Put(Key(ns, name), value)) else items)
           == Charged(maxQuota, ns, Account(old(usage), items), Put(Key(ns, name), value), code != Full)
      ensures flash.log == old(flash.log) + old(Resolve(flash.Home(), flash.Store())).log
        + if code == Ok then
            Execute(flash.Home(), old(Resolved(flash.Home(), flash.Store())), Put(Key(ns, name), value)).log
          else []
      ensures SameElsewhere(old(flash.data), flash.data)
    {
      hide Resolve, Lookup, Means, Well, KvPrograms.EntryWrite, Outcome, Position, OldSize, Used, WellFormedImage, Decode,
        SameElsewhere, Saturated, Refines, Execute;
      var k := Key(ns, name);
      ghost var t := Resolved(flash.Home(), flash.Store());
      code := flash.IntentResolve();
      if code != Ok {
        return RecoveryFailed;
      }
      FoundHolds(flash.Home(), t, items, k);
      ExecuteRefines(flash.Home(), t, items, Put(k, value));
      PutExecutes(flash.Home(), t, items, k, value);
      var idx;
      code, idx := flash.FindOrAlloc(k, true);
      if code != Ok {
        return;
      }
      var oldSize := 0;
      if maxQuota > 0 {
        code, oldSize := flash.ReadValueSize(idx);
        if usage < oldSize {
          usage := oldSize;
        }
        if usage + |value| - oldSize > maxQuota {
          return OutOfSpace;
        }
      }
      ghost var resolved := flash.data;
      code := flash.EntryWrite(idx, k, value);
      SameTrans(old(flash.data), resolved, flash.data);
      if maxQuota > 0 {
        usage := usage + |value| - oldSize;
      }
    }

    /** Reads the value stored under a key. */
    method Find(name: Name, capacity: nat, ghost items: seq<Item>) returns (code: Code, value: Bytes)
      requires Opened(flash, items)
      modifies flash
      ensures code == RecoveryFailed <==> old(Resolve(flash.Home(), flash.Store())).code != Ok
      ensures code != RecoveryFailed ==>
        && Steady(flash, items)
        && var i := Position(items, Key(ns, name));
           if i == |items| then code == (if |items| >= RANGE then Full else NotFound)
           else if capacity < |items[i].value| then code == InvalidParam
           else code == Ok && value == items[i].value
      ensures SameElsewhere(old(flash.data), flash.data)
    {
      hide Resolve, Lookup, Means, Well, Position, WellFormedImage, Decode, SameElsewhere, Saturated;
      ghost var t := Resolved(flash.Home(), flash.Store());
      value := [];
      code := flash.IntentResolve();
      if code != Ok {
        return RecoveryFailed, value;
      }
      FoundHolds(flash.Home(), t, items, Key(ns, name));
      var idx;
      code, idx := flash.FindOrAlloc(Key(ns, name), false);
      if code != Ok {
        return;
      }
      code, value := flash.ReadValue(idx, capacity);
    }

    /** The size of the value stored under a key. */
    method FindSize(name: Name, ghost items: seq<Item>) returns (code: Code, size: nat)
      requires Opened(flash, items)
      modifies flash
      ensures code == RecoveryFailed <==> old(Resolve(flash.Home(), flash.Store())).code != Ok
      ensures code != RecoveryFailed ==>
        && Steady(flash, items)
        && var i := Position(items, Key(ns, name));
           if i == |items| then code == (if |items| >= RANGE then Full else NotFound)
           else code == Ok && size == |items[i].value|
      ensures SameElsewhere(old(flash.data), flash.data)
    {
      hide Resolve, Lookup, Means, Well, Position, WellFormedImage, Decode, SameElsewhere, Saturated;
      ghost var t := Resolved(flash.Home(), flash.Store());
      size := 0;
      code := flash.IntentResolve();
      if code != Ok {
        return RecoveryFailed, size;
      }
      FoundHolds(flash.Home(), t, items, Key(ns, name));
      var idx;
      code, idx := flash.FindOrAlloc(Key(ns, name), false);
      if code != Ok {
        return;
      }
      code, size := flash.ReadValueSize(idx);
    }

    /** Deletes the entry stored under a key. */
    method Delete(name: Name, ghost items: seq<Item>) returns (code: Code)
      requires Opened(flash, items)
      modifies this`usage, flash
      ensures code == RecoveryFailed <==> old(Resolve(flash.Home(), flash.Store())).code != Ok
      ensures code != RecoveryFailed ==>
        && Steady(flash, Outcome(items, Remove(Key(ns, name))))
        && (code == Ok <==> Position(items, Key(ns, name)) < |items|)
        && (code == Ok || code == if |items| >= RANGE then Full else NotFound)
      ensures code == RecoveryFailed || maxQuota == 0 ==> usage == old(usage)
      ensures code != RecoveryFailed && maxQuota > 0 ==>
        Account(usage, Outcome(items, Remove(Key(ns, name))))
        == Charged(maxQuota, ns, Account(old(usage), items), Remove(Key(ns, name)), true)
      ensures flash.log == old(flash.log) + old(Resolve(flash.Home(), flash.Store())).log
        + if code == Ok then
            Execute(flash.Home(), old(Resolved(flash.Home(), flash.Store())), Remove(Key(ns, name))).log
          else []
      ensures SameElsewhere(old(flash.data), flash.data)
    {
      hide Resolve, Lookup, Means, Well, KvPrograms.EntryDelete, Position, OldSize, Used, WellFormedImage, Decode,
        SameElsewhere, Saturated, Refines, Execute;
      var k := Key(ns, name);
      ghost var t := Resolved(flash.Home(), flash.Store());
      code := flash.IntentResolve();
      if code != Ok {
        return RecoveryFailed;
      }
      FoundHolds(flash.Home(), t, items, k);
      ExecuteRefines(flash.Home(), t, items, Remove(k));
      RemoveExecutes(flash.Home(), t, items, k);
      var idx;
      code, idx := flash.FindOrAlloc(k, false);
      if code != Ok {
        return;
      }
      var size := 0;
      if maxQuota > 0 {
        code, size := flash.ReadValueSize(idx);
      }
      ghost var resolved := flash.data;
      code := flash.EntryDelete(idx);
      SameTrans(old(flash.data), resolved, flash.data);
      if maxQuota > 0 && size > 0 {
        if usage >= size {
          usage := usage - size;
        } else {
          usage := 0;
        }
      }
    }
  }

  /** The store is well-formed in this order, and the iterator stands at this position of it; -1 is before the
      head. */
  ghost predicate AtPosition(flash: Flash, items: seq<Item>, order: seq<Slot>, pos: int, currentId: Link)
    reads flash
  {
    && flash.Valid()
    && WellFormed(flash.Home(), flash.Store(), order)
    && items == ItemsOf(flash.Store(), order)
    && -1 <= pos < |order|
    && currentId == LinkAt(order, pos)
  }

  /** So it does once a pending operation is resolved, if it can be resolved. */
  ghost predicate Stands(flash: Flash, items: seq<Item>, order: seq<Slot>, pos: int, currentId: Link)
    reads flash
  {
    && flash.Valid()
    && var s := Resolved(flash.Home(), flash.Store());
       Resolve(flash.Home(), flash.Store()).code == Ok ==>
         && WellFormed(flash.Home(), s, order)
         && items == ItemsOf(s, order)
         && -1 <= pos < |order|
         && currentId == LinkAt(order, pos)
  }

  /** The entry at position `j` is the first one of the namespace after position `pos`. */
  predicate NextMatch(items: seq<Item>, ns: Name, pos: int, j: int) {
    && -1 <= pos < j < |items| && items[j].key.ns == ns
    && forall x :: pos < x < j ==> items[x].key.ns != ns
  }

  predicate NoMatch(items: seq<Item>, ns: Name, pos: int) {
    -1 <= pos && forall x :: pos < x < |items| ==> items[x].key.ns != ns
  }

  class Iterator {
    const kv: KeyValue
    var currentId: Link

    constructor (kv: KeyValue)
      ensures this.kv == kv && currentId == NULL_ID
    {
      this.kv := kv;
      currentId := NULL_ID;
    }

    /** Every operation of an iterator first resolves a pending operation. */
    method Settle(ghost items: seq<Item>, ghost order: seq<Slot>, ghost pos: int) returns (code: Code)
      requires Stands(kv.flash, items, order, pos, currentId)
      modifies kv.flash
      ensures code == if old(Resolve(kv.flash.Home(), kv.flash.Store())).code == Ok then Ok else RecoveryFailed
      ensures code == Ok ==> AtPosition(kv.flash, items, order, pos, currentId)
      ensures SameElsewhere(old(kv.flash.data), kv.flash.data)
    {
      hide WellFormedImage, Decode, WellFormed, Linked, SameElsewhere, Resolve, Enumerates;
      code := kv.flash.IntentResolve();
      if code != Ok {
        code := RecoveryFailed;
      }
    }

    /** Advances to the next entry of the namespace. At the end of the list the iterator stays where it is. */
    method Next(ghost items: seq<Item>, ghost order: seq<Slot>, ghost pos: int) returns (code: Code, ghost j: int)
      requires Stands(kv.flash, items, order, pos, currentId)
      modifies this, kv.flash
      ensures code == RecoveryFailed <==> old(Resolve(kv.flash.Home(), kv.flash.Store())).code != Ok
      ensures code != RecoveryFailed ==> AtPosition(kv.flash, items, order, j, currentId)
      ensures code == Ok || code == NotFound || code == RecoveryFailed
      ensures code == Ok ==> NextMatch(items, kv.ns, pos, j)
      ensures code == NotFound ==> NoMatch(items, kv.ns, pos) && j == pos
      ensures SameElsewhere(old(kv.flash.data), kv.flash.data)
    {
      hide WellFormedImage, Decode, Probeable, KeysUnique, ChainedAt, Enumerates, Distinct, SameElsewhere, Resolve, Stands;
      j := pos;
      code := Settle(items, order, pos);
      if code != Ok {
        return;
      }
      var curr := currentId;
      j := pos;
      while true
        invariant SameElsewhere(old(kv.flash.data), kv.flash.data)
        invariant AtPosition(kv.flash, items, order, pos, currentId)
        invariant pos <= j < |order| && curr == LinkAt(order, j)
        invariant forall x :: pos < x <= j ==> items[x].key.ns != kv.ns
        decreases |order| - j
      {
        NextInOrder(kv.flash.Store(), order, j);
        var found, id := kv.flash.GetNextId(curr);
        if found != Ok || id == NULL_ID {
          return NotFound, pos;
        }
        var matches := kv.flash.CheckNamespace(id, kv.ns);
        j := j + 1;
        if matches {
          currentId := id;
          return Ok, j;
        }
        curr := id;
      }
    }

    /** Looks ahead for the next entry of the namespace. */
    method FindNextMatchingId(ghost items: seq<Item>, ghost order: seq<Slot>, ghost pos: int)
        returns (next: Link, hasNext: bool, ghost j: int)
      requires AtPosition(kv.flash, items, order, pos, currentId)
      ensures hasNext ==> NextMatch(items, kv.ns, pos, j) && next == order[j]
      ensures !hasNext ==> NoMatch(items, kv.ns, pos) && next == NULL_ID
    {
      hide WellFormedImage, Decode, Probeable, KeysUnique, ChainedAt, Enumerates, Distinct;
      var curr := currentId;
      j := pos;
      while true
        invariant pos <= j < |order| && curr == LinkAt(order, j)
        invariant forall x :: pos < x <= j ==> items[x].key.ns != kv.ns
        decreases |order| - j
      {
        NextInOrder(kv.flash.Store(), order, j);
        var code, id := kv.flash.GetNextId(curr);
        if id == NULL_ID {
          return NULL_ID, false, j;
        }
        var matches := kv.flash.CheckNamespace(id, kv.ns);
        j := j + 1;
        if matches {
          return id, true, j;
        }
        curr := id;
      }
    }

    /** The key of the current entry with its terminator, or the size of the two. */
    method Get(buffer: Room, ghost items: seq<Item>, ghost order: seq<Slot>, ghost pos: nat)
        returns (code: Code, key: Bytes, size: nat)
      requires Stands(kv.flash, items, order, pos, currentId)
      modifies kv.flash
      ensures code == RecoveryFailed <==> old(Resolve(kv.flash.Home(), kv.flash.Store())).code != Ok
      ensures code != RecoveryFailed ==>
        && AtPosition(kv.flash, items, order, pos, currentId) && pos < |items|
        && var name := items[pos].key.name;
           if buffer.NoBuffer? then code == Ok && size == |name| + 1
           else if buffer.capacity < |name| + 1 then code == InvalidParam
           else code == Ok && key == name + [0] && size == |key|
      ensures SameElsewhere(old(kv.flash.data), kv.flash.data)
    {
      hide AtPosition, Stands, WellFormedImage, Decode, Resolve;
      key, size := [], 0;
      code := Settle(items, order, pos);
      if code != Ok {
        return;
      }
      EntryAtPosition(kv.flash, items, order, pos, currentId);
      code, key, size := kv.flash.ReadKey(currentId, buffer);
    }

    /** Deletes the current entry and steps back to the entry before the next one of the namespace, wherever the
        shift has moved it. If there is no next one, the iterator goes back to the start of the list. */
    method Delete(ghost items: seq<Item>, ghost order: seq<Slot>, ghost pos: nat)
        returns (code: Code, ghost order': seq<Slot>, ghost pos': int)
      requires Stands(kv.flash, items, order, pos, currentId)
      modifies this, kv`usage, kv.flash
      ensures code == if old(Resolve(kv.flash.Home(), kv.flash.Store())).code == Ok then Ok else RecoveryFailed
      ensures code == Ok ==>
        && pos < |items|
        && AtPosition(kv.flash, Without(items, pos), order', pos', currentId)
        && (if NoMatch(items, kv.ns, pos) then pos' == -1 else NextMatch(items, kv.ns, pos, pos' + 2))
        && (kv.maxQuota > 0 && items[pos].key.ns == kv.ns && old(kv.usage) == Used(items, kv.ns) ==>
              kv.usage == Used(Without(items, pos), kv.ns) <= old(kv.usage))
        && kv.usage == if kv.maxQuota > 0 then Less(old(kv.usage), |items[pos].value|) else old(kv.usage)
      ensures code != Ok ==> kv.usage == old(kv.usage)
      ensures SameElsewhere(old(kv.flash.data), kv.flash.data)
    {
      hide WellFormedImage, Decode, Probeable, KeysUnique, Linked, SameElsewhere, Resolve, AtPosition, Steady,
        NextMatch, NoMatch, Used, ItemsOf, Enumerates, Stands;
      order', pos' := order, pos;
      code := Settle(items, order, pos);
      if code != Ok {
        return;
      }
      var next, hasNext;
      ghost var j;
      next, hasNext, j := FindNextMatchingId(items, order, pos);
      var nextKey: Name := [];
      EntryAtPosition(kv.flash, items, order, pos, currentId);
      if hasNext {
        NextMatchUnique(items, kv.ns, pos, j);
        ListedAt(kv.flash, items, order, pos, currentId, j);
        nextKey := ReadNextKey(next);
      }
      ghost var settled := kv.flash.data;
      code := DeleteCurrent(items, order, pos);
      SameTrans(old(kv.flash.data), settled, kv.flash.data);
      ghost var items' := Without(items, pos);
      order' := OrderOf(kv.flash, items');
      if !hasNext {
        currentId := NULL_ID;
        StartPosition(kv.flash, items', order');
        return Ok, order', -1;
      }
      pos' := j - 2;
      code := HealPostDelete(nextKey, items', order', j - 1);
    }

    /** Reads the size of a stored key and then the key. */
    method ReadNextKey(next: Slot) returns (nextKey: Name)
      requires kv.flash.Valid() && next in kv.flash.Store().slots
      ensures nextKey == kv.flash.Store().slots[next].key.name
    {
      hide WellFormedImage, Decode;
      var code, key, size := kv.flash.ReadKey(next, NoBuffer);
      code, key, size := kv.flash.ReadKey(next, Room(size));
      nextKey := key[..size - 1];
    }

    /** Deletes the current entry and takes its size off the usage. */
    method DeleteCurrent(ghost items: seq<Item>, ghost order: seq<Slot>, ghost pos: nat) returns (code: Code)
      requires AtPosition(kv.flash, items, order, pos, currentId)
      modifies kv`usage, kv.flash
      ensures pos < |items| && code == Ok && Steady(kv.flash, Without(items, pos))
      ensures kv.maxQuota > 0 && items[pos].key.ns == kv.ns && old(kv.usage) == Used(items, kv.ns) ==>
        kv.usage == Used(Without(items, pos), kv.ns) <= old(kv.usage)
      ensures kv.usage == if kv.maxQuota > 0 then Less(old(kv.usage), |items[pos].value|) else old(kv.usage)
      ensures SameElsewhere(old(kv.flash.data), kv.flash.data)
    {
      hide WellFormedImage, Decode, Probeable, KeysUnique, Linked, SameElsewhere, AtPosition, KvPrograms.EntryDelete,
        Means;
      PositionIsWell(kv.flash, items, order, pos, currentId);
      EntryAtPosition(kv.flash, items, order, pos, currentId);
      EntryDeleteRemoves(kv.flash.Home(), kv.flash.Store(), order, pos);
      UsedWithout(items, pos, kv.ns);
      var size := 0;
      if kv.maxQuota > 0 {
        code, size := kv.flash.ReadValueSize(currentId);
      }
      code := kv.flash.EntryDelete(currentId);
      if kv.maxQuota > 0 && size > 0 {
        if kv.usage >= size {
          kv.usage := kv.usage - size;
        } else {
          kv.usage := 0;
        }
      }
    }

    /** Finds the entry again by its key, and moves the iterator to the one before it. */
    method HealPostDelete(nextKey: Name, ghost items: seq<Item>, ghost order: seq<Slot>, ghost i: nat)
        returns (code: Code)
      requires kv.flash.Valid() && WellFormed(kv.flash.Home(), kv.flash.Store(), order)
      requires Enumerates(kv.flash.Store().slots.Keys, order) && items == ItemsOf(kv.flash.Store(), order)
      requires i < |items| && items[i].key == Key(kv.ns, nextKey)
      modifies this
      ensures code == Ok && AtPosition(kv.flash, items, order, i - 1, currentId)
    {
      hide WellFormedImage, Decode, Probeable, KeysUnique, Lookup;
      LookupIsPosition(kv.flash.Home(), kv.flash.Store(), order, Key(kv.ns, nextKey));
      PositionOfItem(kv.flash.Home(), kv.flash.Store(), order, i);
      var valid;
      code, valid := kv.flash.FindOrAlloc(Key(kv.ns, nextKey), false);
      assert ChainedAt(kv.flash.Store().slots, order, i);
      var prev;
      code, prev := kv.flash.GetPrevId(valid);
      currentId := prev;
    }
  }

  lemma OrderOf(flash: Flash, items: seq<Item>) returns (order: seq<Slot>)
    requires Steady(flash, items)
    ensures flash.Valid() && WellFormed(flash.Home(), flash.Store(), order)
    ensures Enumerates(flash.Store().slots.Keys, order) && items == ItemsOf(flash.Store(), order)
  {
    hide Probeable, KeysUnique;
    order :| WellFormed(flash.Home(), flash.Store(), order);
    var order' := MeaningOf(flash.Store(), items);
    OrderUnique(flash.Store(), order, order');
  }

  lemma StartPosition(flash: Flash, items: seq<Item>, order: seq<Slot>)
    requires flash.Valid() && WellFormed(flash.Home(), flash.Store(), order)
    requires Enumerates(flash.Store().slots.Keys, order) && items == ItemsOf(flash.Store(), order)
    ensures AtPosition(flash, items, order, -1, NULL_ID)
  {
  }

  /** The start of the list is a position whatever operation is pending. */
  lemma FirstStanding(flash: Flash, items: seq<Item>) returns (order: seq<Slot>)
    requires Opened(flash, items)
    ensures Stands(flash, items, order, -1, NULL_ID)
  {
    hide WellFormed, Linked, Resolve, WellFormedImage, Decode;
    order := [];
    if Resolve(flash.Home(), flash.Store()).code == Ok {
      order := MeaningIsOrder(flash.Home(), Resolved(flash.Home(), flash.Store()), items);
    }
  }

  lemma MeaningIsOrder(h: Home, s: Store, items: seq<Item>) returns (order: seq<Slot>)
    requires Well(h, s) && Means(s, items)
    ensures WellFormed(h, s, order) && Enumerates(s.slots.Keys, order) && items == ItemsOf(s, order)
  {
    hide Probeable, KeysUnique;
    order :| WellFormed(h, s, order);
    var order' := MeaningOf(s, items);
    OrderUnique(s, order, order');
  }

  lemma PositionStands(flash: Flash, items: seq<Item>, order: seq<Slot>, pos: int, currentId: Link)
    requires AtPosition(flash, items, order, pos, currentId)
    ensures Stands(flash, items, order, pos, currentId) && Resolve(flash.Home(), flash.Store()).code == Ok
  {
    hide Resolve, Probeable, Linked, WellFormedImage, Decode;
    IdleResolves(flash.Home(), flash.Store());
  }

  lemma PositionIsSteady(flash: Flash, items: seq<Item>, order: seq<Slot>, pos: int, currentId: Link)
    requires AtPosition(flash, items, order, pos, currentId)
    ensures Steady(flash, items)
  {
  }

  lemma PositionIsWell(flash: Flash, items: seq<Item>, order: seq<Slot>, pos: int, currentId: Link)
    requires AtPosition(flash, items, order, pos, currentId)
    ensures flash.Valid() && flash.Store().intent == Idle && WellFormed(flash.Home(), flash.Store(), order)
    ensures Enumerates(flash.Store().slots.Keys, order) && items == ItemsOf(flash.Store(), order)
    ensures |items| == |order| && -1 <= pos < |order| && currentId == LinkAt(order, pos)
  {
  }

  lemma ListedAt(flash: Flash, items: seq<Item>, order: seq<Slot>, pos: int, currentId: Link, j: nat)
    requires AtPosition(flash, items, order, pos, currentId) && j < |items|
    ensures |items| == |order| && flash.Valid() && order[j] in flash.Store().slots
    ensures items[j].key == flash.Store().slots[order[j]].key
  {
    assert order[j] in order;
  }

  lemma NextMatchUnique(items: seq<Item>, ns: Name, pos: nat, j: int)
    requires NextMatch(items, ns, pos, j) && pos < |items|
    ensures pos < j < |items| && items[j].key.ns == ns
    ensures Without(items, pos)[j - 1] == items[j] && !NoMatch(items, ns, pos)
  {
  }

  lemma UsedWithout(items: seq<Item>, i: nat, ns: Name)
    requires i < |items|
    ensures Used(Without(items, i), ns) == Used(items, ns) - SizeAt(items, i, ns)
  {
    UsedSplit(items, i, ns);
    UsedConcat(items[..i], items[i + 1..], ns);
  }

  lemma EntryAtPosition(flash: Flash, items: seq<Item>, order: seq<Slot>, pos: int, currentId: Link)
    requires AtPosition(flash, items, order, pos, currentId) && pos >= 0
    ensures flash.Valid() && IsSlot(currentId) && currentId in flash.Store().slots && currentId == order[pos]
    ensures pos < |items| == |order|
    ensures var e := flash.Store().slots[currentId]; items[pos] == Item(e.key, e.value)
  {
    assert order[pos] in order;
  }

  lemma {:induction false} UsedSkip(items: seq<Item>, ns: Name, a: nat, b: nat)
    requires a <= b <= |items| && forall x :: a <= x < b ==> items[x].key.ns != ns
    ensures Used(items[..b], ns) == Used(items[..a], ns)
  {
    if a < b {
      UsedSkip(items, ns, a, b - 1);
      assert items[..b] == items[..b - 1] + [items[b - 1]];
      UsedConcat(items[..b - 1], [items[b - 1]], ns);
    }
  }

  /** Nothing of the namespace lies between a position and the next match. */
  lemma UsedUpTo(items: seq<Item>, ns: Name, pos: int, found: bool, j: int)
    requires -1 <= pos && (pos == -1 || pos < |items|)
    requires if found then NextMatch(items, ns, pos, j) else NoMatch(items, ns, pos)
    ensures found ==> pos < j < |items| && items[j].key.ns == ns
    ensures Used(items[..if found then j else |items|], ns) == if pos == -1 then 0 else Used(items[..pos + 1], ns)
  {
    UsedSkip(items, ns, pos + 1, if found then j else |items|);
  }

  lemma SizeOfMatch(items: seq<Item>, pos: nat, ns: Name)
    requires pos < |items| && items[pos].key.ns == ns
    ensures SizeAt(items, pos, ns) == |items[pos].value|
  {
  }

  lemma UsedNext(items: seq<Item>, ns: Name, i: nat)
    requires i < |items|
    ensures Used(items[..i + 1], ns) == Used(items[..i], ns) + SizeAt(items, i, ns)
  {
    assert items[..i + 1] == items[..i] + [items[i]];
    UsedConcat(items[..i], [items[i]], ns);
  }

  /** Following the list from a position leads to the next one. */
  lemma NextInOrder(s: Store, order: seq<Slot>, pos: int)
    requires Linked(s, order) && -1 <= pos < |order|
    ensures pos == -1 ==> s.head == LinkAt(order, 0)
    ensures pos >= 0 ==> order[pos] in s.slots && s.slots[order[pos]].next == LinkAt(order, pos + 1)
    ensures pos + 1 < |order| ==> order[pos + 1] in s.slots
  {
    if pos >= 0 { assert ChainedAt(s.slots, order, pos); }
    if pos + 1 < |order| { assert ChainedAt(s.slots, order, pos + 1); }
  }

  lemma PutExecutes(h: Home, s: Store, items: seq<Item>, k: Key, value: Bytes)
    requires Refines(h, s, items, Put(k, value))
    ensures match Lookup(h, s.slots, k)
      case Found(at) => PutOutcome(h, s, items, k, value, at)
      case Hole(at) => PutOutcome(h, s, items, k, value, at)
      case NoRoom => true
  {
    hide Lookup, Saturated, Means, Well, KvPrograms.EntryWrite, Outcome;
    match Lookup(h, s.slots, k) {
      case Found(at) => WriteCode(s, at, k, value);
      case Hole(at) => WriteCode(s, at, k, value);
      case NoRoom =>
    }
  }

  lemma RemoveExecutes(h: Home, s: Store, items: seq<Item>, k: Key)
    requires Refines(h, s, items, Remove(k))
    ensures match Lookup(h, s.slots, k)
      case Found(at) =>
        var r := KvPrograms.EntryDelete(h, s, at);
        Position(items, k) < |items| ==>
          && r == Execute(h, s, Remove(k)) && r.code == Ok
          && Well(h, End(s, r)) && Means(End(s, r), Outcome(items, Remove(k)))
      case _ => true
  {
    hide Lookup, Saturated, Means, Well, KvPrograms.EntryDelete, Outcome, Position;
  }

  lemma WriteCode(s: Store, at: Slot, k: Key, value: Bytes)
    ensures KvPrograms.EntryWrite(s, at, k, value).code != Full
    ensures KvPrograms.EntryWrite(s, at, k, value).code != NotFound
  {
  }

  ghost predicate PutOutcome(h: Home, s: Store, items: seq<Item>, k: Key, value: Bytes, at: Slot) {
    var r := KvPrograms.EntryWrite(s, at, k, value);
    && r.code == Ok && Well(h, End(s, r)) && Means(End(s, r), Outcome(items, Put(k, value)))
    && r.log == Execute(h, s, Put(k, value)).log
  }
}
