/** The pending messages of one direction: a map in memory with a copy in flash. */
module MqttCaching {
  import opened Bytes
  import opened SlotIds
  import opened KvStore
  import opened KvPrograms
  import opened KvFlash
  import opened MqttStorage

  const LAST_MESSAGE_ID := 0xFFFF

  datatype Pending = Pending(endOfValidity: int, message: Message)

  function Messages(m: map<MessageId, Pending>): map<MessageId, Message> {
    map id | id in m :: m[id].message
  }

  /** The identifier after `id`, skipping zero. */
  function NextId(id: int): MessageId
    requires 0 <= id <= LAST_MESSAGE_ID
  {
    if id == LAST_MESSAGE_ID then 1 else id + 1
  }

  /** How many times `NextId` is applied to lead from `a` to `b`. */
  function Ahead(a: int, b: MessageId): nat
    requires 0 <= a <= LAST_MESSAGE_ID
  {
    if b > a then b - a else b - a + LAST_MESSAGE_ID
  }

  lemma AheadStep(a: int, b: MessageId)
    requires 0 <= a <= LAST_MESSAGE_ID
    ensures NextId(a) != b ==> Ahead(a, b) == Ahead(NextId(a), b) + 1
    ensures Ahead(a, b) >= 1 && (Ahead(a, b) == 1 <==> NextId(a) == b)
  {
  }

  class Caching {
    const flash: Flash
    const direction: Direction
    /** Time after which a message is sent again. */
    const keepalive: nat
    /** How many messages the map takes. */
    const capacity: nat
    var entries: map<MessageId, Pending>
    var lastMessageId: int

    /** The map in memory and the flash hold the same messages, no more than the map takes. */
    ghost predicate Valid()
      reads this, flash
    {
      && flash.Valid()
      && Holds(flash.data, direction, Messages(entries))
      && |entries| <= capacity
      && 0 <= lastMessageId <= LAST_MESSAGE_ID
    }

    /** After a reboot the map is rebuilt from the flash, and every message is due at once. */
    constructor (flash: Flash, direction: Direction, capacity: nat, keepalive: nat, now: int,
                 ghost stored: map<MessageId, Message>)
      requires flash.Valid() && Holds(flash.data, direction, stored) && |stored| <= capacity
      ensures Valid() && this.flash == flash && this.direction == direction && this.keepalive == keepalive
      ensures this.capacity == capacity && lastMessageId == 0 && Messages(entries) == stored
      ensures forall id :: id in entries ==> entries[id].endOfValidity == now
    {
      hide Holds;
      this.flash := flash;
      this.direction := direction;
      this.capacity := capacity;
      this.keepalive := keepalive;
      entries := map[];
      lastMessageId := 0;
      new;
      RestoreFromFlash(now, stored);
      NoneAbove(entries.Keys, stored.Keys);
      assert Messages(entries) == stored;
    }

    /** Takes the stored messages in the order of their identifiers until the map is full. */
    method RestoreFromFlash(now: int, ghost stored: map<MessageId, Message>)
      requires flash.Valid() && Holds(flash.data, direction, stored)
      requires entries == map[]
      modifies this`entries
      ensures entries.Keys <= stored.Keys && |entries| == if |stored| <= capacity then |stored| else capacity
      ensures forall id :: id in entries ==> entries[id] == Pending(now, stored[id])
      ensures forall id, x :: id in entries && x in stored && x < id ==> x in entries
    {
      hide Holds, Restored;
      NothingRestored(stored, capacity, now);
      var i := 1;
      while i <= LAST_MESSAGE_ID
        invariant 1 <= i <= LAST_MESSAGE_ID + 1
        invariant Restored(entries, stored, i, capacity, now)
      {
        var code, message := FindAlloc(flash, direction, i, stored);
        OneRestored(entries, stored, i, capacity, now);
        if code == Ok && |entries| < capacity {
          entries := entries[i := Pending(now, message)];
        }
        i := i + 1;
      }
      AllRestored(entries, stored, capacity, now);
    }

    /** Finds the first free identifier after the one given out last. */
    method GetAvailableMessageId(ghost free: MessageId) returns (id: MessageId)
      requires Valid() && free !in entries
      modifies this`lastMessageId
      ensures id !in entries && lastMessageId == id
      ensures forall x: MessageId :: Ahead(old(lastMessageId), x) < Ahead(old(lastMessageId), id) ==> x in entries
    {
      hide Holds;
      ghost var from := lastMessageId;
      if lastMessageId == LAST_MESSAGE_ID {
        lastMessageId := 0;
      }
      lastMessageId := lastMessageId + 1;
      AheadStep(from, free);
      while lastMessageId in entries
        invariant 1 <= lastMessageId <= LAST_MESSAGE_ID
        invariant Ahead(from, lastMessageId) <= Ahead(from, free)
        invariant forall x: MessageId :: Ahead(from, x) < Ahead(from, lastMessageId) ==> x in entries
        decreases Ahead(from, free) - Ahead(from, lastMessageId)
      {
        NextFurther(from, lastMessageId, free);
        if lastMessageId == LAST_MESSAGE_ID {
          lastMessageId := 0;
        }
        lastMessageId := lastMessageId + 1;
      }
      id := lastMessageId;
    }

    /** Answers from memory what a reboot would find in flash. */
    method FindMessage(id: MessageId) returns (found: bool)
      requires Valid()
      ensures found <==> id in entries
      ensures found <==> StorageKey(direction, id) in flash.data
      ensures found ==> flash.data[StorageKey(direction, id)] == EncodeMessage(entries[id].message)
    {
      found := id in entries;
    }

    /** Adds a message in memory and in flash; a message already there stays, and a full map takes no new one. */
    method InsertMessage(id: MessageId, message: Message, now: int)
      requires Valid()
      modifies this`entries, flash`data
      ensures Valid() && flash.Store() == old(flash.Store())
      ensures SameBeside(direction, old(flash.data), flash.data)
      ensures if id in old(entries) || |old(entries)| >= capacity
              then entries == old(entries) && flash.data == old(flash.data)
              else entries == old(entries)[id := Pending(now + keepalive, message)]
    {
      hide Holds, SameBeside;
      if id in entries {
        SameImage(direction, flash.data);
        return;
      }
      if |entries| >= capacity {
        SameImage(direction, flash.data);
        return;
      }
      ghost var before := Messages(entries);
      entries := entries[id := Pending(now + keepalive, message)];
      assert Messages(entries) == before[id := message];
      InsertHolds(flash.data, direction, before, id, message);
      var code := Insert(flash, direction, id, message);
    }

    /** Removes a message from memory and from flash. */
    method RemoveMessage(id: MessageId)
      requires Valid()
      modifies this`entries, flash`data
      ensures Valid() && flash.Store() == old(flash.Store())
      ensures SameBeside(direction, old(flash.data), flash.data)
      ensures entries == old(entries) - {id}
    {
      hide Holds, SameBeside;
      if id !in entries {
        SameImage(direction, flash.data);
        return;
      }
      ghost var before := Messages(entries);
      SmallerWithout(entries, {id});
      entries := entries - {id};
      assert Messages(entries) == before - {id};
      DeleteHolds(flash.data, direction, before, id);
      var code := Delete(flash, direction, id);
    }

    /** Removes all messages, from flash one by one in some order, and then from memory. */
    method ClearMessages() returns (order: seq<MessageId>)
      requires Valid()
      modifies this`entries, flash`data
      ensures Valid() && flash.Store() == old(flash.Store())
      ensures Lists(order, old(entries).Keys) && flash.data == Cleared(old(flash.data), direction, order)
      ensures SameBeside(direction, old(flash.data), flash.data)
      ensures entries == map[]
    {
      hide Holds, SameBeside, Lists, Cleared, Messages;
      ghost var messages := Messages(entries);
      NothingListed(old(flash.data), direction, entries.Keys);
      order := [];
      var ids := entries.Keys;
      while ids != {}
        invariant entries == old(entries)
        invariant flash.Valid() && flash.Store() == old(flash.Store())
        invariant Lists(order, entries.Keys - ids) && ids <= entries.Keys
        invariant flash.data == Cleared(old(flash.data), direction, order)
        decreases |ids|
      {
        var id :| id in ids;
        OneListed(old(flash.data), direction, order, entries.Keys, ids, id);
        ids := ids - {id};
        order := order + [id];
        var code := Delete(flash, direction, id);
      }
      ClearedHolds(old(flash.data), direction, messages, order);
      assert entries.Keys - ids == entries.Keys;
      AllForgotten(entries, order);
      entries := map[];
    }

    method UpdateMessageExpiry(id: MessageId, now: int)
      requires Valid()
      modifies this`entries
      ensures Valid()
      ensures entries == if id in old(entries)
                         then old(entries)[id := Pending(now + keepalive, old(entries)[id].message)] else old(entries)
    {
      hide Holds;
      if id in entries {
        ghost var before := Messages(entries);
        entries := entries[id := Pending(now + keepalive, entries[id].message)];
        assert Messages(entries) == before;
      }
    }

    /** Hands every message whose time has come to the caller, once, and gives it new time. */
    method CheckMessageExpiry(now: int) returns (due: seq<MessageId>)
      requires Valid()
      modifies this`entries
      ensures Valid() && Messages(entries) == old(Messages(entries))
      ensures forall id :: id in due <==> id in old(entries) && old(entries)[id].endOfValidity <= now
      ensures forall i, j :: 0 <= i < j < |due| ==> due[i] != due[j]
      ensures entries.Keys == old(entries).Keys
      ensures forall id :: id in entries ==>
        entries[id].endOfValidity == if id in due then now + keepalive else old(entries)[id].endOfValidity
    {
      hide Holds, Messages, Refreshed;
      due := [];
      ghost var start := entries;
      var ids := entries.Keys;
      NothingRefreshed(start, now + keepalive);
      while ids != {}
        invariant ids <= start.Keys == entries.Keys
        invariant forall id :: id in due <==> id in start && id !in ids && start[id].endOfValidity <= now
        invariant forall i, j :: 0 <= i < j < |due| ==> due[i] != due[j]
        invariant Refreshed(entries, start, due, now + keepalive)
        decreases |ids|
      {
        var id :| id in ids;
        ids := ids - {id};
        UnlistedSame(entries, start, due, now + keepalive, id);
        if entries[id].endOfValidity <= now {
          OneRefreshed(entries, start, due, now + keepalive, id);
          AddedOnce(due, id);
          entries := entries[id := Pending(now + keepalive, entries[id].message)];
          due := due + [id];
        }
      }
      RefreshedMeans(entries, start, due, now + keepalive);
    }
  }

  lemma NothingListed(data: Image, d: Direction, all: set<MessageId>)
    ensures Lists([], all - all) && Cleared(data, d, []) == data
  {
  }

  lemma OneListed(data: Image, d: Direction, order: seq<MessageId>, all: set<MessageId>, ids: set<MessageId>,
                  id: MessageId)
    requires Lists(order, all - ids) && ids <= all && id in ids
    ensures Lists(order + [id], all - (ids - {id}))
    ensures Cleared(data, d, order + [id]) == Cleared(data, d, order) - {StorageKey(d, id)}
  {
    assert (order + [id])[..|order|] == order;
  }

  lemma AllForgotten(entries: map<MessageId, Pending>, order: seq<MessageId>)
    requires Lists(order, entries.Keys)
    ensures Messages(entries) - Among(order) == map[] == Messages(map[])
  {
  }

  lemma SmallerWithout(m: map<MessageId, Pending>, ids: set<MessageId>)
    ensures |m - ids| <= |m|
  {
    Within((m - ids).Keys, m.Keys);
    assert |(m - ids).Keys| == |m - ids| && |m.Keys| == |m|;
  }

  lemma {:induction false} Within(a: set<MessageId>, b: set<MessageId>)
    requires a <= b
    ensures |a| <= |b|
    ensures |a| == |b| ==> a == b
    decreases a
  {
    if a != {} {
      var x :| x in a;
      Within(a - {x}, b - {x});
    }
  }

  /** Of the messages below an identifier the first ones are restored, as many as there is room for. */
  ghost predicate Restored(entries: map<MessageId, Pending>, stored: map<MessageId, Message>, below: int, capacity: nat,
                           now: int)
  {
    && |entries| <= capacity
    && (forall id :: id in entries ==> id in stored && id < below && entries[id] == Pending(now, stored[id]))
    && (|entries| < capacity ==> forall id :: id in stored && id < below ==> id in entries)
    && (forall id, x :: id in entries && x in stored && x < id ==> x in entries)
  }

  lemma NothingRestored(stored: map<MessageId, Message>, capacity: nat, now: int)
    ensures Restored(map[], stored, 1, capacity, now)
  {
  }

  lemma OneRestored(entries: map<MessageId, Pending>, stored: map<MessageId, Message>, i: MessageId, capacity: nat,
                    now: int)
    requires Restored(entries, stored, i, capacity, now)
    ensures if i in stored && |entries| < capacity
            then Restored(entries[i := Pending(now, stored[i])], stored, i + 1, capacity, now)
            else Restored(entries, stored, i + 1, capacity, now)
  {
    if i in stored && |entries| < capacity {
      assert i !in entries;
      assert |entries[i := Pending(now, stored[i])]| == |entries| + 1;
    }
  }

  lemma AllRestored(entries: map<MessageId, Pending>, stored: map<MessageId, Message>, capacity: nat, now: int)
    requires Restored(entries, stored, LAST_MESSAGE_ID + 1, capacity, now)
    ensures entries.Keys <= stored.Keys && |entries| == if |stored| <= capacity then |stored| else capacity
    ensures forall id :: id in entries ==> entries[id] == Pending(now, stored[id])
    ensures forall id, x :: id in entries && x in stored && x < id ==> x in entries
  {
    assert |entries.Keys| == |entries| && |stored.Keys| == |stored|;
    Within(entries.Keys, stored.Keys);
    if |entries| < capacity {
      assert forall id :: id in stored ==> id in entries;
      assert entries.Keys == stored.Keys;
    }
  }

  lemma NoneAbove(a: set<MessageId>, b: set<MessageId>)
    requires a <= b && |a| == |b|
    ensures a == b
  {
    Within(a, b);
  }

  lemma AddedOnce(due: seq<MessageId>, id: MessageId)
    requires id !in due && forall i, j :: 0 <= i < j < |due| ==> due[i] != due[j]
    ensures forall i, j :: 0 <= i < j < |due + [id]| ==> (due + [id])[i] != (due + [id])[j]
    ensures forall x :: x in due + [id] <==> x in due || x == id
  {
  }

  /** The messages that are due have new time, and nothing else changed. */
  ghost predicate Refreshed(entries: map<MessageId, Pending>, start: map<MessageId, Pending>, due: seq<MessageId>, end: int) {
    && entries.Keys == start.Keys
    && forall id :: id in entries ==> entries[id] == if id in due then Pending(end, start[id].message) else start[id]
  }

  lemma NothingRefreshed(start: map<MessageId, Pending>, end: int)
    ensures Refreshed(start, start, [], end)
  {
  }

  lemma UnlistedSame(entries: map<MessageId, Pending>, start: map<MessageId, Pending>, due: seq<MessageId>, end: int,
                     id: MessageId)
    requires Refreshed(entries, start, due, end) && id in entries && id !in due
    ensures entries[id] == start[id]
  {
  }

  lemma OneRefreshed(entries: map<MessageId, Pending>, start: map<MessageId, Pending>, due: seq<MessageId>, end: int,
                     id: MessageId)
    requires Refreshed(entries, start, due, end) && id in entries && id !in due
    ensures Refreshed(entries[id := Pending(end, entries[id].message)], start, due + [id], end)
  {
  }

  lemma RefreshedMeans(entries: map<MessageId, Pending>, start: map<MessageId, Pending>, due: seq<MessageId>, end: int)
    requires Refreshed(entries, start, due, end)
    ensures Messages(entries) == Messages(start) && |entries| == |start| && entries.Keys == start.Keys
    ensures forall id :: id in entries ==>
      entries[id].endOfValidity == if id in due then end else start[id].endOfValidity
  {
    assert |entries.Keys| == |entries| && |start.Keys| == |start|;
  }

  /** Stepping past an identifier in use comes closer to a free one. */
  lemma NextFurther(from: int, last: MessageId, free: MessageId)
    requires 0 <= from <= LAST_MESSAGE_ID && last != free && Ahead(from, last) <= Ahead(from, free)
    ensures Ahead(from, NextId(last)) == Ahead(from, last) + 1
    ensures forall x: MessageId ::
      Ahead(from, x) < Ahead(from, NextId(last)) ==> Ahead(from, x) < Ahead(from, last) || x == last
  {
  }
}
