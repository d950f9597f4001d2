/** Removal of the stored properties that the server no longer lists. */
module PropertiesPurge {
  import opened Bytes
  import opened SlotIds
  import opened EntryHash
  import opened KvStore
  import opened KvPrograms
  import opened KvList
  import opened KvQuota
  import opened KvFlash
  import opened Buffers
  import opened KeyValueStorage

  const SEPARATOR: Byte := 59

  datatype Ownership = Device | Server

  /** Position of the first separator of a stored key, or its length if there is none. */
  function SeparatorAt(key: Bytes): (i: nat)
    ensures i <= |key| && SEPARATOR !in key[..i]
    ensures i < |key| ==> key[i] == SEPARATOR
  {
    if key == [] || key[0] == SEPARATOR then 0 else 1 + SeparatorAt(key[1..])
  }

  /** A stored key is an interface name and a path around the separator. */
  predicate WellNamed(key: Bytes) {
    SeparatorAt(key) < |key|
  }

  /** Whether a stored property may stay: its interface is known and owned by the device, or it is owned by the
      server and its full path is on the list of allowed properties. */
  predicate Kept(key: Bytes, introspection: map<Bytes, Ownership>, allowed: seq<Bytes>) {
    var i := SeparatorAt(key);
    var interfaceName := key[..i];
    && interfaceName in introspection
    && (introspection[interfaceName] == Device
        || (i < |key| && (interfaceName + key[i + 1..]) in allowed))
  }

  /** The items without those of the namespace that may not stay. */
  function Purged(items: seq<Item>, ns: Name, introspection: map<Bytes, Ownership>, allowed: seq<Bytes>): seq<Item> {
    if items == [] then []
    else
      var rest := Purged(items[1..], ns, introspection, allowed);
      if items[0].key.ns != ns || Kept(items[0].key.name, introspection, allowed) then [items[0]] + rest else rest
  }

  lemma {:induction false} PurgedConcat(a: seq<Item>, b: seq<Item>, ns: Name, introspection: map<Bytes, Ownership>,
                                        allowed: seq<Bytes>)
    ensures Purged(a + b, ns, introspection, allowed)
         == Purged(a, ns, introspection, allowed) + Purged(b, ns, introspection, allowed)
  {
    if a == [] {
      assert a + b == b;
    } else {
      assert (a + b)[1..] == a[1..] + b;
      PurgedConcat(a[1..], b, ns, introspection, allowed);
    }
  }

  /** Deleting an entry that may not stay does not change what the purge has to reach. */
  lemma PurgedWithout(items: seq<Item>, i: nat, ns: Name, introspection: map<Bytes, Ownership>, allowed: seq<Bytes>)
    requires i < |items| && items[i].key.ns == ns && !Kept(items[i].key.name, introspection, allowed)
    ensures Purged(Without(items, i), ns, introspection, allowed) == Purged(items, ns, introspection, allowed)
  {
    assert items == items[..i] + ([items[i]] + items[i + 1..]);
    PurgedConcat(items[..i], [items[i]] + items[i + 1..], ns, introspection, allowed);
    PurgedConcat([items[i]], items[i + 1..], ns, introspection, allowed);
    PurgedConcat(items[..i], items[i + 1..], ns, introspection, allowed);
    assert Purged([items[i]], ns, introspection, allowed) == [];
  }

  lemma {:induction false} PurgedWhenKept(items: seq<Item>, ns: Name, introspection: map<Bytes, Ownership>,
                                          allowed: seq<Bytes>)
    requires forall x :: 0 <= x < |items| && items[x].key.ns == ns ==> Kept(items[x].key.name, introspection, allowed)
    ensures Purged(items, ns, introspection, allowed) == items
  {
    if items != [] {
      PurgedWhenKept(items[1..], ns, introspection, allowed);
    }
  }

  /** What is left is a subsequence: exactly the items of other namespaces and the ones that may stay. */
  lemma {:induction false} PurgedHolds(items: seq<Item>, ns: Name, introspection: map<Bytes, Ownership>,
                                       allowed: seq<Bytes>, item: Item)
    ensures item in Purged(items, ns, introspection, allowed)
       <==> item in items && (item.key.ns != ns || Kept(item.key.name, introspection, allowed))
  {
    if items != [] {
      PurgedHolds(items[1..], ns, introspection, allowed, item);
      assert item in items <==> item == items[0] || item in items[1..];
    }
  }

  /** What this means for a property: one of an unknown interface goes, one that the device owns stays, and one that the
      server owns stays exactly if its name and path are on the list. */
  lemma PurgedByOwner(items: seq<Item>, ns: Name, introspection: map<Bytes, Ownership>, allowed: seq<Bytes>, item: Item,
                      interfaceName: Bytes, path: Bytes)
    requires item in items && item.key.ns == ns
    requires 59 !in interfaceName && item.key.name == interfaceName + [59] + path
    ensures var left := Purged(items, ns, introspection, allowed);
      && (interfaceName !in introspection ==> item !in left)
      && (interfaceName in introspection && introspection[interfaceName] == Device ==> item in left)
      && (interfaceName in introspection && introspection[interfaceName] == Server ==>
            (item in left <==> interfaceName + path in allowed))
  {
    PurgedHolds(items, ns, introspection, allowed, item);
    NameAndPath(interfaceName, path);
  }

  lemma NameAndPath(interfaceName: Bytes, path: Bytes)
    requires 59 !in interfaceName
    ensures var key := interfaceName + [59] + path;
      SeparatorAt(key) == |interfaceName| && key[..|interfaceName|] == interfaceName && key[|interfaceName| + 1..] == path
  {
    var key := interfaceName + [59] + path;
    assert key[|interfaceName|] == 59 && forall k :: 0 <= k < |interfaceName| ==> key[k] == interfaceName[k];
  }

  /** The entries of the namespace among the first `n` items may all stay. */
  ghost predicate KeptUpTo(items: seq<Item>, n: int, ns: Name, introspection: map<Bytes, Ownership>,
                           allowed: seq<Bytes>)
  {
    n <= |items| &&
    forall x :: 0 <= x < n && items[x].key.ns == ns ==> Kept(items[x].key.name, introspection, allowed)
  }

  /** Outcome of one visit: the entry stays, or it is gone and the iterator stands before the next one. */
  ghost predicate Visited(items: seq<Item>, pos: nat, items': seq<Item>, pos': int, ns: Name,
                          introspection: map<Bytes, Ownership>, allowed: seq<Bytes>)
    requires pos < |items|
  {
    if Kept(items[pos].key.name, introspection, allowed) then items' == items && pos' == pos
    else
      && items' == Without(items, pos)
      && if NoMatch(items, ns, pos) then pos' == -1 else NextMatch(items, ns, pos, pos' + 2)
  }

  /** Everything at or before the iterator may stay after a visit, also when it was sent back to the start. */
  lemma VisitKeeps(items: seq<Item>, pos: nat, items': seq<Item>, pos': int, ns: Name,
                   introspection: map<Bytes, Ownership>, allowed: seq<Bytes>)
    requires pos < |items| && items[pos].key.ns == ns && KeptUpTo(items, pos, ns, introspection, allowed)
    requires Visited(items, pos, items', pos', ns, introspection, allowed)
    ensures KeptUpTo(items', pos' + 1, ns, introspection, allowed)
    ensures Purged(items', ns, introspection, allowed) == Purged(items, ns, introspection, allowed)
    ensures forall x :: x in items' ==> x in items
    ensures |items'| < |items| || (items' == items && pos' == pos)
  {
    hide Kept, Purged;
    if !Kept(items[pos].key.name, introspection, allowed) {
      PurgedWithout(items, pos, ns, introspection, allowed);
      forall x | 0 <= x < pos' + 1
        ensures items'[x].key.ns == ns ==> Kept(items'[x].key.name, introspection, allowed)
      {
        assert items'[x] == items[if x < pos then x else x + 1];
      }
    }
  }

  /** The entries skipped on the way to the next one belong to other namespaces. */
  lemma AdvanceKeeps(items: seq<Item>, pos: int, j: int, ns: Name, introspection: map<Bytes, Ownership>,
                     allowed: seq<Bytes>, found: bool)
    requires KeptUpTo(items, pos + 1, ns, introspection, allowed)
    requires if found then NextMatch(items, ns, pos, j) else NoMatch(items, ns, pos)
    ensures KeptUpTo(items, if found then j else |items|, ns, introspection, allowed)
    ensures found ==> pos < j < |items| && 0 <= j && items[j].key.ns == ns
  {
  }

  /** Deletes the current property if it may not stay. */
  method PurgeServerProperty(iter: Iterator, interfaceName: Bytes, path: Bytes, introspection: map<Bytes, Ownership>,
                             allowed: seq<Bytes>, ghost items: seq<Item>, ghost order: seq<Slot>, ghost pos: nat)
      returns (ghost items': seq<Item>, ghost order': seq<Slot>, ghost pos': int)
    requires AtPosition(iter.kv.flash, items, order, pos, iter.currentId)
    requires pos < |items| && items[pos].key.ns == iter.kv.ns
    requires WellNamed(items[pos].key.name)
    requires var i := SeparatorAt(items[pos].key.name);
      interfaceName == items[pos].key.name[..i] && path == items[pos].key.name[i + 1..]
    modifies iter, iter.kv`usage, iter.kv.flash
    ensures AtPosition(iter.kv.flash, items', order', pos', iter.currentId)
    ensures Visited(items, pos, items', pos', iter.kv.ns, introspection, allowed)
    ensures iter.kv.maxQuota > 0 && old(iter.kv.usage) == Used(items, iter.kv.ns) ==>
      iter.kv.usage == Used(items', iter.kv.ns)
    ensures SameElsewhere(old(iter.kv.flash.data), iter.kv.flash.data)
  {
    hide AtPosition, Stands, NextMatch, NoMatch, Used, Resolve, SameElsewhere;
    SameRefl(iter.kv.flash.data);
    var code;
    if interfaceName !in introspection {
      PositionStands(iter.kv.flash, items, order, pos, iter.currentId);
      code, order', pos' := iter.Delete(items, order, pos);
      return Without(items, pos), order', pos';
    }
    if introspection[interfaceName] != Server {
      return items, order, pos;
    }
    var property := interfaceName + path;
    var node := 0;
    while node < |allowed|
      invariant 0 <= node <= |allowed| && property !in allowed[..node]
    {
      if allowed[node] == property {
        return items, order, pos;
      }
      node := node + 1;
    }
    PositionStands(iter.kv.flash, items, order, pos, iter.currentId);
    code, order', pos' := iter.Delete(items, order, pos);
    return Without(items, pos), order', pos';
  }

  /** Walks over the stored properties and deletes those that may not stay. The walk ends although a deletion can
      move entries and can send the iterator back to the start. A key without a separator ends it early, and without
      recovery of a pending operation it does not begin. */
  method PurgeServerProperties(kv: KeyValue, introspection: map<Bytes, Ownership>, allowed: seq<Bytes>,
                               ghost items: seq<Item>) returns (done: bool, ghost left: seq<Item>)
    requires Opened(kv.flash, items)
    modifies kv`usage, kv.flash
    ensures old(Resolve(kv.flash.Home(), kv.flash.Store())).code == Ok ==> Steady(kv.flash, left)
    ensures old(Resolve(kv.flash.Home(), kv.flash.Store())).code != Ok ==> !done && left == items
    ensures done ==> left == Purged(items, kv.ns, introspection, allowed)
    ensures old(Resolve(kv.flash.Home(), kv.flash.Store())).code == Ok ==>
      (forall x :: x in items && x.key.ns == kv.ns ==> WellNamed(x.key.name)) ==> done
    ensures Purged(left, kv.ns, introspection, allowed) == Purged(items, kv.ns, introspection, allowed)
    ensures kv.maxQuota > 0 && old(kv.usage) == Used(items, kv.ns) ==> kv.usage == Used(left, kv.ns)
    ensures SameElsewhere(old(kv.flash.data), kv.flash.data)
  {
    hide AtPosition, Used, Purged, Steady, Kept, SeparatorAt, KeptUpTo, Visited, NextMatch, NoMatch, WellFormedImage,
      Decode, Enumerates, Without, Stands, Opened, Resolve, SameElsewhere;
    left := items;
    ghost var order := FirstStanding(kv.flash, items);
    var iter := new Iterator(kv);
    ghost var pos := -1;
    var code;
    code, pos := iter.Next(left, order, pos);
    if code == RecoveryFailed {
      return false, left;
    }
    NothingVisited(items, kv.ns, introspection, allowed);
    AdvanceKeeps(left, -1, pos, kv.ns, introspection, allowed, code == Ok);
    while code == Ok
      invariant SameElsewhere(old(kv.flash.data), kv.flash.data)
      invariant AtPosition(kv.flash, left, order, pos, iter.currentId)
      invariant code == Ok ==> 0 <= pos < |left| && left[pos].key.ns == kv.ns
      invariant KeptUpTo(left, if code == Ok then pos else |left|, kv.ns, introspection, allowed)
      invariant Purged(left, kv.ns, introspection, allowed) == Purged(items, kv.ns, introspection, allowed)
      invariant forall x :: x in left ==> x in items
      invariant kv.maxQuota > 0 && old(kv.usage) == Used(items, kv.ns) ==> kv.usage == Used(left, kv.ns)
      decreases |left|, if code == Ok then |left| - pos else -1
    {
      assert left[pos] in left;
      ghost var data := kv.flash.data;
      PositionStands(kv.flash, left, order, pos, iter.currentId);
      var got, buffer, size := iter.Get(NoBuffer, left, order, pos);
      PositionStands(kv.flash, left, order, pos, iter.currentId);
      SameTrans(old(kv.flash.data), data, kv.flash.data);
      data := kv.flash.data;
      got, buffer, size := iter.Get(Room(size), left, order, pos);
      SameTrans(old(kv.flash.data), data, kv.flash.data);
      data := kv.flash.data;
      var key := buffer[..size - 1];
      var i := SeparatorAt(key);
      if i == |key| {
        PositionIsSteady(kv.flash, left, order, pos, iter.currentId);
        return false, left;
      }
      ghost var before, p := left, pos;
      left, order, pos := PurgeServerProperty(iter, key[..i], key[i + 1..], introspection, allowed, left, order, pos);
      SameTrans(old(kv.flash.data), data, kv.flash.data);
      data := kv.flash.data;
      VisitKeeps(before, p, left, pos, kv.ns, introspection, allowed);
      ghost var q := pos;
      PositionStands(kv.flash, left, order, pos, iter.currentId);
      code, pos := iter.Next(left, order, pos);
      SameTrans(old(kv.flash.data), data, kv.flash.data);
      AdvanceKeeps(left, q, pos, kv.ns, introspection, allowed, code == Ok);
    }
    AllKept(left, kv.ns, introspection, allowed);
    PositionIsSteady(kv.flash, left, order, pos, iter.currentId);
    return true, left;
  }

  lemma NothingVisited(items: seq<Item>, ns: Name, introspection: map<Bytes, Ownership>, allowed: seq<Bytes>)
    ensures KeptUpTo(items, 0, ns, introspection, allowed)
  {
  }

  lemma AllKept(items: seq<Item>, ns: Name, introspection: map<Bytes, Ownership>, allowed: seq<Bytes>)
    requires KeptUpTo(items, |items|, ns, introspection, allowed)
    ensures Purged(items, ns, introspection, allowed) == items
  {
    PurgedWhenKept(items, ns, introspection, allowed);
  }
}
