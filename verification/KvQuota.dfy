/** The bytes that the values of one namespace take up, and how the operations change that sum. */
module KvQuota {
  import opened Bytes
  import opened EntryHash
  import opened KvStore
  import opened KvList
  import opened KvOperations

  function Used(items: seq<Item>, ns: Name): nat {
    if items == [] then 0
    else (if items[0].key.ns == ns then |items[0].value| else 0) + Used(items[1..], ns)
  }

  function SizeAt(items: seq<Item>, i: nat, ns: Name): nat
    requires i < |items|
  {
    if items[i].key.ns == ns then |items[i].value| else 0
  }

  lemma {:induction false} UsedConcat(a: seq<Item>, b: seq<Item>, ns: Name)
    ensures Used(a + b, ns) == Used(a, ns) + Used(b, ns)
  {
    if a == [] {
      assert a + b == b;
    } else {
      assert (a + b)[1..] == a[1..] + b;
      UsedConcat(a[1..], b, ns);
    }
  }

  lemma UsedSplit(items: seq<Item>, i: nat, ns: Name)
    requires i < |items|
    ensures Used(items, ns) == Used(items[..i], ns) + SizeAt(items, i, ns) + Used(items[i + 1..], ns)
  {
    assert items == items[..i] + ([items[i]] + items[i + 1..]);
    UsedConcat(items[..i], [items[i]] + items[i + 1..], ns);
    UsedConcat([items[i]], items[i + 1..], ns);
  }

  /** Size of the value stored under a key, zero if there is none. */
  function OldSize(items: seq<Item>, k: Key): nat {
    var i := Position(items, k);
    if i < |items| then |items[i].value| else 0
  }

  /** The sum of a namespace moves by the value written or removed in it, and by nothing else. */
  lemma UsedAfter(items: seq<Item>, op: Op, ns: Name)
    ensures op.key.ns != ns ==> Used(Outcome(items, op), ns) == Used(items, ns)
    ensures op.key.ns == ns ==>
      && OldSize(items, op.key) <= Used(items, ns)
      && Used(Outcome(items, op), ns)
         == Used(items, ns) - OldSize(items, op.key) + (if op.Put? then |op.value| else 0)
  {
    var i := Position(items, op.key);
    if i < |items| {
      UsedSplit(items, i, ns);
      match op {
        case Put(k, value) =>
          var t := items[i := Item(k, value)];
          UsedSplit(t, i, ns);
          assert t[..i] == items[..i] && t[i + 1..] == items[i + 1..];
        case Remove(k) =>
          UsedConcat(items[..i], items[i + 1..], ns);
      }
    } else if op.Put? {
      UsedConcat(items, [Item(op.key, op.value)], ns);
      assert Used([Item(op.key, op.value)], ns) == if op.key.ns == ns then |op.value| else 0;
    }
  }

  function Max(a: nat, b: nat): nat {
    if a < b then b else a
  }

  /** A difference that stops at zero. */
  function Less(a: nat, b: nat): nat {
    if a >= b then a - b else 0
  }

  /** Usage once the entry about to be replaced is accounted for. */
  function Synced(usage: nat, items: seq<Item>, k: Key): nat {
    Max(usage, OldSize(items, k))
  }

  /** Usage if a value of this size were stored under the key. */
  function Projected(usage: nat, items: seq<Item>, k: Key, size: nat): nat {
    Synced(usage, items, k) + size - OldSize(items, k)
  }

  /** The usage that a namespace with a quota keeps, beside the items of the store. */
  datatype Account = Account(usage: nat, items: seq<Item>)

  /** One operation on the store, through this namespace or another; without `room` it fails before it writes. */
  function Charged(maxQuota: nat, ns: Name, a: Account, op: Op, room: bool): Account {
    if !room then a
    else if op.key.ns != ns then Account(a.usage, Outcome(a.items, op))
    else
      match op
      case Put(k, value) =>
        if Projected(a.usage, a.items, k, |value|) > maxQuota then Account(Synced(a.usage, a.items, k), a.items)
        else Account(Projected(a.usage, a.items, k, |value|), Outcome(a.items, op))
      case Remove(k) =>
        Account(Less(a.usage, OldSize(a.items, k)), Outcome(a.items, op))
  }

  function ChargedAll(maxQuota: nat, ns: Name, a: Account, ops: seq<(Op, bool)>): Account
    decreases |ops|
  {
    if ops == [] then a else ChargedAll(maxQuota, ns, Charged(maxQuota, ns, a, ops[0].0, ops[0].1), ops[1..])
  }

  /** Over any run of operations of all namespaces, the usage kept is the sum of the namespace's value sizes, and never
      more than the quota or what was in use when the namespace was opened. */
  lemma {:induction false} UsageConserved(maxQuota: nat, ns: Name, a: Account, ops: seq<(Op, bool)>)
    requires a.usage == Used(a.items, ns)
    ensures var e := ChargedAll(maxQuota, ns, a, ops); e.usage == Used(e.items, ns) <= Max(maxQuota, a.usage)
    decreases |ops|
  {
    if ops != [] {
      hide Used, Outcome, OldSize;
      UsedAfter(a.items, ops[0].0, ns);
      UsageConserved(maxQuota, ns, Charged(maxQuota, ns, a, ops[0].0, ops[0].1), ops[1..]);
    }
  }
}
