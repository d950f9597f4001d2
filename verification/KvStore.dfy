/** The key-value store as decoded from flash: slot table, embedded doubly linked list, head/tail record and
    intent block, with the two invariants that the operations keep. */
module KvStore {
  import opened Bytes
  import opened SlotIds
  import opened EntryHash

  datatype Entry = Entry(key: Key, next: Link, prev: Link, value: Bytes)

  type Slots = map<Slot, Entry>

  datatype Operation = Inserting | Updating | Deleting | Shifting

  datatype Intent = Idle | Intent(op: Operation, target: Slot, first: Link, second: Link)

  datatype Store = Store(slots: Slots, head: Link, tail: Link, intent: Intent)

  datatype Code =
    | Ok
    | NotFound
    | ZmsError
    | InternalError
    | InvalidParam
    | Mismatch
    | Full
    | OutOfSpace
    | RecoveryFailed
    | IncompatibleVersion

  /** Probing from `n` meets only occupied slots before it meets slot `s`. */
  ghost predicate PathFull(slots: Slots, n: Slot, s: Slot) {
    forall x: Slot :: Before(n, x, s) ==> x in slots
  }

  /** The probe invariant: every entry can be reached from its natural slot without crossing a hole. */
  ghost predicate Probeable(h: Home, slots: Slots) {
    forall s :: s in slots ==> PathFull(slots, h(slots[s].key), s)
  }

  ghost predicate KeysUnique(slots: Slots) {
    forall a, b :: a in slots && b in slots && slots[a].key == slots[b].key ==> a == b
  }

  predicate Distinct<T(==)>(q: seq<T>) {
    forall i, j :: 0 <= i < j < |q| ==> q[i] != q[j]
  }

  function LinkAt(order: seq<Slot>, i: int): Link {
    if 0 <= i < |order| then order[i] else NULL_ID
  }

  ghost predicate Enumerates(ids: set<Slot>, order: seq<Slot>) {
    && Distinct(order)
    && forall id :: id in ids <==> id in order
  }

  /** The entry at position `i` points to the one after it and to the one before it. */
  predicate ChainedAt(slots: Slots, order: seq<Slot>, i: int) {
    && 0 <= i < |order|
    && order[i] in slots
    && slots[order[i]].next == LinkAt(order, i + 1)
    && slots[order[i]].prev == LinkAt(order, i - 1)
  }

  /** `order` is the list from head to tail: it holds every occupied slot once, and each entry points to the
      one after it and to the one before it. */
  ghost predicate Linked(s: Store, order: seq<Slot>) {
    && Enumerates(s.slots.Keys, order)
    && (forall i :: 0 <= i < |order| ==> ChainedAt(s.slots, order, i))
    && s.head == LinkAt(order, 0)
    && s.tail == LinkAt(order, |order| - 1)
  }

  /** A store between two operations. */
  ghost predicate WellFormed(h: Home, s: Store, order: seq<Slot>) {
    && Probeable(h, s.slots)
    && KeysUnique(s.slots)
    && Linked(s, order)
    && s.intent == Idle
  }

  datatype Item = Item(key: Key, value: Bytes)

  /** What the store means: its entries in list order. */
  function Contents(slots: Slots, order: seq<Slot>): (items: seq<Item>)
    requires forall id :: id in order ==> id in slots
    ensures |items| == |order|
    ensures forall i :: 0 <= i < |order| ==> items[i] == Item(slots[order[i]].key, slots[order[i]].value)
  {
    seq(|order|, i requires 0 <= i < |order| => Item(slots[order[i]].key, slots[order[i]].value))
  }
}
