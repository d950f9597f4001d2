/** The identifier space of the flash map and the cyclic range of slots that key-value entries use. */
module SlotIds {
  const NULL_ID := 0xFFFF_FFFF
  const VERSION_ID := NULL_ID - 1
  const HEAD_AND_TAIL_ID := VERSION_ID - 1
  const INTENT_ID := HEAD_AND_TAIL_ID - 1
  const MAX_ID := INTENT_ID - 1
  const MIN_ID := 0x1FFFF + 1
  const RANGE := MAX_ID - MIN_ID + 1

  type Id = x: int | 0 <= x <= NULL_ID
  type Slot = x: int | MIN_ID <= x <= MAX_ID witness MIN_ID

  /** What a list pointer may hold: a slot, or the null identifier. */
  type Link = x: int | x == NULL_ID || MIN_ID <= x <= MAX_ID witness NULL_ID

  predicate IsSlot(x: int) {
    MIN_ID <= x <= MAX_ID
  }

  /** The slot probed after `x`: one up, wrapping from the last slot to the first. */
  function Next(x: Slot): Slot {
    if x + 1 > MAX_ID then MIN_ID else x + 1
  }

  /** Number of probes that lead from slot `a` to slot `b`. */
  function Dist(a: Slot, b: Slot): nat {
    if b >= a then b - a else RANGE - (a - b)
  }

  /** Probing from `a` visits `x` strictly before `b`. */
  predicate Before(a: Slot, x: Slot, b: Slot) {
    Dist(a, x) < Dist(a, b)
  }
}
