/** Recovery of the ring's head and tail from the unordered set of stored identifiers. */
module RingIndexes {
  import opened Bytes

  /** The identifier `i` places after `head`, in 32-bit wrapping arithmetic. */
  function Wrapped(head: U32, i: nat): U32 {
    (head + i) % TWO32
  }

  /** The identifiers of a ring that starts at `head` and holds `n` messages. */
  function RingIds(head: U32, n: nat): (ids: seq<U32>)
    ensures |ids| == n
    ensures forall i :: 0 <= i < n ==> ids[i] == Wrapped(head, i)
  {
    seq(n, i requires 0 <= i < n => Wrapped(head, i))
  }

  function SumOf(ids: seq<U32>): nat {
    if ids == [] then 0 else SumOf(ids[..|ids| - 1]) + ids[|ids| - 1]
  }

  function MinOf(ids: seq<U32>): U32 {
    if ids == [] then TWO32 - 1
    else var m := MinOf(ids[..|ids| - 1]); if ids[|ids| - 1] < m then ids[|ids| - 1] else m
  }

  function MaxOf(ids: seq<U32>): U32 {
    if ids == [] then 0
    else var m := MaxOf(ids[..|ids| - 1]); if ids[|ids| - 1] > m then ids[|ids| - 1] else m
  }

  datatype Indexes = Indexes(head: U32, tail: U32)

  /** Head and tail from the smallest identifier, the largest one, their sum and their number. Every intermediate
      value is an unsigned 64-bit one. */
  function Recover(minId: U32, maxId: U32, sum: U64, count: U32): Indexes
    requires count > 0
    requires maxId - minId + 1 != count ==> WrapArguments(sum, count)
  {
    if maxId - minId + 1 == count then Indexes(minId, maxId)
    else
      var total: U64 := (TWO32 - 1) * TWO32 / 2;
      var sumMissing: U64 := total - sum;
      var missing: U64 := TWO32 - count;
      var doubled: U64 := 2 * sumMissing;
      var sumHt: U64 := doubled / missing;
      var diffHt: U64 := missing + 1;
      var headTwice: U64 := sumHt + diffHt;
      var tailTwice: U64 := sumHt - diffHt;
      Indexes(headTwice / 2 % TWO32, tailTwice / 2 % TWO32)
  }

  /** What the formulas for the wrapped case need so that no intermediate value overflows or underflows. */
  predicate WrapArguments(sum: U64, count: U32) {
    && sum <= (TWO32 - 1) * TWO32 / 2
    && var missing := TWO32 - count;
       var sumMissing := (TWO32 - 1) * TWO32 / 2 - sum;
       missing + 1 <= 2 * sumMissing / missing
  }

  // ---- the arithmetic series

  /** Sum of a, a + 1, ..., b - 1. */
  function SumRange(a: nat, b: nat): nat
    requires a <= b
  {
    if a == b then 0 else SumRange(a, b - 1) + (b - 1)
  }

  lemma {:induction false} SumRangeClosed(a: nat, b: nat)
    requires a <= b
    ensures 2 * SumRange(a, b) == (b - a) * (a + b - 1)
    decreases b
  {
    if a < b {
      SumRangeClosed(a, b - 1);
      assert (b - a) * (a + b - 1) == (b - 1 - a) * (a + b - 2) + 2 * (b - 1);
    }
  }

  lemma {:induction false} SumRangeSplit(a: nat, b: nat, c: nat)
    requires a <= b <= c
    ensures SumRange(a, c) == SumRange(a, b) + SumRange(b, c)
    decreases c
  {
    if b < c {
      SumRangeSplit(a, b, c - 1);
    }
  }

  lemma WrappedCases(head: U32, i: nat)
    requires i < TWO32
    ensures Wrapped(head, i) == if head + i < TWO32 then head + i else head + i - TWO32
  {
  }

  /** Sum, minimum and maximum of the identifiers, with or without wrap-around. */
  lemma {:induction false} RingIdsMeasures(head: U32, n: nat)
    requires 0 < n < TWO32
    ensures var ids := RingIds(head, n);
      if head + n <= TWO32 then
        SumOf(ids) == SumRange(head, head + n) && MinOf(ids) == head && MaxOf(ids) == head + n - 1
      else
        && SumOf(ids) == SumRange(head, TWO32) + SumRange(0, head + n - TWO32)
        && MinOf(ids) == 0 && MaxOf(ids) == TWO32 - 1
  {
    hide Wrapped;
    var ids := RingIds(head, n);
    WrappedCases(head, n - 1);
    if n == 1 {
      assert ids[..0] == [];
      assert SumRange(head, head + 1) == SumRange(head, head) + head;
    } else {
      RingIdsMeasures(head, n - 1);
      assert ids[..n - 1] == RingIds(head, n - 1);
    }
  }

  /** The sum of a wrapped ring is the sum of all identifiers less the missing block between tail and head. */
  lemma MissingBlock(head: U32, n: nat)
    requires 0 < n < TWO32 < head + n
    ensures var tail := head + n - 1 - TWO32;
      && tail < head
      && SumOf(RingIds(head, n)) + SumRange(tail + 1, head) == (TWO32 - 1) * TWO32 / 2
      && 2 * SumRange(tail + 1, head) == (TWO32 - n) * (head + tail)
  {
    hide SumRange, SumOf, MinOf, MaxOf, RingIds;
    var tail := head + n - 1 - TWO32;
    RingIdsMeasures(head, n);
    SumRangeSplit(0, tail + 1, head);
    SumRangeSplit(0, head, TWO32);
    SumRangeClosed(0, TWO32);
    SumRangeClosed(tail + 1, head);
    assert TWO32 - n == head - (tail + 1);
  }

  lemma WrapSolves(head: U32, tail: U32, sum: nat, n: nat)
    requires tail + 1 < head && 0 < n < TWO32 && TWO32 - n == head - tail - 1
    requires sum <= (TWO32 - 1) * TWO32 / 2
    requires 2 * ((TWO32 - 1) * TWO32 / 2 - sum) / (TWO32 - n) == head + tail
    ensures WrapArguments(sum, n)
    ensures Recover(0, TWO32 - 1, sum, n) == Indexes(head, tail)
  {
    assert head + tail + (TWO32 - n + 1) == 2 * head;
    assert head + tail - (TWO32 - n + 1) == 2 * tail;
  }

  /** The sum missing from the whole range determines head + tail. */
  lemma MissingDivides(sum: nat, missing: nat, m: nat, x: nat)
    requires m > 0 && sum + missing == (TWO32 - 1) * TWO32 / 2 && 2 * missing == m * x
    ensures 2 * ((TWO32 - 1) * TWO32 / 2 - sum) / m == x
  {
    ExactDivision(m, x);
  }

  /** For every non-empty ring that does not hold all identifiers, wrapped around or not, the recovered indexes are
      the ring's head and tail: both divisions are exact and no 64-bit value overflows. */
  lemma RecoverIsExact(head: U32, n: nat)
    requires 0 < n < TWO32
    ensures var ids := RingIds(head, n);
      && SumOf(ids) < 0x1_0000_0000_0000_0000
      && (MaxOf(ids) - MinOf(ids) + 1 != n ==> WrapArguments(SumOf(ids), n))
      && Recover(MinOf(ids), MaxOf(ids), SumOf(ids), n) == Indexes(head, Wrapped(head, n - 1))
  {
    hide SumOf, MinOf, MaxOf, SumRange, WrapArguments, RingIds;
    WrappedCases(head, n - 1);
    var ids := RingIds(head, n);
    RingIdsMeasures(head, n);
    SumBelow(ids);
    if head + n > TWO32 {
      var tail := head + n - 1 - TWO32;
      MissingBlock(head, n);
      MissingDivides(SumOf(ids), SumRange(tail + 1, head), TWO32 - n, head + tail);
      WrapSolves(head, tail, SumOf(ids), n);
    }
  }

  lemma ExactDivision(m: nat, x: nat)
    requires m > 0
    ensures m * x / m == x
  {
    var q, r := m * x / m, m * x % m;
    assert m * (x - q) == r;
    AtLeastOnce(m, x - q);
  }

  lemma AtLeastOnce(m: nat, d: int)
    requires m > 0
    ensures d > 0 ==> m * d >= m
    ensures d < 0 ==> m * d < 0
  {
  }

  lemma {:induction false} SumBelow(ids: seq<U32>)
    ensures SumOf(ids) <= |ids| * (TWO32 - 1)
  {
    if ids != [] {
      SumBelow(ids[..|ids| - 1]);
    }
  }
}
