/** The token bucket that paces the transmission of queued messages. */
module Pacing {
  const MAX_TOKENS := 10
  const TOKEN_VALUE_MS := 20

  datatype Bucket = Bucket(tokens: nat, lastRefill: int)

  /** The bucket after the refill at time `now`. */
  function Refilled(b: Bucket, now: int): Bucket {
    var elapsed := now - b.lastRefill;
    if elapsed < TOKEN_VALUE_MS then b
    else
      var generated := elapsed / TOKEN_VALUE_MS;
      Bucket(if b.tokens + generated > MAX_TOKENS then MAX_TOKENS else b.tokens + generated,
             b.lastRefill + generated * TOKEN_VALUE_MS)
  }

  /** One iteration of the worker: the time of its refill, and whether it published a message that costs a token. */
  datatype Iteration = Iteration(now: int, publishes: bool)

  function After(b: Bucket, it: Iteration): Bucket
    requires it.publishes ==> Refilled(b, it.now).tokens > 0
  {
    var r := Refilled(b, it.now);
    if it.publishes then r.(tokens := r.tokens - 1) else r
  }

  /** A run of the worker: time does not go back, and nothing is published without a token. */
  ghost predicate IsRun(b: Bucket, since: int, run: seq<Iteration>)
    decreases |run|
  {
    run == [] ||
    (since <= run[0].now
     && (run[0].publishes ==> Refilled(b, run[0].now).tokens > 0)
     && IsRun(After(b, run[0]), run[0].now, run[1..]))
  }

  ghost function Bucketed(b: Bucket, since: int, run: seq<Iteration>): Bucket
    requires IsRun(b, since, run)
    decreases |run|
  {
    if run == [] then b else Bucketed(After(b, run[0]), run[0].now, run[1..])
  }

  function Published(run: seq<Iteration>): nat {
    if run == [] then 0 else (if run[0].publishes then 1 else 0) + Published(run[1..])
  }

  /** No refill of the run hit the upper bound. */
  ghost predicate Uncapped(b: Bucket, since: int, run: seq<Iteration>)
    requires IsRun(b, since, run)
    decreases |run|
  {
    run == [] ||
    (b.tokens + (run[0].now - b.lastRefill) / TOKEN_VALUE_MS <= MAX_TOKENS
     && Uncapped(After(b, run[0]), run[0].now, run[1..]))
  }

  lemma RefillBounds(b: Bucket, now: int)
    requires b.tokens <= MAX_TOKENS && b.lastRefill <= now
    ensures var r := Refilled(b, now);
      && r.tokens <= MAX_TOKENS
      && b.lastRefill <= r.lastRefill <= now < r.lastRefill + TOKEN_VALUE_MS
      && r.tokens <= b.tokens + (r.lastRefill - b.lastRefill) / TOKEN_VALUE_MS
      && (r.lastRefill - b.lastRefill) % TOKEN_VALUE_MS == 0
      && (b.tokens + (now - b.lastRefill) / TOKEN_VALUE_MS <= MAX_TOKENS ==>
            r.tokens == b.tokens + (r.lastRefill - b.lastRefill) / TOKEN_VALUE_MS)
      && (b.tokens + (now - b.lastRefill) / 20 >= 10 ==> r.tokens == 10)
  {
    var elapsed := now - b.lastRefill;
    assert elapsed == elapsed / TOKEN_VALUE_MS * TOKEN_VALUE_MS + elapsed % TOKEN_VALUE_MS;
  }

  /** Tokens left plus messages published never exceed the tokens at the start plus those generated since, and are
      equal to them as long as no refill was capped. */
  lemma {:induction false} TokensAccountFor(b: Bucket, since: int, run: seq<Iteration>)
    requires b.tokens <= MAX_TOKENS && b.lastRefill <= since && IsRun(b, since, run)
    ensures var e := Bucketed(b, since, run);
      && e.tokens <= MAX_TOKENS
      && b.lastRefill <= e.lastRefill && (e.lastRefill - b.lastRefill) % TOKEN_VALUE_MS == 0
      && e.tokens + Published(run) <= b.tokens + (e.lastRefill - b.lastRefill) / TOKEN_VALUE_MS
      && (Uncapped(b, since, run) ==>
            e.tokens + Published(run) == b.tokens + (e.lastRefill - b.lastRefill) / TOKEN_VALUE_MS)
      && (run != [] ==> e.lastRefill <= run[|run| - 1].now < e.lastRefill + TOKEN_VALUE_MS)
    decreases |run|
  {
    if run != [] {
      hide Refilled;
      RefillBounds(b, run[0].now);
      var a := After(b, run[0]);
      TokensAccountFor(a, run[0].now, run[1..]);
      assert run[1..] != [] ==> run[1..][|run| - 2] == run[|run| - 1];
    }
  }

  lemma {:induction false} TimeAdvances(b: Bucket, since: int, run: seq<Iteration>)
    requires IsRun(b, since, run) && run != []
    ensures since <= run[0].now <= run[|run| - 1].now
    decreases |run|
  {
    if |run| > 1 {
      TimeAdvances(After(b, run[0]), run[0].now, run[1..]);
    }
  }

  /** The pacing bound. From the iteration at time `s` up to and including the one at time `t`, at most ten messages
      are published plus one for every 20 ms begun in between. */
  lemma PacingBound(b: Bucket, since: int, run: seq<Iteration>)
    requires b.tokens <= MAX_TOKENS && b.lastRefill <= since && IsRun(b, since, run) && run != []
    ensures var s, t := run[0].now, run[|run| - 1].now;
      s <= t && Published(run) <= 10 + (t - s + 19) / 20
  {
    var s := run[0].now;
    var r := Refilled(b, s);
    RefillBounds(b, s);
    assert Refilled(r, s) == r;
    assert After(r, run[0]) == After(b, run[0]);
    assert IsRun(r, s, run);
    TokensAccountFor(r, s, run);
    TimeAdvances(r, s, run);
    var e := Bucketed(r, s, run);
    assert e.lastRefill - r.lastRefill <= run[|run| - 1].now - s + TOKEN_VALUE_MS - 1;
  }

  /** A message waits for its token no longer than one token's time after the last refill. */
  lemma TokenArrives(b: Bucket, now: int)
    requires b.tokens <= MAX_TOKENS && b.lastRefill <= now
    ensures Refilled(b, b.lastRefill + 20).tokens > 0
    ensures Refilled(b, now).tokens == 0 <==> b.tokens == 0 && now < b.lastRefill + 20
  {
  }
}
