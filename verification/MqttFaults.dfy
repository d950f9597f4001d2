/** Runs of the protocol that lose a message, by a power cut and without one, and runs that hand a message over as often as
    one likes, with a cache that is full and with one that a reboot emptied. */
module MqttFaults {
  import opened MqttStorage
  import opened MqttProtocol
  import opened MqttInvariant
  import opened MqttExactlyOnce
  import MqttCaching

  lemma RunStep(s: State, step: Step, rest: seq<Step>)
    requires Enabled(s, step) && IsRun(Next(s, step), rest)
    ensures IsRun(s, [step] + rest) && End(s, [step] + rest) == End(Next(s, step), rest)
  {
    assert ([step] + rest)[1..] == rest;
  }

  lemma {:induction false} RunConcat(s: State, a: seq<Step>, b: seq<Step>)
    requires IsRun(s, a) && IsRun(End(s, a), b)
    ensures IsRun(s, a + b) && End(s, a + b) == End(End(s, a), b)
    decreases |a|
  {
    hide Next, Enabled;
    if a == [] {
      assert a + b == b;
    } else {
      assert (a + b)[1..] == a[1..] + b;
      RunConcat(Next(s, a[0]), a[1..], b);
    }
  }

  lemma OneStep(s: State, step: Step)
    requires Enabled(s, step)
    ensures IsRun(s, [step]) && End(s, [step]) == Next(s, step)
  {
    hide Next, Enabled;
    RunStep(s, step, []);
    assert [step] + [] == [step];
  }

  lemma TwoSteps(s: State, a: Step, b: Step)
    requires Enabled(s, a) && Enabled(Next(s, a), b)
    ensures IsRun(s, [a, b]) && End(s, [a, b]) == Next(Next(s, a), b)
  {
    hide Next, Enabled;
    OneStep(Next(s, a), b);
    RunStep(s, a, [b]);
    assert [a] + [b] == [a, b];
  }

  lemma FiveSteps(s: State, a: Step, b: Step, c: Step, d: Step, e: Step) returns (t: State)
    requires Enabled(s, a)
    requires Enabled(Next(s, a), b)
    requires Enabled(Next(Next(s, a), b), c)
    requires Enabled(Next(Next(Next(s, a), b), c), d)
    requires Enabled(Next(Next(Next(Next(s, a), b), c), d), e)
    ensures t == Next(Next(Next(Next(Next(s, a), b), c), d), e)
    ensures IsRun(s, [a, b, c, d, e]) && End(s, [a, b, c, d, e]) == t
  {
    hide Next, Enabled;
    var s1 := Next(s, a);
    var s2 := Next(s1, b);
    var s3 := Next(s2, c);
    var s4 := Next(s3, d);
    t := Next(s4, e);
    RunStep(s4, e, []);
    RunStep(s3, d, [e]);
    RunStep(s2, c, [d, e]);
    RunStep(s1, b, [c, d, e]);
    RunStep(s, a, [b, c, d, e]);
  }

  /** Connected in the first session, with nothing sent yet. */
  function Started(capacity: nat): State {
    Initial(capacity).(connected := true, session := 1)
  }

  lemma Starts(capacity: nat)
    ensures IsRun(Initial(capacity), [Renew, Clear([])])
    ensures End(Initial(capacity), [Renew, Clear([])]) == Started(capacity)
  {
    OneStep(Initial(capacity), Renew);
    OneStep(Next(Initial(capacity), Renew), Clear([]));
    assert [Renew] + [Clear([])] == [Renew, Clear([])];
    RunConcat(Initial(capacity), [Renew], [Clear([])]);
  }

  /** The first `k` messages are stored and handed over, and none of the PUBRECs has arrived yet. */
  function Filled(capacity: nat, k: nat): State
    requires k <= MqttCaching.LAST_MESSAGE_ID
  {
    if k == 0 then Started(capacity)
    else
      var s := Filled(capacity, k - 1);
      s.(broker := s.broker[k := Unreceived(k - 1)], next := k, cache := s.cache[k := Held(k - 1, 1)],
         toBroker := s.toBroker + [Received(k)], handed := s.handed + [k - 1])
  }

  lemma {:induction false} FilledHolds(capacity: nat, k: nat)
    requires k <= MqttCaching.LAST_MESSAGE_ID
    ensures var s := Filled(capacity, k);
      && s == Started(capacity).(broker := s.broker, next := k, cache := s.cache, toBroker := s.toBroker,
                                 handed := s.handed)
      && (forall id: MessageId :: id in s.cache <==> id <= k) && (forall id: MessageId :: id in s.broker <==> id <= k)
      && |s.cache| == k && (forall m :: m in s.handed ==> m < k)
  {
    if k > 0 {
      FilledHolds(capacity, k - 1);
    }
  }

  /** A new message is stored and handed over. */
  lemma StoredFirst(s: State, id: MessageId)
    requires s.connected && s.toDevice == [] && s.phase == Ready && id !in s.broker && id !in s.cache
    requires |s.cache| < s.capacity
    ensures var run := [Send(id), Receive, Work, Work, Work];
      && IsRun(s, run)
      && End(s, run) == s.(broker := s.broker[id := Unreceived(s.next)], next := s.next + 1,
                           cache := s.cache[id := Held(s.next, s.session)], toBroker := s.toBroker + [Received(id)],
                           handed := s.handed + [s.next])
  {
    var s2 := Next(Next(s, Send(id)), Receive);
    assert s2 == s.(broker := s.broker[id := Unreceived(s.next)], next := s.next + 1, phase := Acking(id, s.next));
    var t := FiveSteps(s, Send(id), Receive, Work, Work, Work);
  }

  lemma FillOne(capacity: nat, k: nat)
    requires k < capacity && k < MqttCaching.LAST_MESSAGE_ID
    ensures var s, run := Filled(capacity, k), [Send(k + 1), Receive, Work, Work, Work];
      IsRun(s, run) && End(s, run) == Filled(capacity, k + 1)
  {
    hide Next, Enabled, IsRun, End;
    FilledHolds(capacity, k);
    StoredFirst(Filled(capacity, k), k + 1);
  }

  lemma {:induction false} Fill(capacity: nat, k: nat) returns (run: seq<Step>)
    requires k <= capacity && k <= MqttCaching.LAST_MESSAGE_ID
    ensures IsRun(Initial(capacity), run) && End(Initial(capacity), run) == Filled(capacity, k) && KeepsEntries(run)
    decreases k
  {
    hide Next, Enabled, IsRun, End;
    if k == 0 {
      run := [Renew, Clear([])];
      Starts(capacity);
    } else {
      var rest := Fill(capacity, k - 1);
      FillOne(capacity, k - 1);
      RunConcat(Initial(capacity), rest, [Send(k), Receive, Work, Work, Work]);
      run := rest + [Send(k), Receive, Work, Work, Work];
    }
  }

  // ---- lost messages

  /** The power goes between the PUBREC of the first message and storing it. */
  function Halfway(capacity: nat): State {
    Initial(capacity).(broker := map[1 := Unreceived(0)], next := 1, toBroker := [Received(1)], session := 1, crashes := 1,
                       interrupted := {0})
  }

  lemma CutBeforeStoring(capacity: nat)
    ensures var run := [Send(1), Receive] + ([Work, Crash({})] + [TakeReceived]);
      && IsRun(Started(capacity), run)
      && End(Started(capacity), run) == Halfway(capacity).(broker := map[1 := Released(0)], toBroker := [], cut := {0})
  {
    hide IsRun, End;
    var s := Started(capacity);
    var s2 := Acked(s);
    CutInside(s2, capacity);
    OneStep(Halfway(capacity), TakeReceived);
    RunConcat(s2, [Work, Crash({})], [TakeReceived]);
    RunConcat(s, [Send(1), Receive], [Work, Crash({})] + [TakeReceived]);
  }

  /** The first message is taken. */
  lemma Acked(s: State) returns (t: State)
    requires s.connected && s.toDevice == [] && s.phase == Ready && s.broker == map[] && s.cache == map[] && s.next == 0
    ensures IsRun(s, [Send(1), Receive]) && End(s, [Send(1), Receive]) == t
    ensures t == s.(broker := map[1 := Unreceived(0)], next := 1, phase := Acking(1, 0))
  {
    hide IsRun, End;
    t := Next(Next(s, Send(1)), Receive);
    TwoSteps(s, Send(1), Receive);
  }

  lemma CutInside(s: State, capacity: nat)
    requires s == Started(capacity).(broker := map[1 := Unreceived(0)], next := 1, phase := Acking(1, 0))
    ensures IsRun(s, [Work, Crash({})]) && End(s, [Work, Crash({})]) == Halfway(capacity)
  {
    hide IsRun, End;
    TwoSteps(s, Work, Crash({}));
  }

  lemma CompletedUnseen(s: State)
    requires !s.connected && s.phase == Ready && s.toBroker == [] && s.cache == map[] && s.broker == map[1 := Released(0)]
    ensures var run := [Resume([Release(1)]), Receive, Receive, Work, TakeComplete];
      && IsRun(s, run) && End(s, run).completed == s.completed + {0} && End(s, run).handed == s.handed
  {
    var s2 := Next(Next(s, Resume([Release(1)])), Receive);
    assert s2 == s.(connected := true, toDevice := [Release(1)]);
    var s4 := Next(Next(s2, Receive), Work);
    assert s4 == s2.(toDevice := [], toBroker := [Complete(1)]);
    var t := FiveSteps(s, Resume([Release(1)]), Receive, Receive, Work, TakeComplete);
  }

  /** A power cut at the wrong moment does lose a message: once the PUBREC is out the broker only releases it, and
      completes it although the device never stored it and the application never saw it. */
  lemma CrashLosesMessage(capacity: nat) returns (run: seq<Step>)
    ensures IsRun(Initial(capacity), run) && KeepsEntries(run)
    ensures End(Initial(capacity), run).completed == {0} && End(Initial(capacity), run).handed == []
  {
    hide Next, Enabled, IsRun, End;
    var a := [Send(1), Receive] + ([Work, Crash({})] + [TakeReceived]);
    var b := [Resume([Release(1)]), Receive, Receive, Work, TakeComplete];
    Starts(capacity);
    CutBeforeStoring(capacity);
    CompletedUnseen(Halfway(capacity).(broker := map[1 := Released(0)], toBroker := [], cut := {0}));
    RunConcat(Started(capacity), a, b);
    RunConcat(Initial(capacity), [Renew, Clear([])], a + b);
    run := [Renew, Clear([])] + (a + b);
  }

  /** A first message was stored and handed over; then the broker lost the session, and the CONNACK that says so was lost
      with its connection. */
  function Unaware(capacity: nat): State {
    Initial(capacity).(next := 1, session := 2, cache := map[1 := Held(0, 1)], handed := [0], unheard := 1)
  }

  lemma StaleEntryLeft(capacity: nat)
    ensures var s, run := Filled(capacity, 1), [Disconnect, Renew, Disconnect];
      IsRun(s, run) && End(s, run) == Unaware(capacity)
  {
    var s := Stored(capacity);
    StoredIsFilled(capacity);
    var s1 := Next(s, Disconnect);
    var s2 := Next(s1, Renew);
    OneStep(s2, Disconnect);
    RunStep(s1, Renew, [Disconnect]);
    RunStep(s, Disconnect, [Renew, Disconnect]);
    assert [Renew] + [Disconnect] == [Renew, Disconnect];
    assert [Disconnect] + [Renew, Disconnect] == [Disconnect, Renew, Disconnect];
  }

  lemma DuplicateAssumed(capacity: nat) returns (t: State)
    ensures var s, run := Unaware(capacity), [Resume([]), Receive, Send(1), Receive, Work]; IsRun(s, run) && End(s, run) == t
    ensures t == Unaware(capacity).(connected := true, broker := map[1 := Unreceived(1)], next := 2,
                                    toBroker := [Received(1)])
  {
    var s := Unaware(capacity);
    var s2 := Next(Next(s, Resume([])), Receive);
    assert s2 == s.(connected := true);
    t := FiveSteps(s, Resume([]), Receive, Send(1), Receive, Work);
  }

  lemma ShadowCompleted(capacity: nat, t: State)
    requires t == Unaware(capacity).(connected := true, broker := map[1 := Unreceived(1)], next := 2,
                                     toBroker := [Received(1)])
    ensures var run := [TakeReceived, Receive, Work, Work, TakeComplete];
      && IsRun(t, run) && End(t, run).completed == {1} && End(t, run).handed == [0] && End(t, run).crashes == 0
  {
    var s2 := Next(Next(t, TakeReceived), Receive);
    assert s2 == t.(broker := map[1 := Released(1)], toBroker := [], shadowed := {1}, phase := Forgetting(1));
    var u := FiveSteps(t, TakeReceived, Receive, Work, Work, TakeComplete);
  }

  /** No crash is needed to lose a message. When the CONNACK of a new session is lost, the old session's entry stays, the
      first message under its identifier is taken for a duplicate, and the broker completes it unseen. */
  lemma LostConnackLosesMessage(capacity: nat) returns (run: seq<Step>)
    requires capacity > 0
    ensures IsRun(Initial(capacity), run)
    ensures var e := End(Initial(capacity), run); e.completed == {1} && e.handed == [0] && e.crashes == 0
  {
    hide Next, Enabled, IsRun, End, Filled, Started, Unaware;
    var b := [Disconnect, Renew, Disconnect];
    var c := [Resume([]), Receive, Send(1), Receive, Work];
    var d := [TakeReceived, Receive, Work, Work, TakeComplete];
    var a := Fill(capacity, 1);
    StaleEntryLeft(capacity);
    var t := DuplicateAssumed(capacity);
    ShadowCompleted(capacity, t);
    RunConcat(Unaware(capacity), c, d);
    RunConcat(Filled(capacity, 1), b, c + d);
    RunConcat(Initial(capacity), a, b + (c + d));
    run := a + (b + (c + d));
  }

  // ---- repeated messages

  /** With the cache full a new message is handed over and no entry is stored. */
  lemma RefusedFirst(s: State, id: MessageId)
    requires s.connected && s.toDevice == [] && s.phase == Ready && id !in s.broker && id !in s.cache
    requires |s.cache| >= s.capacity
    ensures var run := [Send(id), Receive, Work, Work, Work];
      && IsRun(s, run)
      && End(s, run) == s.(broker := s.broker[id := Unreceived(s.next)], next := s.next + 1,
                           toBroker := s.toBroker + [Received(id)], handed := s.handed + [s.next],
                           refused := s.refused + {s.next})
  {
    var s2 := Next(Next(s, Send(id)), Receive);
    assert s2 == s.(broker := s.broker[id := Unreceived(s.next)], next := s.next + 1, phase := Acking(id, s.next));
    var t := FiveSteps(s, Send(id), Receive, Work, Work, Work);
  }

  /** Losing the connection before the PUBREC arrives is enough to have the message handed over again. */
  lemma RefusedAgain(s: State, id: MessageId, m: nat)
    requires s.connected && s.toDevice == [] && s.phase == Ready && id in s.broker && s.broker[id] == Unreceived(m)
    requires id !in s.cache && |s.cache| >= s.capacity && m in s.refused
    ensures var run := [Disconnect, Resume([PublishOf(id, m)])] + [Receive, Receive, Work, Work, Work];
      && IsRun(s, run) && End(s, run) == s.(toBroker := [Received(id)], handed := s.handed + [m])
  {
    var s2 := Next(Next(s, Disconnect), Resume([PublishOf(id, m)]));
    OneStep(Next(s, Disconnect), Resume([PublishOf(id, m)]));
    RunStep(s, Disconnect, [Resume([PublishOf(id, m)])]);
    assert [Disconnect] + [Resume([PublishOf(id, m)])] == [Disconnect, Resume([PublishOf(id, m)])];
    var s4 := Next(Next(s2, Receive), Receive);
    assert s4 == s.(toBroker := [], phase := Acking(id, m));
    var t := FiveSteps(s2, Receive, Receive, Work, Work, Work);
    assert s.refused + {m} == s.refused;
    RunConcat(s, [Disconnect, Resume([PublishOf(id, m)])], [Receive, Receive, Work, Work, Work]);
  }

  lemma {:induction false} RefusedTimes(s: State, id: MessageId, m: nat, n: nat) returns (run: seq<Step>)
    requires s.connected && s.toDevice == [] && s.phase == Ready && id in s.broker && s.broker[id] == Unreceived(m)
    requires id !in s.cache && |s.cache| >= s.capacity && m in s.refused
    ensures IsRun(s, run) && KeepsEntries(run)
    ensures var t := End(s, run);
      && t == s.(toBroker := if n == 0 then s.toBroker else [Received(id)], handed := t.handed)
      && multiset(t.handed)[m] == multiset(s.handed)[m] + n
    decreases n
  {
    hide Next, Enabled;
    if n == 0 {
      run := [];
    } else {
      var once := [Disconnect, Resume([PublishOf(id, m)])] + [Receive, Receive, Work, Work, Work];
      RefusedAgain(s, id, m);
      var rest := RefusedTimes(End(s, once), id, m, n - 1);
      RunConcat(s, once, rest);
      run := once + rest;
    }
  }

  lemma RefusedCompletes(s: State, id: MessageId, m: nat)
    requires s.connected && s.toDevice == [] && s.phase == Ready && id in s.broker && s.broker[id] == Unreceived(m)
    requires id !in s.cache && s.toBroker == [Received(id)] && m in s.handed
    ensures var run := [TakeReceived, Receive] + [Work, TakeComplete];
      && IsRun(s, run) && End(s, run) == s.(toBroker := [], broker := s.broker - {id}, completed := s.completed + {m})
  {
    var s1 := Next(s, TakeReceived);
    assert s1 == s.(toBroker := [], broker := s.broker[id := Released(m)], toDevice := [Release(id)]);
    var s2 := Next(s1, Receive);
    OneStep(s1, Receive);
    RunStep(s, TakeReceived, [Receive]);
    assert [TakeReceived] + [Receive] == [TakeReceived, Receive];
    var s3 := Next(s2, Work);
    assert s3 == s1.(toDevice := [], toBroker := [Complete(id)]);
    OneStep(s3, TakeComplete);
    RunStep(s2, Work, [TakeComplete]);
    assert [Work] + [TakeComplete] == [Work, TakeComplete];
    assert s1.broker - {id} == s.broker - {id};
    RunConcat(s, [TakeReceived, Receive], [Work, TakeComplete]);
  }

  /** Unless the cache has room for all packet identifiers, a message can be handed over any number of times and then be
      completed, without a crash and without a new session: it is enough that its PUBLISH meets a full cache and that the
      connection breaks before the PUBREC arrives. */
  lemma FullCacheRepeats(capacity: nat, n: nat) returns (run: seq<Step>)
    requires capacity < MqttCaching.LAST_MESSAGE_ID && n > 1
    ensures IsRun(Initial(capacity), run) && KeepsEntries(run)
    ensures var e := End(Initial(capacity), run);
      && capacity in e.completed && multiset(e.handed)[capacity] == n && e.crashes == 0 && e.unheard == 0
  {
    hide Next, Enabled, IsRun, End, Filled;
    var id: MessageId := capacity + 1;
    var a := Fill(capacity, capacity);
    var s := Filled(capacity, capacity);
    FilledHolds(capacity, capacity);
    var b := [Send(id), Receive, Work, Work, Work];
    RefusedFirst(s, id);
    RunConcat(Initial(capacity), a, b);
    var t := End(s, b);
    assert capacity !in s.handed;
    assert t.handed == s.handed + [capacity];
    var c := RefusedTimes(t, id, capacity, n - 1);
    RunConcat(Initial(capacity), a + b, c);
    var u := End(t, c);
    var d := [TakeReceived, Receive] + [Work, TakeComplete];
    assert capacity in multiset(u.handed);
    RefusedCompletes(u, id, capacity);
    RunConcat(Initial(capacity), (a + b) + c, d);
    run := (a + b) + c + d;
  }

  /** The first message is stored and handed over, and its PUBREC on its way. */
  function Stored(capacity: nat): State {
    Started(capacity).(broker := map[1 := Unreceived(0)], next := 1, cache := map[1 := Held(0, 1)],
                       toBroker := [Received(1)], handed := [0])
  }

  lemma StoredIsFilled(capacity: nat)
    ensures Filled(capacity, 1) == Stored(capacity)
  {
    assert Filled(capacity, 0) == Started(capacity);
  }

  lemma EntryLost(capacity: nat)
    ensures var run := [Crash({1}), Resume([PublishOf(1, 0)]), Receive, Receive, Work];
      && IsRun(Stored(capacity), run)
      && var t := End(Stored(capacity), run);
         t == Stored(capacity).(cache := map[], phase := Storing(1, 0), crashes := 1, erased := {0})
  {
    var s := Stored(capacity);
    var s1 := Next(s, Crash({1}));
    assert s1 == s.(connected := false, cache := map[], crashes := 1, erased := {0});
    var s3 := Next(Next(s1, Resume([PublishOf(1, 0)])), Receive);
    assert s3 == s1.(connected := true, toBroker := [], toDevice := [PublishOf(1, 0)]);
    var t := FiveSteps(s, Crash({1}), Resume([PublishOf(1, 0)]), Receive, Receive, Work);
  }

  lemma HandedAgain(s: State)
    requires s.phase == Storing(1, 0) && |s.cache| < s.capacity
    ensures IsRun(s, [Work, Work])
    ensures End(s, [Work, Work]) == s.(phase := Ready, cache := s.cache[1 := Held(0, s.session)], handed := s.handed + [0])
  {
    OneStep(Next(s, Work), Work);
    RunStep(s, Work, [Work]);
    assert [Work] + [Work] == [Work, Work];
  }

  /** A reboot that loses the entry before the PUBREC arrives has the message handed over again, with room in the cache. */
  lemma LostEntryRepeats(capacity: nat) returns (run: seq<Step>)
    requires capacity > 0
    ensures IsRun(Initial(capacity), run)
    ensures var e := End(Initial(capacity), run); e.handed == [0, 0] && e.refused == {} && e.unheard == 0 && e.crashes == 1
  {
    hide Next, Enabled, IsRun, End, Filled;
    var a := Fill(capacity, 1);
    StoredIsFilled(capacity);
    EntryLost(capacity);
    var b := [Crash({1}), Resume([PublishOf(1, 0)]), Receive, Receive, Work];
    HandedAgain(End(Stored(capacity), b));
    RunConcat(Stored(capacity), b, [Work, Work]);
    RunConcat(Initial(capacity), a, b + [Work, Work]);
    run := a + (b + [Work, Work]);
  }

  /** So the size of the cache decides: while reboots keep the entries, no run hands a message over twice if and only if
      there is room for all packet identifiers. */
  lemma CapacityDecides(capacity: nat)
    ensures (forall run :: IsRun(Initial(capacity), run) && KeepsEntries(run) ==> NoRepeats(End(Initial(capacity), run).handed))
       <==> capacity >= MqttCaching.LAST_MESSAGE_ID
  {
    hide IsRun, End, Inv;
    if capacity >= MqttCaching.LAST_MESSAGE_ID {
      forall run | IsRun(Initial(capacity), run) && KeepsEntries(run)
        ensures NoRepeats(End(Initial(capacity), run).handed)
      {
        RoomIsEnough(capacity, run);
      }
    } else {
      var run := FullCacheRepeats(capacity, 2);
      OccursTwice(End(Initial(capacity), run).handed, capacity);
    }
  }
}
