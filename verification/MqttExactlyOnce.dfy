/** What the protocol promises over whole runs: how often a message is handed over, at most and exactly, and what a full
    cache, a reboot that loses entries, a crash, or an entry of an earlier session change about it. */
module MqttExactlyOnce {
  import opened MqttStorage
  import opened MqttProtocol
  import opened MqttInvariant
  import MqttCaching

  ghost predicate IsRun(s: State, run: seq<Step>)
    decreases |run|
  {
    run == [] || (Enabled(s, run[0]) && IsRun(Next(s, run[0]), run[1..]))
  }

  ghost function End(s: State, run: seq<Step>): State
    requires IsRun(s, run)
    decreases |run|
  {
    if run == [] then s else End(Next(s, run[0]), run[1..])
  }

  lemma {:induction false} RunKeeps(s: State, run: seq<Step>)
    requires Inv(s) && IsRun(s, run)
    ensures Inv(End(s, run))
    decreases |run|
  {
    hide Inv, Next, Enabled;
    if run != [] {
      StepKeeps(s, run[0]);
      RunKeeps(Next(s, run[0]), run[1..]);
    }
  }

  lemma InitialFits(capacity: nat)
    ensures Inv(Initial(capacity))
  {
  }

  // ---- at most once

  ghost predicate NeverFull(s: State, run: seq<Step>)
    requires IsRun(s, run)
    decreases |run|
  {
    run == [] || (!MeetsFullCache(s, run[0]) && NeverFull(Next(s, run[0]), run[1..]))
  }

  /** No reboot loses an entry. */
  predicate KeepsEntries(run: seq<Step>) {
    forall step :: step in run && step.Crash? ==> step.lost == {}
  }

  /** A message loses its protection in one of two ways: a full cache refuses its entry, or a reboot loses the entry before
      the broker has heard of the receipt. */
  lemma ExposedBy(s: State, step: Step, m: nat)
    requires Enabled(s, step) && m !in s.refused && m !in s.erased
    requires var t := Next(s, step); m in t.refused || m in t.erased
    ensures (MeetsFullCache(s, step) && s.phase.m == m)
         || (step.Crash? && exists id ::
               id in step.lost && s.cache[id].m == m && id in s.broker && s.broker[id] == Unreceived(m))
  {
    hide Next;
    StepRecords(s, step);
    if !step.Work? {
      BaredEntry(s, step.lost, m);
    }
  }

  lemma BaredEntry(s: State, lost: set<MessageId>, m: nat)
    requires lost <= s.cache.Keys && m in Bared(s, lost)
    ensures exists id :: id in lost && s.cache[id].m == m && id in s.broker && s.broker[id] == Unreceived(m)
  {
  }

  lemma {:induction false} NothingExposed(s: State, run: seq<Step>)
    requires IsRun(s, run)
    ensures NeverFull(s, run) ==> End(s, run).refused == s.refused
    ensures KeepsEntries(run) ==> End(s, run).erased == s.erased
    decreases |run|
  {
    if run != [] {
      StepExposes(s, run[0]);
      assert run == [run[0]] + run[1..];
      NothingExposed(Next(s, run[0]), run[1..]);
    }
  }

  lemma StepExposes(s: State, step: Step)
    requires Enabled(s, step)
    ensures !MeetsFullCache(s, step) ==> Next(s, step).refused == s.refused
    ensures (step.Crash? ==> step.lost == {}) ==> Next(s, step).erased == s.erased
  {
    hide Next;
    StepRecords(s, step);
  }

  /** Whatever is lost of packets, connections, sessions, power and entries: a message is handed over twice only if a full
      cache refused its entry or a reboot lost it before the broker heard of the receipt. */
  lemma RepeatsAreExposed(capacity: nat, run: seq<Step>, i: nat, j: nat)
    requires IsRun(Initial(capacity), run)
    requires var handed := End(Initial(capacity), run).handed; i < j < |handed| && handed[i] == handed[j]
    ensures var e := End(Initial(capacity), run); e.handed[i] in e.refused || e.handed[i] in e.erased
  {
    hide Next, Enabled, Fits, Connection;
    InitialFits(capacity);
    RunKeeps(Initial(capacity), run);
  }

  /** So no run hands a message over twice in which the cache is never full when an entry is stored and no reboot loses an
      entry. */
  lemma AtMostOnce(capacity: nat, run: seq<Step>)
    requires IsRun(Initial(capacity), run) && NeverFull(Initial(capacity), run) && KeepsEntries(run)
    ensures NoRepeats(End(Initial(capacity), run).handed)
  {
    hide Next, Enabled, Fits, Connection;
    InitialFits(capacity);
    RunKeeps(Initial(capacity), run);
    NothingExposed(Initial(capacity), run);
  }

  // ---- a cache that is never full

  ghost function UpTo(n: nat): (ids: set<MessageId>)
    requires n <= MqttCaching.LAST_MESSAGE_ID
    ensures |ids| == n && forall id: MessageId :: id in ids <==> id <= n
  {
    if n == 0 then {} else UpTo(n - 1) + {n}
  }

  /** There is room for an entry as long as its identifier is free, if there is room for all identifiers. */
  lemma RoomForAll(s: State)
    requires Inv(s) && s.phase.Storing?
    ensures |s.cache| < MqttCaching.LAST_MESSAGE_ID
  {
    hide Numbered, Connection, ReleaseFirst, PublishFirst, CompleteFirst, ReceivedFirst;
    var id, all := s.phase.id, UpTo(MqttCaching.LAST_MESSAGE_ID);
    assert Fits(s, id) && id !in s.cache;
    MqttCaching.Within(s.cache.Keys, all);
    assert id in all;
    assert |s.cache| == |s.cache.Keys|;
  }

  lemma {:induction false} RoomNeverFull(s: State, run: seq<Step>)
    requires Inv(s) && IsRun(s, run) && s.capacity >= MqttCaching.LAST_MESSAGE_ID
    ensures NeverFull(s, run)
    decreases |run|
  {
    hide Inv, Next, Enabled;
    if run != [] {
      if s.phase.Storing? { RoomForAll(s); }
      StepKeeps(s, run[0]);
      CapacitySame(s, run[0]);
      RoomNeverFull(Next(s, run[0]), run[1..]);
    }
  }

  lemma CapacitySame(s: State, step: Step)
    requires Enabled(s, step)
    ensures Next(s, step).capacity == s.capacity
  {
    hide Next;
    StepRecords(s, step);
  }

  /** A cache with room for all packet identifiers hands no message over twice while reboots keep its entries. */
  lemma RoomIsEnough(capacity: nat, run: seq<Step>)
    requires capacity >= MqttCaching.LAST_MESSAGE_ID && IsRun(Initial(capacity), run) && KeepsEntries(run)
    ensures NoRepeats(End(Initial(capacity), run).handed)
  {
    hide Inv, Next, Enabled;
    InitialFits(capacity);
    RoomNeverFull(Initial(capacity), run);
    AtMostOnce(capacity, run);
  }

  // ---- exactly once

  /** The message that the handler at work is going to hand over. */
  function InHand(p: Phase, m: nat): nat {
    match p
    case Acking(_, x) => if x == m then 1 else 0
    case Storing(_, x) => if x == m then 1 else 0
    case Handing(_, x) => if x == m then 1 else 0
    case _ => 0
  }

  ghost function TakenBy(s: State, step: Step, m: nat): nat
    requires Enabled(s, step)
  {
    if step.Receive? && s.toDevice[0].PublishOf? && s.toDevice[0].id !in s.cache && s.toDevice[0].m == m then 1 else 0
  }

  function CutOffBy(s: State, step: Step, m: nat): nat {
    if step.Crash? then InHand(s.phase, m) else 0
  }

  /** How often the PUBLISH of a message was taken for a new one in the course of a run. */
  ghost function Taken(s: State, run: seq<Step>, m: nat): nat
    requires IsRun(s, run)
    decreases |run|
  {
    if run == [] then 0 else TakenBy(s, run[0], m) + Taken(Next(s, run[0]), run[1..], m)
  }

  /** How often a crash cut its handler off before it handed the message over. */
  ghost function CutOff(s: State, run: seq<Step>, m: nat): nat
    requires IsRun(s, run)
    decreases |run|
  {
    if run == [] then 0 else CutOffBy(s, run[0], m) + CutOff(Next(s, run[0]), run[1..], m)
  }

  lemma StepHands(s: State, step: Step, m: nat)
    requires Enabled(s, step)
    ensures var t := Next(s, step);
      multiset(t.handed)[m] + InHand(t.phase, m) + CutOffBy(s, step, m)
      == multiset(s.handed)[m] + InHand(s.phase, m) + TakenBy(s, step, m)
  {
    if step.Receive? || step.Clear? {
      assert Next(s, step).handed == s.handed;
    } else {
      hide Next, Bared;
      StepRecords(s, step);
    }
  }

  lemma {:induction false} HandedAreTaken(s: State, run: seq<Step>, m: nat)
    requires IsRun(s, run)
    ensures multiset(End(s, run).handed)[m] + InHand(End(s, run).phase, m) + CutOff(s, run, m)
         == multiset(s.handed)[m] + InHand(s.phase, m) + Taken(s, run, m)
    decreases |run|
  {
    hide Next, Enabled, InHand, TakenBy, CutOffBy;
    if run != [] {
      StepHands(s, run[0], m);
      HandedAreTaken(Next(s, run[0]), run[1..], m);
    }
  }

  /** A message that the broker has completed is not at work any more. */
  lemma CompletedIsDone(s: State, m: nat)
    requires Inv(s) && m in s.completed
    ensures InHand(s.phase, m) == 0
  {
    hide Fated, Connection, ReleaseFirst, PublishFirst, CompleteFirst, ReceivedFirst;
    if s.phase.Acking? || s.phase.Storing? || s.phase.Handing? {
      assert Fits(s, s.phase.id);
    }
  }

  /** A message that the broker has completed was handed over as often as its PUBLISH was taken for a new one and the handler
      not cut off by a crash. That is never if and only if a crash interrupted its handler, or an entry of an earlier session
      answered for it, and the broker heard the PUBREC; and it is once in all other cases but those of a refused or lost
      entry. */
  lemma ExactlyOnce(capacity: nat, run: seq<Step>, m: nat)
    requires IsRun(Initial(capacity), run) && m in End(Initial(capacity), run).completed
    ensures var e := End(Initial(capacity), run);
      var count := multiset(e.handed)[m];
      && count + CutOff(Initial(capacity), run, m) == Taken(Initial(capacity), run, m)
      && (count == 0 <==> m in e.cut || m in e.shadowed)
      && (count > 1 ==> m in e.refused || m in e.erased)
      && (m in e.cut ==> m in e.interrupted)
      && (e.crashes == 0 ==> m !in e.cut && m !in e.erased)
      && (e.unheard == 0 ==> m !in e.shadowed)
  {
    hide Next, Enabled, Connection, Taken, CutOff, Fits;
    InitialFits(capacity);
    RunKeeps(Initial(capacity), run);
    var e := End(Initial(capacity), run);
    HandedAreTaken(Initial(capacity), run, m);
    CompletedIsDone(e, m);
    if multiset(e.handed)[m] > 1 { OccursTwice(e.handed, m); }
  }

  lemma {:induction false} OccursTwice(q: seq<nat>, m: nat)
    requires multiset(q)[m] > 1
    ensures exists i, j :: 0 <= i < j < |q| && q[i] == q[j] == m
  {
    var first, rest := q[0], q[1..];
    assert q == [first] + rest;
    if first == m {
      assert m in multiset(rest);
      var j :| 0 <= j < |rest| && rest[j] == m;
      assert q[0] == q[j + 1] == m;
    } else {
      OccursTwice(rest, m);
      var i, j :| 0 <= i < j < |rest| && rest[i] == rest[j] == m;
      assert q[i + 1] == q[j + 1] == m;
    }
  }

  /** The entry whose PUBREC shadows a message was stored in an earlier session, and the device missed the news of a new
      one. Either the entry is still there, or a reboot lost it with its answer still on the way. */
  lemma ShadowIsOld(capacity: nat, run: seq<Step>, m: nat)
    requires IsRun(Initial(capacity), run) && Enabled(End(Initial(capacity), run), TakeReceived)
    requires var e := End(Initial(capacity), run); m !in e.shadowed && m in Next(e, TakeReceived).shadowed
    ensures var e := End(Initial(capacity), run);
      var id := e.toBroker[0].id;
      && id in e.broker && e.broker[id] == Unreceived(m) && e.unheard > 0
      && if id in e.cache then e.cache[id].m != m && e.cache[id].session < e.session
         else e.crashes > 0 && !e.connected
  {
    hide Placed;
    InitialFits(capacity);
    RunKeeps(Initial(capacity), run);
    var e := End(Initial(capacity), run);
    assert Fits(e, e.toBroker[0].id);
  }

  /** What is handed over stays handed over, and what is lost stays lost. */
  lemma StepKeepsHistory(s: State, step: Step)
    requires Enabled(s, step)
    ensures s.handed <= Next(s, step).handed && s.completed <= Next(s, step).completed
    ensures s.cut <= Next(s, step).cut && s.shadowed <= Next(s, step).shadowed
    ensures s.refused <= Next(s, step).refused && s.erased <= Next(s, step).erased
  {
    hide Next, Bared;
    StepRecords(s, step);
  }
}
