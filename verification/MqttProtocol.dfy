/** QoS 2 delivery to the device: the client's handlers composed with a broker that follows section 4.3.3 of MQTT Version
    3.1.1, over connections that keep order but lose what is in flight when they break. The device asks for a session that
    outlives its connections; the broker may still have lost it, and then starts a new one on its own. The device's cache
    has a limit, and a reboot may find it emptied. */
module MqttProtocol {
  import opened MqttStorage
  import opened MqttEvents

  /** Packets on their way to the device; messages are numbered by the broker. A CONNACK says whether the session is an
      old one. */
  datatype ToDevice = Connack(sessionPresent: bool) | PublishOf(id: MessageId, m: nat) | Release(id: MessageId)

  /** Packets on their way to the broker: PUBREC and PUBCOMP. */
  datatype ToBroker = Received(id: MessageId) | Complete(id: MessageId)

  /** What the broker still has to do for a message. */
  datatype InFlight = Unreceived(m: nat) | Released(m: nat)

  /** Where the device stands in the handler of a packet. */
  datatype Phase =
    | Ready
    | Acking(id: MessageId, m: nat)
    | Storing(id: MessageId, m: nat)
    | Handing(id: MessageId, m: nat)
    | Reacking(id: MessageId)
    | Forgetting(id: MessageId)
    | Completing(id: MessageId)
    | Clearing(left: seq<MessageId>)

  /** What is left to do in a phase, with these identifiers in the cache. */
  function Todo(p: Phase, cache: set<MessageId>, capacity: nat): seq<Effect<nat>> {
    match p
    case Ready => []
    case Acking(id, m) => [Sends(PubrecFor(id)), Remembers(cache, capacity, id), Hands(m)]
    case Storing(id, m) => [Remembers(cache, capacity, id), Hands(m)]
    case Handing(_, m) => [Hands(m)]
    case Reacking(id) => [Sends(PubrecFor(id))]
    case Forgetting(id) => [Forgets(Incoming, id), Sends(Pubcomp(id))]
    case Completing(id) => [Sends(Pubcomp(id))]
    case Clearing(left) => ClearEffects(Incoming, left)
  }

  function After(p: Phase): Phase {
    match p
    case Acking(id, m) => Storing(id, m)
    case Storing(id, m) => Handing(id, m)
    case Forgetting(id) => Completing(id)
    case Clearing(left) => if |left| > 1 then Clearing(left[1..]) else Ready
    case _ => Ready
  }

  function OnPublish(cache: set<MessageId>, id: MessageId, m: nat): Phase {
    if id in cache then Reacking(id) else Acking(id, m)
  }

  function OnRelease(cache: set<MessageId>, id: MessageId): Phase {
    if id in cache then Forgetting(id) else Completing(id)
  }

  function OnNewSession(order: seq<MessageId>): Phase {
    if order == [] then Ready else Clearing(order)
  }

  /** The phases are the effects of the client's handlers, one by one; what a CONNACK does to outgoing messages comes
      after them. */
  lemma PhasesFollowHandlers(cache: set<MessageId>, capacity: nat, id: MessageId, m: nat, p: Phase,
                             order: seq<MessageId>, outgoing: seq<MessageId>)
    ensures Todo(OnPublish(cache, id, m), cache, capacity) == PublishEffects(cache, capacity, id, 2, m)
    ensures Todo(OnRelease(cache, id), cache, capacity) == PubrelEffects(cache, id)
    ensures ConnackEffects<nat>(false, order, outgoing)
         == Todo(OnNewSession(order), cache, capacity) + (ClearEffects(Outgoing, outgoing) + [Reconnected])
    ensures p != Ready && p != Clearing([]) ==>
      var todo := Todo(p, cache, capacity); todo != [] && Todo(After(p), cache, capacity) == todo[1..]
  {
    hide ClearEffects;
    ClearNothing();
    if p.Clearing? && p.left != [] {
      ClearRest(p.left);
      assert |p.left| == 1 ==> p.left[1..] == [];
    }
  }

  lemma ClearNothing()
    ensures ClearEffects<nat>(Incoming, []) == []
  {
  }

  lemma ClearRest(left: seq<MessageId>)
    requires left != []
    ensures ClearEffects<nat>(Incoming, left) != []
    ensures ClearEffects<nat>(Incoming, left)[1..] == ClearEffects<nat>(Incoming, left[1..])
  {
  }

  /** The message that the device stored an entry for, and the broker's session at that time. */
  datatype Held = Held(m: nat, session: nat)

  /** Broker, network and device. The keys of `cache` are what the device keeps in memory and in flash, no more than
      `capacity`, and `handed` the messages passed to the application. The rest only records what happened: the entries'
      origins; the sessions; the messages whose handler a crash interrupted, those lost to such a crash, and those lost to
      an entry of an earlier session; the messages whose entry a full cache refused, and those whose entry a reboot lost
      before the broker heard of their receipt; the crashes; and the new sessions that the device was not told of, or not
      to the end of its clearing. */
  datatype State = State(
    broker: map<MessageId, InFlight>, next: nat, completed: set<nat>,
    toDevice: seq<ToDevice>, toBroker: seq<ToBroker>, connected: bool,
    cache: map<MessageId, Held>, capacity: nat, phase: Phase, handed: seq<nat>,
    session: nat, interrupted: set<nat>, cut: set<nat>, shadowed: set<nat>, refused: set<nat>, erased: set<nat>,
    crashes: nat, unheard: nat)

  function Initial(capacity: nat): State {
    State(map[], 0, {}, [], [], false, map[], capacity, Ready, [], 0, {}, {}, {}, {}, {}, 0, 0)
  }

  /** A crash reboots the device, and the reboot may lose entries: all of them when it finds the partition beyond recovery
      and erases it. */
  datatype Step =
    | Send(id: MessageId)
    | TakeReceived
    | TakeComplete
    | Receive
    | Clear(order: seq<MessageId>)
    | Unreadable
    | Work
    | Retransmit(id: MessageId)
    | Disconnect
    | Crash(lost: set<MessageId>)
    | Resume(packets: seq<ToDevice>)
    | Renew

  /** What a broker sends again when a session goes on. */
  ghost predicate Resends(broker: map<MessageId, InFlight>, packets: seq<ToDevice>) {
    forall p :: p in packets ==>
      match p
      case Connack(_) => false
      case PublishOf(id, m) => id in broker && broker[id] == Unreceived(m)
      case Release(id) => id in broker && broker[id].Released?
  }

  /** The device has heard that it is connected. */
  predicate Established(s: State) {
    s.connected && (s.toDevice != [] ==> !s.toDevice[0].Connack?)
  }

  ghost predicate Enabled(s: State, step: Step) {
    match step
    case Send(id) => id !in s.broker
    case TakeReceived => s.toBroker != [] && s.toBroker[0].Received?
    case TakeComplete => s.toBroker != [] && s.toBroker[0].Complete?
    case Receive => s.toDevice != [] && s.phase == Ready && s.toDevice[0] != Connack(false)
    case Clear(order) =>
      s.toDevice != [] && s.phase == Ready && s.toDevice[0] == Connack(false) && Lists(order, s.cache.Keys)
    case Unreadable => s.toDevice != [] && s.phase == Ready && s.toDevice[0].PublishOf?
    case Work => s.phase != Ready
    case Retransmit(id) => s.phase == Ready && id in s.cache && Established(s)
    case Disconnect => s.connected
    case Crash(lost) => lost <= s.cache.Keys
    case Resume(packets) => !s.connected && s.phase == Ready && Resends(s.broker, packets)
    case Renew => !s.connected && s.phase == Ready
  }

  function ToTheDevice(s: State, p: ToDevice): State {
    if s.connected then s.(toDevice := s.toDevice + [p]) else s
  }

  function ToTheBroker(s: State, p: ToBroker): State {
    if s.connected then s.(toBroker := s.toBroker + [p]) else s
  }

  /** The entry under this identifier is the one stored for this message. */
  predicate Owned(s: State, id: MessageId, m: nat) {
    id in s.cache && s.cache[id].m == m
  }

  /** The handler of this message has answered it and goes on. */
  predicate Underway(s: State, id: MessageId, m: nat) {
    s.phase == Storing(id, m) || s.phase == Handing(id, m)
  }

  /** The broker hears that a message was received, and sends it no more. If it was not handed over, and will not be, it is
      lost: a crash interrupted its handler, or else the PUBREC was the answer of an entry of an earlier session. */
  function Heard(s: State, id: MessageId, m: nat): State {
    if m in s.handed || Underway(s, id, m) then s
    else if m in s.interrupted then s.(cut := s.cut + {m})
    else s.(shadowed := s.shadowed + {m})
  }

  function AfterReceived(s: State, id: MessageId): State {
    if id !in s.broker then s
    else
      match s.broker[id]
      case Unreceived(m) => ToTheDevice(Heard(s, id, m).(broker := s.broker[id := Released(m)]), Release(id))
      case Released(_) => ToTheDevice(s, Release(id))
  }

  function AfterComplete(s: State, id: MessageId): State {
    if id in s.broker && s.broker[id].Released? then
      s.(broker := s.broker - {id}, completed := s.completed + {s.broker[id].m})
    else s
  }

  function AfterWork(s: State): State {
    var t := s.(phase := After(s.phase));
    match s.phase
    case Ready => t
    case Acking(id, _) => ToTheBroker(t, Received(id))
    case Storing(id, m) =>
      if |s.cache| >= s.capacity then t.(refused := s.refused + {m})
      else t.(cache := s.cache[id := Held(m, s.session)])
    case Handing(_, m) => t.(handed := s.handed + [m])
    case Reacking(id) => ToTheBroker(t, Received(id))
    case Forgetting(id) => t.(cache := s.cache - {id})
    case Completing(id) => ToTheBroker(t, Complete(id))
    case Clearing(left) => if left == [] then t else t.(cache := s.cache - {left[0]})
  }

  function InterruptedByCrash(s: State): set<nat> {
    match s.phase
    case Handing(_, m) => {m}
    case Storing(_, m) => {m}
    case _ => {}
  }

  /** The message that a crash loses at once: the broker has heard of its receipt and the application has not seen it. */
  function CutByCrash(s: State): set<nat> {
    set m | m in InterruptedByCrash(s) && m !in s.handed && s.phase.id in s.broker
            && s.broker[s.phase.id] == Released(m)
  }

  /** The messages that the broker has not heard about and that lose their entries. */
  function Bared(s: State, lost: set<MessageId>): set<nat>
    requires lost <= s.cache.Keys
  {
    set id | id in lost && id in s.broker && s.broker[id] == Unreceived(s.cache[id].m) :: s.cache[id].m
  }

  predicate NewsPending(s: State) {
    s.toDevice != [] && s.toDevice[0] == Connack(false)
  }

  function Offline(s: State, missed: bool): State {
    s.(connected := false, toDevice := [], unheard := if missed then s.unheard + 1 else s.unheard)
  }

  function Next(s: State, step: Step): State
    requires Enabled(s, step)
  {
    match step
    case Send(id) =>
      ToTheDevice(s.(broker := s.broker[id := Unreceived(s.next)], next := s.next + 1), PublishOf(id, s.next))
    case TakeReceived => AfterReceived(s.(toBroker := s.toBroker[1..]), s.toBroker[0].id)
    case TakeComplete => AfterComplete(s.(toBroker := s.toBroker[1..]), s.toBroker[0].id)
    case Receive =>
      s.(toDevice := s.toDevice[1..],
         phase := match s.toDevice[0]
                  case Connack(_) => Ready
                  case PublishOf(id, m) => OnPublish(s.cache.Keys, id, m)
                  case Release(id) => OnRelease(s.cache.Keys, id))
    case Clear(order) => s.(toDevice := s.toDevice[1..], phase := OnNewSession(order))
    case Unreadable => s.(toDevice := s.toDevice[1..])
    case Work => AfterWork(s)
    case Retransmit(id) => ToTheBroker(s, Received(id))
    case Disconnect => Offline(s, NewsPending(s))
    case Crash(lost) =>
      Offline(s, NewsPending(s) || s.phase.Clearing?).(
        phase := Ready, cache := s.cache - lost, crashes := s.crashes + 1,
        interrupted := s.interrupted + InterruptedByCrash(s), cut := s.cut + CutByCrash(s),
        erased := s.erased + Bared(s, lost))
    case Resume(packets) => s.(connected := true, toDevice := [Connack(true)] + packets, toBroker := [])
    case Renew =>
      s.(connected := true, toDevice := [Connack(false)], toBroker := [], broker := map[], session := s.session + 1)
  }

  /** The device tries to store an entry and the cache is full. */
  predicate MeetsFullCache(s: State, step: Step) {
    step.Work? && s.phase.Storing? && |s.cache| >= s.capacity
  }

  /** What each step adds to the records. */
  lemma StepRecords(s: State, step: Step)
    requires Enabled(s, step)
    ensures var t := Next(s, step);
      && t.capacity == s.capacity && s.cut <= t.cut && s.shadowed <= t.shadowed && s.completed <= t.completed
      && t.handed == (if step.Work? && s.phase.Handing? then s.handed + [s.phase.m] else s.handed)
      && t.refused == (if MeetsFullCache(s, step) then s.refused + {s.phase.m} else s.refused)
      && t.erased == (if step.Crash? then s.erased + Bared(s, step.lost) else s.erased)
      && t.phase == (if step.Receive? || step.Clear? then t.phase else if step.Work? then After(s.phase)
                     else if step.Crash? then Ready else s.phase)
  {
    hide After, Bared, CutByCrash, InterruptedByCrash, Resends, Lists, OnPublish, OnRelease, OnNewSession;
    match step {
      case Work => WorkRecords(s);
      case TakeReceived => ReceivedRecords(s);
      case TakeComplete =>
      case _ =>
    }
  }

  lemma WorkRecords(s: State)
    requires Enabled(s, Work)
    ensures var t := Next(s, Work);
      && t == s.(phase := After(s.phase), cache := t.cache, handed := t.handed, refused := t.refused,
                 toBroker := t.toBroker)
      && t.handed == (if s.phase.Handing? then s.handed + [s.phase.m] else s.handed)
      && t.refused == (if s.phase.Storing? && |s.cache| >= s.capacity then s.refused + {s.phase.m} else s.refused)
  {
    hide After;
  }

  lemma ReceivedRecords(s: State)
    requires Enabled(s, TakeReceived)
    ensures var t := Next(s, TakeReceived);
      && t == s.(broker := t.broker, toDevice := t.toDevice, toBroker := t.toBroker, cut := t.cut,
                 shadowed := t.shadowed)
      && s.cut <= t.cut && s.shadowed <= t.shadowed
  {
  }
}
