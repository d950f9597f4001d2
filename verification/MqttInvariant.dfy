/** What every step of the QoS 2 protocol keeps: for each packet identifier, what broker, channels, cache and handler say
    about its message fits together, and no message has two fates. */
module MqttInvariant {
  import opened MqttStorage
  import opened MqttProtocol

  // ---- order in the channels

  /** No PUBREL of this identifier comes after a PUBLISH. */
  ghost predicate ReleaseFirst(d: seq<ToDevice>, id: MessageId) {
    forall i, j :: 0 <= i < j < |d| && d[i].PublishOf? && d[i].id == id ==> d[j] != Release(id)
  }

  ghost predicate PublishFirst(d: seq<ToDevice>, id: MessageId) {
    forall i, j :: 0 <= i < j < |d| && d[i] == Release(id) ==> !(d[j].PublishOf? && d[j].id == id)
  }

  ghost predicate CompleteFirst(b: seq<ToBroker>, id: MessageId) {
    forall i, j :: 0 <= i < j < |b| && b[i] == Received(id) ==> b[j] != Complete(id)
  }

  ghost predicate ReceivedFirst(b: seq<ToBroker>, id: MessageId) {
    forall i, j :: 0 <= i < j < |b| && b[i] == Complete(id) ==> b[j] != Received(id)
  }

  ghost predicate NoPublish(d: seq<ToDevice>, id: MessageId) {
    forall m :: PublishOf(id, m) !in d
  }

  /** Everything under way to the device about this identifier is about this message. */
  ghost predicate OnlyPublish(d: seq<ToDevice>, id: MessageId, m: nat) {
    forall x :: PublishOf(id, x) in d ==> x == m
  }

  // ---- the invariant

  predicate At(p: Phase, id: MessageId) {
    !p.Ready? && !p.Clearing? && p.id == id
  }

  predicate Gone(s: State, m: nat) {
    m in s.cut || m in s.shadowed
  }

  /** Nothing keeps the device from taking this message for a new one: its entry was refused, or lost. */
  predicate Exposed(s: State, m: nat) {
    m in s.refused || m in s.erased
  }

  /** A new session that the device has still to act on: a CONNACK on its way, or a clearing under way. */
  predicate Fresh(s: State) {
    NewsPending(s) || s.phase.Clearing?
  }

  /** What the phase says about the cache and about its message. */
  ghost predicate PhaseFits(s: State, id: MessageId, m: nat) {
    At(s.phase, id) ==>
      match s.phase
      case Acking(_, x) => x == m && id !in s.cache && !Gone(s, m) && (m in s.handed ==> Exposed(s, m))
      case Storing(_, x) => x == m && id !in s.cache && !Gone(s, m) && (m in s.handed ==> Exposed(s, m))
      case Handing(_, x) => x == m && (Owned(s, id, m) || Exposed(s, m)) && !Gone(s, m)
                            && (m in s.handed ==> Exposed(s, m))
      case Reacking(_) => id in s.cache
      case Forgetting(_) => id in s.cache
      case Completing(_) => id !in s.cache
      case _ => true
  }

  /** The device has begun with the message that the broker has not heard about yet, or answers for an older one. */
  predicate Begun(s: State, id: MessageId) {
    id in s.cache || Received(id) in s.toBroker
    || (At(s.phase, id) && (s.phase.Acking? || s.phase.Storing? || s.phase.Handing? || s.phase.Reacking?))
  }

  /** An answer that the device no longer stands for is on its way: it crashed and is still offline. */
  predicate Stray(s: State) {
    !s.connected && s.phase == Ready && s.crashes > 0
  }

  ghost predicate UnreceivedFits(s: State, id: MessageId, m: nat) {
    && OnlyPublish(s.toDevice, id, m) && ReleaseFirst(s.toDevice, id) && CompleteFirst(s.toBroker, id)
    && PhaseFits(s, id, m) && !Gone(s, m)
    && (Begun(s, id) ==> Release(id) !in s.toDevice && s.phase != Forgetting(id) && s.phase != Completing(id))
    && (m in s.handed ==> Owned(s, id, m) || Exposed(s, m))
    && (Owned(s, id, m) ==> !Fresh(s) && (m in s.handed || s.phase == Handing(id, m) || m in s.interrupted))
    && (Received(id) in s.toBroker ==>
          m in s.handed || Underway(s, id, m) || id in s.cache || (Stray(s) && (m in s.interrupted || s.unheard > 0)))
  }

  ghost predicate ReleasedFits(s: State, id: MessageId, m: nat) {
    && OnlyPublish(s.toDevice, id, m) && PublishFirst(s.toDevice, id) && ReceivedFirst(s.toBroker, id)
    && PhaseFits(s, id, m) && !Fresh(s)
    && (m in s.handed || Gone(s, m) || Underway(s, id, m))
    && (PublishOf(id, m) in s.toDevice ==>
          && (id in s.cache || s.phase == Storing(id, m) || (Exposed(s, m) && !Gone(s, m)))
          && Complete(id) !in s.toBroker && s.phase != Forgetting(id) && s.phase != Completing(id))
    && (Complete(id) in s.toBroker ==> id !in s.cache && (At(s.phase, id) ==> s.phase.Completing?))
  }

  /** Nothing is in flight under this identifier. An entry left by an earlier session may still be there, and its PUBREC
      be on its way. */
  ghost predicate AbsentFits(s: State, id: MessageId) {
    && NoPublish(s.toDevice, id)
    && (At(s.phase, id) ==> s.phase.Completing? && id !in s.cache)
    && (Received(id) in s.toBroker ==>
          Complete(id) !in s.toBroker && (id in s.cache || (Stray(s) && s.unheard > 0)))
    && (id in s.cache ==> Release(id) !in s.toDevice && Complete(id) !in s.toBroker)
  }

  /** An entry belongs to the message in flight, or to an earlier session, and then the device is about to remove it or
      has missed the news of a new session. */
  ghost predicate EntryFits(s: State, id: MessageId) {
    id in s.cache && !(id in s.broker && Owned(s, id, s.broker[id].m)) ==>
      s.cache[id].session < s.session && (Fresh(s) || s.unheard > 0)
  }

  ghost predicate Fits(s: State, id: MessageId) {
    && EntryFits(s, id)
    && if id !in s.broker then AbsentFits(s, id)
       else
         match s.broker[id]
         case Unreceived(m) => UnreceivedFits(s, id, m)
         case Released(m) => ReleasedFits(s, id, m)
  }

  ghost predicate NoRepeats(q: seq<nat>) {
    forall i, j :: 0 <= i < j < |q| ==> q[i] != q[j]
  }

  ghost predicate RepeatsExposed(s: State) {
    forall i, j :: 0 <= i < j < |s.handed| && s.handed[i] == s.handed[j] ==> Exposed(s, s.handed[i])
  }

  /** Every message has one place in the records of the broker. */
  ghost predicate Placed(s: State) {
    && (forall id :: id in s.broker ==> s.broker[id].m < s.next && s.broker[id].m !in s.completed)
    && (forall i, j :: i in s.broker && j in s.broker && s.broker[i].m == s.broker[j].m ==> i == j)
    && (forall id :: id in s.cache ==> s.cache[id].m < s.next && s.cache[id].session <= s.session)
  }

  /** A message that is gone was never handed over, one that was handed over twice had lost its entry, and there is no
      third way to be completed. */
  ghost predicate Fated(s: State) {
    && (forall m :: m in s.handed || m in s.cut || m in s.shadowed || m in s.completed ==> m < s.next)
    && (forall m :: m in s.completed ==> m in s.handed || m in s.cut || m in s.shadowed)
    && (forall m :: m in s.cut || m in s.shadowed ==> m !in s.handed)
    && RepeatsExposed(s)
    && s.cut <= s.interrupted
    && (s.crashes == 0 ==> s.interrupted == {} && s.erased == {})
    && (s.unheard == 0 ==> s.shadowed == {})
  }

  ghost predicate Numbered(s: State) {
    Placed(s) && Fated(s)
  }

  /** A CONNACK comes first, and until the device has acted on the news of a new session it has sent nothing. */
  ghost predicate Connection(s: State) {
    && (!s.connected ==> s.toDevice == [])
    && (forall k :: 0 < k < |s.toDevice| ==> !s.toDevice[k].Connack?)
    && (s.toDevice != [] && s.toDevice[0].Connack? ==> s.phase == Ready && s.toBroker == [])
    && (s.phase.Clearing? ==> s.toBroker == [] && s.phase.left != [] && Lists(s.phase.left, s.cache.Keys))
  }

  ghost predicate Inv(s: State) {
    Numbered(s) && Connection(s) && forall id: MessageId :: Fits(s, id)
  }

  // ---- steps

  /** The packets that a step takes from the front of a channel leave the order of the rest alone. */
  lemma FrontTaken(d: seq<ToDevice>, id: MessageId)
    requires d != []
    ensures ReleaseFirst(d, id) ==>
      ReleaseFirst(d[1..], id) && (d[0].PublishOf? && d[0].id == id ==> Release(id) !in d[1..])
    ensures PublishFirst(d, id) ==> PublishFirst(d[1..], id) && (d[0] == Release(id) ==> NoPublish(d[1..], id))
  {
  }

  lemma FrontHeard(b: seq<ToBroker>, id: MessageId)
    requires b != []
    ensures CompleteFirst(b, id) ==> CompleteFirst(b[1..], id) && (b[0] == Received(id) ==> Complete(id) !in b[1..])
    ensures Complete(id) !in b[1..] ==> ReceivedFirst(b[1..], id)
    ensures ReceivedFirst(b, id) ==> ReceivedFirst(b[1..], id) && (b[0] == Complete(id) ==> Received(id) !in b[1..])
  {
  }

  /** A packet at the back leaves the order alone, unless a PUBREL follows a PUBLISH or the other way round. */
  lemma BackAdded(d: seq<ToDevice>, p: ToDevice, id: MessageId)
    ensures ReleaseFirst(d, id) && (p == Release(id) ==> NoPublish(d, id)) ==> ReleaseFirst(d + [p], id)
    ensures PublishFirst(d, id) && (p.PublishOf? && p.id == id ==> Release(id) !in d) ==> PublishFirst(d + [p], id)
    ensures Release(id) !in d ==> PublishFirst(d, id)
    ensures NoPublish(d, id) ==> ReleaseFirst(d, id)
    ensures forall q :: q in d + [p] <==> q in d || q == p
  {
  }

  lemma SendFits(s: State, id: MessageId, j: MessageId)
    requires Inv(s) && Enabled(s, Send(id))
    ensures Fits(Next(s, Send(id)), j)
  {
    hide ReleaseFirst, PublishFirst, ReceivedFirst, CompleteFirst, Placed, Fated, Connection;
    assert Fits(s, j);
    OfflineIsSilent(s);
    BackAdded(s.toDevice, PublishOf(id, s.next), j);
    SilentBroker(s.toBroker, j);
    NextIsNew(s, j);
  }

  lemma OfflineIsSilent(s: State)
    requires Connection(s)
    ensures !s.connected ==> s.toDevice == []
  {
  }

  lemma SilentBroker(b: seq<ToBroker>, id: MessageId)
    ensures Received(id) !in b || Complete(id) !in b ==> CompleteFirst(b, id)
  {
  }

  /** The next number belongs to no message yet. */
  lemma NextIsNew(s: State, j: MessageId)
    requires Numbered(s)
    ensures s.next !in s.handed && !Gone(s, s.next) && !Owned(s, j, s.next)
  {
  }

  /** The message at hand is no other identifier's message. */
  lemma PhaseApart(s: State, j: MessageId)
    requires Inv(s) && (s.phase.Handing? || s.phase.Storing?) && s.phase.id != j
    ensures j in s.broker ==> s.broker[j].m != s.phase.m
  {
    assert Fits(s, s.phase.id);
  }

  lemma BrokerApart(s: State, i: MessageId, j: MessageId)
    requires Inv(s) && i in s.broker && j in s.broker && i != j
    ensures s.broker[i].m != s.broker[j].m
  {
    hide Fits;
  }

  function AnswerOf(p: Phase): ToBroker
    requires !p.Ready? && !p.Clearing?
  {
    if p.Completing? then Complete(p.id) else Received(p.id)
  }

  /** What the work on one identifier leaves alone for another one. */
  lemma WorkElsewhere(s: State, j: MessageId)
    requires Inv(s) && Enabled(s, Work) && !s.phase.Clearing? && s.phase.id != j
    ensures var t := Next(s, Work);
      && t == s.(phase := After(s.phase), cache := t.cache, handed := t.handed, refused := t.refused,
                 toBroker := t.toBroker)
      && (j in t.cache <==> j in s.cache) && (j in s.cache ==> t.cache[j] == s.cache[j])
      && (j in s.broker ==> (s.broker[j].m in t.handed <==> s.broker[j].m in s.handed)) && s.refused <= t.refused
      && (t.toBroker == s.toBroker || t.toBroker == s.toBroker + [AnswerOf(s.phase)])
  {
    hide Fits, Numbered, Connection;
    if s.phase.Handing? || s.phase.Storing? { PhaseApart(s, j); }
  }

  lemma AnswerElsewhere(b: seq<ToBroker>, p: ToBroker, id: MessageId)
    requires p.id != id
    ensures CompleteFirst(b, id) ==> CompleteFirst(b + [p], id)
    ensures ReceivedFirst(b, id) ==> ReceivedFirst(b + [p], id)
    ensures (Received(id) in b + [p] <==> Received(id) in b) && (Complete(id) in b + [p] <==> Complete(id) in b)
  {
  }

  lemma WorkFitsOther(s: State, j: MessageId)
    requires Inv(s) && Enabled(s, Work) && !s.phase.Clearing? && s.phase.id != j
    ensures Fits(Next(s, Work), j)
  {
    hide Numbered, Connection, PublishFirst, ReleaseFirst, CompleteFirst, ReceivedFirst, NoPublish, OnlyPublish, Next;
    NoNews(s);
    WorkElsewhere(s, j);
    AnswerElsewhere(s.toBroker, AnswerOf(s.phase), j);
    assert Fits(s, j);
  }

  lemma NoNews(s: State)
    requires Connection(s) && s.phase != Ready && !s.phase.Clearing?
    ensures !Fresh(s)
  {
  }

  /** An answer at the back of the channel keeps the order of the answers, unless a PUBREC follows a PUBCOMP or the other
      way round. */
  lemma AnswerAdded(b: seq<ToBroker>, p: ToBroker, id: MessageId)
    ensures CompleteFirst(b, id) && (p == Complete(id) ==> Received(id) !in b) ==> CompleteFirst(b + [p], id)
    ensures ReceivedFirst(b, id) && (p == Received(id) ==> Complete(id) !in b) ==> ReceivedFirst(b + [p], id)
    ensures forall q :: q in b + [p] <==> q in b || q == p
  {
  }

  lemma AnsweringFits(s: State)
    requires Inv(s) && (s.phase.Acking? || s.phase.Reacking? || s.phase.Completing?)
    ensures Fits(Next(s, Work), s.phase.id)
  {
    hide Numbered, Connection, PublishFirst, ReleaseFirst, CompleteFirst, ReceivedFirst, NoPublish, OnlyPublish;
    var id := s.phase.id;
    NoNews(s);
    AnswerAdded(s.toBroker, AnswerOf(s.phase), id);
    assert Fits(s, id);
  }

  lemma StoringFits(s: State)
    requires Inv(s) && s.phase.Storing?
    ensures Fits(Next(s, Work), s.phase.id)
  {
    hide Numbered, Connection, PublishFirst, ReleaseFirst, CompleteFirst, ReceivedFirst, NoPublish, OnlyPublish;
    NoNews(s);
    assert Fits(s, s.phase.id);
  }

  lemma HandingFits(s: State)
    requires Inv(s) && s.phase.Handing?
    ensures Fits(Next(s, Work), s.phase.id)
  {
    hide Numbered, Connection, PublishFirst, ReleaseFirst, CompleteFirst, ReceivedFirst, NoPublish, OnlyPublish;
    NoNews(s);
    assert Fits(s, s.phase.id);
  }

  lemma ForgettingFits(s: State)
    requires Inv(s) && s.phase.Forgetting?
    ensures Fits(Next(s, Work), s.phase.id)
  {
    hide Numbered, Connection, PublishFirst, ReleaseFirst, CompleteFirst, ReceivedFirst, NoPublish, OnlyPublish;
    NoNews(s);
    assert Fits(s, s.phase.id);
  }

  lemma WorkFitsAt(s: State)
    requires Inv(s) && Enabled(s, Work) && !s.phase.Clearing?
    ensures Fits(Next(s, Work), s.phase.id)
  {
    hide Fits, Numbered, Connection, Next;
    match s.phase {
      case Storing(_, _) => StoringFits(s);
      case Handing(_, _) => HandingFits(s);
      case Forgetting(_) => ForgettingFits(s);
      case _ => AnsweringFits(s);
    }
  }

  lemma ListsFirst(left: seq<MessageId>, cache: map<MessageId, Held>)
    requires left != [] && Lists(left, cache.Keys)
    ensures left[0] in cache && (|left| == 1 ==> cache - {left[0]} == map[])
  {
    assert left[0] in left;
    if |left| == 1 {
      assert forall id :: id in cache ==> id in left && id == left[0];
    }
  }

  /** One entry less, and something left to clear as long as there are entries. */
  lemma ClearedOne(s: State)
    requires Connection(s) && s.phase.Clearing?
    ensures var t, left := Next(s, Work), s.phase.left;
      && left != [] && left[0] in s.cache && t == s.(cache := s.cache - {left[0]}, phase := After(s.phase))
      && (t.phase.Clearing? || t.cache == map[])
      && s.toBroker == [] && (s.toDevice != [] ==> !s.toDevice[0].Connack?)
  {
    hide Lists;
    ListsFirst(s.phase.left, s.cache);
  }

  lemma ClearingFits(s: State, j: MessageId)
    requires Inv(s) && s.phase.Clearing?
    ensures Fits(Next(s, Work), j)
  {
    hide ReleaseFirst, PublishFirst, CompleteFirst, ReceivedFirst, Numbered, Connection, Next, OnlyPublish, NoPublish;
    ClearedOne(s);
    assert Fits(s, j);
  }

  lemma WorkFits(s: State, j: MessageId)
    requires Inv(s) && Enabled(s, Work)
    ensures Fits(Next(s, Work), j)
  {
    hide Fits, Numbered, Connection, Next;
    if s.phase.Clearing? {
      ClearingFits(s, j);
    } else if s.phase.id == j {
      WorkFitsAt(s);
    } else {
      WorkFitsOther(s, j);
    }
  }

  /** What taking a PUBREC of one identifier leaves alone for another one. */
  lemma ElsewhereSame(s: State, j: MessageId)
    requires Inv(s) && Enabled(s, TakeReceived) && s.toBroker[0] != Received(j)
    ensures var t := Next(s, TakeReceived);
      && t == s.(broker := t.broker, toDevice := t.toDevice, toBroker := s.toBroker[1..], cut := t.cut,
                 shadowed := t.shadowed)
      && (t.toDevice == s.toDevice || (s.connected && t.toDevice == s.toDevice + [Release(s.toBroker[0].id)]))
      && (j in t.broker <==> j in s.broker)
      && (j in s.broker ==> t.broker[j] == s.broker[j] && (Gone(t, s.broker[j].m) <==> Gone(s, s.broker[j].m)))
  {
    hide Fits, Connection, Numbered;
    var i := s.toBroker[0].id;
    if i in s.broker && j in s.broker { BrokerApart(s, i, j); }
  }

  lemma TakeReceivedFitsOther(s: State, j: MessageId)
    requires Inv(s) && Enabled(s, TakeReceived) && s.toBroker[0] != Received(j)
    ensures Fits(Next(s, TakeReceived), j)
  {
    hide CompleteFirst, ReceivedFirst, ReleaseFirst, PublishFirst, Numbered, Gone, Next;
    FrontHeard(s.toBroker, j);
    assert Fits(s, j);
    BackAdded(s.toDevice, Release(s.toBroker[0].id), j);
    ElsewhereSame(s, j);
  }

  lemma FirstReceived(s: State, id: MessageId, m: nat)
    requires Inv(s) && Enabled(s, TakeReceived) && s.toBroker[0] == Received(id)
    requires id in s.broker && s.broker[id] == Unreceived(m)
    ensures EntryFits(Next(s, TakeReceived), id) && ReleasedFits(Next(s, TakeReceived), id, m)
  {
    hide CompleteFirst, ReceivedFirst, ReleaseFirst, PublishFirst, Numbered;
    FrontHeard(s.toBroker, id);
    BackAdded(s.toDevice, Release(id), id);
    assert Fits(s, id) && Received(id) in s.toBroker;
  }

  lemma ReceivedAgain(s: State, id: MessageId, m: nat)
    requires Inv(s) && Enabled(s, TakeReceived) && s.toBroker[0] == Received(id)
    requires id in s.broker && s.broker[id] == Released(m)
    ensures EntryFits(Next(s, TakeReceived), id) && ReleasedFits(Next(s, TakeReceived), id, m)
  {
    hide CompleteFirst, ReceivedFirst, ReleaseFirst, PublishFirst, Numbered;
    FrontHeard(s.toBroker, id);
    BackAdded(s.toDevice, Release(id), id);
    assert Fits(s, id);
  }

  /** The PUBREC of an entry left by an earlier session, for an identifier with nothing in flight. */
  lemma StrayReceived(s: State, id: MessageId)
    requires Inv(s) && Enabled(s, TakeReceived) && s.toBroker[0] == Received(id) && id !in s.broker
    ensures Fits(Next(s, TakeReceived), id)
  {
    hide CompleteFirst, ReceivedFirst, ReleaseFirst, PublishFirst, Numbered;
    assert Fits(s, id) && Received(id) in s.toBroker;
  }

  lemma TakeReceivedFits(s: State, j: MessageId)
    requires Inv(s) && Enabled(s, TakeReceived)
    ensures Fits(Next(s, TakeReceived), j)
  {
    hide UnreceivedFits, ReleasedFits, AbsentFits, EntryFits, Numbered, Connection;
    if s.toBroker[0] != Received(j) {
      TakeReceivedFitsOther(s, j);
    } else if j in s.broker {
      match s.broker[j]
      case Unreceived(m) => FirstReceived(s, j, m);
      case Released(m) => ReceivedAgain(s, j, m);
    } else {
      StrayReceived(s, j);
    }
  }

  lemma CompletedElsewhere(s: State, j: MessageId)
    requires Enabled(s, TakeComplete) && s.toBroker[0] != Complete(j)
    ensures var t := Next(s, TakeComplete);
      && t == s.(broker := t.broker, completed := t.completed, toBroker := s.toBroker[1..])
      && (j in t.broker <==> j in s.broker) && (j in s.broker ==> t.broker[j] == s.broker[j])
  {
  }

  lemma TakeCompleteFitsOther(s: State, j: MessageId)
    requires Inv(s) && Enabled(s, TakeComplete) && s.toBroker[0] != Complete(j)
    ensures Fits(Next(s, TakeComplete), j)
  {
    hide CompleteFirst, ReceivedFirst, ReleaseFirst, PublishFirst, OnlyPublish, NoPublish, Numbered, Connection, Next;
    FrontHeard(s.toBroker, j);
    CompletedElsewhere(s, j);
    assert Fits(s, j);
  }

  lemma MessageCompleted(s: State, id: MessageId)
    requires Inv(s) && Enabled(s, TakeComplete) && s.toBroker[0] == Complete(id)
    ensures Fits(Next(s, TakeComplete), id)
  {
    hide CompleteFirst, ReceivedFirst, ReleaseFirst, PublishFirst, Numbered;
    FrontHeard(s.toBroker, id);
    assert Fits(s, id) && Complete(id) in s.toBroker;
  }

  lemma TakeCompleteFits(s: State, j: MessageId)
    requires Inv(s) && Enabled(s, TakeComplete)
    ensures Fits(Next(s, TakeComplete), j)
  {
    hide Fits, Numbered, Connection, Next;
    if s.toBroker[0] == Complete(j) {
      MessageCompleted(s, j);
    } else {
      TakeCompleteFitsOther(s, j);
    }
  }

  lemma ReceiveFits(s: State, j: MessageId)
    requires Inv(s) && Enabled(s, Receive)
    ensures Fits(Next(s, Receive), j)
  {
    hide ReleaseFirst, PublishFirst;
    FrontTaken(s.toDevice, j);
    assert Fits(s, j) && s.toDevice[0] in s.toDevice;
  }

  lemma ClearFits(s: State, order: seq<MessageId>, j: MessageId)
    requires Inv(s) && Enabled(s, Clear(order))
    ensures Fits(Next(s, Clear(order)), j)
  {
    hide ReleaseFirst, PublishFirst;
    FrontTaken(s.toDevice, j);
    assert Fits(s, j);
    if order == [] { assert j in s.cache ==> j in order; }
  }

  lemma UnreadableFits(s: State, j: MessageId)
    requires Inv(s) && Enabled(s, Unreadable)
    ensures Fits(Next(s, Unreadable), j)
  {
    hide ReleaseFirst, PublishFirst;
    FrontTaken(s.toDevice, j);
    assert Fits(s, j);
  }

  lemma RetransmitFits(s: State, id: MessageId, j: MessageId)
    requires Inv(s) && Enabled(s, Retransmit(id))
    ensures Fits(Next(s, Retransmit(id)), j)
  {
    assert Fits(s, j);
  }

  lemma DisconnectFits(s: State, j: MessageId)
    requires Inv(s) && Enabled(s, Disconnect)
    ensures Fits(Next(s, Disconnect), j)
  {
    assert Fits(s, j);
  }

  lemma CrashFits(s: State, lost: set<MessageId>, j: MessageId)
    requires Inv(s) && Enabled(s, Crash(lost))
    ensures Fits(Next(s, Crash(lost)), j)
  {
    hide ReleaseFirst, PublishFirst, CompleteFirst, ReceivedFirst, Numbered;
    NothingOrdered(j);
    assert Fits(s, j);
    if (s.phase.Handing? || s.phase.Storing?) && s.phase.id != j { PhaseApart(s, j); }
  }

  lemma NothingOrdered(id: MessageId)
    ensures ReleaseFirst([], id) && PublishFirst([], id) && CompleteFirst([], id) && ReceivedFirst([], id)
  {
  }

  lemma ResumeFits(s: State, packets: seq<ToDevice>, j: MessageId)
    requires Inv(s) && Enabled(s, Resume(packets))
    ensures Fits(Next(s, Resume(packets)), j)
  {
    hide ReleaseFirst, PublishFirst;
    assert Fits(s, j);
    ResentOrder(s.broker, packets, j);
  }

  lemma ResentOrder(broker: map<MessageId, InFlight>, packets: seq<ToDevice>, id: MessageId)
    requires Resends(broker, packets)
    ensures var d := [Connack(true)] + packets;
      && (forall k :: 0 < k < |d| ==> d[k] in packets)
      && (forall p :: p in d ==> p == Connack(true) || p in packets)
      && ReleaseFirst(d, id) && PublishFirst(d, id)
  {
    var d := [Connack(true)] + packets;
    assert forall k :: 0 < k < |d| ==> d[k] == packets[k - 1];
  }

  lemma RenewFits(s: State, j: MessageId)
    requires Inv(s) && Enabled(s, Renew)
    ensures Fits(Next(s, Renew), j)
  {
    assert Fits(s, j);
  }

  lemma StepFits(s: State, step: Step, j: MessageId)
    requires Inv(s) && Enabled(s, step)
    ensures Fits(Next(s, step), j)
  {
    hide *;
    match step {
      case Send(id) => SendFits(s, id, j);
      case TakeReceived => TakeReceivedFits(s, j);
      case TakeComplete => TakeCompleteFits(s, j);
      case Receive => ReceiveFits(s, j);
      case Clear(order) => ClearFits(s, order, j);
      case Unreadable => UnreadableFits(s, j);
      case Work => WorkFits(s, j);
      case Retransmit(id) => RetransmitFits(s, id, j);
      case Disconnect => DisconnectFits(s, j);
      case Crash(lost) => CrashFits(s, lost, j);
      case Resume(packets) => ResumeFits(s, packets, j);
      case Renew => RenewFits(s, j);
    }
  }

  lemma ListsRest(left: seq<MessageId>, cache: map<MessageId, Held>)
    requires left != [] && Lists(left, cache.Keys)
    ensures Lists(left[1..], (cache - {left[0]}).Keys)
  {
    assert left == [left[0]] + left[1..];
    assert (cache - {left[0]}).Keys == cache.Keys - {left[0]};
  }

  lemma WorkConnects(s: State)
    requires Connection(s) && Enabled(s, Work)
    ensures Connection(Next(s, Work))
  {
    if s.phase.Clearing? {
      hide Lists;
      ListsRest(s.phase.left, s.cache);
    }
  }

  lemma HeardConnects(s: State, step: Step)
    requires Connection(s) && Enabled(s, step) && (step.TakeReceived? || step.TakeComplete?)
    ensures Connection(Next(s, step))
  {
  }

  lemma StepConnects(s: State, step: Step)
    requires Connection(s) && Enabled(s, step)
    ensures Connection(Next(s, step))
  {
    match step {
      case Work => WorkConnects(s);
      case Resume(packets) => ResentOrder(s.broker, packets, 1);
      case TakeReceived => HeardConnects(s, step);
      case TakeComplete => HeardConnects(s, step);
      case _ =>
    }
  }

  /** Which message the handler at work is about. */
  lemma PhaseMessage(s: State)
    requires Inv(s) && (s.phase.Handing? || s.phase.Storing?)
    ensures s.phase.id in s.broker && s.broker[s.phase.id].m == s.phase.m && !Gone(s, s.phase.m)
    ensures s.phase.m in s.handed ==> Exposed(s, s.phase.m)
  {
    hide ReleaseFirst, PublishFirst, CompleteFirst, ReceivedFirst, Numbered;
    assert Fits(s, s.phase.id);
  }

  lemma PhaseBelow(s: State)
    requires Inv(s) && (s.phase.Handing? || s.phase.Storing?)
    ensures s.phase.m < s.next
  {
    hide Fits, Connection, Fated;
    PhaseMessage(s);
  }

  lemma HandingFated(s: State, t: State, m: nat)
    requires Fated(s) && m < s.next && !Gone(s, m) && (m in s.handed ==> Exposed(s, m))
    requires t == s.(handed := s.handed + [m], phase := t.phase, cache := t.cache, toBroker := t.toBroker)
    ensures Fated(t)
  {
    hide RepeatsExposed;
    assert forall x :: x in t.handed <==> x in s.handed || x == m;
    RepeatsAgain(s, t, m);
  }

  lemma RepeatsAgain(s: State, t: State, m: nat)
    requires RepeatsExposed(s) && (m in s.handed ==> Exposed(s, m))
    requires t.handed == s.handed + [m] && t.refused == s.refused && t.erased == s.erased
    ensures RepeatsExposed(t)
  {
  }

  lemma WorkFated(s: State)
    requires Inv(s) && Enabled(s, Work)
    ensures Fated(Next(s, Work))
  {
    hide Connection, Fits, Fated, Placed, Gone, Exposed, Next;
    WorkRecords(s);
    var t := Next(s, Work);
    if s.phase.Handing? {
      PhaseBelow(s);
      PhaseMessage(s);
      HandingFated(s, t, s.phase.m);
    } else {
      FatedSame(s, t);
    }
  }

  lemma FatedSame(s: State, t: State)
    requires Fated(s) && t.handed == s.handed && t.cut == s.cut && t.shadowed == s.shadowed
    requires t.completed == s.completed && t.next >= s.next && t.crashes == s.crashes && t.unheard >= s.unheard
    requires t.interrupted == s.interrupted && t.erased == s.erased && s.refused <= t.refused
    ensures Fated(t)
  {
  }

  /** What is known when the broker first hears of a message that was not handed over and will not be. */
  lemma HeardTooEarly(s: State, id: MessageId, m: nat)
    requires Inv(s) && Enabled(s, TakeReceived) && s.toBroker[0] == Received(id)
    requires id in s.broker && s.broker[id] == Unreceived(m) && m !in s.handed && !Underway(s, id, m)
    ensures m in s.interrupted || s.unheard > 0
  {
    hide Numbered, ReleaseFirst, PublishFirst, CompleteFirst, ReceivedFirst;
    assert Fits(s, id) && Received(id) in s.toBroker;
  }

  lemma LosingFated(s: State, t: State, m: nat)
    requires Fated(s) && m < s.next && m !in s.handed
    requires (m in s.interrupted && t.cut == s.cut + {m} && t.shadowed == s.shadowed)
          || (s.unheard > 0 && t.shadowed == s.shadowed + {m} && t.cut == s.cut)
    requires t.handed == s.handed && t.completed == s.completed && t.next == s.next
    requires t.interrupted == s.interrupted && t.refused == s.refused && t.erased == s.erased
    requires t.crashes == s.crashes && t.unheard == s.unheard
    ensures Fated(t)
  {
  }

  lemma TakeReceivedFated(s: State)
    requires Inv(s) && Enabled(s, TakeReceived)
    ensures Fated(Next(s, TakeReceived))
  {
    hide Fits, Connection, Fated;
    var id := s.toBroker[0].id;
    var t := Next(s, TakeReceived);
    if id in s.broker && s.broker[id].Unreceived? && s.broker[id].m !in s.handed
       && !Underway(s, id, s.broker[id].m)
    {
      HeardTooEarly(s, id, s.broker[id].m);
      LosingFated(s, t, s.broker[id].m);
    } else {
      FatedSame(s, t);
    }
  }

  lemma CompletingFated(s: State, t: State, m: nat)
    requires Fated(s) && m < s.next && (m in s.handed || Gone(s, m))
    requires t == s.(broker := t.broker, toBroker := t.toBroker, completed := s.completed + {m})
    ensures Fated(t)
  {
  }

  lemma TakeCompleteFated(s: State)
    requires Inv(s) && Enabled(s, TakeComplete)
    ensures Fated(Next(s, TakeComplete))
  {
    hide Connection, Fated, ReleaseFirst, PublishFirst, CompleteFirst, ReceivedFirst;
    var id := s.toBroker[0].id;
    assert Fits(s, id) && Complete(id) in s.toBroker;
    if id in s.broker && s.broker[id].Released? {
      CompletingFated(s, Next(s, TakeComplete), s.broker[id].m);
    } else {
      FatedSame(s, Next(s, TakeComplete));
    }
  }

  lemma CrashFated(s: State, lost: set<MessageId>)
    requires Inv(s) && Enabled(s, Crash(lost))
    ensures Fated(Next(s, Crash(lost)))
  {
    hide Connection, Fits;
    if s.phase.Handing? || s.phase.Storing? { PhaseMessage(s); }
  }

  lemma StepFated(s: State, step: Step)
    requires Inv(s) && Enabled(s, step)
    ensures Fated(Next(s, step))
  {
    hide Fits, Connection, Fated;
    match step {
      case TakeReceived => TakeReceivedFated(s);
      case TakeComplete => TakeCompleteFated(s);
      case Work => WorkFated(s);
      case Crash(lost) => CrashFated(s, lost);
      case _ => FatedSame(s, Next(s, step));
    }
  }

  lemma FatedBelow(s: State)
    requires Fated(s)
    ensures forall m :: m in s.completed ==> m < s.next
  {
  }

  lemma PlacedSame(s: State, t: State)
    requires Placed(s) && t.next == s.next && t.session >= s.session
    requires forall id :: id in t.broker ==> id in s.broker && t.broker[id].m == s.broker[id].m
    requires forall id :: id in t.broker ==> t.broker[id].m !in t.completed
    requires forall id :: id in t.cache ==> (id in s.cache && t.cache[id] == s.cache[id])
                                            || (t.cache[id].m < t.next && t.cache[id].session <= t.session)
    ensures Placed(t)
  {
  }

  lemma SendPlaced(s: State, id: MessageId)
    requires Inv(s) && Enabled(s, Send(id))
    ensures Placed(Next(s, Send(id)))
  {
    hide Fits, Connection, Fated;
    FatedBelow(s);
  }

  lemma ReceivedMoves(s: State)
    requires Enabled(s, TakeReceived)
    ensures var t := Next(s, TakeReceived);
      && t.broker.Keys == s.broker.Keys && (forall id :: id in s.broker ==> t.broker[id].m == s.broker[id].m)
      && t.cache == s.cache && t.next == s.next && t.session == s.session && t.completed == s.completed
  {
  }

  lemma HeardPlaced(s: State, step: Step)
    requires Placed(s) && Enabled(s, step) && (step.TakeReceived? || step.TakeComplete?)
    ensures Placed(Next(s, step))
  {
    if step.TakeComplete? {
      hide Heard;
      PlacedSame(s, Next(s, step));
    } else {
      ReceivedMoves(s);
      PlacedSame(s, Next(s, step));
    }
  }

  lemma WorkPlaced(s: State)
    requires Inv(s) && Enabled(s, Work)
    ensures Placed(Next(s, Work))
  {
    hide Fits, Connection, Fated;
    if s.phase.Storing? { PhaseMessage(s); }
    PlacedSame(s, Next(s, Work));
  }

  lemma StepPlaced(s: State, step: Step)
    requires Inv(s) && Enabled(s, step)
    ensures Placed(Next(s, step))
  {
    hide Fits, Connection, Fated;
    match step {
      case Send(id) => SendPlaced(s, id);
      case TakeReceived => HeardPlaced(s, step);
      case TakeComplete => HeardPlaced(s, step);
      case Work => WorkPlaced(s);
      case _ => PlacedSame(s, Next(s, step));
    }
  }

  /** The invariant holds after every step, whatever the network, the broker and the power do. */
  lemma StepKeeps(s: State, step: Step)
    requires Inv(s) && Enabled(s, step)
    ensures Inv(Next(s, step))
  {
    hide Fits, Placed, Fated, Connection, Next, Enabled;
    forall j: MessageId
      ensures Fits(Next(s, step), j)
    {
      StepFits(s, step, j);
    }
    StepFated(s, step);
    StepPlaced(s, step);
    StepConnects(s, step);
  }
}
