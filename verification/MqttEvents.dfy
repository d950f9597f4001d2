/** The handlers of MQTT events: what each packet makes the client do, in order. */
module MqttEvents {
  import opened Bytes
  import opened SlotIds
  import opened KvStore
  import opened KvPrograms
  import opened KvFlash
  import opened MqttStorage
  import opened MqttCaching

  datatype ConnectionState = Disconnected | Connecting | Connected | Disconnecting | ConnectionError

  /** An answer to the broker. */
  datatype Answer = Puback(id: MessageId) | PubrecFor(id: MessageId) | PubrelFor(id: MessageId) | Pubcomp(id: MessageId)

  /** What the client does to the outside or to its caches, one step at a time. `M` is what stands for a message. A full
      cache refuses an entry. */
  datatype Effect<M> =
    | Sends(answer: Answer)
    | Caches(id: MessageId)
    | Refuses(id: MessageId)
    | Forgets(direction: Direction, id: MessageId)
    | Hands(message: M)
    | Delivered(id: MessageId)
    | Subscribed(id: MessageId)
    | Reconnected
    | Lost

  const QOS_1 := 1
  const QOS_2 := 2

  /** Only a PUBLISH with an acknowledgement has a packet identifier (section 2.3.1 of MQTT Version 3.1.1). */
  predicate Identified(id: U16, qos: int) {
    qos == QOS_1 || qos == QOS_2 ==> id != 0
  }

  /** The effects of a PUBLISH whose payload was read, in order, given the identifiers of the incoming messages that are
      pending, and how many may be. */
  function PublishEffects<M>(pending: set<MessageId>, capacity: nat, id: U16, qos: int, m: M): seq<Effect<M>>
    requires Identified(id, qos)
  {
    if qos == QOS_1 then [Sends(Puback(id)), Hands(m)]
    else if qos != QOS_2 then [Hands(m)]
    else if id in pending then [Sends(PubrecFor(id))]
    else [Sends(PubrecFor(id)), Remembers(pending, capacity, id), Hands(m)]
  }

  function Remembers<M>(pending: set<MessageId>, capacity: nat, id: MessageId): Effect<M> {
    if |pending| >= capacity then Refuses(id) else Caches(id)
  }

  /** The answers by their quality of service on the wire: PUBLISH alone for 0, PUBACK for 1, and for 2 PUBREC, with an
      entry and the callback for a new message only. */
  lemma AnswersByQos<M>(pending: set<MessageId>, capacity: nat, id: U16, m: M)
    ensures PublishEffects(pending, capacity, id, 0, m) == [Hands(m)]
    ensures id != 0 ==> PublishEffects(pending, capacity, id, 1, m) == [Sends(Puback(id)), Hands(m)]
    ensures id != 0 && id !in pending && |pending| < capacity ==>
      PublishEffects(pending, capacity, id, 2, m) == [Sends(PubrecFor(id)), Caches(id), Hands(m)]
    ensures id != 0 && id !in pending && |pending| >= capacity ==>
      PublishEffects(pending, capacity, id, 2, m) == [Sends(PubrecFor(id)), Refuses(id), Hands(m)]
    ensures id != 0 && id in pending ==> PublishEffects(pending, capacity, id, 2, m) == [Sends(PubrecFor(id))]
    ensures id != 0 && id in pending ==> PubrelEffects<M>(pending, id) == [Forgets(Incoming, id), Sends(Pubcomp(id))]
    ensures id != 0 && id !in pending ==> PubrelEffects<M>(pending, id) == [Sends(Pubcomp(id))]
  {
  }

  function PubrelEffects<M>(pending: set<MessageId>, id: MessageId): seq<Effect<M>> {
    (if id in pending then [Forgets(Incoming, id)] else []) + [Sends(Pubcomp(id))]
  }

  /** The effects of clearing one direction. */
  function ClearEffects<M>(d: Direction, order: seq<MessageId>): seq<Effect<M>> {
    seq(|order|, i requires 0 <= i < |order| => Forgets(d, order[i]))
  }

  /** The effects of a CONNACK: without a session on the broker's side every pending message is forgotten first. */
  function ConnackEffects<M>(sessionPresent: bool, incoming: seq<MessageId>, outgoing: seq<MessageId>): seq<Effect<M>> {
    (if sessionPresent then [] else ClearEffects(Incoming, incoming) + ClearEffects(Outgoing, outgoing)) + [Reconnected]
  }

  lemma InOrder<T>(a: seq<T>, b: seq<T>, c: seq<T>, d: seq<T>)
    ensures a + b + c + d == a + (b + c + d)
  {
  }

  /** Incoming messages are forgotten first, and none while the broker has the session. */
  lemma ForgottenInOrder<M>(a: MessageId, b: MessageId, incoming: seq<MessageId>, outgoing: seq<MessageId>)
    ensures ConnackEffects<M>(true, incoming, outgoing) == [Reconnected]
    ensures ConnackEffects<M>(false, [], []) == [Reconnected]
    ensures ConnackEffects<M>(false, [a] + incoming, outgoing)
         == [Forgets(Incoming, a)] + ConnackEffects<M>(false, incoming, outgoing)
    ensures ConnackEffects<M>(false, [], [b] + outgoing)
         == [Forgets(Outgoing, b)] + ConnackEffects<M>(false, [], outgoing)
  {
    assert ClearEffects<M>(Incoming, [a] + incoming) == [Forgets(Incoming, a)] + ClearEffects<M>(Incoming, incoming);
    assert ClearEffects<M>(Outgoing, [b] + outgoing) == [Forgets(Outgoing, b)] + ClearEffects<M>(Outgoing, outgoing);
    assert ClearEffects<M>(Incoming, []) == [] && ClearEffects<M>(Outgoing, []) == [];
  }

  class Client {
    const inMsgs: Caching
    const outMsgs: Caching
    const maxMsgSize: nat
    var connectionState: ConnectionState
    /** Everything done so far. */
    var done: seq<Effect<(Bytes, Bytes)>>

    /** Both caches mirror their part of the same flash. */
    ghost predicate Valid()
      reads this, inMsgs, outMsgs, inMsgs.flash, outMsgs.flash
    {
      && inMsgs.Valid() && outMsgs.Valid()
      && inMsgs.direction == Incoming && outMsgs.direction == Outgoing
      && inMsgs != outMsgs && inMsgs.flash == outMsgs.flash
    }

    /** After a boot both caches are what the flash holds. */
    constructor (flash: Flash, maxMsgSize: nat, capacity: nat, keepalive: nat, now: int,
                 ghost incoming: map<MessageId, Message>, ghost outgoing: map<MessageId, Message>)
      requires flash.Valid() && Holds(flash.data, Incoming, incoming) && Holds(flash.data, Outgoing, outgoing)
      requires |incoming| <= capacity && |outgoing| <= capacity
      ensures Valid() && inMsgs.flash == flash && this.maxMsgSize == maxMsgSize
      ensures inMsgs.capacity == outMsgs.capacity == capacity
      ensures Messages(inMsgs.entries) == incoming && Messages(outMsgs.entries) == outgoing
      ensures connectionState == Disconnected && done == []
    {
      hide Holds;
      var outCache := new Caching(flash, Outgoing, capacity, keepalive, now, outgoing);
      var inCache := new Caching(flash, Incoming, capacity, keepalive, now, incoming);
      inMsgs := inCache;
      outMsgs := outCache;
      this.maxMsgSize := maxMsgSize;
      connectionState := Disconnected;
      done := [];
    }

    /** A PUBLISH. A payload that is too large, or that cannot be read, is dropped without an answer. */
    method HandlePublishEvent(topic: Bytes, payload: Bytes, id: U16, qos: int, readable: bool, now: int)
      requires Valid() && Identified(id, qos)
      modifies this`done, inMsgs`entries, inMsgs.flash`data
      ensures Valid() && outMsgs.entries == old(outMsgs.entries)
      ensures readable && |payload| <= maxMsgSize ==>
        && done == old(done) + PublishEffects(old(inMsgs.entries).Keys, inMsgs.capacity, id, qos, (topic, payload))
        && inMsgs.entries == if qos == QOS_2 && id !in old(inMsgs.entries) && |old(inMsgs.entries)| < inMsgs.capacity
                             then old(inMsgs.entries)[id := Pending(now + inMsgs.keepalive, Message(Pubrec, [], [], 2))]
                             else old(inMsgs.entries)
      ensures !readable || |payload| > maxMsgSize ==> done == old(done) && inMsgs.entries == old(inMsgs.entries)
    {
      hide Holds, SameBeside;
      var discarded := |payload| > maxMsgSize;
      if !readable || discarded {
        return;
      }
      var acknowledged := AcknowledgeQos(id, qos, now);
      if !acknowledged {
        return;
      }
      done := done + [Hands((topic, payload))];
    }

    /** PUBACK or PUBREC. Whether the entry of a new QoS 2 message found room makes no difference to the answer. */
    method AcknowledgeQos(id: U16, qos: int, now: int) returns (ok: bool)
      requires Valid() && Identified(id, qos)
      modifies this`done, inMsgs`entries, inMsgs.flash`data
      ensures Valid() && outMsgs.entries == old(outMsgs.entries)
      ensures ok <==> qos != QOS_2 || id !in old(inMsgs.entries)
      ensures done == old(done) +
        if qos == QOS_1 then [Sends(Puback(id))]
        else if qos != QOS_2 then []
        else [Sends(PubrecFor(id))] + if ok then [Remembers(old(inMsgs.entries).Keys, inMsgs.capacity, id)] else []
      ensures inMsgs.entries == if qos == QOS_2 && ok && |old(inMsgs.entries)| < inMsgs.capacity
                                then old(inMsgs.entries)[id := Pending(now + inMsgs.keepalive, Message(Pubrec, [], [], 2))]
                                else old(inMsgs.entries)
    {
      hide Holds, SameBeside, Messages;
      if qos == QOS_1 {
        done := done + [Sends(Puback(id))];
      } else if qos == QOS_2 {
        done := done + [Sends(PubrecFor(id))];
        var found := inMsgs.FindMessage(id);
        if found {
          return false;
        }
        ghost var before := inMsgs.flash.data;
        var outcome := Remembers(inMsgs.entries.Keys, inMsgs.capacity, id);
        inMsgs.InsertMessage(id, Message(Pubrec, [], [], 2), now);
        BesideKeeps(Incoming, before, inMsgs.flash.data, Messages(outMsgs.entries));
        done := done + [outcome];
      }
      return true;
    }

    method HandlePubrelEvent(id: MessageId)
      requires Valid()
      modifies this`done, inMsgs`entries, inMsgs.flash`data
      ensures Valid() && outMsgs.entries == old(outMsgs.entries)
      ensures done == old(done) + PubrelEffects(old(inMsgs.entries).Keys, id)
      ensures inMsgs.entries == old(inMsgs.entries) - {id}
    {
      hide Holds, SameBeside;
      ghost var before := inMsgs.flash.data;
      if id in inMsgs.entries {
        done := done + [Forgets(Incoming, id)];
      }
      inMsgs.RemoveMessage(id);
      BesideKeeps(Incoming, before, inMsgs.flash.data, Messages(outMsgs.entries));
      done := done + [Sends(Pubcomp(id))];
    }

    /** An outgoing message, or a subscription, leaves the cache when it is acknowledged, and no other does. */
    method Acknowledged(id: MessageId)
      requires Valid()
      modifies outMsgs`entries, outMsgs.flash`data
      ensures Valid() && inMsgs.entries == old(inMsgs.entries)
      ensures outMsgs.entries == old(outMsgs.entries) - {id}
    {
      hide Holds, SameBeside;
      ghost var before := outMsgs.flash.data;
      outMsgs.RemoveMessage(id);
      BesideKeeps(Outgoing, before, outMsgs.flash.data, Messages(inMsgs.entries));
    }

    method HandlePubackEvent(id: MessageId)
      requires Valid()
      modifies this`done, outMsgs`entries, outMsgs.flash`data
      ensures Valid() && inMsgs.entries == old(inMsgs.entries)
      ensures outMsgs.entries == old(outMsgs.entries) - {id} && done == old(done) + [Delivered(id)]
    {
      Acknowledged(id);
      done := done + [Delivered(id)];
    }

    /** The entry stays until the PUBCOMP; its time starts anew and the PUBREL goes out. */
    method HandlePubrecEvent(id: MessageId, now: int)
      requires Valid()
      modifies this`done, outMsgs`entries
      ensures Valid() && inMsgs.entries == old(inMsgs.entries)
      ensures Messages(outMsgs.entries) == old(Messages(outMsgs.entries))
      ensures outMsgs.entries == if id in old(outMsgs.entries)
        then old(outMsgs.entries)[id := Pending(now + outMsgs.keepalive, old(outMsgs.entries)[id].message)]
        else old(outMsgs.entries)
      ensures done == old(done) + [Sends(PubrelFor(id))]
    {
      hide Holds, SameBeside;
      outMsgs.UpdateMessageExpiry(id, now);
      assert Messages(outMsgs.entries) == old(Messages(outMsgs.entries));
      done := done + [Sends(PubrelFor(id))];
    }

    method HandlePubcompEvent(id: MessageId)
      requires Valid()
      modifies this`done, outMsgs`entries, outMsgs.flash`data
      ensures Valid() && inMsgs.entries == old(inMsgs.entries)
      ensures outMsgs.entries == old(outMsgs.entries) - {id} && done == old(done) + [Delivered(id)]
    {
      Acknowledged(id);
      done := done + [Delivered(id)];
    }

    method HandleSubackEvent(id: MessageId)
      requires Valid()
      modifies this`done, outMsgs`entries, outMsgs.flash`data
      ensures Valid() && inMsgs.entries == old(inMsgs.entries)
      ensures outMsgs.entries == old(outMsgs.entries) - {id} && done == old(done) + [Subscribed(id)]
    {
      Acknowledged(id);
      done := done + [Subscribed(id)];
    }

    /** Without a session on the broker's side everything pending is forgotten, one message after the other, and then
        nothing is pending any more in either direction. */
    method HandleConnackEvent(sessionPresent: bool)
        returns (ghost incoming: seq<MessageId>, ghost outgoing: seq<MessageId>)
      requires Valid()
      modifies this`done, this`connectionState, inMsgs`entries, outMsgs`entries, inMsgs.flash`data
      ensures Valid()
      ensures connectionState == if old(connectionState) == Connecting then Connected else old(connectionState)
      ensures if sessionPresent then inMsgs.entries == old(inMsgs.entries) && outMsgs.entries == old(outMsgs.entries)
              else inMsgs.entries == map[] && outMsgs.entries == map[]
      ensures done == old(done) + ConnackEffects(sessionPresent, incoming, outgoing)
      ensures !sessionPresent ==>
        && Lists(incoming, old(inMsgs.entries).Keys) && Lists(outgoing, old(outMsgs.entries).Keys)
        && inMsgs.flash.data == Cleared(Cleared(old(inMsgs.flash.data), Incoming, incoming), Outgoing, outgoing)
    {
      hide Holds, SameBeside, Lists, Cleared, ClearEffects, Messages;
      incoming, outgoing := [], [];
      if connectionState == Connecting {
        connectionState := Connected;
      }
      if !sessionPresent {
        ghost var before := inMsgs.flash.data;
        var order := inMsgs.ClearMessages();
        incoming := order;
        done := done + ClearEffects(Incoming, order);
        BesideKeeps(Incoming, before, inMsgs.flash.data, Messages(outMsgs.entries));
        before := inMsgs.flash.data;
        order := outMsgs.ClearMessages();
        outgoing := order;
        done := done + ClearEffects(Outgoing, order);
        BesideKeeps(Outgoing, before, inMsgs.flash.data, Messages(inMsgs.entries));
        InOrder(old(done), ClearEffects(Incoming, incoming), ClearEffects(Outgoing, outgoing), [Reconnected]);
      }
      done := done + [Reconnected];
    }

    /** A lost connection leaves everything pending. */
    method HandleDisconnectionEvent()
      requires Valid()
      modifies this`done, this`connectionState
      ensures Valid()
      ensures connectionState ==
        match old(connectionState)
        case Connecting => ConnectionError
        case Connected => ConnectionError
        case Disconnecting => Disconnected
        case other => other
      ensures done == old(done) + [Lost]
    {
      match connectionState {
        case Connecting => connectionState := ConnectionError;
        case Connected => connectionState := ConnectionError;
        case Disconnecting => connectionState := Disconnected;
        case _ =>
      }
      done := done + [Lost];
    }
  }
}
