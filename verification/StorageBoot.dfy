/** Opening the storage at boot: the format version, the recovery of a pending operation, and the erasure of a partition
    that is of another version or beyond recovery. */
module StorageBoot {
  import opened Bytes
  import opened SlotIds
  import opened KvStore
  import opened KvPrograms
  import opened KvBoot
  import opened EntryHash
  import opened EntryCodec
  import opened KvFlash
  import opened DirectAccess
  import opened MqttStorage
  import opened MqttCaching
  import opened MqttEvents

  const VERSION_MAJOR := 0
  const VERSION_MINOR := 6
  const VERSION_PATCH := 0
  const VERSION_BYTES := 6

  function CurrentVersion(): Bytes {
    Le16(VERSION_MAJOR) + Le16(VERSION_MINOR) + Le16(VERSION_PATCH)
  }

  /** What a boot finds out about the format of a partition. */
  datatype Format = Unwritten | Truncated | Foreign | Current

  function FormatOf(data: Image): Format {
    if VERSION_ID !in data then Unwritten
    else if |data[VERSION_ID]| < VERSION_BYTES then Truncated
    else if data[VERSION_ID][..VERSION_BYTES] != CurrentVersion() then Foreign
    else Current
  }

  /** Nothing changed outside the key-value store but the version. */
  ghost predicate KeptElsewhere(before: Image, after: Image) {
    forall id :: Elsewhere(id) && id != VERSION_ID ==>
      (id in after <==> id in before) && (id in after ==> after[id] == before[id])
  }

  lemma VersionKeepsStore(data: Image)
    requires WellFormedImage(data)
    ensures var d := data[VERSION_ID := CurrentVersion()];
      WellFormedImage(d) && Decode(d) == Decode(data) && FormatOf(d) == Current && KeptElsewhere(data, d)
  {
    hide Le16, IsEntry, IsIntent, IsHeadTail, DecodeEntry, DecodeIntent, Get32;
    VersionSize();
  }

  lemma VersionSize()
    ensures |CurrentVersion()| == VERSION_BYTES
    ensures CurrentVersion()[..VERSION_BYTES] == CurrentVersion()
  {
  }

  lemma EmptyImage()
    ensures WellFormedImage(map[]) && Decode(map[]) == EMPTY && FormatOf(map[]) == Unwritten
  {
  }

  lemma FormatKept(before: Image, after: Image)
    requires SameElsewhere(before, after)
    ensures FormatOf(after) == FormatOf(before) && KeptElsewhere(before, after)
  {
    hide CurrentVersion;
  }

  lemma KeptTwice(a: Image, b: Image, c: Image)
    requires KeptElsewhere(a, b) && KeptElsewhere(b, c)
    ensures KeptElsewhere(a, c)
  {
  }

  /** Mounts the partition: checks or writes the version and recovers a pending operation. */
  method KeyValueOpen(flash: Flash) returns (code: Code)
    requires flash.Valid()
    modifies flash
    ensures flash.Valid()
    ensures match FormatOf(old(flash.data))
      case Truncated => code == ZmsError && flash.data == old(flash.data)
      case Foreign => code == IncompatibleVersion && flash.data == old(flash.data)
      case _ =>
        var r := Resolve(flash.Home(), old(flash.Store()));
        && code == r.code && flash.Store() == End(old(flash.Store()), r)
        && FormatOf(flash.data) == Current && KeptElsewhere(old(flash.data), flash.data)
        && flash.log == old(flash.log) + (if VERSION_ID in old(flash.data) then [] else [old(flash.Store())]) + r.log
  {
    hide Decode, WellFormedImage, CurrentVersion, Resolve, FormatOf, KeptElsewhere, SameElsewhere;
    OpenFormat(flash.data);
    FormatKept(flash.data, flash.data);
    if VERSION_ID !in flash.data {
      VersionKeepsStore(flash.data);
      flash.data := flash.data[VERSION_ID := CurrentVersion()];
      flash.log := flash.log + [flash.Store()];
    } else {
      var stored := flash.data[VERSION_ID];
      if |stored| < VERSION_BYTES {
        return ZmsError;
      }
      if stored[..VERSION_BYTES] != CurrentVersion() {
        return IncompatibleVersion;
      }
    }
    ghost var mounted := flash.data;
    code := flash.IntentResolve();
    FormatKept(mounted, flash.data);
    KeptTwice(old(flash.data), mounted, flash.data);
  }

  lemma OpenFormat(data: Image)
    ensures SameElsewhere(data, data)
    ensures VERSION_ID !in data ==> FormatOf(data) == Unwritten
    ensures VERSION_ID in data ==>
      FormatOf(data) == if |data[VERSION_ID]| < VERSION_BYTES then Truncated
                        else if data[VERSION_ID][..VERSION_BYTES] != CurrentVersion() then Foreign else Current
  {
  }

  /** A partition of another version, or one whose recovery fails, is erased, with everything that it held: the key-value
      store of all namespaces and the pending messages. Otherwise the boot keeps all that recovery keeps. */
  method StorageInit(flash: Flash) returns (code: Code)
    requires flash.Valid()
    modifies flash
    ensures flash.Valid()
    ensures if FormatOf(old(flash.data)) == Truncated then code == ZmsError && flash.data == old(flash.data)
            else code == Ok && FormatOf(flash.data) == Current
    ensures FormatOf(old(flash.data)) == Foreign ==> flash.Store() == EMPTY && KeptElsewhere(map[], flash.data)
    ensures FormatOf(old(flash.data)) == Unwritten || FormatOf(old(flash.data)) == Current ==>
      && flash.Store() == Boot(flash.Home(), old(flash.Store()))
      && KeptElsewhere(if Resolve(flash.Home(), old(flash.Store())).code == Ok then old(flash.data) else map[], flash.data)
  {
    hide Decode, WellFormedImage, CurrentVersion, Resolve, FormatOf, KeptElsewhere;
    ResolveCodes(flash.Home(), flash.Store());
    code := KeyValueOpen(flash);
    if code == IncompatibleVersion || code == RecoveryFailed {
      EmptyImage();
      EmptyResolves(flash.Home());
      flash.data := map[];
      flash.log := flash.log + [EMPTY];
      code := KeyValueOpen(flash);
    }
  }

  lemma ResolveCodes(h: Home, c: Store)
    ensures Resolve(h, c).code == Ok || Resolve(h, c).code == RecoveryFailed
  {
    hide ResolveInsert, ResolveDelete, ResolveShift;
  }

  lemma EmptyResolves(h: Home)
    ensures Resolve(h, EMPTY) == Nothing(Ok) && End(EMPTY, Nothing(Ok)) == EMPTY
  {
  }

  // ---- the pending messages

  /** What a boot does to pending messages: all stay, or none. */
  lemma MessagesKept(before: Image, after: Image, d: Direction, messages: map<MessageId, Message>)
    requires KeptElsewhere(before, after)
    ensures Holds(before, d, messages) <==> Holds(after, d, messages)
  {
    hide StorageKey, EncodeMessage;
    forall id: MessageId
      ensures Elsewhere(StorageKey(d, id)) && StorageKey(d, id) != VERSION_ID
    {
      KeyElsewhere(d, id);
      KeyIsNotVersion(d, id);
    }
  }

  lemma KeyIsNotVersion(d: Direction, id: MessageId)
    ensures StorageKey(d, id) != VERSION_ID
  {
  }

  lemma NoMessages(d: Direction)
    ensures Holds(map[], d, map[])
  {
  }

  /** A device that boots, from an image with these pending messages, has the same ones in its caches, or none at all:
      exactly if the partition was of another version or beyond recovery. */
  method BootDevice(flash: Flash, maxMsgSize: nat, capacity: nat, keepalive: nat, now: int,
                    ghost incoming: map<MessageId, Message>, ghost outgoing: map<MessageId, Message>)
      returns (code: Code, client: Client?)
    requires flash.Valid() && Holds(flash.data, Incoming, incoming) && Holds(flash.data, Outgoing, outgoing)
    requires |incoming| <= capacity && |outgoing| <= capacity
    modifies flash
    ensures FormatOf(old(flash.data)) == Truncated ==> code == ZmsError && client == null
    ensures FormatOf(old(flash.data)) != Truncated ==>
      && code == Ok && client != null && client.Valid() && client.inMsgs.flash == flash
      && var erased := FormatOf(old(flash.data)) == Foreign
                       || Resolve(flash.Home(), old(flash.Store())).code == RecoveryFailed;
         && Messages(client.inMsgs.entries) == (if erased then map[] else incoming)
         && Messages(client.outMsgs.entries) == (if erased then map[] else outgoing)
  {
    hide Decode, WellFormedImage, CurrentVersion, Resolve, FormatOf, KeptElsewhere, Holds;
    ResolveCodes(flash.Home(), flash.Store());
    ghost var erased := FormatOf(flash.data) == Foreign
                        || Resolve(flash.Home(), flash.Store()).code == RecoveryFailed;
    ghost var before := if erased then map[] else flash.data;
    ghost var received, sent := if erased then map[] else incoming, if erased then map[] else outgoing;
    NoMessages(Incoming);
    NoMessages(Outgoing);
    client := null;
    code := StorageInit(flash);
    if code != Ok {
      return;
    }
    MessagesKept(before, flash.data, Incoming, received);
    MessagesKept(before, flash.data, Outgoing, sent);
    client := new Client(flash, maxMsgSize, capacity, keepalive, now, received, sent);
  }
}
