# Verification of the Astarte device SDK's storage, queueing and messaging core

This project models, in Dafny 4.11, the parts of the Astarte device SDK for Zephyr that keep data through power losses and
lost connections, and proves what they promise.

* **Key-value store** (`SlotIds`, `EntryHash`, `KvStore`, `KvPrograms`, `KvProbing`, `KvList`, `KvShift`,
  `KvOperations`, `KvCrash`, `KvDurability`, `KvBoot`, `KvFaults`, `EntryCodec`, `KvFlash`, `KvQuota`, `KeyValue`): an
  open-addressing hash table over a flash map, a doubly linked list inside its records, deletion by backward shift, and
  an intent block for recovery. `KvStore` is the decoded store, `KvPrograms` gives each routine as the sequence of flash
  states it writes, and `KvFlash` is the imperative code on bytes, proved to write exactly those states. The store
  refines an insertion-ordered map from (namespace, key) to bytes. A power loss is a stop after any prefix of the flash
  writes, and a boot recovers or erases.
* **Property purge** (`PropertiesPurge`): the walk that deletes properties while the entries move under its iterator.
* **Transmission queue** (`RingIndexes`, `TransmissionMsg`, `TransmissionRing`, `TransmissionDurability`,
  `TransmissionQueue`, `TransmissionWorker`, `Pacing`): a persistent ring on decimal keys with 32-bit wrapping indexes and
  what a power loss leaves of it, four lanes merged by sequence number, and the worker that drains them through a token
  bucket.
* **Pending MQTT messages** (`DirectAccess`, `MqttStorage`, `MqttCaching`, `MqttEvents`, `MqttProtocol`,
  `MqttInvariant`, `MqttExactlyOnce`, `MqttFaults`): a map in memory mirrored in flash, the packet handlers, and QoS 2
  delivery as a protocol with a broker that follows section 4.3.3 of MQTT Version 3.1.1.
* **Boot** (`StorageBoot`): opening the storage, erasing it when it is foreign or beyond recovery, and restoring the caches.
* **BSON and typed data** (`BsonFormat`, `BsonSerializer`, `BsonDeserializer`, `AstarteData`, `AstarteDeserializer`): the
  growing serializer, the cursor parser over untrusted bytes, and the round trip of the fourteen data types, after version
  1.1 of the BSON specification.
* **Introspection** (`Introspection`): the exact fit of the introspection string.

`Formats` states what is written in flash, in BSON and in the introspection byte by byte. `Bytes`, `Buffers`, `Decimals` and
`Options` hold shared definitions. `dafny verify dfyconfig.toml` checks everything.

## Where the code does less than its documentation or its standard says

`doc/architecture/Astarte-key-value-storage.md` promises that an interrupted operation is always repaired, and MQTT that a
QoS 2 message is delivered exactly once. The model follows the code; these results say exactly when it keeps the promise.

* Between the copy to the hole and the deletion of its source (`key_value/entry_delete.c:170-184`) an entry is in two slots,
  and recovery leaves it there. `KvDurability.SafeRemoval` gives the condition on the table under which a removal never
  passes through such a state, and `KvFaults.RecoveryKeepsDuplicate` a store that does. A key stored twice is found again
  after it was removed (`KvFaults.RemovedKeyReturns`).
* The scan for the hole of an interrupted shift wraps to identifier 0 (`key_value/entry_intent.c:312`), where every other
  loop wraps to the first slot. When the cluster ran across the end of the range, recovery fails, and the next boot answers
  that by erasing the partition (`storage/core.c:86-94`), with all namespaces and pending messages: `KvCrash.ScanFindsHole`
  and `KvBoot.BootOutcome` have the condition, `KvFaults.RecoveryCannotWrap` a store.
* The client answers a QoS 2 PUBLISH with a PUBREC before it stores the message, and stores it before the application
  callback (`mqtt/events.c:224-257`). A power cut in between loses the message although the broker completes it:
  `MqttExactlyOnce.ExactlyOnce` has the condition, `MqttFaults.CrashLosesMessage` a run.
* The cache that tells a duplicate from a new message has a limit of 100 entries by default (`mqtt/caching.c:54-56`), and a
  full one refuses an entry without any effect on the answer or the callback. If the connection then breaks before the PUBREC
  arrives, the message is handed over again, any number of times: `MqttExactlyOnce.RepeatsAreExposed` has the condition,
  `MqttFaults.FullCacheRepeats` the runs, and `MqttFaults.CapacityDecides` the size of the cache at which it ends. A reboot
  that loses entries does the same, which it does when it erases the partition (`MqttFaults.LostEntryRepeats`).
* The client forgets its packet identifiers only when a CONNACK tells it of a new session (`mqtt/events.c:41-44`), and then
  one at a time. If that CONNACK is lost, or power fails during the clearing, the next one reports an old session, and an
  identifier left over makes the client take a new message for a duplicate, without any crash:
  `MqttExactlyOnce.ExactlyOnce` has the condition, `MqttFaults.LostConnackLosesMessage` a run.

Smaller ones. The parser accepts a nested document that declares fewer than four bytes, takes it for the last element,
and silently drops everything behind it, while counting the elements succeeds (`BsonFormat.UndersizedIsLast`,
`BsonFormat.ShortDropsRest`, `BsonFormat.BooleanDropped`). An empty blob serializes but cannot be read back
(`AstarteDeserializer.DataRoundTrip`). The introspection size is too small exactly when an interface name is longer than
128 bytes (`Introspection.ReservedFits`), and `Introspection.InsideIff` says when the text then leaves the buffer. A
quota is wrong exactly when partition size times percentage needs more than 32 bits (`KeyValueStorage.QuotaExact`). With
every slot taken and no message in flash the queue reports an error although its lanes in memory hold messages, and the
worker takes none of them (`TransmissionQueue.Queue.Peek`, `TransmissionWorker.Worker.ProcessTransmissionQueue`).

## Model

| member | source | states |
|---|---|---|
| KvOperations.CrashAtomicity | lib/astarte_device_sdk/key_value/entry_intent.c:65-323 | A put or a removal on a well-formed store stops after any number of its flash writes. Recovery then ends exactly in the store before the operation or in the store after it, if and only if the image left behind holds no entry twice and its shift is not stranded; a removal that wrote anything is always completed; a put never leaves an image outside that condition. |
| KvCrash.RecoveryIff | lib/astarte_device_sdk/key_value/entry_intent.c:65-323 | From every state that an interrupted operation can leave, recovery ends in the state aimed at if and only if the image is clean; on an unclean one it fails or leaves an entry stored twice. |
| KvCrash.RecoveryStates | lib/astarte_device_sdk/key_value/entry_intent.c:65-323 | A recovery that is itself interrupted after any write leaves a state that still aims at the same result, or one inside a relocation. |
| KvCrash.ScanFindsHole | lib/astarte_device_sdk/key_value/entry_intent.c:287-323 | The forward scan stops exactly at the vacated slot if and only if that slot does not lie behind the slot named in the intent block, that is unless the cluster ran across the end of the slot range. |
| KvCrash.PendingResolves | lib/astarte_device_sdk/key_value/entry_intent.c:287-323 | Recovery of an interrupted shift resumes the loop at its hole and ends in the table of the uninterrupted run; if the scan leaves the range it fails without writing. |
| KvCrash.UnlinkingResolves | lib/astarte_device_sdk/key_value/entry_intent.c:180-286 | Recovery of a removal interrupted while unlinking finishes the unlinking from any of its states and then runs the whole shift. |
| KvCrash.RollingResolves | lib/astarte_device_sdk/key_value/entry_intent.c:114-179 | Recovery of an insertion whose head/tail record was not written takes the half-written entry out again and restores the tail. |
| KvCrash.CommittedResolves | lib/astarte_device_sdk/key_value/entry_intent.c:114-179 | An update, or an insertion whose head/tail record was written, only has its intent block cleared. |
| KvCrash.MidMoveStays | lib/astarte_device_sdk/key_value/entry_intent.c:287-323 | An image taken between the copy to the hole and the deletion of the source keeps the duplicate for good: recovery only clears the intent, or fails if the scan leaves the range. |
| KvDurability.RepeatedRecovery | lib/astarte_device_sdk/key_value/entry_intent.c:65-108 | Recovery may be interrupted and rerun any number of times; the first one that completes ends in the same store. |
| KvDurability.HistoryIsAtomic | lib/astarte_device_sdk/key_value/core.c:209-357 | Over any history of operations, power losses and interrupted recoveries from clean images, the store stays well-formed, and its items come from applying a subsequence of the operations whole and in order that leaves out none that completed. |
| KvDurability.AttemptIsAtomic | lib/astarte_device_sdk/key_value/core.c:209-357 | One operation with a power loss and any number of cut recoveries leaves the items before it or after it. |
| KvDurability.SafeRemoval | lib/astarte_device_sdk/key_value/entry_delete.c:41-113 | A removal can lose power at each of its writes and be recovered if and only if no remaining entry has the removed slot on its probe path. |
| KvDurability.CutOffEntryIsCopied | lib/astarte_device_sdk/key_value/entry_delete.c:119-196 | If the hole cuts an entry off its probe path, the shift loop passes through a flash state that holds that entry twice. |
| KvBoot.BootOutcome | lib/astarte_device_sdk/storage/core.c:68-100 | After an operation that loses power at any write, and any number of recoveries that lose power in turn, clean or not, the image tells what the next boot does: it ends in the store before the operation or after it if the image is clean; recovery fails if and only if the shift is stranded, and the boot then leaves an empty store; otherwise an entry is stored twice and stays so. |
| KvBoot.BootsAreAtomic | lib/astarte_device_sdk/storage/core.c:68-100 | Over any history of operations, power losses, cut recoveries and boots in which no boot finds an entry stored twice, the store stays well-formed, and its items come from applying operations whole and in order since the last boot that erased, leaving out none that completed. |
| KvBoot.CutsKeepAiming | lib/astarte_device_sdk/key_value/entry_intent.c:65-108 | Recoveries that lose power keep aiming at the same store, or leave an entry stored twice from which no recovery returns. |
| KvBoot.DoubledBoots | lib/astarte_device_sdk/key_value/entry_intent.c:299-319 | A boot that finds an entry stored twice changes nothing but the intent block. |
| StorageBoot.KeyValueOpen | lib/astarte_device_sdk/key_value/core.c:68-143 | Refuses a truncated or foreign format version without writing; otherwise writes a missing version, resolves the pending operation and returns its code; nothing else beside the store changes. |
| StorageBoot.StorageInit | lib/astarte_device_sdk/storage/core.c:68-177 | A partition of another version, or one whose recovery fails, is erased and opened again, and everything on it is gone; any other keeps what recovery keeps. |
| StorageBoot.BootDevice | lib/astarte_device_sdk/device/core.c:157-220 | After a boot the caches of pending messages are what they were, or both are empty, exactly if the partition was erased. |
| StorageBoot.MessagesKept | lib/astarte_device_sdk/key_value/core.c:104-143 | What the boot writes besides the store and its version shows in no pending message. |
| KvFaults.RecoveryKeepsDuplicate | lib/astarte_device_sdk/key_value/entry_intent.c:299-319 | A concrete store and hash with two colliding keys: power lost in the middle of the relocation, recovery reports success, and the entry is in two slots. |
| KvFaults.RecoveryCannotWrap | lib/astarte_device_sdk/key_value/entry_intent.c:312-312 | A concrete store and hash whose cluster crosses the last slot: power lost after the relocation, nothing is duplicated, recovery fails because the scan goes on at 0 and not at the first slot, and the next boot erases the entry that nobody removed with everything else. |
| KvFaults.RemovedKeyReturns | lib/astarte_device_sdk/key_value/entry_delete.c:41-68 | What a duplicate means for a caller: on the store that recovery left there, removing the key succeeds, and the key is found again. |
| KvFaults.ConstantHomes | lib/astarte_device_sdk/key_value/entry_hash.c:35-52 | The natural slots of these stores are those of a system hash: two hash values combine and reduce to the first slot and to the last. |
| KvOperations.ExecuteRefines | lib/astarte_device_sdk/key_value/core.c:209-357 | Every put and removal on a well-formed store refines the insertion-ordered map: a new key is appended, a known key keeps its place and changes its value, a removed key disappears and nothing else moves; it succeeds exactly when the map operation has room and, for a removal, a target, and a failure writes nothing. |
| KvOperations.LookupIsPosition | lib/astarte_device_sdk/key_value/entry.c:38-72 | Probing for a key and looking for it along the linked list give the same answer: the slot at its position, or a free slot, or a full table. |
| KvOperations.EntryDeleteRemoves | lib/astarte_device_sdk/key_value/entry_delete.c:41-113 | Deleting the entry at any position of the list leaves a well-formed store with exactly that item taken out. |
| KvOperations.PositionOfItem | lib/astarte_device_sdk/key_value/entry.c:390-419 | Each item is found at its own position: keys are unique in the list. |
| KvProbing.LookupDecides | lib/astarte_device_sdk/key_value/entry.c:38-72 | Linear probing decides membership: the one slot holding the key, or a hole that ends the key's whole probe path, or a full table that does not hold it. |
| KvProbing.InsertKeepsProbing | lib/astarte_device_sdk/key_value/entry.c:74-141 | Filling the hole that ended a key's probe path keeps every entry reachable and every key unique. |
| KvProbing.DeleteLeavesHole | lib/astarte_device_sdk/key_value/entry_delete.c:70-113 | Emptying a slot leaves a table in which every entry is reachable but for that one hole. |
| KvProbing.RelocationMovesHole | lib/astarte_device_sdk/key_value/entry_delete.c:119-196 | Moving an entry whose natural slot does not lie between the hole and itself into the hole keeps all entries reachable but for the new hole. |
| KvProbing.SettledIsProbeable | lib/astarte_device_sdk/key_value/entry_delete.c:80-110 | When the loop stops, at an empty slot or after a whole lap around the slot range, no entry is cut off by the hole, wrap from the last slot to the first included. |
| KvShift.ShiftRepairs | lib/astarte_device_sdk/key_value/entry_delete.c:70-113 | The shift loop restores the probe invariant on every table with one hole, and keeps keys unique, the list linked and the items in their order. |
| KvShift.ShiftStates | lib/astarte_device_sdk/key_value/entry_delete.c:70-196 | Every flash state that the loop passes through is either pending towards the loop's result or inside a relocation. |
| KvShift.VacatedIsPending | lib/astarte_device_sdk/key_value/entry_delete.c:80-110 | Once the source of a relocation is deleted, before and after the intent block is rewritten, the rest of the loop leads to the table of the uninterrupted run. |
| KvShift.MoveKeeps | lib/astarte_device_sdk/key_value/entry_delete.c:157-191 | One relocation moves the hole and leaves the items, their order and the key set alone. |
| KvShift.ShiftStep | lib/astarte_device_sdk/key_value/entry_delete.c:80-110 | One round that relocates writes copy, two neighbour links, deletion and intent in this order, and strictly lowers the sum of displacements. |
| KvShift.FinalIgnoresIntent | lib/astarte_device_sdk/key_value/entry_delete.c:70-113 | The result of the loop does not depend on the intent block. |
| KvPrograms.RelocationLowersDisplacement | lib/astarte_device_sdk/key_value/entry_delete.c:157-191 | Relocating an entry into a hole on its probe path lowers the sum of all distances from natural slots; this is why the loop ends on every table, a saturated one included. |
| KvPrograms.FirstHole | lib/astarte_device_sdk/key_value/entry_intent.c:299-319 | The scan result is an empty slot at or after its start, with only taken slots before it. |
| KvList.OrderUnique | lib/astarte_device_sdk/key_value/entry_list.c:24-73 | The order of the doubly linked list is a function of the store: two orders that fit all links are equal. |
| KvList.EntryWriteAppends | lib/astarte_device_sdk/key_value/entry.c:74-141 | Writing a new entry passes through intent, payload, old tail link and head/tail record, and ends in the store with the entry linked in at the end. |
| KvList.AppendedLinked | lib/astarte_device_sdk/key_value/entry.c:322-344 | After an insertion next and previous links are inverse to each other along the old order with the new slot at its end. |
| KvList.DetachedLinked | lib/astarte_device_sdk/key_value/entry_delete.c:250-323 | Unlinking takes the slot out of the order, keeps every other key and value, and leaves correct links and head/tail. |
| KvList.DetachRepeats | lib/astarte_device_sdk/key_value/entry_intent.c:180-286 | Repeating the unlinking from any state it passes through ends in the same store. |
| KvList.MovedLinked | lib/astarte_device_sdk/key_value/entry_delete.c:198-248 | A relocation renames one slot in the order; neighbours, head and tail point to the new slot. |
| KvList.UpdatedLinked | lib/astarte_device_sdk/key_value/entry.c:74-141 | An update changes a value in place and leaves all links alone. |
| KvFlash.Flash.FindOrAlloc | lib/astarte_device_sdk/key_value/entry.c:38-72 | The probe loop over the flash image answers as the probing specification does, for searching and for allocating. |
| KvFlash.Flash.CheckEntryMatch | lib/astarte_device_sdk/key_value/entry.c:390-419 | An entry matches exactly when the decoded record has this namespace and this key. |
| KvFlash.Flash.EntryWrite | lib/astarte_device_sdk/key_value/entry.c:74-141 | Writes exactly the flash states of an insertion or update, in order, and no identifier outside the store. |
| KvFlash.Flash.SerializeEntry | lib/astarte_device_sdk/key_value/entry.c:346-388 | Lays header, namespace, key and value out so that decoding returns them. |
| KvFlash.Flash.UpdateListTail | lib/astarte_device_sdk/key_value/entry.c:322-344 | Re-points the old tail, if there is one, and then writes the head/tail record. |
| KvFlash.Flash.ReadValue | lib/astarte_device_sdk/key_value/entry.c:143-196 | Returns the stored value, or an error when the buffer is too small or the entry absent. |
| KvFlash.Flash.ReadValueSize | lib/astarte_device_sdk/key_value/entry.c:143-196 | The size asked for without a buffer is that of the stored value. |
| KvFlash.Flash.ReadKey | lib/astarte_device_sdk/key_value/entry.c:198-228 | Returns the stored key with its terminator and its size with it, or only that size without a buffer, or refuses a buffer that is too small. |
| KvFlash.Flash.CheckNamespace | lib/astarte_device_sdk/key_value/entry.c:230-264 | True exactly for a stored entry of this namespace. |
| KvFlash.Flash.GetNextId | lib/astarte_device_sdk/key_value/entry.c:266-294 | The next link of an entry, or the head of the list when there is no current entry. |
| KvFlash.Flash.GetPrevId | lib/astarte_device_sdk/key_value/entry.c:296-316 | The previous link of an entry. |
| KvFlash.Flash.HeaderRead | lib/astarte_device_sdk/key_value/entry_header.c:61-126 | Reads the fixed fields and the two strings of the record of an entry. |
| KvFlash.Flash.HeaderReadFixed | lib/astarte_device_sdk/key_value/entry_header.c:140-171 | Reads the fixed fields and the size of a record. |
| KvFlash.Flash.ReadHeadAndTailIds | lib/astarte_device_sdk/key_value/entry_list.c:54-73 | Head and tail of the list, null when the record was never written. |
| KvFlash.Flash.WriteHeadAndTailIds | lib/astarte_device_sdk/key_value/entry_list.c:75-85 | Writes the head/tail record and nothing else. |
| KvFlash.Flash.UpdateNextId | lib/astarte_device_sdk/key_value/entry_list.c:87-119 | Patches four bytes of the record in place; the decoded store changes in that link only. |
| KvFlash.Flash.UpdatePrevId | lib/astarte_device_sdk/key_value/entry_list.c:121-154 | The same for the previous link. |
| KvFlash.Flash.IntentWrite | lib/astarte_device_sdk/key_value/entry_intent.c:32-48 | Writes the intent block and nothing else. |
| KvFlash.Flash.IntentClear | lib/astarte_device_sdk/key_value/entry_intent.c:50-63 | Leaves the store without a pending operation. |
| KvFlash.Flash.IntentResolve | lib/astarte_device_sdk/key_value/entry_intent.c:65-108 | Writes exactly the states of the recovery specification and returns its code. |
| KvFlash.Flash.ResolveInsertIntent | lib/astarte_device_sdk/key_value/entry_intent.c:114-179 | The recovery of an interrupted insertion, write by write. |
| KvFlash.Flash.ResolveDeleteIntent | lib/astarte_device_sdk/key_value/entry_intent.c:180-286 | The recovery of an interrupted unlinking, write by write. |
| KvFlash.Flash.ResolveShiftIntent | lib/astarte_device_sdk/key_value/entry_intent.c:287-323 | The scan for the hole and the resumed shift, with the scan going on at identifier 0 past the last slot, as the code does. |
| KvFlash.Flash.EntryDelete | lib/astarte_device_sdk/key_value/entry_delete.c:41-68 | Writes exactly the states of a deletion; deleting an absent entry succeeds and writes nothing. |
| KvFlash.Flash.DeleteResumeShift | lib/astarte_device_sdk/key_value/entry_delete.c:70-113 | The shift loop terminates and writes exactly the states of its specification. |
| KvFlash.Flash.ShiftBackSingleEntry | lib/astarte_device_sdk/key_value/entry_delete.c:119-196 | One round: nothing for an entry in place, the relocation for one that belongs in the hole, and not found at an empty slot. |
| KvFlash.Flash.UpdateShiftedEntryNeighbors | lib/astarte_device_sdk/key_value/entry_delete.c:198-248 | Re-points both neighbours of a copied entry, or head and tail where there is none. |
| KvFlash.Flash.DeleteAndUnlinkSingleEntry | lib/astarte_device_sdk/key_value/entry_delete.c:250-323 | Intent block first, then the unlinking. |
| KvFlash.Flash.DetachEntry | lib/astarte_device_sdk/key_value/entry_delete.c:262-318 | Previous link, next link, head/tail record, then the deletion of the entry. |
| KvFlash.DecodeWithEntry | lib/astarte_device_sdk/key_value/entry.c:346-388 | Overwriting the record of one slot changes the decoded store at that slot only. |
| KvFlash.ShiftRound | lib/astarte_device_sdk/key_value/entry_delete.c:80-110 | What one round of the loop does to the rest of its run. |
| EntryCodec.EntryRoundTrip | lib/astarte_device_sdk/key_value/entry_header.c:61-171 | Reading back an entry returns every field that was stored. |
| EntryCodec.EntryBytesUnique | lib/astarte_device_sdk/key_value/entry.c:346-388 | Two entries with the same bytes are the same entry. |
| EntryCodec.PatchNext | lib/astarte_device_sdk/key_value/entry_list.c:87-119 | Patching the bytes of the next link changes that field and no other. |
| EntryCodec.PatchPrev | lib/astarte_device_sdk/key_value/entry_list.c:121-154 | Patching the bytes of the previous link changes that field and no other. |
| EntryCodec.HeadTailRoundTrip | lib/astarte_device_sdk/key_value/entry_list.c:54-85 | The head/tail record reads back as written. |
| EntryCodec.IntentRoundTrip | lib/astarte_device_sdk/key_value/entry_intent.c:32-48 | The intent block reads back as written, for all four operations. |
| EntryHash.Reduce | lib/astarte_device_sdk/key_value/entry_hash.c:35-52 | The reduced hash lies in the slot range, at the place in it that the hash has among all 32-bit values. |
| EntryHash.ReduceSpansRange | lib/astarte_device_sdk/key_value/entry_hash.c:35-52 | The reduction is monotone in the hash and reaches the first and the last slot. |
| KeyValueStorage.KeyValue.constructor | lib/astarte_device_sdk/key_value/core.c:148-198 | Opens a namespace with the quota that 32-bit arithmetic gives; with a quota it sums up the sizes of the values. |
| KeyValueStorage.QuotaExact | lib/astarte_device_sdk/key_value/core.c:163-166 | The quota is the percentage of the partition if and only if size times percentage is below 2^32. |
| KeyValueStorage.FoundHolds | lib/astarte_device_sdk/key_value/entry.c:38-72 | Probing for an absent key ends at a hole if and only if fewer items are stored than there are slots; otherwise the table is full. |
| KeyValueStorage.KeyValue.InitUsage | lib/astarte_device_sdk/key_value/core.c:163-192 | The iteration at open counts every value of the namespace once and no other. |
| KeyValueStorage.KeyValue.Insert | lib/astarte_device_sdk/key_value/core.c:209-270 | Recovers first; then a put of the ordered map, refused when the quota or the table has no room; usage and flash writes are stated exactly, and nothing in flash beside the store changes. |
| KeyValueStorage.KeyValue.Find | lib/astarte_device_sdk/key_value/core.c:272-304 | Returns the value stored under the key; an absent key is not found, or answers full exactly when every slot is taken; only a failed recovery answers otherwise. |
| KeyValueStorage.KeyValue.FindSize | lib/astarte_device_sdk/key_value/core.c:272-304 | The same for the size alone. |
| KeyValueStorage.KeyValue.Delete | lib/astarte_device_sdk/key_value/core.c:306-357 | A removal of the ordered map, and the size of the value taken off the usage; an absent key answers full exactly when every slot is taken. |
| KeyValueStorage.Iterator.Settle | lib/astarte_device_sdk/key_value/core.c:380-384 | The recovery at the start of each iterator call keeps the iterator at its position in the recovered list. |
| KeyValueStorage.Iterator.Next | lib/astarte_device_sdk/key_value/core.c:368-408 | Finishes a pending operation first; then steps to the next entry of the namespace in list order, skipping other namespaces; at the end it stays. |
| KeyValueStorage.Iterator.FindNextMatchingId | lib/astarte_device_sdk/key_value/core.c:516-547 | Finds the next entry of the namespace without moving. |
| KeyValueStorage.Iterator.Get | lib/astarte_device_sdk/key_value/core.c:410-430 | Finishes a pending operation first; then the key at the iterator's position with its terminator, its size alone, or a buffer that is too small. |
| KeyValueStorage.Iterator.Delete | lib/astarte_device_sdk/key_value/core.c:432-510 | Finishes a pending operation first; then deletes the current entry; wherever the shift moves the next entry of the namespace, the iterator then stands right before it, and before the first item if there is none. |
| KeyValueStorage.Iterator.DeleteCurrent | lib/astarte_device_sdk/key_value/core.c:476-501 | Deletes the current entry, takes the size of its value off the usage, and keeps the usage equal to the sum of the sizes. |
| KeyValueStorage.Iterator.HealPostDelete | lib/astarte_device_sdk/key_value/core.c:584-606 | Finds the next entry again by its key and puts the iterator on its predecessor. |
| KvQuota.UsedAfter | lib/astarte_device_sdk/key_value/core.c:235-268 | The sum of a namespace moves by the value put or removed in it and by nothing else. |
| KvQuota.UsageConserved | lib/astarte_device_sdk/key_value/core.c:235-354 | Over any run of operations of all namespaces the usage kept is the sum of the value sizes and stays within the larger of the quota and the usage at open. |
| PropertiesPurge.PurgeServerProperties | lib/astarte_device_sdk/device/properties_storage.c:254-303 | The walk ends although deletions move entries and can send the iterator back to the start; if every stored key is well named, exactly the purged list is left, the usage stays right, and nothing in flash beside the store changes. |
| PropertiesPurge.PurgeServerProperty | lib/astarte_device_sdk/device/properties_storage.c:305-358 | Deletes the current property exactly when its interface is unknown, or owned by the server and its path not allowed. |
| PropertiesPurge.PurgedHolds | lib/astarte_device_sdk/device/properties_storage.c:305-358 | What is left is exactly the items of other namespaces and the properties that may stay. |
| PropertiesPurge.PurgedByOwner | lib/astarte_device_sdk/device/properties_storage.c:305-358 | Of a property with this interface name and path: gone if the interface is unknown, there if the device owns it, and if the server owns it there exactly if name and path together are on the list. |
| PropertiesPurge.VisitKeeps | lib/astarte_device_sdk/device/properties_storage.c:254-303 | After each visit everything up to the iterator may stay, also when it was sent back to the start, and either nothing changed or an entry is gone. |
| PropertiesPurge.PurgedWithout | lib/astarte_device_sdk/device/properties_storage.c:305-358 | Deleting an entry that may not stay does not change what the purge has to reach. |
| PropertiesPurge.SeparatorAt | lib/astarte_device_sdk/storage/prop.c:254-327 | A stored key is split at its first separator. |
| RingIndexes.RecoverIsExact | lib/astarte_device_sdk/storage/trans.c:68-145 | For every non-empty, non-full cyclic interval of 32-bit identifiers, wrapped or not, head and tail are recovered exactly from minimum, maximum, sum and count: both divisions are exact, the number missing is not zero, and no 64-bit value overflows. |
| RingIndexes.RingIdsMeasures | lib/astarte_device_sdk/storage/trans.c:68-106 | Minimum, maximum and sum of a cyclic interval. |
| RingIndexes.MissingBlock | lib/astarte_device_sdk/storage/trans.c:107-145 | The identifiers missing from a wrapped interval are an arithmetic series between tail and head. |
| RingIndexes.WrapSolves | lib/astarte_device_sdk/storage/trans.c:107-145 | Sum and number of the missing identifiers determine head and tail. |
| TransmissionRing.Ring.GetIndexes | lib/astarte_device_sdk/storage/trans.c:40-146 | After a reboot the indexes are those from before, whatever the order of the stored keys; an empty queue restarts at the initial indexes. |
| TransmissionRing.Ring.MeasureIds | lib/astarte_device_sdk/storage/trans.c:53-106 | The scan meets every stored message once. |
| TransmissionRing.Ring.GetLastSequenceNumber | lib/astarte_device_sdk/storage/trans.c:148-199 | The sequence number of the newest message. |
| TransmissionRing.Ring.Push | lib/astarte_device_sdk/storage/trans.c:201-282 | Appends a message to the abstract queue, across 32-bit wrap-around. It answers full exactly when every slot is taken, out of space exactly when there is a slot and the quota does not allow the bytes, and succeeds otherwise; the flash goes through exactly the states of that put, and the usage grows by those bytes. |
| TransmissionRing.Ring.Peek | lib/astarte_device_sdk/storage/trans.c:284-391 | Returns every field of the oldest message and changes nothing; for an empty queue it answers full exactly when every slot is taken, and otherwise not found. |
| TransmissionRing.Ring.Get | lib/astarte_device_sdk/storage/trans.c:393-440 | Returns and removes the oldest message; the answer for an empty queue is as for peeking. |
| TransmissionRing.Ring.Discard | lib/astarte_device_sdk/storage/trans.c:442-469 | Removes the oldest message, the flash goes through exactly the states of that removal, and the usage falls by its bytes; the answer for an empty queue is as for peeking. |
| TransmissionRing.PushQueues | lib/astarte_device_sdk/storage/trans.c:201-282 | Storing under the key after the tail appends to the queue; that key is never in use. |
| TransmissionRing.PopQueues | lib/astarte_device_sdk/storage/trans.c:442-469 | Deleting the key at the head removes the oldest message and leaves a cyclic interval. |
| TransmissionRing.EmptyIndexes | lib/astarte_device_sdk/storage/trans.c:148-199 | The indexes tell an empty queue from a non-empty one. |
| TransmissionDurability.RebootAfterPush | lib/astarte_device_sdk/storage/trans.c:201-282 | A push loses power at any flash write, and any number of recoveries lose power in turn, from clean images: after the reboot the queue is as before or has the whole message at its end, and the latter whenever the put completed and had room. |
| TransmissionDurability.RebootAfterDiscard | lib/astarte_device_sdk/storage/trans.c:442-469 | Likewise for a discard: after the reboot the queue is as before or without its oldest message, and the latter whenever the removal completed. |
| TransmissionDurability.LeftOpens | lib/astarte_device_sdk/key_value/entry_intent.c:65-108 | Every such image opens, its recovery succeeds, and the items are those before the operation or those after it. |
| TransmissionMsg.Serialize | lib/astarte_device_sdk/storage/trans.c:201-282 | Fills a buffer of exactly the message's size with its encoding. |
| TransmissionMsg.Decode | lib/astarte_device_sdk/storage/trans.c:284-391 | Succeeds exactly when the buffer starts with an encoded message, and returns that message. |
| TransmissionMsg.EncodeIsPrefixFree | lib/astarte_device_sdk/storage/trans.c:201-391 | A buffer starts with at most one encoded message, so every field comes back as pushed. |
| TransmissionMsg.KeyRoundTrip | lib/astarte_device_sdk/storage/trans.c:68-90 | The decimal key of an identifier, with its padding, parses back to it. |
| TransmissionQueue.Queue.constructor | lib/astarte_device_sdk/device/transmission_queue.c:53-114 | After a reboot the queue in flash is unchanged and the next number is one above the newest stored one. |
| TransmissionQueue.Queue.Insert | lib/astarte_device_sdk/device/transmission_queue.c:151-210 | The lanes afterwards are exactly those before with this very message, under the next number and the time, at the end of its lane, less the oldest one of the lane if that is dropped: in memory exactly when the lane is full, in flash exactly when there is no room and something to drop; a stored message is refused exactly when there is no room even then. |
| TransmissionQueue.Queue.InsertStored | lib/astarte_device_sdk/device/transmission_queue.c:481-518 | Drops the oldest stored message exactly when there is no room for the new one and there is one to drop, and stores the new one exactly when there is room, before or after that. |
| TransmissionQueue.Queue.Peek | lib/astarte_device_sdk/device/transmission_queue.c:212-320 | Hands out the globally oldest message and names its lane. It answers full if and only if no message is in flash and every slot is taken, whatever the lanes in memory hold, and not found if and only if all lanes are empty otherwise. |
| TransmissionQueue.Queue.DiscardByRetention | lib/astarte_device_sdk/device/transmission_queue.c:322-356 | Removes the oldest message of the lane of this retention; an empty stored lane answers full exactly when every slot is taken. |
| TransmissionQueue.Queue.DiscardInterface | lib/astarte_device_sdk/device/transmission_queue.c:358-373 | Removes the oldest interface change. |
| TransmissionQueue.PutEvicting | lib/astarte_device_sdk/device/transmission_queue.c:419-478 | A full queue in memory loses its oldest message and takes the new one. |
| TransmissionQueue.InsertedContents | lib/astarte_device_sdk/device/transmission_queue.c:151-210 | Insertion puts the message that it was given, field by field, behind what waits in its lane, and leaves the other lanes alone. |
| TransmissionQueue.PoppedContents | lib/astarte_device_sdk/device/transmission_queue.c:280-373 | A lane hands out the first of its messages, and taking it leaves all others as they are. |
| TransmissionQueue.OfferedOrdered | lib/astarte_device_sdk/device/transmission_queue.c:151-210 | Offering a message to a lane keeps the numbers ordered in each lane and unique across lanes. |
| TransmissionQueue.SmallestFrontIsOldest | lib/astarte_device_sdk/device/transmission_queue.c:249-278 | The smallest of the four fronts is the oldest message of all. |
| TransmissionQueue.PoppedIsBelow | lib/astarte_device_sdk/device/transmission_queue.c:322-373 | Once the oldest message is gone, every other number is above it. |
| TransmissionWorker.Worker.RefillTransmissionTokens | lib/astarte_device_sdk/device/core.c:514-531 | The refill of the token bucket. |
| TransmissionWorker.Worker.ProcessTransmissionQueue | lib/astarte_device_sdk/device/core.c:533-612 | Exactly the globally oldest message is handled and exactly that message leaves the queue. An interface change is applied at once, whatever the tokens and the connection; a publication goes out exactly when there is a token and delivery succeeds, and costs the token; without one the worker sleeps until the next is due, 20 ms after the last refill. Nothing is taken while the table is full and no message is in flash. |
| TransmissionWorker.Worker.Iterate | lib/astarte_device_sdk/device/core.c:490-512 | One round of the worker is one step of the pacing and one step of the queue, and handles the message that it takes. |
| TransmissionWorker.TakenInOrder | lib/astarte_device_sdk/device/core.c:533-612 | Over every run of insertions, evictions and worker rounds the messages leave in the order of their numbers, each once, and everything still waiting is newer. |
| TransmissionWorker.TakenAsGiven | lib/astarte_device_sdk/device/core.c:533-612 | Over every such run each message is handed out with the contents with which it was put in, under the number that it got then. |
| TransmissionWorker.TokenIsDue | lib/astarte_device_sdk/device/core.c:569-581 | After the sleep there is a token. |
| TransmissionWorker.RunConserves | lib/astarte_device_sdk/device/transmission_queue.c:151-373 | What waited and what was given out over a run is exactly what was taken, what was evicted or refused, and what still waits. |
| Pacing.PacingBound | lib/astarte_device_sdk/device/core.c:464-531 | Between two iterations at times s and t at most 10 + (t - s + 19) / 20 messages are published. |
| Pacing.TokensAccountFor | lib/astarte_device_sdk/device/core.c:514-531 | Tokens left and messages published account for the time passed; while no refill is capped, no time below one token is lost. |
| Pacing.RefillBounds | lib/astarte_device_sdk/device/core.c:514-531 | A refill keeps at most ten tokens, exactly ten when more would have come, and leaves less than one token's time unaccounted for. |
| Pacing.TokenArrives | lib/astarte_device_sdk/device/core.c:569-581 | A token is there one token's time after the last refill, and the bucket is empty exactly before that. |
| DirectAccess.FullKeysApart | lib/astarte_device_sdk/key_value/direct.c:29-29 | Keys of the two spaces never collide and never meet a slot or a record of the key-value store. |
| DirectAccess.DirectInsert | lib/astarte_device_sdk/key_value/direct.c:37-59 | Writes one direct key; an empty value is refused; the key-value store does not change. |
| DirectAccess.DirectFind | lib/astarte_device_sdk/key_value/direct.c:61-107 | Size or value of a direct key, with the buffer check. |
| DirectAccess.DirectDelete | lib/astarte_device_sdk/key_value/direct.c:109-129 | Deletes one direct key; the key-value store does not change. |
| MqttStorage.Insert | lib/astarte_device_sdk/storage/mqtt.c:63-113 | Stores exactly the encoding of the message under the key of its direction and identifier. |
| MqttStorage.FindAlloc | lib/astarte_device_sdk/storage/mqtt.c:115-199 | Returns the message stored there, or not found. |
| MqttStorage.Delete | lib/astarte_device_sdk/storage/mqtt.c:209-219 | Removes that message. |
| MqttStorage.EncodeMessageUnique | lib/astarte_device_sdk/storage/mqtt.c:63-199 | Two messages with the same bytes are the same. |
| MqttStorage.BesideKeeps | lib/astarte_device_sdk/storage/mqtt.c:225-228 | What one direction writes never shows in the other. |
| MqttStorage.ClearedHolds | lib/astarte_device_sdk/mqtt/caching.c:213-240 | A clearing that was cut anywhere has forgotten the messages listed so far, holds all others, and has touched nothing of the other direction. |
| MqttStorage.StoreKeepsMessages | lib/astarte_device_sdk/key_value/direct.c:29-59 | No write of the key-value store changes a pending message. |
| MqttCaching.Caching.constructor | lib/astarte_device_sdk/mqtt/caching.c:46-69 | After a reboot the map in memory is the map in flash, and every message is due. |
| MqttCaching.Caching.RestoreFromFlash | lib/astarte_device_sdk/mqtt/caching.c:242-289 | The scan over all identifiers rebuilds the stored map, or as much of it, in the order of the identifiers, as the map takes. |
| MqttCaching.Caching.GetAvailableMessageId | lib/astarte_device_sdk/mqtt/caching.c:71-84 | Ends whenever some identifier is free, and returns the first free one after the last, never zero. |
| MqttCaching.Caching.InsertMessage | lib/astarte_device_sdk/mqtt/caching.c:86-142 | Adds the message to memory and flash alike; one already there stays, and a full map leaves memory and flash as they were. |
| MqttCaching.Caching.RemoveMessage | lib/astarte_device_sdk/mqtt/caching.c:188-211 | Removes the message from memory and flash alike. |
| MqttCaching.Caching.ClearMessages | lib/astarte_device_sdk/mqtt/caching.c:213-240 | Empties this direction in memory and in flash, one deletion after the other, and touches nothing else. |
| MqttCaching.Caching.FindMessage | lib/astarte_device_sdk/mqtt/caching.c:144-147 | Answered from memory, and right about the flash: the identifier is pending exactly when a message is stored under its key, and the bytes stored are those of the message in memory. |
| MqttCaching.Caching.UpdateMessageExpiry | lib/astarte_device_sdk/mqtt/caching.c:171-186 | Gives one message new time and keeps all messages. |
| MqttCaching.Caching.CheckMessageExpiry | lib/astarte_device_sdk/mqtt/caching.c:149-169 | Exactly the messages that are due are handed out, each once, and get new time. |
| MqttEvents.Client.HandlePublishEvent | lib/astarte_device_sdk/mqtt/events.c:71-114 | The effects of a PUBLISH of any quality of service in order: the answer, the cache entry or its refusal by a full cache, and the application callback for a new QoS 2 message, the answer alone for a duplicate, nothing for one that is too large or unreadable. |
| MqttEvents.Client.AcknowledgeQos | lib/astarte_device_sdk/mqtt/events.c:224-257 | PUBACK or PUBREC, and a cache entry for a QoS 2 message that is not pending, unless the cache is full, which changes neither answer nor result. |
| MqttEvents.AnswersByQos | lib/astarte_device_sdk/mqtt/events.c:71-257 | By the quality of service on the wire: 0 is handed over, 1 is answered by PUBACK and handed over, 2 is answered by PUBREC and, if its identifier is not pending, stored and handed over; a PUBREL forgets the entry, if there is one, and is answered by PUBCOMP. |
| MqttEvents.ForgottenInOrder | lib/astarte_device_sdk/mqtt/events.c:28-49 | What a CONNACK forgets, one by one: the incoming messages first, then the outgoing ones, and none when the session is present. |
| MqttEvents.Client.HandlePubrelEvent | lib/astarte_device_sdk/mqtt/events.c:116-128 | The entry is forgotten before the PUBCOMP goes out, which goes out in any case. |
| MqttEvents.Client.HandlePubackEvent | lib/astarte_device_sdk/mqtt/events.c:130-140 | An outgoing message leaves memory and flash exactly when it is acknowledged. |
| MqttEvents.Client.HandlePubrecEvent | lib/astarte_device_sdk/mqtt/events.c:142-155 | The outgoing message stays cached, its time starts anew, and a PUBREL goes out. |
| MqttEvents.Client.HandlePubcompEvent | lib/astarte_device_sdk/mqtt/events.c:157-168 | The outgoing message leaves memory and flash. |
| MqttEvents.Client.HandleSubackEvent | lib/astarte_device_sdk/mqtt/events.c:170-186 | The subscription leaves memory and flash. |
| MqttEvents.Client.HandleConnackEvent | lib/astarte_device_sdk/mqtt/events.c:28-49 | Without a session the pending messages of both directions are forgotten one by one, in memory and in flash, incoming ones first; with one nothing is. |
| MqttEvents.Client.HandleDisconnectionEvent | lib/astarte_device_sdk/mqtt/events.c:51-69 | A lost connection keeps everything pending and moves the connection state. |
| MqttEvents.Client.constructor | lib/astarte_device_sdk/mqtt/core.c:282-289 | Both caches are restored from the one flash they share. |
| MqttExactlyOnce.AtMostOnce | lib/astarte_device_sdk/mqtt/events.c:71-128 | In every run against a conforming broker, with packets, CONNACKs, connections, sessions and power lost at any point, no message is handed to the application twice if the cache is never full when an entry is stored and no reboot loses an entry. |
| MqttExactlyOnce.RepeatsAreExposed | lib/astarte_device_sdk/mqtt/events.c:71-128 | In every run whatsoever, a message is handed over twice only if a full cache refused its entry, or a reboot lost its entry before the broker heard of the receipt. |
| MqttExactlyOnce.ExposedBy | lib/astarte_device_sdk/mqtt/caching.c:128-133 | What makes a message one of these: storing its entry met a cache with as many entries as it takes, or a reboot lost the entry while the broker still had to hear of the receipt. |
| MqttExactlyOnce.RoomIsEnough | lib/astarte_device_sdk/mqtt/caching.c:52-60 | A cache with room for all 65535 packet identifiers is never full when an entry is stored. |
| MqttFaults.CapacityDecides | lib/astarte_device_sdk/mqtt/caching.c:52-60 | While reboots keep the entries, no run hands a message over twice if and only if the cache has room for all 65535 packet identifiers; the default is 100. |
| MqttFaults.FullCacheRepeats | lib/astarte_device_sdk/mqtt/caching.c:128-133 | With less room, for every n there is a run without a crash and without a new session in which a message is handed over n times and then completed. |
| MqttFaults.LostEntryRepeats | lib/astarte_device_sdk/storage/core.c:86-94 | A concrete run in which a reboot loses the entry and the message is handed over twice, with room in the cache. |
| MqttExactlyOnce.ExactlyOnce | lib/astarte_device_sdk/mqtt/events.c:71-128 | A completed message was handed over exactly as often as its PUBLISH was taken for a new one and no crash cut the handler off. That is never, if and only if the broker heard a PUBREC of a handler that a crash interrupted, or of an entry of an earlier session, and the message was not handed over before; more than once only if its entry was refused or lost; and once otherwise. The first needs a crash, the second a new session of which the device missed the CONNACK or the end of its clearing. |
| MqttFaults.CrashLosesMessage | lib/astarte_device_sdk/mqtt/events.c:224-257 | A concrete run in which a power cut after the PUBREC makes the broker complete a message that the application never saw. |
| MqttExactlyOnce.ShadowIsOld | lib/astarte_device_sdk/mqtt/events.c:224-257 | When a message is shadowed, the PUBREC that the broker heard is of an entry of another message and an earlier session, still there or lost by a crash, and the device was not told of a new session to the end. |
| MqttFaults.LostConnackLosesMessage | lib/astarte_device_sdk/mqtt/events.c:28-49 | A concrete run without a crash: the CONNACK of a new session is lost, the next one reports an old session, the cache stays, and the broker completes a message that the application never saw. |
| MqttInvariant.StepKeeps | lib/astarte_device_sdk/mqtt/events.c:71-128 | The inductive invariant over broker, sessions, both channels, cache and handler holds after every step, refused entries and reboots that lose entries included. |
| MqttProtocol.PhasesFollowHandlers | lib/astarte_device_sdk/mqtt/events.c:71-128 | The device's steps in the protocol are the effects of the handlers, one by one, the clearing after a CONNACK included. |
| MqttInvariant.WorkFits | lib/astarte_device_sdk/mqtt/events.c:94-128 | Each single effect of a handler keeps the invariant of every packet identifier, whether an entry finds room or not. |
| MqttInvariant.ReceiveFits | lib/astarte_device_sdk/mqtt/events.c:71-128 | Taking a packet keeps it, duplicates and stale packets included. |
| MqttInvariant.RenewFits | lib/astarte_device_sdk/mqtt/events.c:28-49 | A new session on the broker's side alone keeps it, with the device's entries still there. |
| MqttInvariant.ClearFits | lib/astarte_device_sdk/mqtt/events.c:28-49 | Taking the CONNACK of a new session, in whatever order the entries will go, keeps it. |
| MqttInvariant.ClearingFits | lib/astarte_device_sdk/mqtt/caching.c:213-240 | Forgetting one entry of the clearing keeps it. |
| MqttInvariant.RetransmitFits | lib/astarte_device_sdk/mqtt/core.c:231-243 | Repeating the PUBREC of a pending message keeps it. |
| MqttInvariant.CrashFits | lib/astarte_device_sdk/mqtt/caching.c:242-289 | Losing power between any two effects keeps it, whichever entries the reboot restores. |
| MqttExactlyOnce.StepKeepsHistory | lib/astarte_device_sdk/mqtt/events.c:71-128 | What was handed over, completed, lost, refused or erased stays so. |
| MqttExactlyOnce.HandedAreTaken | lib/astarte_device_sdk/mqtt/events.c:71-114 | How often a message was handed over, is in hand and was cut off by a crash add up to how often its PUBLISH was taken for a new one. |
| BsonDeserializer.CheckValidity | lib/astarte_device_sdk/bson/deserializer.c:53-124 | Accepts exactly the buffers that hold a terminated document whose first element has a known type; every accepted buffer holds its document in full. |
| BsonDeserializer.BufferInside | lib/astarte_device_sdk/bson/deserializer.c:53-298 | In every buffer that holds a document, all elements found lie in order between size field and terminator. |
| BsonDeserializer.NestedInside | lib/astarte_device_sdk/bson/deserializer.c:319-328 | What is found in a nested document lies, in order, inside its value. |
| BsonDeserializer.PathInside | lib/astarte_device_sdk/bson/deserializer.c:319-328 | Down any path of nested documents, the innermost list is the part of the outermost at the sum of the offsets, and what the walk finds there, in order, lies inside it. |
| BsonDeserializer.AnyDepthInside | lib/astarte_device_sdk/bson/deserializer.c:53-328 | In every buffer that holds a document, at any depth of nesting, every element found lies between size field and terminator of the outermost document. |
| BsonDeserializer.InitDoc | lib/astarte_device_sdk/bson/deserializer.c:126-145 | The list of a document is what its size leaves for it. |
| BsonDeserializer.ReadElement | lib/astarte_device_sdk/bson/deserializer.c:183-208 | An element is accepted exactly when name, terminator and value fit the list. |
| BsonDeserializer.FirstElement | lib/astarte_device_sdk/bson/deserializer.c:175-211 | The first element of the walk, or the reason why there is none. |
| BsonDeserializer.NextElement | lib/astarte_device_sdk/bson/deserializer.c:213-272 | The next element of the walk, strictly further on; an element that does not fit the document has no successor. |
| BsonDeserializer.DocCountElements | lib/astarte_device_sdk/bson/deserializer.c:147-173 | Succeeds exactly when the walk reaches the end, with the number of elements enumerated. |
| BsonDeserializer.ElementLookup | lib/astarte_device_sdk/bson/deserializer.c:274-298 | The first element of that name, or the reason why the walk stopped before one. |
| BsonDeserializer.GetElementValueSize | lib/astarte_device_sdk/bson/deserializer.c:381-435 | The size that the leading bytes of a value declare, with the overflow checks. |
| BsonDeserializer.ElementToString | lib/astarte_device_sdk/bson/deserializer.c:308-317 | The bytes returned are the string as long as it declares, without size and terminator. |
| BsonDeserializer.ElementToBinary | lib/astarte_device_sdk/bson/deserializer.c:330-337 | The bytes returned are the value without size and subtype. |
| BsonDeserializer.ElementToDocument | lib/astarte_device_sdk/bson/deserializer.c:319-328 | The nested list lies inside the value. |
| BsonFormat.WalkAdvances | lib/astarte_device_sdk/bson/deserializer.c:175-272 | Whatever the bytes are, the walk ends, goes forward by at least two bytes an element and never leaves the list. |
| BsonFormat.WalkFindsBody | lib/astarte_device_sdk/bson/deserializer.c:175-272 | Walking over a list that was written finds every element of it, in order, and then its end. |
| BsonFormat.WalkedWasWritten | lib/astarte_device_sdk/bson/deserializer.c:175-272 | A list on which the walk reaches the end is a list of written elements if and only if no nested document in it declares fewer bytes than its own size field. |
| BsonFormat.UndersizedIsLast | lib/astarte_device_sdk/bson/deserializer.c:213-272 | A nested document that declares less than its own size field is the last element found, and the walk ends as if the list did. |
| BsonFormat.ShortDropsRest | lib/astarte_device_sdk/bson/deserializer.c:213-272 | Of a written list, exactly the elements behind the first such nested document are dropped, and counting succeeds all the same; nothing is dropped if and only if there is none or it comes last. |
| BsonFormat.BooleanDropped | lib/astarte_device_sdk/bson/deserializer.c:213-272 | A concrete list of such a document and a boolean, in which one element is found. |
| BsonSerializer.Serializer.constructor | lib/astarte_device_sdk/bson/serializer.c:118-127 | The buffer starts with the place of the size. |
| BsonSerializer.Serializer.Grow | lib/astarte_device_sdk/bson/serializer.c:499-515 | There is room afterwards, and the contents are the same; a buffer with room stays, and another grows to the largest of 64 bytes, twice its size, and its size with what is needed. |
| BsonSerializer.Serializer.AppendByte | lib/astarte_device_sdk/bson/serializer.c:517-526 | Appends through growth. |
| BsonSerializer.Serializer.Append | lib/astarte_device_sdk/bson/serializer.c:528-540 | Appends through growth. |
| BsonSerializer.Serializer.AppendEndOfDocument | lib/astarte_device_sdk/bson/serializer.c:146-162 | Turns the buffer into a document whose declared size is its length; a second call is refused. |
| BsonSerializer.Serializer.GetSerialized | lib/astarte_device_sdk/bson/serializer.c:135-144 | Hands out the document only once it is finished. |
| BsonSerializer.Serializer.AppendDouble | lib/astarte_device_sdk/bson/serializer.c:164-181 | Adds the element of this value, or refuses on a finished document. |
| BsonSerializer.Serializer.AppendInt32 | lib/astarte_device_sdk/bson/serializer.c:183-200 | Adds the element of this value, or refuses on a finished document. |
| BsonSerializer.Serializer.AppendInt64 | lib/astarte_device_sdk/bson/serializer.c:202-219 | Adds the element of this value, or refuses on a finished document. |
| BsonSerializer.Serializer.AppendDatetime | lib/astarte_device_sdk/bson/serializer.c:277-294 | Adds the element of this value, or refuses on a finished document. |
| BsonSerializer.Serializer.AppendBoolean | lib/astarte_device_sdk/bson/serializer.c:296-310 | Adds the element of this value, or refuses on a finished document. |
| BsonSerializer.Serializer.AppendBinary | lib/astarte_device_sdk/bson/serializer.c:221-248 | Adds the element of this blob, or refuses one beyond the size limit. |
| BsonSerializer.Serializer.AppendString | lib/astarte_device_sdk/bson/serializer.c:250-275 | Adds the element of this string, or refuses one beyond the size limit. |
| BsonSerializer.Serializer.AppendDocument | lib/astarte_device_sdk/bson/serializer.c:312-330 | Adds a finished document as an element. |
| BsonSerializer.Serializer.AppendArray | lib/astarte_device_sdk/bson/serializer.c:332-437 | Adds a document of the items under their decimal positions, or nothing at all when an item is refused. |
| BsonSerializer.ArrayDocument | lib/astarte_device_sdk/bson/serializer.c:339-366 | The nested document of an array. |
| BsonSerializer.Serializer.SerializeData | lib/astarte_device_sdk/data/serialize.c:18-95 | Adds the element of a value of any of the fourteen types. |
| BsonSerializer.Serializer.SerializeEntries | lib/astarte_device_sdk/object.c:53-65 | Adds one element for each entry, in order. |
| BsonSerializer.EncodeObject | lib/astarte_device_sdk/device/datastreams.c:332-349 | A whole object as a document. |
| AstarteData.KeyFits | lib/astarte_device_sdk/bson/serializer.c:345-349 | The decimal key of an item never outgrows its buffer. |
| AstarteData.DataWellSized | lib/astarte_device_sdk/data/serialize.c:18-95 | The element of a value has the size its leading bytes declare. |
| AstarteDeserializer.ObjectRoundTrip | lib/astarte_device_sdk/data/deserialize.c:27-62 | The round trip for all fourteen types: a serialized object passes the validity check, declares its length, and enumerates to the same names with values that read back as themselves, except that an empty blob fails. |
| AstarteDeserializer.DataRoundTrip | lib/astarte_device_sdk/data/deserialize_array.c:151-187 | A value of any type reads back as itself, and fails if and only if it holds an empty blob. |
| AstarteDeserializer.ScalarRoundTrip | lib/astarte_device_sdk/data/deserialize_scalar.c:50-105 | A scalar reads back as itself; a 32-bit integer also reads back as the same 64-bit integer. |
| AstarteDeserializer.ItemsRoundTrip | lib/astarte_device_sdk/data/deserialize_array.c:26-68 | The items of an array read back in order. |
| AstarteDeserializer.ItemsDecide | lib/astarte_device_sdk/data/deserialize_array.c:26-68 | Reading the items of any list returns all values in order, or the failure of the first item that cannot be read, or of the end of the list. |
| AstarteDeserializer.TypesChecked | lib/astarte_device_sdk/mapping.c:160-210 | An element is refused for its type exactly if its type byte is not that of the expected type, with the 32-bit integer taken for a 64-bit one. |
| AstarteDeserializer.DeserializeScalar | lib/astarte_device_sdk/data/deserialize_scalar.c:50-133 | Reads a scalar after the type check; an empty blob cannot be allocated. |
| AstarteDeserializer.DeserializeString | lib/astarte_device_sdk/data/deserialize_scalar.c:135-156 | Copies up to the first NUL. |
| AstarteDeserializer.DeserializeItems | lib/astarte_device_sdk/data/deserialize_array.c:26-365 | The loop with the doubling buffer reads every item, and the first failure met decides. |
| AstarteDeserializer.Room | lib/astarte_device_sdk/data/deserialize_array.c:45-53 | A full buffer doubles and keeps its items, and another stays. |
| AstarteDeserializer.DeserializeArray | lib/astarte_device_sdk/data/deserialize_array.c:151-187 | Reads an array after the type check. |
| AstarteDeserializer.DeserializeData | lib/astarte_device_sdk/data/deserialize.c:27-62 | Dispatches to scalar or array. |
| Introspection.List.FillString | lib/astarte_device_sdk/introspection.c:173-187 | Into a buffer of any size that every item's offset reaches goes the text as far as it fits, with a terminator; with names of at most 128 bytes and the reserved size, exactly the items joined by separators and a terminator. |
| Introspection.ReservedShows | lib/astarte_device_sdk/introspection.c:143-187 | With names of at most 128 bytes a buffer of the reserved size ends up as exactly the text and its terminator. |
| Introspection.InsideIff | lib/astarte_device_sdk/introspection.c:143-187 | Writing into the reserved size stays inside if and only if the bytes that the size leaves out before the last interface are no more than those reserved for it. |
| Introspection.LongNameWritesOutside | lib/astarte_device_sdk/introspection.c:173-187 | A short interface after one with a name of 150 bytes is written outside the buffer. |
| Introspection.List.GetStringSize | lib/astarte_device_sdk/introspection.c:143-171 | The reserved size, at least one. |
| Introspection.SizeIsExact | lib/astarte_device_sdk/introspection.c:143-171 | With names of at most 128 bytes the reserved size is the length of the text and its terminator. |
| Introspection.ReservedFits | lib/astarte_device_sdk/introspection.c:143-171 | The reserved size is enough if and only if no name is longer than 128 bytes. |
| Introspection.GetDigitCount | lib/astarte_device_sdk/introspection.c:242-255 | The number of decimal digits. |
| Formats.LittleEndian64 | lib/astarte_device_sdk/bson/serializer.c:202-219 | Byte i of a 64-bit number counts 256 to the power of i. |
| Formats.ValueSizes | lib/astarte_device_sdk/bson/deserializer.c:381-435 | How many bytes the value of each type takes, and which types there are. |
| Formats.TwosComplement | lib/astarte_device_sdk/bson/serializer.c:183-219 | Signed numbers are written in two's complement. |
| Formats.DecimalDigits | lib/astarte_device_sdk/storage/trans.c:260-266 | Decimal digits, the highest first, from the character of zero on. |
| Formats.Identifiers | lib/astarte_device_sdk/include/key_value/entry.h:26-47 | The identifiers of the flash in numbers: slots, records, and the keys of pending messages of both directions. |
| Formats.NaturalSlot | lib/astarte_device_sdk/key_value/entry_hash.c:35-52 | Where probing for a key starts: the hash of the namespace mixed into that of the key, and scaled to the slots. |
| Formats.MixedHashes | lib/astarte_device_sdk/key_value/entry_hash.c:20-45 | Three mixed hashes in numbers, which tell the two arguments, the shifts and the constant apart. |
| Formats.VersionFormats | lib/astarte_device_sdk/key_value/core.c:104-132 | Version 0.6.0 is the current one, another is foreign, and fewer than six bytes are truncated. |
| Formats.Limits | lib/astarte_device_sdk/Kconfig:217-227 | The limits that the results name, in numbers. |
| Formats.EntryLayout | lib/astarte_device_sdk/include/key_value/entry_header.h:54-64 | The bytes of an entry: lengths of namespace and key, next and previous link, namespace, key and value. |
| Formats.RecordLayouts | lib/astarte_device_sdk/include/key_value/entry_intent.h:27-52 | The bytes of the head/tail record, of the intent block in each state, and of the version. |
| Formats.QueuedLayout | lib/astarte_device_sdk/storage/trans.c:217-266 | The bytes of a queued message, and its key of ten digits. |
| Formats.PendingLayout | lib/astarte_device_sdk/storage/mqtt.c:75-107 | The bytes of a pending message. |
| Formats.ElementLayouts | lib/astarte_device_sdk/include/bson/types.h:19-39 | The bytes of an element of each scalar type. |
| Formats.ArrayLayout | lib/astarte_device_sdk/bson/serializer.c:332-437 | The bytes of an array: a document of its items under the keys 0, 1, and so on. |
| Formats.DocumentLayout | lib/astarte_device_sdk/bson/serializer.c:146-162 | The bytes of a document: its size, its elements, and a NUL. |
| Formats.IntrospectionLayout | lib/astarte_device_sdk/introspection.c:173-187 | The text of the introspection: name, major and minor version between colons, and semicolons between interfaces. |

## Left out

- ZMS itself, flash geometry and mounting: the flash is an atomic map from 32-bit identifiers to bytes, and erased at once.
  A failed ZMS write counts as a power loss at that write.
- Mutexes, threads, message-queue primitives, sleeping, logging and failing allocations, except the zero-size allocation
  that makes an empty blob unreadable. No other thread evicts between a peek and the discard after it.
- `sys_hash32`: a parameter of the flash model; proved is what the combination and reduction do with its result.
- Namespaces and keys of 64 KiB and more, which the 16-bit length fields of a record cannot hold.
- Target layout: little-endian, with 32-bit `int`, `size_t` and enumerations; padding in the intent block is zero.
- Direct key 0, which ZMS could hold but no packet identifier uses: the flash model assumes it unused, as the wrap of the
  scan to identifier 0 would read it.
- Error returns that the proved preconditions rule out (a record that vanishes between two reads, a neighbour that is not
  stored) are not written out as branches.
- The unlinking in a deletion and in its recovery is one method, `KvFlash.Flash.DetachEntry`, for two copies of the code.
- KeyValueStorage.Iterator.Next: the position of an iterator in the middle of the list is its position once a pending
  operation has been finished; an operation that loses power reboots the device and with it every iterator.
- Entries of the namespace that other users insert or delete while an iterator is in use, as
  `astarte_storage_property_get_device_string` does.
- PropertiesPurge.PurgeServerProperties: the allow list is given as a sequence; splitting the server's compressed payload
  into it is not modelled. A stored key without a separator stops the walk, as in the code.
- TransmissionQueue.Queue.constructor: sequence numbers stay below 2^64 - 1; the queue's clear and purge functions are
  loops over the discards modelled here.
- MqttStorage.Message: an absent topic or payload and an empty one are not told apart, as after a reboot.
- MqttCaching.Caching.GetAvailableMessageId: the counter, one for the whole program in the code, is a field of the cache;
  only the outgoing cache uses it.
- MqttCaching.Caching.InsertMessage: writes to flash succeed. An entry whose write failed is one that a reboot loses, which
  the protocol covers; an entry whose deletion failed, and that a reboot brings back, is not covered.
- MqttCaching.Caching.constructor: the flash holds no more messages than the map takes, as every boot with the same limit
  leaves it; `RestoreFromFlash` states what happens to more.
- StorageBoot.StorageInit: opening the four namespaces after it is `KeyValueStorage.KeyValue.constructor`.
- Exactly-once delivery of outgoing QoS 2 messages: the cache keeps a PUBLISH after its PUBREC and can send it again, so only
  its retention until acknowledgement is stated.
- MqttExactlyOnce.ExactlyOnce: QoS 0 and 1 messages are not part of the protocol runs; the handlers cover them. Outgoing
  messages are not part of them either. The broker ignores a PUBREC or PUBCOMP for an identifier with nothing in flight.
- BsonSerializer.Serializer.AppendArray: the seven array appenders, one macro and one function, are one method over the item
  type; documents stay below 2 GiB, where the code would truncate its sizes.
- AstarteDeserializer.DeserializeItems: likewise for the array readers.
- Doubles are their 64-bit patterns; whether a double is finite is checked elsewhere.
- Mapping of object fields to interfaces, required endpoints, validation, path matching and the getters of typed data: easier
  members.
- Introspection.List.FillString: buffers that some item's offset lies beyond, where the code writes outside; adding, updating
  and removing interfaces is not modelled.
- Pairing, HTTP, TLS, DNS and sockets, backoff, session manager, device life cycle: no state whose invariant is hard.
