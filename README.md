# xennet receive side, modelled in Dafny

This project models the receive path of the Xen paravirtual network miniport, `src/xennet/receiver.c`. The VIF hands the receiver one packet fragment at a time with `ReceiverQueuePacket`. The receiver gets a NET_BUFFER_LIST descriptor for it:

- the head of its private get list;
- else the whole put list, taken over as the new get list;
- else a fresh descriptor from the NDIS pool.

It then binds the descriptor to the fragment, stores the VIF's cookie in the descriptor's reserved slot, and stamps the checksum outcome and the 802.1Q info. Finally it indicates the descriptor to NDIS and counts it in `InNDIS`, raising the high-water mark `InNDISMax`. Above `IN_NDIS_MAX` (1024) the indication carries NDIS_RECEIVE_FLAGS_RESOURCES. The descriptor is then taken back at once and freed.

When NDIS returns a chain with `ReceiverReturnNetBufferLists`, each descriptor is unlinked, its cookie goes back to the VIF, and it is pushed onto the put list for reuse. `ReceiverTeardown` frees whatever is still cached on the two lists.

The project has these files:

- `types.dfy` defines descriptors as addresses: their next link, NET_BUFFERs, cookie slot, checksum word and 802.1Q header. It also defines the calls into the pool, NDIS and the VIF, recorded as events.
- `chains.dfy` covers the intrusive singly linked lists threaded through next links. A list ending in NULL never repeats a descriptor.
- `metadata.dfy` covers the checksum word and the Tag Control Information split.
- `admission.dfy` covers `InNDIS` and `InNDISMax` as counters, over whole runs of pushes and returns.
- `model.dfy` (`ReceiverModel`) models the receiver and all its descriptors as one value, with one function per source routine. The lemmas beside them prove three things:
  - every descriptor the pool has handed out is in exactly one place: the get list, the put list, the receive path, NDIS, or back in the pool;
  - a cookie slot is filled exactly while the receive path or NDIS owns the descriptor;
  - `InNDIS` counts NDIS's descriptors and `InNDISMax` is the largest count reached.
- `receiver.dfy` (`Receiver.Receiver`) is the receiver record as a class. Its fields are updated in place. Its two teardown loops, its return loop and the loop standing for NDIS linking a chain (`NdisLink`) are `while` loops. Each method is proved to take the record from state `s` to the state the matching `ReceiverModel` function gives for `s`.
- `findings.dfy` covers the NULL dereference in `__ReceiverAllocateNetBufferList` (see Findings).
- `scenarios.dfy` is a run that shows a recycled descriptor carrying its previous packet's 802.1Q priority.

A recycled descriptor's 802.1Q info is never cleared (lines 83-93 relink and rebind it only), and lines 209-221 write the 802.1Q info only when the Tag Control Information is non-zero. So a zero TCI leaves the previous packet's info in place. `ReceiverModel.ReceiveStamps`, `Metadata.StampTag` and `Scenarios.StaleTagRun` state this.

## Model

| member | source | states |
|---|---|---|
| Metadata.ChecksumWord | src/xennet/receiver.c:196-207 | the word written to TcpIpChecksumNetBufferListInfo reads back as exactly the six reported flags and sets no bit outside them |
| Metadata.ChecksumWordOnto | src/xennet/receiver.c:196-207 | every word with only receive-flag bits set is the stamp of the flags it decodes to, so the stamp loses and adds nothing |
| Metadata.UnpackTci | src/xennet/receiver.c:212-215 | priority, canonical format id and VLAN id fit 3, 1 and 12 bits and pack back to the original TCI |
| Metadata.UnpackPackTci | src/xennet/receiver.c:212-215 | unpacking recovers any header whose fields fit their widths |
| Metadata.TagRejected | src/xennet/receiver.c:209-218 | a packet is refused exactly when the low 12 bits of its TCI (the VLAN id) are non-zero; the test for a zero TCI never decides it |
| Metadata.StampTag | src/xennet/receiver.c:209-221 | a packet is refused exactly when its TCI has a non-zero VLAN id; a zero TCI keeps the previous info; otherwise the info is exactly UnpackTci of the TCI, whose VLAN id is 0 |
| Admission.Admit | src/xennet/receiver.c:241-258 | the increment raises InNDIS by one; the mark never drops, is at least the new count, and is either unchanged or the new count |
| Admission.Retire | src/xennet/receiver.c:164 | a return lowers InNDIS by one and leaves the mark |
| Admission.Forced | src/xennet/receiver.c:243-245 | an indication carries NDIS_RECEIVE_FLAGS_RESOURCES exactly when InNDIS after the increment is above IN_NDIS_MAX, that is, at least 1025 |
| Admission.PushOps | src/xennet/receiver.c:241-267 | a push is one increment, followed by one decrement exactly when the indication is forced, and nothing more |
| Admission.MarkIsMaxObserved | src/xennet/receiver.c:247-258 | after any run of pushes and returns the mark is the largest InNDIS value any push produced, or its starting value |
| Admission.MarkMonotone | src/xennet/receiver.c:247-258 | the mark never goes down along a run |
| Admission.PushesWithoutReturns | src/xennet/receiver.c:241 | from zeroed counters, k increments at line 241 with no decrement see InNDIS take the values 1 to k, and the count and the mark both end at k; in the driver this is a run only up to k = 1024, since a forced push also decrements (see Admission.PushCounters) |
| Admission.FirstForcedPush | src/xennet/receiver.c:243-245 | with no returns, of the first 1025 increments only the 1025th carries NDIS_RECEIVE_FLAGS_RESOURCES, and the mark then stands at 1025 |
| ReceiverModel.Initial | src/xennet/receiver.c:287-288 | the zeroed record satisfies the invariant and has nothing on the receive path |
| ReceiverModel.Refill | src/xennet/receiver.c:76-77 | an empty get list takes over the whole put list, which becomes empty; a non-empty get list leaves everything alone; the cached descriptors stay the same and the lists stay threaded |
| ReceiverModel.Rebound | src/xennet/receiver.c:86-93 | a reused descriptor is unlinked and its first NET_BUFFER is bound to the new fragment; its other buffers, its cookie slot, checksum word and 802.1Q info are kept |
| ReceiverModel.Obtain | src/xennet/receiver.c:76-102 | the descriptor is obtained exactly when one is cached or the pool allocation succeeds, and it is the head of the list it comes from, or a new one; otherwise nothing changes; the receive path, NDIS and the counters are untouched |
| ReceiverModel.PopGetList | src/xennet/receiver.c:79-93 | the get list loses its head, which is unlinked and has its first NET_BUFFER bound to the fragment; its cookie slot and packet info, and every other descriptor, are kept |
| ReceiverModel.AllocateFresh | src/xennet/receiver.c:94-102 | a new descriptor, never handed out before, is added unlinked with an empty slot and one NET_BUFFER bound to the fragment; the allocation is logged and nothing else changes |
| ReceiverModel.FillSlot | src/xennet/receiver.c:106-108 | the cookie goes into the descriptor's slot, so it becomes returnable and held by the receive path; nothing else changes |
| ReceiverModel.AllocateNetBufferList | src/xennet/receiver.c:61-111 | acquisition fails exactly when both lists are empty and the pool allocation fails, and then changes nothing; otherwise the descriptor is the one that heads the list it comes from (or a new one), is held by the receive path, and carries the cookie; NDIS's descriptors and the counters are untouched |
| ReceiverModel.AllocateWellFormed | src/xennet/receiver.c:61-111 | acquisition keeps the lists threaded and every descriptor in one place, and hands out a descriptor that neither the receive path nor NDIS owned |
| ReceiverModel.PopWellFormed | src/xennet/receiver.c:79-93 | unhooking the get list's head, unlinking it and rebinding it keeps the model well formed |
| ReceiverModel.FreshWellFormed | src/xennet/receiver.c:94-102 | adding a descriptor new from the pool keeps the model well formed |
| ReceiverModel.AllocateRefillsAndPops | src/xennet/receiver.c:76-84 | the get list is refilled only when empty, by taking over the whole put list and emptying it, and then loses its head |
| ReceiverModel.AllocateFromPool | src/xennet/receiver.c:94-102 | the pool is drawn on, and the allocation logged, only when both lists are empty; the new descriptor has an address never handed out before |
| ReceiverModel.AllocateBinds | src/xennet/receiver.c:86-108 | the acquired descriptor is unlinked, has one NET_BUFFER bound to the fragment, and carries the cookie in a slot that was empty before (the assertion at line 107); its checksum and tag are those of its last use, or zero when new |
| ReceiverModel.AllocateFrame | src/xennet/receiver.c:61-111 | acquisition touches no other descriptor |
| ReceiverModel.Free | src/xennet/receiver.c:140 | a freed descriptor is no longer live and is back in the pool |
| ReceiverModel.ReleaseNetBufferList | src/xennet/receiver.c:113-144 | release returns the cookie the slot held and takes the descriptor off the receive path and out of NDIS, with the counters untouched |
| ReceiverModel.ReleaseWellFormed | src/xennet/receiver.c:123-141 | releasing an owned descriptor, unlinked when cached (line 131), keeps the model well formed, and its slot held a cookie |
| ReceiverModel.PushWellFormed | src/xennet/receiver.c:131-138 | pushing an owned descriptor with an empty slot onto the put list keeps the model well formed |
| ReceiverModel.FreeWellFormed | src/xennet/receiver.c:140 | freeing an owned descriptor keeps the model well formed |
| ReceiverModel.ReleaseEffect | src/xennet/receiver.c:123-143 | with caching the descriptor becomes the put list's head, linked to the old head, with an empty slot; without caching it is freed and logged; the get list and every other descriptor are unchanged |
| ReceiverModel.ReturnNetBufferList | src/xennet/receiver.c:146-165 | a return takes the descriptor out of NDIS and lowers InNDIS by one, leaving the mark and its history |
| ReceiverModel.ReturnInv | src/xennet/receiver.c:146-165 | returning a descriptor NDIS holds keeps the invariant, so InNDIS still counts NDIS's descriptors |
| ReceiverModel.ReturnEffect | src/xennet/receiver.c:156-164 | the cookie is handed back to the VIF after the release (after the free when not cached), and no other descriptor changes |
| ReceiverModel.WithChecksum | src/xennet/receiver.c:196-207 | the descriptor's checksum word decodes to exactly the reported flags, and nothing else changes |
| ReceiverModel.WithTag | src/xennet/receiver.c:220 | the descriptor's 802.1Q info becomes the given header, and nothing else changes |
| ReceiverModel.StampPacket | src/xennet/receiver.c:196-229 | stamping refuses the packet exactly when its tag has a VLAN id, and then the descriptor leaves the receive path; a kept descriptor keeps its cookie |
| ReceiverModel.StampWellFormed | src/xennet/receiver.c:196-226 | stamping a held descriptor, including sending it back to the put list at line 226, keeps the model well formed and NDIS's descriptors alone |
| ReceiverModel.StampEffect | src/xennet/receiver.c:196-226 | a kept descriptor gets the checksum word of the flags and the tag StampTag gives; a refused one heads the put list with an empty slot; nothing else changes |
| ReceiverModel.ReceivePacket | src/xennet/receiver.c:167-230 | a packet is received exactly when a descriptor can be had and its tag has no VLAN id; the received descriptor is held and carries the cookie; NDIS's descriptors and the counters are untouched |
| ReceiverModel.ReceiveWellFormed | src/xennet/receiver.c:167-230 | receiving keeps the model well formed, and a refused packet leaves the receive path holding what it held |
| ReceiverModel.ReceiveStamps | src/xennet/receiver.c:196-221 | a received descriptor carries the cookie and the fragment, a checksum word of exactly the reported flags, and the tag StampTag gives from its previous tag, so a zero TCI keeps stale 802.1Q info |
| ReceiverModel.ReceiveLog | src/xennet/receiver.c:94-102 | receiving logs one allocation exactly when the pool was drawn on, and nothing else |
| ReceiverModel.ReceiveRejects | src/xennet/receiver.c:186-229 | with no descriptor to be had nothing changes; a descriptor refused for its tag is back at the head of the put list with an empty slot |
| ReceiverModel.IndicateInv | src/xennet/receiver.c:241-264 | indicating a held descriptor keeps the invariant: NDIS holds one more, InNDIS counts it, and the mark is still the largest count |
| ReceiverModel.Indicate | src/xennet/receiver.c:241-264 | InNDIS goes up by one, the mark becomes the larger of itself and the new count, the count is recorded, the descriptor moves from the receive path to NDIS, and the indication is logged with NDIS_RECEIVE_FLAGS_RESOURCES exactly when the new count is above IN_NDIS_MAX; nothing else changes |
| ReceiverModel.PushPacket | src/xennet/receiver.c:232-268 | a push records the new InNDIS value, raises the mark to at least it, and leaves InNDIS one higher unless the indication was forced |
| ReceiverModel.PushCounters | src/xennet/receiver.c:241-267 | the counters after a push are those of the increment at line 241, then for a forced push the decrement at line 164 |
| ReceiverModel.PushInv | src/xennet/receiver.c:232-268 | pushing keeps the invariant; NDIS keeps the descriptor unless the indication was forced, in which case NDIS holds what it held before |
| ReceiverModel.PushEffect | src/xennet/receiver.c:260-267 | a normal push logs one indication without the resources flag; a forced one logs the indication with the flag, the free and the cookie's return, and the descriptor is not recycled |
| ReceiverModel.QueuePacket | src/xennet/receiver.c:377-412 | a queued packet never lowers the mark and records at most one count. With QueueInv, QueueCounters, QueueRefused and QueueDelivered: the receiver stays in the invariant and at rest; a packet that cannot be acquired or is refused for its tag has its cookie handed straight back with the counters and NDIS's descriptors untouched; otherwise it is indicated, with the mark raised to the new count |
| ReceiverModel.QueueCounters | src/xennet/receiver.c:377-412 | a queued packet records the new count exactly when it is delivered; InNDIS ends one higher exactly when it is delivered and not forced; the mark never drops |
| ReceiverModel.QueueInv | src/xennet/receiver.c:377-412 | every queued packet leaves the receiver in the invariant with nothing half received |
| ReceiverModel.QueueRefused | src/xennet/receiver.c:405-411 | a refused packet has its cookie handed straight back, with InNDIS, the mark and NDIS's descriptors untouched |
| ReceiverModel.QueueDelivered | src/xennet/receiver.c:405-406 | a delivered packet raises the mark to the new count; normally NDIS holds one more descriptor carrying the cookie, and a forced one is freed with its cookie returned at once |
| ReceiverModel.UnlinkWellFormed | src/xennet/receiver.c:368-369 | clearing the next link of a descriptor NDIS holds keeps the invariant |
| ReceiverModel.RelinkInv | src/xennet/receiver.c:356-369 | re-pointing the next link of a descriptor NDIS holds, to anything, keeps the invariant |
| ReceiverModel.LinkChain | src/xennet/receiver.c:356-368 | NDIS linking a chain changes only the next links of the chain's descriptors and nothing else in the receiver |
| ReceiverModel.LinkInv | src/xennet/receiver.c:356-368 | linking descriptors NDIS holds keeps the invariant |
| ReceiverModel.LinkChainOf | src/xennet/receiver.c:356-368 | linking distinct descriptors leaves a NULL-terminated chain from its head through exactly those descriptors, in order |
| ReceiverModel.ReturnOne | src/xennet/receiver.c:368-371 | one step of the return loop takes the descriptor from NDIS and lowers InNDIS by one, leaving the mark |
| ReceiverModel.ReturnOneEffect | src/xennet/receiver.c:368-371 | one step of the return loop puts the descriptor on top of the put list with an empty slot and hands its cookie back; nothing else changes |
| ReceiverModel.ReturnOneInv | src/xennet/receiver.c:365-374 | one step of the return loop keeps the invariant |
| ReceiverModel.ReturnNetBufferLists | src/xennet/receiver.c:356-375 | after the return NDIS holds none of the chain, and no descriptor outside the chain has changed |
| ReceiverModel.ReturnListsInv | src/xennet/receiver.c:365-374 | returning any chain NDIS holds keeps the invariant |
| ReceiverModel.ReturnChainLists | src/xennet/receiver.c:365-374 | the chain ends up on the put list in reverse order, InNDIS drops by its length, and the mark, the get list and the pool are unchanged |
| ReceiverModel.ReturnChainMembers | src/xennet/receiver.c:365-374 | after a return the put list holds exactly the chain's descriptors and those it held before, and is longer by the chain's length |
| ReceiverModel.ReturnChainLog | src/xennet/receiver.c:365-374 | the chain's cookies go back to the VIF in chain order |
| ReceiverModel.ReturnChainSlots | src/xennet/receiver.c:365-374 | returned descriptors have empty slots and keep their buffers, checksum words and tags |
| ReceiverModel.FreeChain | src/xennet/receiver.c:324-346 | freeing a list returns exactly its descriptors to the pool and leaves every other descriptor and all the bookkeeping unchanged |
| ReceiverModel.FreeChainLog | src/xennet/receiver.c:324-346 | a list's descriptors are freed in list order |
| ReceiverModel.Teardown | src/xennet/receiver.c:315-354 | teardown leaves both lists empty and the model well formed; only the descriptors the receive path or NDIS owns survive, unchanged, and everything cached is back in the pool |
| ReceiverModel.TeardownLog | src/xennet/receiver.c:324-346 | teardown frees the get list's descriptors and then the put list's, in list order, and makes no other call |
| ReceiverModel.LiveCount | src/xennet/receiver.c:94-102 | the live descriptors and the freed ones add up to the number of allocations |
| Receiver.Receiver.constructor | src/xennet/receiver.c:270-313 | the zeroed record is valid and is the initial model |
| Receiver.Receiver.AllocateNetBufferList | src/xennet/receiver.c:61-111 | the in-place acquisition produces the descriptor and state ReceiverModel.AllocateNetBufferList gives |
| Receiver.Receiver.PopGetList | src/xennet/receiver.c:79-93 | the in-place unhook returns the get list's head and reaches the state ReceiverModel.PopGetList gives |
| Receiver.Receiver.FillSlot | src/xennet/receiver.c:106-108 | the in-place slot write reaches the state ReceiverModel.FillSlot gives |
| Receiver.Receiver.ReleaseNetBufferList | src/xennet/receiver.c:113-144 | the in-place release, whose compare-and-swap loop is one step, returns the cookie and state ReceiverModel.ReleaseNetBufferList gives |
| Receiver.Receiver.ReturnNetBufferList | src/xennet/receiver.c:146-165 | the in-place return reaches the state ReceiverModel.ReturnNetBufferList gives |
| Receiver.Receiver.ReceivePacket | src/xennet/receiver.c:167-230 | the in-place receive produces the descriptor and state ReceiverModel.ReceivePacket gives |
| Receiver.Receiver.StampPacket | src/xennet/receiver.c:194-229 | the in-place stamping produces the result and state ReceiverModel.StampPacket gives |
| Receiver.Receiver.PushPacket | src/xennet/receiver.c:232-268 | the in-place push reaches the state ReceiverModel.PushPacket gives |
| Receiver.Receiver.Indicate | src/xennet/receiver.c:241-264 | the resources flag is set exactly when the new InNDIS is above IN_NDIS_MAX, and the state is that of ReceiverModel.Indicate |
| Receiver.Receiver.QueuePacket | src/xennet/receiver.c:377-412 | a valid receiver stays valid and reaches the state ReceiverModel.QueuePacket gives |
| Receiver.Receiver.Deliver | src/xennet/receiver.c:399-411 | receiving and then pushing, or handing the cookie back, reaches the state ReceiverModel.QueuePacket gives |
| Receiver.Receiver.ReturnNetBufferLists | src/xennet/receiver.c:356-375 | returning any NULL-terminated chain of descriptors NDIS holds keeps the receiver valid, and reaches the state ReceiverModel.ReturnNetBufferLists gives for the sequence the next links visit |
| Receiver.Receiver.ReturnChain | src/xennet/receiver.c:362-374 | the in-place loop over a chain of returnable descriptors reaches the state ReceiverModel.ReturnNetBufferLists gives |
| Receiver.Receiver.LinkEach | src/xennet/receiver.c:356-368 | the in-place linking loop reaches the state ReceiverModel.LinkChain gives |
| Receiver.Receiver.NdisLink | src/xennet/receiver.c:356-368 | NDIS threading descriptors it holds into a chain keeps the receiver valid and leaves the chain ReceiverReturnNetBufferLists walks |
| Receiver.Receiver.FreeList | src/xennet/receiver.c:324-334 | the free loop over a list reaches the state ReceiverModel.FreeChain gives and leaves the list heads |
| Receiver.Receiver.UnlinkAndFree | src/xennet/receiver.c:328-331 | unlinking then freeing a descriptor is the same as freeing it |
| Receiver.Receiver.Teardown | src/xennet/receiver.c:315-354 | the two free loops reach the state ReceiverModel.Teardown gives |
| Findings.AllocateAsWritten | src/xennet/receiver.c:61-111 | the routine as written dereferences NULL exactly when nothing is cached and the pool allocation fails; otherwise it does what ReceiverModel.AllocateNetBufferList does |
| Findings.FirstReceiveWithFailingPool | src/xennet/receiver.c:94-108 | the first receive after initialization with a failing pool dereferences NULL as written, and is refused with nothing changed when corrected |
| Findings.CorrectedRefusesInstead | src/xennet/receiver.c:186-192 | whenever the code as written would dereference NULL, the corrected routine changes nothing and ReceiverQueuePacket only hands the cookie back |
| Scenarios.DeliveredPacket | src/xennet/receiver.c:186-264 | a delivered packet that is not forced back stays in NDIS bound to its fragment, with the tag StampTag gives from the descriptor's previous tag |
| Scenarios.SecondPacketSlot | src/xennet/receiver.c:209-221 | a packet with TCI 0 that reuses a descriptor from the put list carries its own cookie and fragment but the earlier packet's priority |
| Scenarios.StaleTagFromInitial | src/xennet/receiver.c:209-221 | the run from the record ReceiverInitialize leaves ends with NDIS holding descriptor 0 with the new cookie and the stale priority 1 |
| Scenarios.StaleTagRun | src/xennet/receiver.c:209-221 | from an idle receiver, a packet with priority 1, its return, and a packet with TCI 0 leave NDIS holding the recycled descriptor still tagged with priority 1 |

## Left out

- Concurrency. The spin lock (lines 74 and 104) and the interlocked operations are not modelled. Each call is one sequential step.
- The compare-and-swap loops (lines 133-138 and 247-258) each run as a single pass, which is what they do with no other writer.
- Admission.Admit: `InNDIS` and `InNDISMax` are unbounded integers, not 32-bit LONGs. Wrap-around is not modelled because the count never exceeds the number of live descriptors.
- Cookies are assumed non-NULL, as the VIF passes them. An empty slot is `None`.
- The backing pool is a success flag per allocation plus a counter of addresses it has handed out. Its allocator internals are not modelled. Freed addresses are never handed out again, so the model tells descriptors apart by allocation order.
- Receiver.Receiver.ReturnNetBufferLists: the chain NDIS hands back is taken as a precondition: a NULL-terminated list through descriptors NDIS holds. NDIS returns only descriptors it was given.
- Receiver.Receiver.NdisLink: NDIS's own code is outside this model. Its linking of the descriptors it holds into a chain (through NET_BUFFER_LIST_NEXT_NBL) before handing them back is modelled as this method, whose loop (`Receiver.Receiver.LinkEach`) sets each next link to the following element and the last one's to NULL.
- ReceiverInitialize's failure paths (lines 284 and 303) are not modelled. The constructor models the zeroed record only.
- Receiver.Receiver.Teardown: NdisFreeNetBufferListPool, clearing the adapter pointer and freeing the record (lines 348-353) are not modelled. The model leaves the list heads empty instead.
- ReceiverOffloadOptions (lines 414-420) is not modelled. It only returns a field's address.
- The SourceHandle write (line 194) is not modelled, and neither are the unused MaximumSegmentSize and Info parameters.
- The C_ASSERT and structure layout (line 59) are not modelled.
- The checksum word's bit positions follow the declaration order of the NDIS bit-fields. The TCI split follows section 9.6 of IEEE 802.1Q-2018. Both are assumptions, because util.h and the NDIS headers are not part of this model.
- Line 210 declares the local `Ieee8021QInfo` without clearing it, so the bits outside the three header fields are uninitialised. The model's tag holds only those three fields.
- Debug assertions are not modelled as checks. Instead each is proved, required or assumed:
  - Line 107 (empty slot) is proved by `ReceiverModel.AllocateBinds` for recycled descriptors. For a fresh one it holds by the allocator assumption below.
  - Line 131 (unlinked on release) is a precondition of `ReceiverModel.ReleaseWellFormed`.
  - Line 93 (one NET_BUFFER) follows from the invariant that each live descriptor has one NET_BUFFER. That invariant holds for fresh descriptors by the allocator assumption.
  - Line 101 (a fresh descriptor is unlinked) is assumed.
  - Line 73 (the allocation runs at DISPATCH_LEVEL) and line 322 (`Receiver` is not NULL) are not modelled. The model has no IRQL and no NULL receiver. The `true` first field of every `ReceiveFlags` of an indication (NDIS_RECEIVE_FLAGS_DISPATCH_LEVEL) rests on line 73.
- Receiver.Receiver.ReturnNetBufferLists: the `ReturnFlags` argument is not a parameter, because line 363 leaves it unused.
- Types.FreshDescriptor: a descriptor from NdisAllocateNetBufferAndNetBufferList is assumed to come unlinked, with one NET_BUFFER bound to the fragment, a zeroed reserved area (an empty cookie slot) and zeroed checksum and 802.1Q info. That allocator is outside this model, so this is an assumption, not a proved fact.

## Findings

| source | as written | input that shows it | evidently intended | confidence | as-written member | corrected member |
|---|---|---|---|---|---|---|
| src/xennet/receiver.c:94-108 | when both lists are empty and NdisAllocateNetBufferAndNetBufferList returns NULL, lines 106-108 still compute the reserved area of the NULL descriptor, read its cookie slot and write the cookie into it; the NULL test at line 191 comes too late | a receiver fresh from ReceiverInitialize whose first ReceiverQueuePacket meets a failing pool allocation | return NULL before touching the slot, so that ReceiverQueuePacket hands the cookie back to the VIF (line 408) | not executed | Findings.AllocateAsWritten | ReceiverModel.AllocateNetBufferList |

`Findings.FirstReceiveWithFailingPool` shows this input for both routines. `Findings.CorrectedRefusesInstead` proves that, in every well-formed state, the corrected routine refuses the packet without a change whenever the code as written would dereference NULL. The rest of the model uses the corrected routine.
