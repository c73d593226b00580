# QDMA driver and tools: verified models

Dafny models of the descriptor-queue engine of the QDMA Linux driver, of the life cycle of its
queues, and of four protocols of the user-space tools, with proofs of what they keep. `dafny
verify dfyconfig.toml` checks everything.

| file | contents |
|---|---|
| `Errno.dfy`, `Lists.dfy`, `Ring.dfy`, `Bits.dfy` | error numbers, sequences without repetition, wrapped indices, masks and the power-of-two test |
| `Transfer.dfy` | one scatter-gather request cut into descriptors, against the flat image of its bytes |
| `DescqState.dfy` | the descriptor queue as a state machine: steps of the hardware, of completion, posting, publication, submission and stop, and the invariant |
| `DescqProofs.dfy` | every step keeps the invariant |
| `Descq.dfy` | the queue as an object with a ring written in place; each method is a step or a run of steps |
| `DescqTheorems.dfy` | what holds over whole runs |
| `DescWord.dfy` | length and flags in one descriptor word |
| `Doorbell.dfy` | doorbell batching on the streaming path with a fill callback |
| `QueueTable.dfy`, `QueueDevice.dfy` | admission, life cycle, contexts and counters, as a table of values and as the object that the calls update |
| `BlockPool.dfy` | the circular block allocator, both variants |
| `FlowControl.dfy` | the submitting and the completing thread of the streaming tool |
| `ThreadTable.dfy`, `StopBarrier.dfy` | the table of worker processes and the barrier through which they stop their queues |
| `Netlink.dfy` | attribute writer and reader (section 2.2 of RFC 3549 gives the message format) |
| `VectorBalance.dfy`, `Tuning.dfy` | interrupt vectors, completion thresholds and completion ring chosen at start |

Absolute positions (descriptors ever posted, published, processed, seen consumed) appear as
history in the invariants; the objects themselves keep the wrapped indices and counters of
the source.

Places where the code does not do what a reader would expect are stated exactly:

- Credit can be left while a request is pending (`DescqTheorems.CreditWithPending`), exactly
  after a pass that completes the posting of a request with credit in hand (`CreditRuleBreaks`).
- A streaming request whose `ep_addr` is a nonzero multiple of 2^32 is cut to packets of no
  bytes: it never moves and blocks the queue (`DescqTheorems.StuckStays`, `StuckAtFourGiB`);
  every other request moves with every pass that has room (`DescqProofs.PassReducesLeft`).
- A batch does not raise the count of waiting requests but each of its requests lowers it, so
  the interrupt service can miss waiting requests (`DescqTheorems.ServiceStalls`, `BatchStalls`).
- The backlog of the doorbell is eight bits wide and survives a restart, so a long round on an
  idle ring may never be published (`Doorbell.CommitStrands` gives the exact condition).
- An aperture of 2^28 or more passes the check at start, but its descriptors do not fit the
  length field (`DescWord.LengthsFit`).
- A drained ring is recognised exactly when the completion that drains it finds a request
  pending (`DescqTheorems.DrainedFlag`); a stop that comes when half of a request is posted
  waits in vain (`StopWaitsInVain`).
- A stop ignores a failing context access; it leaves a valid context behind unless the failing
  access is not the first and the queue is not a streaming C2H queue (`QueueTable.CleanStop`).
  A failed start ignores the outcome of its clean-up in the same way (`QueueTable.CleanStart`).
- The block pools compute offsets in 32 bits: with 2^32 bytes of blocks or more, blocks reach the
  entries and releases find other blocks (`BlockPool.BytesDisjoint`, `BlockOfOffset`).
- The block allocator fails on the first used entry it meets, however much is free elsewhere:
  its scan resumes one block too far (`BlockPool.MemPool.Alloc`, `FreeButFull`).
- The streaming tool counts a completion before it releases its blocks, so with one descriptor a
  request the pool can be dry behind the gate (`FlowControl.DryBehindGate`).
- The threshold sort keeps picking the same indices when thresholds are equal, unless they are two
  and the greatest (`Tuning.SortsExactly`, `TwoInTurn`).
- A text of more than 65530 bytes does not come back (`Netlink.TextFits`), and an attribute
  of length 0 holds the reader for ever (`Netlink.EndlessExactly`, `NeverEndless`).

## Model

| member | source | states |
|---|---|---|
| `Transfer.PlanIsByteExact` | SW/linux-kernel/driver/libqdma/qdma_descq.c:239-400 | The descriptors planned for a request, read as bytes, are exactly the bytes of its scatter list from the given offset on, once each and in order, byte `o` paired with device byte `ep_addr + o` (modulo the aperture in keyhole mode), if and only if the request moves at all. |
| `Transfer.Conf.MaxLen` | SW/linux-kernel/driver/libqdma/qdma_descq.c:557-559 | The longest descriptor of a request is 0 exactly for a streaming request whose `ep_addr` is not 0 but has no bit set in its low 32. |
| `Transfer.MaxLenIs` | SW/linux-kernel/driver/libqdma/qdma_descq.c:557-559 | The limit of a descriptor, outright: packet size asked for in 32 bits but at most a page, or a page; aperture, or the most the device takes. |
| `Transfer.ChunkIsLongest` | SW/linux-kernel/driver/libqdma/qdma_descq.c:327-341 | Bytes fit in the descriptor at an offset exactly when they lie in one element, within the limit and in one lap of the window: it is as long as it can be. |
| `Transfer.WantedIs` | SW/linux-kernel/driver/libqdma/qdma_descq.c:255-265 | Every byte of every element is asked for between its own bus address and `ep_addr` plus its place in the request, folded into the window in keyhole mode. |
| `Transfer.CutIsByteExact` | SW/linux-kernel/driver/libqdma/qdma_descq.c:321-378 | The descriptors of one pass carry exactly the wanted bytes up to where the pass ends, none for a request that does not move. |
| `Transfer.CutJoin` | SW/linux-kernel/driver/libqdma/qdma_descq.c:239-400 | Two passes in a row do what one longer pass does. |
| `Transfer.PlanStaysInWindow` | SW/linux-kernel/driver/libqdma/qdma_descq.c:255-341 | No planned descriptor of a keyhole queue reaches outside the aperture window of its request. |
| `Transfer.CutThenPlan` | SW/linux-kernel/driver/libqdma/qdma_descq.c:239-400 | For a request that moves, cutting it after any number of descriptors and planning the rest gives the uninterrupted plan. |
| `Transfer.CutFull` | SW/linux-kernel/driver/libqdma/qdma_descq.c:321-378 | A pass takes as many descriptors as the ring has room for unless the request ends first. |
| `Bits.MaskIsMod` | SW/linux-kernel/driver/libqdma/qdma_descq.c:262-265 | For an accepted aperture the mask of the offset is its remainder. |
| `Bits.PowerOfTwoTest` | SW/linux-kernel/driver/libqdma/libqdma_export.c:1791-1801 | The start-time test `a & (a - 1)` accepts exactly the powers of two. |
| `Ring.DeltaIsDistance` | SW/linux-kernel/driver/libqdma/qdma_descq.c:850-852 | The credits computed from two wrapped indices are the distance of the absolute positions. |
| `DescWord.WordIsFaithful` | SW/linux-kernel/driver/libqdma/qdma_regs.h:63-65 | Length and flags share a word; the device reads back a valid descriptor with the length and packet flags meant if and only if the length is below 2^28. |
| `DescWord.LengthsFit` | SW/linux-kernel/driver/libqdma/qdma_descq.c:334-358 | All descriptors of all memory-mapped requests fit that field if and only if the longest allowed one does: a larger aperture passes the check at start and overlaps the flags. |
| `Descq.FindOffset` | SW/linux-kernel/driver/libqdma/qdma_descq.c:73-109 | Finds the scatter element and inner offset of a byte offset, or -EINVAL exactly when the list ends before it. |
| `Descq.CutMm` | SW/linux-kernel/driver/libqdma/qdma_descq.c:327-341 | From the loop variables alone, the next device address and length are those of the planned chunk, and the running address stays in step, across a window wrap too. |
| `Descq.DescriptorQueue.constructor` | SW/linux-kernel/driver/libqdma/qdma_descq.c:907-926 | A queue never started: offline, empty lists. |
| `Descq.DescriptorQueue.Retire` | SW/linux-kernel/driver/libqdma/qdma_descq.c:868-893 | The completion loop retires pending requests in order as far as the credits go, charges the rest to the next one, and returns what is left. |
| `Descq.DescriptorQueue.ReqDone` | SW/linux-kernel/driver/libqdma/qdma_descq.c:1528-1573 | Removes the first pending request, calls it back with its bytes and status, and recomputes the drained flag. |
| `Descq.DescriptorQueue.CmplStatus` | SW/linux-kernel/driver/libqdma/qdma_descq.c:824-903 | The completion path is one atomic `Complete` step: index, room, credit, lists, callbacks and doorbell. |
| `Descq.DescriptorQueue.UpdateRequest` | SW/linux-kernel/driver/libqdma/qdma_descq.c:111-128 | Adds descriptors and bytes to the first waiting request, and moves it to the end of the pending list exactly when it is posted in full. |
| `Descq.DescriptorQueue.PostPass` | SW/linux-kernel/driver/libqdma/qdma_descq.c:239-409 | One pass over the first waiting request writes into the ring, in place, exactly what a `Pass` step writes. |
| `Descq.DescriptorQueue.FillMm` | SW/linux-kernel/driver/libqdma/qdma_descq.c:287-396 | The memory-mapped fill loops leave in the ring the cut of the request from its offset, marked with packet flags. |
| `Descq.DescriptorQueue.FillSt` | SW/linux-kernel/driver/libqdma/qdma_descq.c:557-670 | The same for the streaming loops, with the packet size cut to 32 bits, empty descriptors included; they also clear the flag of the slot that follows. |
| `Descq.DescriptorQueue.PostLoop` | SW/linux-kernel/driver/libqdma/qdma_descq.c:239-409 | The request loop ends against any hardware progress (measure: a ring beyond the last publication less what is posted), for requests that do not move too, and only when nothing waits or the ring is still full after another look; it makes only poll and pass steps. |
| `Descq.DescriptorQueue.PidxUpdate` | SW/linux-kernel/driver/libqdma/qdma_descq.c:411-416 | Publishes everything posted. |
| `Descq.DescriptorQueue.ProcRequest` | SW/linux-kernel/driver/libqdma/qdma_descq.c:217-432 | The whole request path is a run of polls and passes followed, if anything was posted, by one publication and polls; in the polling modes the hardware is looked at first, before a full ring is given up, and last; while a stop waits it only polls. |
| `Descq.DescriptorQueue.Submit` | SW/linux-kernel/driver/libqdma/libqdma_export.c:2387-2502 | Refused without effect for the wrong direction, a failing mapping or an offline queue, in this order; otherwise the request joins the waiting list and the request path runs. |
| `Descq.DescriptorQueue.SubmitBatch` | SW/linux-kernel/driver/libqdma/libqdma_export.c:2519-2636 | Refused without effect for the wrong direction or a missing callback in the first request or an offline queue; otherwise the batch is listed without raising the count of waiting requests. |
| `Descq.DescriptorQueue.ServiceCompletion` | SW/linux-kernel/driver/libqdma/qdma_descq.c:1451-1491 | In the polling modes one more call of the request path; in the interrupt modes completions are always served, and posting resumes if and only if the count of waiting requests is not zero. |
| `Descq.DescriptorQueue.StopRequest` | SW/linux-kernel/driver/libqdma/libqdma_export.c:1977-2000 | First half of a stop: no more posting, and the caller learns whether the ring has drained. |
| `Descq.DescriptorQueue.StopFinish` | SW/linux-kernel/driver/libqdma/libqdma_export.c:2001-2021 | Second half: every request still listed is called back with (0, -ENXIO) and the queue is offline. |
| `Descq.DescriptorQueue.Start` | SW/linux-kernel/driver/libqdma/libqdma_export.c:1752-1866 | Fails with -EINVAL (state, engine mode) or -ERANGE without effect; otherwise ring and counters are reset, and the queue is online unless allocation or programming fails. |
| `Descq.DescriptorQueue.ApertureOk` | SW/linux-kernel/driver/libqdma/libqdma_export.c:1791-1801 | Accepts no aperture and powers of two. |
| `Descq.DescriptorQueue.HardwareStep` | SW/linux-kernel/driver/libqdma/qdma_descq.c:841-848 | The device may process any number of published descriptors, never more. |
| `DescqProofs.PassWindow` | SW/linux-kernel/driver/libqdma/qdma_descq.c:321-378 | A pass never touches a slot that holds an unconsumed descriptor. |
| `DescqProofs.MarkOnlyFlags` | SW/linux-kernel/driver/libqdma/qdma_descq.c:393-396 | Packet flags are the only difference between planned and stored descriptors; in a memory-mapped pass the first carries SOP and the last EOP. |
| `DescqProofs.DrainKeepsPosition` | SW/linux-kernel/driver/libqdma/qdma_descq.c:868-893 | Retiring requests keeps the ring position that lists and credit account for. |
| `DescqProofs.DrainLists` | SW/linux-kernel/driver/libqdma/qdma_descq.c:868-893 | It takes whole requests from the front, and leaves no credit while one still waits. |
| `DescqProofs.CompleteKeepsRunning` | SW/linux-kernel/driver/libqdma/qdma_descq.c:824-903 | A completion keeps the invariant of a running queue. |
| `DescqProofs.PassKeepsRunning` | SW/linux-kernel/driver/libqdma/qdma_descq.c:239-409 | A pass keeps it. |
| `DescqProofs.FlushKeepsInv` | SW/linux-kernel/driver/libqdma/libqdma_export.c:2001-2021 | So does the end of a stop, with every request called back. |
| `DescqProofs.ApplyKeepsInv` | SW/linux-kernel/driver/libqdma/qdma_descq.c:185-432 | Every atomic step keeps the invariant of the queue. |
| `DescqProofs.RunKeepsInv` | SW/linux-kernel/driver/libqdma/qdma_descq.c:185-432 | Every run from a good state ends in a good state. |
| `DescqProofs.PassReducesLeft` | SW/linux-kernel/driver/libqdma/qdma_descq.c:557-670 | A pass with room reduces the bytes not yet posted, keyhole clipping included, if and only if the request moves; otherwise it fills the ring with empty descriptors and stays where it is. |
| `DescqTheorems.PostedBytes` | SW/linux-kernel/driver/libqdma/qdma_descq.c:239-432 | Over any run of interrupted passes, the descriptors posted transfer, byte by byte and in order, all of every finished and pending request and the counted part of the first waiting one, which is nothing for one that does not move. |
| `DescqTheorems.StuckStays` | SW/linux-kernel/driver/libqdma/qdma_descq.c:557-670 | A request that does not move, once first in line, stays first with no byte posted over any run without a stop, and nothing behind it is served. |
| `DescqTheorems.StuckAtFourGiB` | SW/linux-kernel/driver/libqdma/qdma_descq.c:557-559 | With `ep_addr` 2^32, on a ring of any size: for every `n` a run in which `n` and more descriptors are posted and consumed without a byte and without a callback. |
| `DescqTheorems.PassesDoNotMatter` | SW/linux-kernel/driver/libqdma/qdma_descq.c:239-432 | Any two runs from creation that have accepted the same requests since the last start, on queues of one configuration, have posted the same descriptors as far as both have come. |
| `DescqTheorems.DeviceReads` | SW/linux-kernel/driver/libqdma/qdma_descq.c:321-416 | Between its own index and the doorbell the device finds in the ring exactly the planned descriptors, up to packet flags, all of them valid. |
| `DescqTheorems.PostedAreValid` | SW/linux-kernel/driver/libqdma/qdma_descq.c:358-359 | Every descriptor ever posted carries the valid flag, or on a streaming queue the zero-header flag. |
| `DescqTheorems.PassStores` | SW/linux-kernel/driver/libqdma/qdma_descq.c:321-396 | Slot by slot what a pass leaves in the ring: its descriptors in order, SOP on the first and EOP on the last of a memory-mapped pass, the flag of the next slot cleared on a streaming queue, all else as it was. |
| `DescqTheorems.StartLeaves` | SW/linux-kernel/driver/libqdma/qdma_descq.c:1344-1356 | What a start leaves in every field, and that failing only keeps the queue offline. |
| `DescqTheorems.DoneExactlyWhenConsumed` | SW/linux-kernel/driver/libqdma/qdma_descq.c:824-903 | A posted request has been called back, with all its bytes and status 0, if and only if its last descriptor has been seen consumed; completion is in order. |
| `DescqTheorems.CreditConservation` | SW/linux-kernel/driver/libqdma/qdma_descq.c:111-128 | Descriptor counts on both lists less the credit are the outstanding descriptors. |
| `DescqTheorems.CompletionSpendsCredit` | SW/linux-kernel/driver/libqdma/qdma_descq.c:866-896 | A completion that saw progress leaves credit only when nothing is pending. |
| `DescqTheorems.CreditRuleBreaks` | SW/linux-kernel/driver/libqdma/qdma_descq.c:111-128 | The rule that left-over credit means an empty pending list is broken by a step if and only if that step is a pass which completes the posting of a request while there is credit in hand. |
| `DescqTheorems.CreditWithPending` | SW/linux-kernel/driver/libqdma/qdma_descq.c:866-896 | Such a run on every memory-mapped queue, and every streaming one, with room for a descriptor. |
| `DescqTheorems.PositionsInOrder` | SW/linux-kernel/driver/libqdma/qdma_descq.c:143-151 | Consumed, processed, published and posted positions are ordered, `avail + ((pidx - cidx) mod rngsz) = rngsz - 1`, and equal indices mean an empty ring. |
| `DescqTheorems.EveryRequestCalledOnce` | SW/linux-kernel/driver/libqdma/libqdma_export.c:1977-2021 | Over any run from creation, the accepted requests are those called back, those pending and those waiting, each once and in order; every call reports all bytes and 0, or 0 bytes and -ENXIO; after a stop all have been called. |
| `DescqTheorems.DrainingRun` | SW/linux-kernel/driver/libqdma/libqdma_export.c:1977-2000 | While a stop waits, `pidx` and the posted descriptors never change, outstanding ones only decrease, and the drained flag stays once set and means an empty pending list and an empty ring. |
| `DescqTheorems.DrainedFlag` | SW/linux-kernel/driver/libqdma/qdma_descq.c:1562-1570 | The completion that drains the ring sets the drained flag if and only if a request is pending before it. |
| `DescqTheorems.NeverSeenDrained` | SW/linux-kernel/driver/libqdma/libqdma_export.c:1987-2000 | A drained ring whose flag is clear stays so while a stop waits. |
| `DescqTheorems.StopWaitsInVain` | SW/linux-kernel/driver/libqdma/libqdma_export.c:1987-2000 | On every queue with room for a descriptor a run to such a stop. |
| `DescqTheorems.DrainedIsRecognised` | SW/linux-kernel/driver/libqdma/qdma_descq.c:1562-1570 | A drained ring has nothing pending, and a clear flag then means that its last descriptors belong to a request not posted in full. |
| `DescqTheorems.ServiceStalls` | SW/linux-kernel/driver/libqdma/qdma_descq.h:555-596 | The count that decides whether the interrupt service resumes posting is zero if and only if as many requests came in batches as still wait. |
| `DescqTheorems.BatchStalls` | SW/linux-kernel/driver/libqdma/libqdma_export.c:2625-2635 | On every queue with room for a descriptor, a run in which a batch of one large request is left half posted with an empty ring and a count of zero. |
| `Doorbell.StepKeepsInv` | SW/linux-kernel/driver/libqdma/qdma_descq.c:153-183 | Fetching, committing, completing and restarting keep the positions and the eight-bit backlog consistent. |
| `Doorbell.CommitStrands` | SW/linux-kernel/driver/libqdma/qdma_descq.c:153-183 | A round strands its descriptors if and only if nothing is in flight, the round is at least one threshold long and the eight-bit backlog wraps to below the threshold. |
| `Doorbell.CompletionPublishes` | SW/linux-kernel/driver/libqdma/qdma_descq.c:898-900 | A completion that sees progress publishes everything committed. |
| `Doorbell.PublishesExactly` | SW/linux-kernel/driver/libqdma/qdma_descq.c:153-183 | An update leaves nothing unpublished exactly when forced, when nothing was, when fewer descriptors than a threshold are in use, or when the backlog has reached the threshold; otherwise it changes nothing. |
| `Doorbell.NoDoorbellLost` | SW/linux-kernel/driver/libqdma/qdma_descq.c:462-508 | Over any run whose rounds stay below 256 descriptors, descriptors wait for their doorbell only while some are in flight. |
| `Doorbell.IdleRound` | SW/linux-kernel/driver/libqdma/qdma_descq.c:462-508 | On an idle ring, exactly which rounds are stranded. |
| `Doorbell.LongRoundStrands` | SW/linux-kernel/driver/libqdma/qdma_descq.c:486-498 | One round of 256 descriptors with a threshold of 8 is stranded. |
| `Doorbell.WrappedRound` | SW/linux-kernel/driver/libqdma/qdma_descq.c:486-498 | So is any round on an idle ring that passes 256 by less than the threshold. |
| `Doorbell.LeaveBacklog` | SW/linux-kernel/driver/libqdma/qdma_descq.c:153-183 | A run from an empty ring that is stopped and started with a backlog of any length below the threshold. |
| `Doorbell.StaleBacklogStrands` | SW/linux-kernel/driver/libqdma/qdma_descq.c:1344-1356 | The backlog is not cleared by a restart: a run in which, after a restart with 7 in it, 250 descriptors are stranded. |
| `Doorbell.BatchedQueue.constructor` | SW/linux-kernel/driver/libqdma/qdma_descq.c:1344-1356 | An empty ring with all but one slot available. |
| `Doorbell.BatchedQueue.Restart` | SW/linux-kernel/driver/libqdma/qdma_descq.c:1344-1356 | Indices and room start anew; backlog and the index committed last do not. |
| `Doorbell.BatchedQueue.PidxUpdate` | SW/linux-kernel/driver/libqdma/qdma_descq.c:153-183 | Publishes the index committed last when forced, when the ring is not busy, or when the backlog has reached the threshold; otherwise nothing. |
| `Doorbell.BatchedQueue.CmplStatus` | SW/linux-kernel/driver/libqdma/qdma_descq.c:824-903 | Index part of the completion path: nothing new, or take the credits and publish. |
| `Doorbell.BatchedQueue.DescGet` | SW/linux-kernel/driver/libqdma/qdma_descq.c:928-958 | -EINVAL exactly for counts of a ring or more; 0 exactly when the count is available, after one look at the hardware if need be; -EBUSY otherwise; slots are handed out from the producer index. |
| `Doorbell.BatchedQueue.Round` | SW/linux-kernel/driver/libqdma/qdma_descq.c:462-498 | A round commits everything its packets fetched, and stops as soon as the threshold is reached: without its last packet it is shorter than that; or at a packet that does not fit. It loses no doorbell below 256 descriptors. |
| `QueueTable.Admission` | SW/linux-kernel/driver/libqdma/libqdma_export.c:1273-1363 | The bit masks admit a queue if and only if its slot is free and everything present at the index has its mode. |
| `QueueTable.CompletionIsShared` | SW/linux-kernel/driver/libqdma/qdma_context.c:844-896 | Without that check a streaming C2H queue and a completion queue at one index would write the same context. |
| `QueueTable.OwnedDisjoint` | SW/linux-kernel/driver/libqdma/qdma_context.c:627-737 | Two different queues in use never own the same context. |
| `QueueTable.HandleRoundTrip` | SW/linux-kernel/driver/libqdma/qdma_device.c:367-423 | A handle leads back to the queue it was made for and to no other. |
| `QueueTable.AddSucceeds` | SW/linux-kernel/driver/libqdma/libqdma_export.c:1430-1625 | A queue is added if and only if its mode is supported, its configuration and legacy interrupt are accepted, its index is in range and its slot is usable; the counter test never turns away a usable slot. |
| `QueueTable.AddRefusals` | SW/linux-kernel/driver/libqdma/libqdma_export.c:1430-1625 | Exactly which error a refused queue gets: -EIO for a full count, -EPERM for a slot taken or an index in another mode, -EINVAL otherwise. |
| `QueueTable.CallReturns` | SW/linux-kernel/driver/libqdma/libqdma_export.c:917-2055 | What the other calls return; a start gives -ERANGE exactly for a nonzero aperture that is not a power of two. |
| `QueueTable.OwnSlot` | SW/linux-kernel/driver/libqdma/libqdma_export.c:917-2055 | What each call leaves in the slot of its queue, field by field: a configuration stores the aperture given; a call that fails stores nothing. |
| `QueueTable.Accesses` | SW/linux-kernel/driver/libqdma/qdma_context.c:627-764 | The accesses that clear and write the contexts of a queue, one by one, for each type and mode. |
| `QueueTable.StartedContexts` | SW/linux-kernel/driver/libqdma/qdma_context.c:844-896 | After a successful start the contexts the queue has are valid and its own, and its hardware and credit contexts are cleared. |
| `QueueTable.StoppedContexts` | SW/linux-kernel/driver/libqdma/qdma_context.c:684-733 | After a stop in which no access fails none of its contexts is valid. |
| `QueueTable.RoomToCount` | SW/linux-kernel/driver/libqdma/qdma_access/qdma_resource_mgmt.c:645-697 | The counter increments of an admitted queue never fail. |
| `QueueTable.ApplyKeepsInv` | SW/linux-kernel/driver/libqdma/libqdma_export.c:1378-2055 | Add, config, start, stop and remove, however many context accesses fail, in a clean-up too, keep modes agreeing, counters exact and every context of an online queue valid and its own. |
| `QueueTable.Reachable` | SW/linux-kernel/driver/libqdma/libqdma_export.c:1378-2055 | So does any sequence of calls on a fresh device. |
| `QueueTable.Interference` | SW/linux-kernel/driver/libqdma/libqdma_export.c:1715-2055 | No call on one queue, whichever accesses fail, changes the slot of another or any context another queue in use owns. |
| `QueueTable.SingleOwner` | SW/linux-kernel/driver/libqdma/qdma_context.c:844-896 | A programmed context has one owner in use and is valid if and only if that owner is online or a failed call has left it behind; an online owner finds what it wrote. |
| `QueueTable.CleanStop` | SW/linux-kernel/driver/libqdma/qdma_context.c:684-733 | A stop leaves no valid context behind if and only if no access fails, or one fails that is not the first and the queue is not a streaming C2H queue. |
| `QueueTable.StopLeavesOrphans` | SW/linux-kernel/driver/libqdma/qdma_context.c:684-733 | Exactly which contexts are left behind after a stop whose access `f` fails. |
| `QueueTable.StartEndsOrphans` | SW/linux-kernel/driver/libqdma/libqdma_export.c:1811-1866 | A start that succeeds ends those among the keys of its queue; one that fails leaves exactly what it wrote, or found and did not clear, as far as its clean-up does not get to it. |
| `QueueTable.CleanStart` | SW/linux-kernel/driver/libqdma/libqdma_export.c:1860-1862 | A failed start leaves no valid context behind if and only if its clean-up reaches as many accesses as the writes made need: none, 1, or for a streaming C2H queue 4 or 5. |
| `QueueTable.OthersKeepOrphans` | SW/linux-kernel/driver/libqdma/libqdma_export.c:917-1136 | Adding, configuring and removing queues changes none of them. |
| `QueueTable.CleanRun` | SW/linux-kernel/driver/libqdma/libqdma_export.c:1378-2055 | Over any run in which no stop and no clean-up of a failed start meets a failing access, no context is ever left behind. |
| `QueueTable.ContextLeftByStart` | SW/linux-kernel/driver/libqdma/libqdma_export.c:1860-1862 | A run from a fresh device: a streaming C2H queue whose third context write and clean-up fail is enabled with two valid contexts. |
| `QueueTable.ContextLeftBehind` | SW/linux-kernel/driver/libqdma/libqdma_export.c:2026-2028 | A run from a fresh device: a streaming C2H queue stopped with any one access failing, and removed, leaves a valid completion context without an owner. |
| `QueueDevice.Device.constructor` | SW/linux-kernel/driver/libqdma/qdma_device.c:256-272 | All slots disabled, contexts clear, counters zero. |
| `QueueDevice.Device.ContextClear` | SW/linux-kernel/driver/libqdma/qdma_context.c:627-737 | Clears or invalidates the contexts of the queue in order, exactly up to the access that fails. |
| `QueueDevice.Device.ContextProgram` | SW/linux-kernel/driver/libqdma/qdma_context.c:844-896 | Clears, then writes the contexts of the queue; if an access fails, nothing else has been touched. |
| `QueueDevice.Device.IncrementActive` | SW/linux-kernel/driver/libqdma/qdma_access/qdma_resource_mgmt.c:645-697 | Refused exactly when the count has reached the number of queues. |
| `QueueDevice.Device.QueueAdd` | SW/linux-kernel/driver/libqdma/libqdma_export.c:1378-1701 | Explicit index: the error of the first failing check, validation and legacy interrupt included, or the queue enabled and counted. |
| `QueueDevice.Device.QueueConfig` | SW/linux-kernel/driver/libqdma/libqdma_export.c:1061-1136 | Only an enabled queue with a valid configuration is reconfigured. |
| `QueueDevice.Device.QueueStart` | SW/linux-kernel/driver/libqdma/libqdma_export.c:1715-1866 | Online with its contexts programmed, or the error with its contexts as far as clearing, writing and clean-up got, for any row of failing accesses and index writes; refused without effect for the engine mode. |
| `QueueDevice.Device.QueueStop` | SW/linux-kernel/driver/libqdma/libqdma_export.c:1942-2055 | An online queue returns to enabled with its contexts invalidated exactly up to the access that fails, if one does, and the call succeeds all the same. |
| `QueueDevice.Device.QueueRemove` | SW/linux-kernel/driver/libqdma/libqdma_export.c:917-1046 | An enabled queue is disabled and no longer counted. |
| `BlockPool.TakeKeepsInv` | SW/linux-kernel/apps/dma-utils/dmaxfer.c:144-189 | Taking a range that fits keeps ranges disjoint and in bounds and the rover outside every one. |
| `BlockPool.ReleaseKeepsInv` | SW/linux-kernel/apps/dma-utils/dmaxfer.c:191-212 | Either store of a release, at any moment, keeps that too. |
| `BlockPool.AllocKeepsOthers` | SW/linux-kernel/apps/dma-utils/dmaxfer.c:144-189 | An allocation leaves every other range as it was and disjoint from the new one. |
| `BlockPool.BytesDisjoint` | SW/linux-kernel/apps/dma-utils/dmaxfer.c:118-212 | With offsets cut to 32 bits as in the source, after every interleaving of allocations and releases on a new pool no byte belongs to two ranges in use and the first byte of the entries to none, if and only if the blocks together are shorter than 2^32 bytes. |
| `BlockPool.BytesApart` | SW/linux-kernel/apps/dma-utils/dmaxfer.c:144-189 | Below that every range in use ends before the entries begin. |
| `BlockPool.EntriesOverrun` | SW/linux-kernel/apps/dma-utils/dmaxfer.c:127-180 | From that on, filling the pool with single blocks reaches one that holds the first byte of the entries. |
| `BlockPool.FreeButFull` | SW/linux-kernel/apps/dma-utils/dmaxfer.c:157-177 | A run after which every block but the first is free and a single block cannot be had. |
| `BlockPool.MemPool.constructor` | SW/linux-kernel/apps/dma-utils/dmaxfer.c:118-136 | An empty pool on memory that was zero, its entries at a 32-bit offset. |
| `BlockPool.MemPool.Alloc` | SW/linux-kernel/apps/dma-utils/dmaxfer.c:144-189 | With releases interleaved before every read: a range returned starts at the rover (or 0), was free, and is handed out at the 32-bit offset of its first block; a range free there from the start is returned; without interference that is exactly when it succeeds; single blocks always end. |
| `BlockPool.MemPool.AllocEarly` | SW/linux-kernel/apps/dma-xfer/dmaxfer.c:1798-1836 | The other variant of the scan has the same outcome. |
| `BlockPool.MemPool.Free` | SW/linux-kernel/apps/dma-utils/dmaxfer.c:191-212 | Releases the block at the offset and nothing else. |
| `BlockPool.BlockOfOffset` | SW/linux-kernel/apps/dma-utils/dmaxfer.c:191-212 | The offset of a block leads a release back to it if and only if it was not cut; otherwise to an earlier block. |
| `FlowControl.NextKeepsInv` | SW/linux-kernel/apps/dma-xfer/dmaxfer.c:2036-2208 | Every step of either thread keeps blocks singly owned and the requests outstanding within bounds. |
| `FlowControl.OutstandingAndReuse` | SW/linux-kernel/apps/dma-xfer/dmaxfer.c:2114-2208 | In every interleaving, completions in any order and submissions refused or not, `(submitted - completed) * num_desc <= max_reqs + num_desc` and a block handed out has no owner. |
| `FlowControl.NothingLost` | SW/linux-kernel/apps/dma-xfer/dmaxfer.c:2036-2208 | In every interleaving, refusals included, an entry of either pool is in use exactly when its block has an owner. |
| `FlowControl.SubmitterGoes` | SW/linux-kernel/apps/dma-xfer/dmaxfer.c:2158-2208 | The gate admits exactly when `(submitted - completed) * num_desc <= max_reqs`, and where the submitter goes after every step. |
| `FlowControl.GrabIffRoom` | SW/linux-kernel/apps/dma-xfer/dmaxfer.c:1798-1836 | While blocks are given back oldest first, one can be had if and only if the pool is not wholly owned. |
| `FlowControl.OrderlyRun` | SW/linux-kernel/apps/dma-xfer/dmaxfer.c:2036-2208 | With completions oldest first and no refusal, owned blocks stay consecutive behind the rover over any run. |
| `FlowControl.RoomForData` | SW/linux-kernel/apps/dma-xfer/dmaxfer.c:2158-2185 | Then a request that has its control block always gets its data block. |
| `FlowControl.DryBehindGate` | SW/linux-kernel/apps/dma-xfer/dmaxfer.c:2158-2175 | And the pool of control blocks is dry behind the gate if and only if a request takes one descriptor, the gate is only just open, and a completion has been counted but not yet released. |
| `FlowControl.DryReached` | SW/linux-kernel/apps/dma-xfer/dmaxfer.c:2062-2075 | That case is reached by a run in which nothing is refused or out of order. |
| `FlowControl.DataPoolFits` | SW/linux-kernel/apps/dma-xfer/dmaxfer.c:2119-2131 | The data pool stays below 2^32 bytes if and only if a request takes at most 424 descriptors. |
| `ThreadTable.Fill` | SW/linux-kernel/apps/dma-perf/dmaperf.c:785-902 | The nested loops fill the table completely, in place, with the entries of every function, queue and worker. |
| `ThreadTable.Size` | SW/linux-kernel/apps/dma-perf/dmaperf.c:1273-1275 | The number of entries is the product computed before. |
| `ThreadTable.TableServes` | SW/linux-kernel/apps/dma-perf/dmaperf.c:785-902 | Every queue asked for has `num_thrds_per_q` workers of which exactly one is in control; other queues have none. |
| `ThreadTable.OneController` | SW/linux-kernel/apps/dma-perf/dmaperf.c:785-902 | Every worker has exactly one worker in control of its queue. |
| `ThreadTable.FirstControls` | SW/linux-kernel/apps/dma-perf/dmaperf.c:787-895 | It is the first worker of the queue in the table. |
| `ThreadTable.SlotsDistinct` | SW/linux-kernel/apps/dma-perf/dmaperf.c:1911-1915 | Stop slots stay inside the shared array and are equal only for equal queues. |
| `StopBarrier.StepKeepsInv` | SW/linux-kernel/apps/dma-perf/dmaperf.c:1899-2009 | Every step of every worker, in any interleaving, keeps the invariant of the barrier. |
| `StopBarrier.BarrierSafe` | SW/linux-kernel/apps/dma-perf/dmaperf.c:1899-2009 | In every interleaving no queue is stopped twice, a stopped queue has all its workers waiting (all workers of the tool in streaming modes with C2H), and memory is released only after the own queue has been stopped. |
| `StopBarrier.NoSecondWait` | SW/linux-kernel/apps/dma-perf/dmaperf.c:1935-1945 | Outside the streaming modes with C2H no worker ever waits for the flags of all. |
| `StopBarrier.StopsAlone` | SW/linux-kernel/apps/dma-perf/dmaperf.c:1920-1992 | There, once all workers of a queue wait, enough steps of its controller alone stop it, whatever the flags of other workers. |
| `StopBarrier.SomeoneMoves` | SW/linux-kernel/apps/dma-perf/dmaperf.c:1920-1997 | Once all have entered, some worker can make progress until all are finished. |
| `StopBarrier.BarrierFinishes` | SW/linux-kernel/apps/dma-perf/dmaperf.c:1899-2009 | Once all have entered, every schedule of enough rounds, each giving every worker a step in any order, finishes. |
| `StopBarrier.AllStopped` | SW/linux-kernel/apps/dma-perf/dmaperf.c:1979-1997 | Then every queue has been stopped exactly once. |
| `Netlink.Message.constructor` | SW/linux-kernel/apps/dma-utils/dmactl.c:113-136 | An empty zeroed message behind its header. |
| `Netlink.Message.AddInt` | SW/linux-kernel/apps/dma-utils/dmactl.c:217-228 | Appends the encoding of a number in place. |
| `Netlink.Message.AddStr` | SW/linux-kernel/apps/dma-utils/dmactl.c:230-243 | Appends what the length cut to 16 bits covers of the encoding of a text. |
| `Netlink.RecvAttrs` | SW/linux-kernel/apps/dma-utils/dmactl.c:245-282 | The walk fills the table in place and ends as `Read` says, including unknown types, lengths of 0 and truncated messages. |
| `Netlink.ReadOn` | SW/linux-kernel/apps/dma-utils/dmactl.c:217-282 | Whatever follows, the reader first takes in all that the writer has written. |
| `Netlink.EndlessExactly` | SW/linux-kernel/apps/dma-utils/dmactl.c:251-279 | After any such attributes, a number attribute with a wrong length field holds the reader for ever if and only if the field is 0. |
| `Netlink.EndlessMessage` | SW/linux-kernel/apps/dma-utils/dmactl.c:251-279 | The shortest such message. |
| `Netlink.NeverEndless` | SW/linux-kernel/apps/dma-utils/dmactl.c:251-279 | A message without a zero where a length field may stand never does. |
| `Netlink.RoundTrip` | SW/linux-kernel/apps/dma-utils/dmactl.c:217-282 | For any list of well-typed attributes whose texts fit, the reader walks exactly the bytes written and yields the table of the last writers and the texts in order. |
| `Netlink.NumberBytes` | SW/linux-kernel/apps/dma-utils/dmactl.c:217-228 | The eight bytes of a number, outright. |
| `Netlink.TextBytes` | SW/linux-kernel/apps/dma-utils/dmactl.c:230-243 | The bytes of a text, outright. |
| `Netlink.UnknownType` | SW/linux-kernel/apps/dma-utils/dmactl.c:254-264 | After any attributes of the writer, a type out of range ends the walk with -EINVAL, and what came before it stands. |
| `Netlink.LastWriter` | SW/linux-kernel/apps/dma-utils/dmactl.c:268-275 | The value kept for a type is that of its last attribute, or the old one. |
| `Netlink.TextFits` | SW/linux-kernel/apps/dma-utils/dmactl.c:230-243 | A text comes back if and only if it has at most 65530 bytes. |
| `VectorBalance.Vectors.constructor` | SW/linux-kernel/driver/libqdma/qdma_descq.c:775-785 | No queue on any vector. |
| `VectorBalance.Vectors.AllocIrq` | SW/linux-kernel/driver/libqdma/qdma_descq.c:775-819 | Picks the first data vector with the fewest queues, or the first data vector outside direct mode. |
| `VectorBalance.Vectors.StartQueue` | SW/linux-kernel/driver/libqdma/libqdma_export.c:1836-1846 | Puts the queue on that vector; counts equal the queues assigned. |
| `VectorBalance.Vectors.StopQueue` | SW/linux-kernel/driver/libqdma/libqdma_export.c:2033-2043 | Takes it off its vector again. |
| `VectorBalance.StartsDealOut` | SW/linux-kernel/driver/libqdma/qdma_descq.c:787-815 | Any run of starts from empty vectors deals queues out in turn, so that loads differ by one at most. |
| `Tuning.SortThresholds` | SW/linux-kernel/driver/libqdma/qdma_regs.c:191-225 | Every round finds an eligible threshold, and picks the last of the least. |
| `Tuning.PickNext` | SW/linux-kernel/driver/libqdma/qdma_regs.c:199-216 | The two loops of a round find the last index of the least eligible value. |
| `Tuning.SortsExactly` | SW/linux-kernel/driver/libqdma/qdma_regs.c:191-225 | The order is ascending, and it is a permutation of the indices if and only if no threshold occurs twice, except that the greatest may. |
| `Tuning.TwoInTurn` | SW/linux-kernel/driver/libqdma/qdma_regs.c:191-225 | With the two least thresholds equal, their two indices are picked in turn for ever and no other appears. |
| `Tuning.Neighbours` | SW/linux-kernel/driver/libqdma/qdma_descq.c:1363-1398 | The thresholds are averages with the neighbours of the chosen index in the order, or of the place remembered when it is missing; they lie around the chosen one if and only if those neighbours do, up to rounding. |
| `Tuning.NeighboursInOrder` | SW/linux-kernel/driver/libqdma/qdma_descq.c:1363-1398 | Which they do in every ascending order that holds the chosen index. |
| `Tuning.BestFit` | SW/linux-kernel/driver/libqdma/qdma_descq.c:1310-1331 | The completion ring is the least size above the one asked for, or that one if there is none. |

## Left out

- Automatic choice of a queue index: the search advances its pointer twice, so it enables another slot than it records. Only explicit indices are modelled.
- Requests that block for completion and time-outs: a time-out unlinks a request whose descriptors are outstanding. Every request carries a completion callback.
- Failures without a way back: preparing queue resources, mapping a request of a batch, the doorbell write. They succeed here.
- Scatter lists shorter than `count`: the out-of-range arm never removes such a request. `FindOffset` models that arm, the posting loop assumes it is not reached.
- Requests of 0 bytes: each element of the list then posts one empty descriptor and the request becomes pending at once; the model has only elements with bytes in them.
- The early return of the EQDMA 5.0 core inside a pass, and the fill callback of the memory-mapped and plain streaming loops.
- Bypass packet flags and the ping-pong time stamp of the streaming loop; the retry of the batched loop when a round wrote nothing.
- Request lists on the batched streaming path: what the callback does with a request is not part of this model, only the descriptors it fetches.
- Streaming C2H receive, interrupt rings, legacy interrupts, mailbox and virtual functions, debugfs, register access, configuration files, and `qdma_descq_read_cmpt_data`.
- Descq.DescriptorQueue: methods are atomic where the source holds the queue lock; addresses do not wrap at 64 bits and descriptor counts not at 32; a request on a list is a value held by that list.
- Descq.DescriptorQueue.Submit: a completion queue is not a transfer queue and has no object here; validity of the handle is part of being online.
- Descq.DescriptorQueue.SubmitBatch: a request of a batch whose mapping fails is called back and listed all the same, so it is called back twice; mapping succeeds here.
- Descq.DescriptorQueue.ServiceCompletion: the streaming C2H arm, and an interrupt for a queue that is not online.
- Doorbell.BatchedQueue.constructor: the batching threshold is at most the ring size less one and fits its eight bits, as the comparison in the source needs.
- QueueDevice.Device.QueueStart: the mapping of hardware errors to error codes is the parameter `hwError`.
- QueueDevice.Device.QueueConfig: of the configuration only the aperture is kept, since nothing else modelled depends on it.
- QueueTable.Interference: queues of one function; the ranges of hardware ids of different functions are disjoint by configuration.
- BlockPool.MemPool.Alloc: sizes of 0 are not modelled (the source hands out a block without marking it), and for sizes above 1 the scan may repeat for ever after a wrap, so the contract looks at a bounded number of iterations.
- BlockPool.MemPool.constructor: neither `mempool_create` clears the entries behind the blocks; that the memory was zero is assumed here and in `FlowControl.Initial`, and `GrabIffRoom`, `RoomForData` and `DryBehindGate` rest on it.
- FlowControl: the pool of contexts, the event queue of the kernel and the linked list of contexts are abstract; a request has at least one byte; pools are below 2^32 bytes, so that a release finds its block (`DataPoolFits`, `BlockPool.BlockOfOffset`). The submitter's own releases are one step.
- BlockPool.BytesDisjoint: what data written over the entries of a pool that is too long does to the allocator.
- ThreadTable: per-worker settings other than queue, direction and control; device addresses of functions above 15.
- StopBarrier: the markers and dumps between the waits and the stop; queues always start, since a failed start ends the tool.
- Netlink.RecvAttrs: the buffer holds exactly the bytes of the message; reading past them is reported, not modelled.
- Netlink.Message.AddStr: the caller has provided room for the whole text.
- VectorBalance.Vectors.AllocIrq: a device with no vectors is not modelled.
- Tuning.SortThresholds: thresholds fit the eight bits of the local variable that holds them.
