# Verified model of the GPU memory-system simulator

This project models the parts of the simulator whose correctness depends on several components
agreeing with each other, and proves that they do. Each component appears twice: as values and
functions, about which the theorems are proved for all inputs and all runs, and, where the simulator
updates objects in place, as classes whose methods and loops are proved to be those functions.

| modules | component |
|---|---|
| `Buddy`, `BuddyProofs`, `BuddyState` | buddy allocator: per-level free lists, split and merge bitmaps, page trackers |
| `RadixTable`, `PageWalk`, `ProcessTable`, `WalkCache` | page table, its breadth-first memory image, the page walk and the page-walk cache |
| `FrameAllocator`, `FrameAccounting`, `MemoryAllocation` | memory allocator over devices with free lists |
| `DirectLink`, `DirectOrder`, `LinkState` | ports, tick scheduling and the direct connection |
| `DelayedLink`, `DelayedWakeUp`, `DelayedState` | the connection with a latency |
| `EventQueue`, `SerialEngine`, `ParallelEngine` | event queues and the two engines |
| `Routing`, `Placement`, `LaspMemory` | bank routing and chiplet placement of page-table pages |
| `WriteCombining`, `WriteBuffer`, `Storage` | write combining, byte storage and masked writes |
| `CacheDirectory`, `DirectoryState` | least-recently-used queues, victims and the directory |
| `TensorIndex`, `Sums`, `Pooling`, `PoolingLoops` | tensor index algebra and pooling |
| `Powers` | division and powers of two |

Where a component keeps a history (what was sent, delivered, scheduled or handled), the history is
part of the model's state and no step reads it. The same holds of `at` in a pending message, the time it
was taken.

## Where the code departs from its intent

Six of the results are about code that does not do what it is for. In each the code is modelled as it
is, a failing input or run is given, and the exact condition under which the code is right is proved.

- The buddy allocator's guard at `devicebuddymemstate.go:112` updates the parent's merge bit only when
  the taken list is the requested one. Allocation is modelled with both guards (`repaired`). Failing run:
  `BuddyProofs.GuardAsWrittenFreesHeldPages`; condition: `BuddyProofs.AllocateKeepsInvIff`, over runs
  `BuddyProofs.WrittenRunKeepsInvIffSafe`.
- `expandWrite` at `writebuffer.go:106` never moves the address down to the line start. Failing input:
  `WriteCombining.UnalignedFirstWriteGoesAstray`; condition: `WriteCombining.CombineIsRightIff`.
- A port that is used by a secondary event after the connection's tick of that time asks for a tick in
  vain: a message sent then, or one waiting for the port that is retrieved from, stays until the next
  send or retrieval on the same connection. The components of this repository act in primary events
  (only connections are secondary ticking components), so it takes a new kind of component to do this.
  Failing run: `DirectLink.LateSendIsStranded`, and how long it lasts: `DirectLink.StrandedUntilNextCall`;
  condition: `DirectLink.ActKeepsInvIff`, over runs `DirectLink.EveryRunKeepsInv`.
- Frames that `Remap` and `AllocatePageWithGivenVAddr` take pages off are never returned. Failing run:
  `FrameAccounting.RemapLosesAFrame`, and no later call brings them back:
  `FrameAllocator.RemapLosesFramesForGood`; condition, over runs: `FrameAccounting.EveryRunKeepsFramesIff`.
- The chiplet lists of the LASP allocator are filled in whole rounds of 64 pages and run past the end of
  a device of another size. Failing input: `LaspMemory.OnePageDevice`; condition: `LaspMemory.PagesFitIff`.
- The comment at `delayedconnection.go:201` says that delivery stops at the first message that cannot be
  delivered; the code skips it, so order is kept for each source and destination and not for each end.
  Failing input: `DelayedLink.SecondOvertakesFirst`; condition: `DelayedLink.SweepKeepsEndOrderIff`, over
  runs `DelayedLink.EndOrderIff`.

## Model

| member | source | states |
|---|---|---|
| BuddyProofs.EveryRunKeepsInv | simulator/mem/device/devicebuddymemstate.go:88-210 | Guard read as `i > 0`: over every run of allocations and frees the lists, bitmaps and trackers describe one tiling of the region, every merge bit is the exclusive or of its halves being free, no two buddies are both free, and whenever nothing is held the heap is the initial single block |
| BuddyProofs.EveryPageInExactlyOneBlock | simulator/mem/device/devicebuddymemstate.go:88-136 | Every page of the region lies in exactly one free or held block, and no block is both |
| BuddyProofs.AllocateKeepsPartition | simulator/mem/device/devicebuddymemstate.go:88-136 | An allocation, with either guard, keeps that partition: the block is the smallest power of two that fits, its first pages, which nobody held, are recorded as its own and no other page changes hands |
| BuddyProofs.OutOfMemoryMeansNoRoom | simulator/mem/device/devicebuddymemstate.go:88-104 | The out-of-memory panic happens exactly when every free block is smaller than the request |
| BuddyProofs.AllocateKeepsInvIff | simulator/mem/device/devicebuddymemstate.go:110-115 | The guard as written keeps the merge bits exactly when the list that is taken is the requested one or is level 0 |
| BuddyProofs.AllocationRunKeepsPartition | simulator/mem/device/devicebuddymemstate.go:88-157 | As written, every run that only allocates keeps the partition, and the level at which each held block was taken is recovered from the split bitmap |
| BuddyProofs.WrittenRunKeepsInvIffSafe | simulator/mem/device/devicebuddymemstate.go:110-115 | As written, all states of a run satisfy the invariant if and only if every request of the run passes a test on the free lists that a caller can make beforehand |
| BuddyProofs.GuardAsWrittenFreesHeldPages | simulator/mem/device/devicebuddymemstate.go:110-115 | With four pages: allocate two, allocate one, free that one; the guard as written then frees the whole region while two pages are held |
| BuddyProofs.FreePageKeepsInv | simulator/mem/device/devicebuddymemstate.go:65-72 | Returning a page keeps the invariant, forgets exactly that page, and frees the grant when it was its last page |
| BuddyProofs.LevelOfHeldPage | simulator/mem/device/devicebuddymemstate.go:201-210 | For every held page the upward scan of the split bitmap finds the level its block was granted at |
| BuddyProofs.AllFreedIsInitial | simulator/mem/device/devicebuddymemstate.go:167-185 | A heap that satisfies the invariant and holds nothing is the initial heap |
| BuddyProofs.ReleaseKeeps | simulator/mem/device/devicebuddymemstate.go:167-185 | The merging loop turns a held block into free space and restores tiling, merge bits and coalescing |
| BuddyState.BitField.UpdateBit | simulator/mem/device/buddystructures.go:27-31 | Flips one bit of the word array and no other |
| BuddyState.BlockTracker.RemovePage | simulator/mem/device/buddystructures.go:8-12 | Counts one page off and says whether it was the last |
| BuddyState.IndexAround | simulator/mem/device/devicebuddymemstate.go:147-157 | The index computed from an address is the bitmap number of the block of that level around it |
| BuddyState.SiblingAddr | simulator/mem/device/devicebuddymemstate.go:138-145 | Adding or subtracting the block size by index parity reaches the sibling, and the smaller of the two addresses is the parent |
| BuddyState.BitIndexInjective | simulator/mem/device/devicebuddymemstate.go:147-153 | Different blocks have different bitmap numbers |
| BuddyState.DeviceBuddyMemoryState.constructor | simulator/mem/device/devicebuddymemstate.go:26-59 | Builds the initial heap: one free block of the whole region, all bits clear |
| BuddyState.DeviceBuddyMemoryState.AllocateMultiplePages | simulator/mem/device/devicebuddymemstate.go:88-136 | On free lists of addresses and bitmaps the method is the abstract allocation, and returns the granted block page by page |
| BuddyState.DeviceBuddyMemoryState.FindList | simulator/mem/device/devicebuddymemstate.go:91-104 | Finds the level a request needs and the deepest non-empty list at or above it |
| BuddyState.DeviceBuddyMemoryState.TakeFront | simulator/mem/device/devicebuddymemstate.go:106-115 | Pops the front of the list and toggles the parent merge bit when the guard says so |
| BuddyState.DeviceBuddyMemoryState.SplitBlock | simulator/mem/device/devicebuddymemstate.go:117-123 | The splitting loop is the abstract halving: split and merge bits of every block on the way, right halves listed |
| BuddyState.DeviceBuddyMemoryState.TrackBlock | simulator/mem/device/devicebuddymemstate.go:125-134 | Gives every page of the grant one tracker and returns the consecutive page addresses |
| BuddyState.DeviceBuddyMemoryState.LevelOfBlock | simulator/mem/device/devicebuddymemstate.go:201-210 | The loop over the bitmap is the abstract level search |
| BuddyState.DeviceBuddyMemoryState.ReleaseBlock | simulator/mem/device/devicebuddymemstate.go:167-185 | The merging loop over addresses, lists and bits is the abstract release |
| BuddyState.DeviceBuddyMemoryState.AddSinglePAddr | simulator/mem/device/devicebuddymemstate.go:65-72 | Returns one page, frees the grant with its last page, ignores an address nobody holds, and keeps the invariant |
| BuddyState.RemoveByValue | simulator/mem/device/devicebuddymemstate.go:187-199 | Removes the first occurrence and reports whether there was one |
| RadixTable.RearrangeReverses | simulator/mem/device/pagetable.go:173-183 | Consuming the rearranged page number from its low end yields the digits of the page number from the top |
| RadixTable.WalkDigits | simulator/mem/device/pagetable.go:173-183 | The walk descends by bits 27-35 of the page number, then 18-26, 9-17 and 0-8 |
| RadixTable.PathInjective | simulator/mem/device/pagetable.go:173-183 | Two page-aligned addresses in range with the same digits are equal |
| RadixTable.InsertValid | simulator/mem/device/pagetable.go:197-225 | Inserting panics exactly when the address is mapped, and otherwise keeps tree and flat map holding the same pages |
| RadixTable.RemoveValid | simulator/mem/device/pagetable.go:227-252 | Removing succeeds exactly when the address is mapped and keeps tree and flat map together |
| RadixTable.UpdateValid | simulator/mem/device/pagetable.go:254-272 | Updating succeeds exactly when the address is mapped and keeps tree and flat map together |
| RadixTable.DescentAgreesWithFind | simulator/mem/device/pagetable.go:71-96 | Descending by reversed digits reaches a leaf exactly when the flat map finds the aligned address, with the same page |
| PageWalk.ImageLoads | simulator/mem/device/pagetable.go:331-356 | Loading the breadth-first image puts every child word of every directory at its address, for any order that lists each directory once |
| PageWalk.WalkTouchesFindAddr | simulator/mem/device/pagetable.go:286-315 | Level by level, the address a walk reads is the one findAddr reports, and its word is not zero |
| PageWalk.WalkEnds | simulator/mem/device/pagetable.go:308-315 | A walk over a loaded table ends at the physical address of the page, or at a zero word for an unmapped address |
| PageWalk.ImageWalkTranslates | simulator/mem/device/pagetable.go:286-356 | For every valid table with separate directories: image, load and walk translate every address exactly as find does, and read a zero word for every unmapped one |
| ProcessTable.ProcessTable.Rearrange | simulator/mem/device/pagetable.go:173-183 | The loop computes the digit reversal |
| ProcessTable.ProcessTable.Insert | simulator/mem/device/pagetable.go:197-225 | On linked nodes, insertion is the insertion into the abstract table, creating missing directories top down from what the allocator returns, and panics exactly on a mapped address |
| ProcessTable.ProcessTable.Remove | simulator/mem/device/pagetable.go:227-252 | Unhooks the leaf and drops the entry, leaving all directories; panics exactly on an unmapped address |
| ProcessTable.ProcessTable.Update | simulator/mem/device/pagetable.go:254-272 | Overwrites leaf and entry together; panics exactly on an unmapped address |
| ProcessTable.ProcessTable.Find | simulator/mem/device/pagetable.go:274-284 | Answers from the flat map as the abstract table does |
| ProcessTable.ProcessTable.FindAddr | simulator/mem/device/pagetable.go:286-306 | Reports the slot address of a level, or panics where a node on the way is missing |
| ProcessTable.ProcessTable.PageTablePagesAsBytes | simulator/mem/device/pagetable.go:331-356 | The queue traversal visits every directory once and writes exactly the image of the abstract table |
| WalkCache.SamePrefixSameDirectory | simulator/mem/cache/pagewalkcachedirectory.go:25-34 | Addresses that agree under the mask of a level walk through the same directory one level deeper |
| WalkCache.SameDirectorySamePrefix | simulator/mem/cache/pagewalkcachedirectory.go:25-34 | Conversely, addresses that walk through the same directory agree under the mask |
| WalkCache.FillMatchesIff | simulator/mem/cache/pagewalkcachedirectory.go:67-88 | A filled block matches exactly the addresses of its process whose walks share its directory path |
| WalkCache.Lookup | simulator/mem/cache/pagewalkcachedirectory.go:67-88 | Returns a matching block of the greatest level, the first among equals, or none exactly when nothing matches; a directory that was filled on the path of the request is never missed, and what is returned shares that path |
| WalkCache.FilledTag | simulator/mem/cache/pagewalkcachedirectory.go:166-173 | The tag written back is the address with all bits below its level cleared (the page offset and nine bits for every level further down), with the level in the two low bits |
| WalkCache.FillIsSound | simulator/mem/cache/pagewalkcachedirectory.go:166-173 | A block filled from a walk carries the directory of its prefix |
| WalkCache.SoundKept | simulator/mem/device/pagetable.go:206-214 | A right block stays right under later inserts, updates and removes, since directories are never removed or moved |
| WalkCache.HitResumesWalk | simulator/mem/cache/pagewalkcachedirectory.go:67-88 | Resuming a walk from a hit reads the same words as the full walk from that level on |
| WalkCache.EveryTableRun | simulator/mem/device/pagetable.go:197-272 | Over every run of insert, update and remove the table stays valid, its directories stay separate, and none is lost or moved |
| WalkCache.EveryHitResumesWalk | simulator/mem/cache/pagewalkcachedirectory.go:67-173 | Over every run of table operations and cache fills, every hit at every later time resumes the walk that the table then prescribes |
| FrameAllocator.EveryRunKeepsInv | simulator/mem/device/memoryallocator.go:66-314 | Over every run of registering, allocating, remapping and removing: every frame in use is on one device, used once and not free, cursors stay above the mapped addresses; the panics "page already present", "gpuid != deviceid" and "device not found" are unreachable |
| FrameAllocator.EveryRunOwnsFrames | simulator/mem/device/memoryallocator.go:150-314 | After every run from an empty allocator, two live mappings never share a frame, and no mapped frame is free, off all devices, or a page-table page of any process |
| FrameAllocator.AllocateKeepsInv | simulator/mem/device/memoryallocator.go:150-189 | An allocation fails only for want of memory; otherwise consecutive addresses from the cursor are mapped to the frames that led the free list and all older mappings stand |
| FrameAllocator.ChunkIsMapped | simulator/mem/device/memoryallocator.go:105-115 | Every byte of an allocated chunk lies in a page that is then mapped and valid, on a frame of the device, and no page is added that holds none of its bytes |
| FrameAllocator.ChunkFollowsLast | simulator/mem/device/memoryallocator.go:150-189 | A chunk starts where the last one of its process ended, or at the first page, and the next one will start at the first page boundary from its end |
| FrameAllocator.MoveToKeepsInv | simulator/mem/device/memoryallocator.go:211-314 | Remapping runs out of memory exactly when the list is empty or too short, and misses a page only when an address is unmapped; on success the pages are on the new frames and every old frame is lost |
| FrameAllocator.RemapMovesRange | simulator/mem/device/memoryallocator.go:211-228 | After a successful remapping every byte of the range lies in a page on the device, on a frame that led its free list, and pages that meet no byte of the range are as before |
| FrameAllocator.RemoveKeepsInv | simulator/mem/device/memoryallocator.go:237-249 | Removing fails exactly on an unmapped address, and appends the frame to the free list of its own device |
| FrameAllocator.RegisterOwned | simulator/mem/device/memoryallocator.go:66-77 | A new device takes a fresh range of addresses, so ownership stands |
| FrameAllocator.OneDevice | simulator/mem/device/memoryallocator.go:86-103 | A frame lies on one device, so the scan in map order has one answer |
| FrameAllocator.RemapLosesFramesForGood | simulator/mem/device/memoryallocator.go:288-314 | A frame that a remapped page left is neither free nor in use after any later run |
| FrameAccounting.EveryRunKeepsFramesIff | simulator/mem/device/memoryallocator.go:66-314 | After every run from an empty allocator each page frame of each device is on a free list or in use, if and only if the run has no Remap of at least one byte and no AllocatePageWithGivenVAddr |
| FrameAccounting.RemapLosesAFrame | simulator/mem/device/memoryallocator.go:211-228 | Register a device of six pages, allocate one page, remap it: the frame the page was on is neither free nor in use |
| FrameAccounting.StepRegular | simulator/mem/device/memoryallocator.go:66-314 | Every call keeps all frames whole pages above the null page and every device in its range; one that moves no page keeps every frame accounted for |
| FrameAccounting.TablesArePlaced | simulator/mem/device/pagetable.go:185-211 | The directories of every process lie on distinct non-zero frames, aligned for the walker, and have a root |
| FrameAccounting.EveryRunTranslates | simulator/mem/device/pagetable.go:286-356 | After every run of the allocator the image of any process table, loaded into memory, translates every address as find does, and a walk for an unmapped one reads a zero word |
| MemoryAllocation.DeviceMemory.SetInitialAddress | simulator/mem/device/devicememstateinterface.go:82-90 | The loop appends every frame of the range in order |
| MemoryAllocation.DeviceMemory.AllocateMultiplePages | simulator/mem/device/devicememstateinterface.go:118-126 | Pops that many frames off the front |
| MemoryAllocation.MemoryAllocator.RegisterDevice | simulator/mem/device/memoryallocator.go:66-77 | Is the registering step: the range starts at the old total, the total grows by the device, and the list is filled |
| MemoryAllocation.MemoryAllocator.DeviceIDByPAddr | simulator/mem/device/memoryallocator.go:86-103 | Scans the devices in any order for one whose range holds the address, and fails exactly when none does |
| MemoryAllocation.MemoryAllocator.AllocatePages | simulator/mem/device/memoryallocator.go:150-189 | The loop over pages is the allocation step, with the same failures and the old cursor as result |
| MemoryAllocation.MemoryAllocator.AllocateVirtualChunk | simulator/mem/device/memoryallocator.go:105-115 | Keeps the invariant, fails only for want of memory, and otherwise maps every byte of the chunk to the device and adds no page that holds none of them |
| MemoryAllocation.MemoryAllocator.Remap | simulator/mem/device/memoryallocator.go:211-228 | Keeps the invariant and, where it succeeds, moves the pages of every byte of the range to the device and no others |
| MemoryAllocation.MemoryAllocator.RemovePage | simulator/mem/device/memoryallocator.go:230-249 | Is the removing step, keeping the invariant |
| DirectLink.StepKeepsInv | simulator/akita/directconnection.go:57-163 | At the end of every event each non-empty end has a connection tick pending or waits for a port that recorded its refusal; busy means a full source buffer, portBusy a full port buffer; no scheduled tick is in the past and every recorded tick is in the queue. For a secondary event that sends or retrieves: exactly when each of its acts passes a test on the state |
| DirectLink.EveryRunKeepsInv | simulator/akita/directconnection.go:57-163 | All states of a run of component ticks, other primary events, connection ticks and secondary events satisfy that if and only if the acts of secondary events pass their tests; then time never goes back |
| DirectLink.StuckOnlyBehindFullPorts | simulator/akita/directconnection.go:116-163 | If the engine runs out of connection ticks, every message left is at or behind one whose destination is full and has recorded the refusal |
| DirectLink.RefusedSendersAreWoken | simulator/akita/directconnection.go:57-88 | A busy flag falls only in a connection tick, and then its owner has a tick pending in the future |
| DirectLink.ReceiversAreWoken | simulator/akita/port.go:99-156 | Over every event: port buffers grow only in a connection tick, at the back, and whoever gained a message has a tick pending in the future; any other event only takes messages off the front |
| DirectLink.TickBlocks | simulator/akita/directconnection.go:116-163 | The rotated loop reaches every end and leaves each empty or blocked, wherever the rotation starts |
| DirectOrder.EveryRunDeliversInOrder | simulator/akita/directconnection.go:57-192 | Over every run, whatever the components do: what an end accepted for a port is what was retrieved there, then what the port holds, then what the end holds, in sending order; nothing is lost, doubled, reordered or delivered elsewhere |
| DirectOrder.StepBalanced | simulator/akita/directconnection.go:116-192 | The same over one event, from any state whose messages wait at their own ends and ports |
| DirectLink.TickNowWakesIff | simulator/akita/ticker.go:69-85 | Asking for a tick now leaves one pending exactly when the tick of this time is not already over without a successor |
| DirectLink.SendKeepsWakeUpIff | simulator/akita/directconnection.go:57-88 | A send keeps every wake-up exactly when the connection is not done ticking at this time, or the message is refused, or others wait before it, or its destination recorded a refusal |
| DirectLink.RetrieveKeepsWakeUpIff | simulator/akita/port.go:130-156 | A retrieval keeps every wake-up exactly when the connection is not done ticking at this time, or the port had refused nothing, or no end waits for it |
| DirectLink.ActKeepsInvIff | simulator/akita/ticker.go:69-85 | One act of a handler keeps the whole invariant exactly when it passes its test; after one that does not, no act of the same time repairs it |
| DirectLink.LateSendIsStranded | simulator/akita/directconnection.go:57-88 | From a fresh pair of ports: a message is sent and delivered, the connection ticks once more, then a secondary event of that time sends; the message is accepted, its destination is free, and no tick is scheduled |
| DirectLink.StrandedUntilNextCall | simulator/akita/ticker.go:69-85 | With no tick in the queue, over every run without sends and retrievals nothing in the connection moves |
| LinkState.TickScheduler.TickNow | simulator/akita/ticker.go:69-85 | Schedules a tick at this time and records it, unless one at this time or later is recorded |
| LinkState.TickScheduler.TickLater | simulator/akita/ticker.go:87-103 | The same for the next tick of the frequency |
| LinkState.LimitNumMsgPort.Recv | simulator/akita/port.go:99-128 | Accepts below capacity and wakes the component, otherwise records the refusal |
| LinkState.LimitNumMsgPort.Retrieve | simulator/akita/port.go:130-156 | Takes the oldest message; clears a recorded refusal and asks the connection for a tick exactly then |
| LinkState.DirectConnection.Send | simulator/akita/directconnection.go:57-88 | Is the sending step, on the end that the message names or the shared one |
| LinkState.DirectConnection.ForwardMany | simulator/akita/directconnection.go:135-163 | The loop is the abstract forwarding of one end, and reports progress exactly when something was delivered |
| LinkState.DirectConnection.Tick | simulator/akita/directconnection.go:116-133 | The loop over port objects is the abstract tick, rotation included |
| DelayedLink.PairsArriveInOrder | simulator/akita/delayedconnection.go:132-232 | Over every run and every source and destination: accepted is delivered, then pending, then buffered, each in sending order; the k-th delivered is the k-th taken; with a latency each is due exactly that of its source and destination after it was taken and delivered no earlier, without one it is delivered at the time it is taken |
| DelayedLink.TurnStamps | simulator/akita/delayedconnection.go:151-199 | What a turn takes is a prefix of the buffer, all of it under a latency, stamped with the time and due a latency later |
| DelayedLink.NothingLost | simulator/akita/delayedconnection.go:132-232 | Over every run the accepted messages are, as a multiset, the delivered, the pending and the buffered ones |
| DelayedLink.SweepKeepsPairOrder | simulator/akita/delayedconnection.go:204-232 | Skipping blocked messages never lets one of a pair overtake another of the same pair |
| DelayedLink.SweepKeepsEndOrderIff | simulator/akita/delayedconnection.go:201-232 | One sweep delivers the pending messages of an end in order if and only if none that is due and has room in its port behind the due ones before it stands behind one that is not or has not |
| DelayedLink.SecondOvertakesFirst | simulator/akita/delayedconnection.go:201-232 | Two due messages of one end, the port of the first full and that of the second not: the second is delivered and the first stays |
| DelayedLink.EndOrderIff | simulator/akita/delayedconnection.go:132-232 | Over every run the messages an end has delivered are the first ones it took, in that order, if and only if every sweep of the end met that condition |
| DelayedLink.TurnFillsPorts | simulator/akita/delayedconnection.go:132-232 | Over one turn every port buffer grows by exactly the messages for it that the turn delivered, in that order |
| DelayedLink.HeldMessagesKeepTicking | simulator/akita/delayedconnection.go:132-147 | While anything is pending a tick reports progress |
| DelayedWakeUp.StepKeepsInv | simulator/akita/delayedconnection.go:132-232 | Rescheduling included: at the end of every event, while anything is pending a connection tick is in the queue, and the wake-up invariant of the direct connection holds, with the same exact condition for secondary events |
| DelayedWakeUp.EveryRunKeepsInv | simulator/akita/delayedconnection.go:132-232 | The same for all states of every run of the engine |
| DelayedWakeUp.StuckOnlyBehindFullPorts | simulator/akita/delayedconnection.go:132-232 | When the engine has run out of connection ticks nothing is pending, and every message left in a buffer is at or behind one whose destination is full and has recorded the refusal |
| DelayedState.DelayedConnection.DeliverPending | simulator/akita/delayedconnection.go:204-232 | The write cursor compacts the array in place to exactly what stays, in order, and progress is reported exactly when something left or something stays |
| DelayedState.DelayedConnection.ForwardMany | simulator/akita/delayedconnection.go:151-199 | With a latency the whole buffer moves to the pending list, each message due at the time plus the latency of its source and destination; without, it is the direct delivery |
| DelayedState.DelayedConnection.TurnEnd | simulator/akita/delayedconnection.go:132-144 | Delivering and then taking is one turn of the abstract tick |
| EventQueue.PushingSortsStably | simulator/akita/eventqueue.go:110-130 | Any sequence of pushes leaves the events sorted by time, those of one time in pushing order, none lost |
| EventQueue.InsertionQueue.Push | simulator/akita/eventqueue.go:110-130 | The walk along the list inserts before the first later event |
| EventQueue.InsertionQueue.Pop | simulator/akita/eventqueue.go:132-138 | Returns an earliest event, the first pushed among those |
| EventQueue.EventQueueImpl.Pop | simulator/akita/eventqueue.go:38-44 | Returns some earliest event and removes exactly it; nothing is promised about the order among equal times |
| SerialEngine.StepKeepsInv | simulator/akita/serialengine.go:62-122 | Whichever earliest events the two queues hand out: the event taken is earliest, a secondary one only when every queued primary one is later; the run loop never meets an event in the past, and a step fails exactly when its handler schedules before the present |
| SerialEngine.EveryRunKeepsInv | simulator/akita/serialengine.go:62-96 | Every run handles events in time order, and what was queued and scheduled is, as a multiset, exactly what is queued or has been handled |
| SerialEngine.SerialEngine.RunLoop | simulator/akita/serialengine.go:62-96 | The loop over the two queues is such a run, to the end of the events or of the script, and stops early only where a handler schedules into the past |
| SerialEngine.SerialEngine.PopNext | simulator/akita/serialengine.go:102-122 | The four cases take an event that may be taken, primary events first at equal times, and remove exactly that one |
| ParallelEngine.EveryInterleavingKeepsInv | simulator/akita/parallelengine.go:105-277 | For every interleaving of the run loop with scheduling workers: time never goes back, only events of the present time and class run, queues ahead of the scan still hold what was due, scheduled equals queued plus running plus done |
| ParallelEngine.StepKeepsInv | simulator/akita/parallelengine.go:105-277 | No step panics except scheduling into the past |
| ParallelEngine.SecondaryRoundsComeLast | simulator/akita/parallelengine.go:140-152 | A secondary round starts only when every queued primary event is later, and every round has something to run |
| ParallelEngine.RoundsRunWhatWasDue | simulator/akita/parallelengine.go:220-248 | When a round ends it has started exactly the events of its time and class that were queued when it began |
| ParallelEngine.EarliestOfMeets | simulator/akita/parallelengine.go:154-169 | The earliest time over the queues is a lower bound that some event attains, or none when all are empty |
| ParallelEngine.EarliestTimeInQueueGroup | simulator/akita/parallelengine.go:154-169 | The loop computes it |
| Routing.OneHopAtMost | simulator/mem/cache/lowmodulefinder.go:161-203 | For every number of chiplets and banks and every stripe: from every chiplet an address reaches one bank, locally or by one hop to a chiplet where it is local |
| Routing.TableAgrees | simulator/mgpusim/builders/common.go:1030-1038 | The table between chiplets, striped over whole chiplets, names the chiplet of the bank that the finer stripes name |
| Routing.RoutedBankConverts | simulator/mem/idealmemcontroller/addressconverter.go:29-49 | The converter of the bank that an address is routed to panics exactly for addresses below the offset |
| Routing.ConvertInjective | simulator/mem/idealmemcontroller/addressconverter.go:29-49 | One bank never maps two addresses to one internal address, whatever the offset |
| Routing.RoutingInjective | simulator/mem/idealmemcontroller/addressconverter.go:29-49 | From address to bank and internal address is injective over all chiplets |
| Placement.XorFind | simulator/mem/cache/lowmodulefinder.go:91-100 | Bit b of the module number is the parity of the bits b, b + bits, ... of the address above the offset, and the number stays below the number of modules |
| Placement.OneBitMovesModule | simulator/mem/cache/lowmodulefinder.go:91-100 | Addresses that differ in one bit of the folded part have different modules |
| Placement.HomeFind | simulator/mem/cache/lowmodulefinder.go:91-100 | With the slice offset of the builders, each bit of the chiplet found is the exclusive or of the four address bits of its place in the folded groups |
| Placement.SameTableSameHome | simulator/mem/device/pagetable.go:185-211 | Addresses that share a last-level directory have one home chiplet |
| Placement.HomeOfLeafTable | simulator/mem/device/devicexorptamemstate.go:34-44 | The chiplet chosen for a last-level table page is the home of the addresses below it, for both allocators |
| Placement.KeyNamesChiplet | simulator/mem/device/devicexorptamemstate.go:34-44 | The chiplet for a key is named by the low two bits of the key, or by the parities of its even and odd bits |
| Placement.StripeIsLocal | simulator/mem/cache/lowmodulefinder.go:194-203 | A page of a chiplet list is local there when the region starts within a page of a whole round above the offset |
| Placement.AllStripesLocalIff | simulator/mem/cache/lowmodulefinder.go:194-203 | All of the table pages are local on their chiplets exactly under that condition |
| Placement.FillStripes | simulator/mem/device/devicepagetableawarememstate.go:84-102 | The nested loops give each chiplet exactly its pages of whole rounds, in order |
| Placement.PageTableAwareMemory.SetInitialAddress | simulator/mem/device/devicepagetableawarememstate.go:41-103 | Data pages are exactly the pages below the last gigabyte and table pages are striped inside it; refused exactly for an unaligned address |
| Placement.PageTableAwareMemory.AllocatePageTablePage | simulator/mem/device/devicepagetableawarememstate.go:155-172 | Pops the list of the chiplet that the low two bits of the key name, or the parities of its even and odd bits |
| Placement.LastLookupIsLocalAtHome | simulator/mem/device/devicepagetableawarememstate.go:69-172 | Over every run of insert, remove and update with either allocator, the last table lookup of a walk is local on the chiplet whose translation cache is home to the address |
| LaspMemory.ChipletAgreesWithStripe | simulator/mem/device/devicelaspmemstate.go:95-103 | The chiplet computed from a data page is the one whose list the page came from |
| LaspMemory.LaspMemory.SetInitialAddress | simulator/mem/device/devicelaspmemstate.go:20-32 | Lists hold whole rounds in order, and every listed page lies inside the device exactly when its size is a whole number of rounds |
| LaspMemory.PagesFitIff | simulator/mem/device/devicelaspmemstate.go:20-32 | Lists of whole rounds stay inside a region exactly when its size is a whole number of rounds |
| LaspMemory.OnePageDevice | simulator/mem/device/devicelaspmemstate.go:20-32 | A device of one page lists the page behind its end |
| LaspMemory.LaspMemory.AllocatePageTablePage | simulator/mem/device/devicelaspmemstate.go:95-103 | The table page comes from the chiplet of the data page |
| LaspMemory.LaspMemory.AllocateMultiplePages | simulator/mem/device/devicelaspmemstate.go:73-93 | Every chiplet gives an equal run, in chiplet order, and the first ones one page more; the pages handed out with those left are, as a multiset, the pages before |
| LaspMemory.PagesConserved | simulator/mem/device/devicelaspmemstate.go:73-93 | Whatever the lists, as long as they hold what is asked for, no page is lost or handed out twice |
| WriteCombining.EveryRunKeepsMemory | simulator/mem/writebuffer.go:36-104 | For every interleaving of enqueues and ticks, the sent writes followed by the buffered ones have the effect of all enqueued writes in order, per process and address, and no line is buffered twice; the write combined into begins its line |
| WriteCombining.CombineIsRightIff | simulator/mem/writebuffer.go:76-119 | Combining equals applying both writes in order if and only if the buffered write begins its line or no byte of either counts |
| WriteCombining.UnalignedFirstWriteGoesAstray | simulator/mem/writebuffer.go:106-119 | A concrete pair of writes to one line whose combination writes a byte neither of them has |
| WriteCombining.EnqueueKeepsInv | simulator/mem/writebuffer.go:57-74 | One enqueue keeps the memory equation and the one-per-line rule |
| WriteCombining.EffectAt | simulator/mem/idealmemcontroller/idealmemcontroller.go:167-186 | A write sets exactly its dirty bytes, or all of them without a mask |
| WriteBuffer.WriteReq.Merge | simulator/mem/writebuffer.go:87-95 | The byte loop puts exactly the dirty bytes over the line |
| WriteBuffer.WriteReq.ExpandWrite | simulator/mem/writebuffer.go:106-119 | Data and mask grow to the line, the address stays |
| WriteBuffer.WriteBuffer.Enqueue | simulator/mem/writebuffer.go:57-74 | On shared request objects, merges into the first write of the line or appends; refused exactly when full |
| WriteBuffer.WriteBuffer.Tick | simulator/mem/writebuffer.go:36-48 | Sends the first write when the port accepts, and nothing otherwise |
| WriteBuffer.WriteBuffer.Query | simulator/mem/writebuffer.go:121-133 | Returns the first buffered write of the process whose data cover the address |
| Storage.Storage.Write | simulator/mem/storage.go:111-140 | Against a flat byte array: the bytes land across any units and nothing else changes; fails exactly when a piece starts above the capacity, after the earlier pieces are written |
| Storage.Storage.Read | simulator/mem/storage.go:79-109 | Returns the flat bytes across any units, zero where nothing was written, and changes none; fails exactly under the same condition |
| Storage.Storage.CreateOrGetStorageUnit | simulator/mem/storage.go:57-71 | Creating a unit does not change the flat bytes |
| Storage.Storage.HandleWrite | simulator/mem/idealmemcontroller/idealmemcontroller.go:167-186 | Read, merge, write back applies exactly the effect of the write to the flat memory |
| CacheDirectory.QueueIsByLastVisit | simulator/mem/cache/directory.go:103-112 | Over every run of visits the queue is a permutation of the set, earlier meaning visited longer ago, the never visited first in their old order |
| CacheDirectory.VictimIsLeastRecent | simulator/mem/cache/victimfinder.go:19-34 | After any visits the victim is an unlocked empty block if there is one, else an unlocked block visited no later than any other; locked only when all are |
| CacheDirectory.BlocksApart | simulator/mem/cache/directory.go:123-132 | Cache addresses of different blocks are a block apart and all lie within the total size: the first at 0, the ways of a set consecutive, the next set behind them |
| DirectoryState.CacheSet.Visit | simulator/mem/cache/directory.go:103-112 | Shifting the shared array in place rotates the visited block to the end, and does nothing for a block of another set |
| DirectoryState.CacheSet.FindVictim | simulator/mem/cache/victimfinder.go:19-34 | The two scans find that victim |
| DirectoryState.CacheSet.Lookup | simulator/mem/cache/directory.go:82-90 | Finds a valid block of the process with the tag exactly when there is one |
| DirectoryState.Directory.Reset | simulator/mem/cache/directory.go:120-133 | Fills every set with fresh invalid blocks in way order at their places |
| TensorIndex.FlatOfUnflat | simulator/dnn/tensor/operator.go:400-423 | For every positive shape, flattening the position of a place returns the place |
| TensorIndex.FlatStep | simulator/dnn/tensor/operator.go:413-423 | The layout is row-major: a step along the last axis is one place, a step along another is as many as the axes behind it hold |
| TensorIndex.UnflatOfFlat | simulator/dnn/tensor/operator.go:400-423 | For every position in the shape, unflattening its place returns the position |
| TensorIndex.FlatIndex | simulator/dnn/tensor/operator.go:413-423 | The loop from the last axis computes the row-major place |
| TensorIndex.UnflatIndex | simulator/dnn/tensor/operator.go:400-411 | The loop from the first axis computes the position |
| TensorIndex.TransposeTwice | simulator/dnn/tensor/operator.go:301-336 | Transposing by an order and then by its inverse restores shape and data |
| TensorIndex.Transpose | simulator/dnn/tensor/operator.go:301-336 | The output at a position is the input at the position with its axes put back, for every position |
| TensorIndex.TransposedAt | simulator/dnn/tensor/operator.go:301-336 | The same of the transposed data as a function, by positions |
| TensorIndex.RotateTwice | simulator/dnn/tensor/operator.go:238-263 | Two half turns restore the data |
| TensorIndex.Rotate180 | simulator/dnn/tensor/operator.go:238-263 | The output at a position is the input at the position mirrored in both of the last two axes, for every pair of such positions |
| Pooling.RangeIsCover | simulator/dnn/tensor/operator.go:719-733 | The range of outputs that the backward pass visits is exactly the set of outputs whose window contains the element |
| Pooling.AveragePoolingAdjoint | simulator/dnn/tensor/operator.go:652-753 | For every kernel, stride and padding, pairing the pooled tensor with a gradient equals pairing the input with the gradient handed back |
| Pooling.OneElementMovesAverages | simulator/dnn/tensor/operator.go:652-704 | Changing one element moves the average of exactly the windows it lies in, by its share of the whole kernel, padding included |
| Pooling.ZerosAverageToZero | simulator/dnn/tensor/operator.go:652-704 | The averages of zeros are zero, so the former determines every average |
| Pooling.MaxPoolingConserves | simulator/dnn/tensor/operator.go:521-634 | The gradient handed back sums to the gradient of the windows that meet the input |
| Pooling.MaximumOfWindow | simulator/dnn/tensor/operator.go:521-581 | Every element of a window, by its offsets from strides and padding, is at most the output, and the mask names one of them that equals it |
| Pooling.OneGradientMovesNamed | simulator/dnn/tensor/operator.go:585-634 | Changing the gradient of one output changes what is handed back to the element of its window that its mask names, by the same amount, and to no other |
| Pooling.WholeGradientComesBack | simulator/dnn/tensor/operator.go:521-634 | When every window meets the input, the whole gradient comes back |
| PoolingLoops.AvgPoolingForward | simulator/dnn/tensor/operator.go:652-704 | The flat loops compute every window average over the elements inside the tensor |
| PoolingLoops.AvgPoolingBackward | simulator/dnn/tensor/operator.go:708-753 | The flat loops hand every element the shares of the outputs that look at it |
| PoolingLoops.MaxPoolingForward | simulator/dnn/tensor/operator.go:521-581 | The mask names a greatest element of every window that meets the input, and the output is that element |
| PoolingLoops.MaxPoolingBackward | simulator/dnn/tensor/operator.go:585-634 | The flat loops hand every element the gradients of the outputs whose mask names it |

## Left out

- ProcessTable.ProcessTable.Insert: the allocator that a new directory calls is a sequence of the addresses it would return; the calls into devices are modelled in `FrameAllocator` and `Placement`.
- MemoryAllocation.MemoryAllocator.AllocatePages: devices are objects whose lists change in place, the page tables inside the allocator are held as values; `ProcessTable` is where tree nodes are linked and updated.
- FrameAllocator.EveryRunKeepsInv: device numbers are registered once, addresses stay below 2^36 pages, device sizes are whole pages; unified devices and the LASP allocation path are not modelled.
- WalkCache.Lookup: one set, as the code says of itself; masks are written as division by the region they clear.
- BuddyState.DeviceBuddyMemoryState.constructor: regions are 4096 times a power of two; a bitmap word is a sequence of 64 booleans.
- BuddyState.DeviceBuddyMemoryState.AddSinglePAddr: on heaps that satisfy the invariant; what a return does after the guard as written has left a merge bit stale is shown by `BuddyProofs.GuardAsWrittenFreesHeldPages`.
- DirectLink.EveryRunKeepsInv: components use the default notification methods, which only ask for a later tick; times are integers with an abstract next tick.
- DelayedLink.PairsArriveInOrder: stated for each end; messages of one source that are flagged differently for the shared end use two ends and are not ordered between them.
- DelayedState.DelayedConnection.TurnEnd: the loop over the ends is stated on values, as in `DelayedLink`; it is the loop that `LinkState.DirectConnection.Tick` runs on objects.
- ParallelEngine.EveryInterleavingKeepsInv: each lock-protected step is atomic; a queue gives some earliest event, as a heap does, whatever the order among equals.
- SerialEngine.SerialEngine.RunLoop: handlers are a script of what each handled event schedules.
- Routing.OneHopAtMost: the request travels as one address; the messages of the transfer engines are not modelled.
- WriteCombining.EveryRunKeepsMemory: writes do not cross a line, and a write that another is combined into begins its line; the exact condition for a single step is `CombineIsRightIff`.
- Storage.Storage.HandleWrite: without an address converter; conversion is `Routing.Convert`.
- Pooling.AveragePoolingAdjoint: over the reals, for given output sizes; the computation of the output sizes, which exchanges width and height, is not modelled.
- PoolingLoops.MaxPoolingForward: every element is greater than the starting value of the maximum.
- PoolingLoops.AvgPoolingBackward: the division by the window area is applied to the gradient before the loops instead of inside them.
- EventQueue.EventQueueImpl.Pop: the default queue is modelled by its contract; the binary heap behind it belongs to the standard library and is not part of this model.
- Mutexes, hooks, tracing, logging, message identifiers and the printing of progress.
- Memory management unit, translation caches, data-transfer engines and cache controllers: not part of this model.
- The other chiplet allocators (hsl, hugepage, partitioned and further lasp variants), which repeat the two that are modelled.
- Miss-status registers, DRAM timing tables, matrix multiplication, image-to-column and activation operators: small or without a property across functions.
- Floating-point rounding and the rounding of frequencies.
- Panics appear as results (`Panic`, `Failed`, `None`, a false flag) or, where the caller is responsible, as preconditions.
