# The device side of a virtio split virtqueue, verified

This project models the device side of the split virtqueue in `libvhost-user`, the kick loop of the
log backend that uses it, and the network log listener of the emulator, and proves what their design
relies on. The ring layout, indirect tables and notification rules are those of sections 2.7.5 to
2.7.10 of VIRTIO 1.2; in-flight tracking follows "Inflight I/O tracking" of the vhost-user protocol.

`dafny verify dfyconfig.toml` checks everything.

| file | what it holds |
|---|---|
| `Words.dfy` | 16-, 32- and 64-bit words, ring slots of free-running indices, `vring_need_event` |
| `Queue.dfy` | the queue operations: a class with the fields of `VuVirtq` whose methods run in place, and the function each method is proved against |
| `QueueProofs.dfy` | refinement of an unbounded FIFO over runs of any length, exact interrupts, conservation, batching, rewinding |
| `Regions.dfy` | the guest memory table: translation, and removal of a region in place |
| `Chains.dfy`, `ChainMeaning.dfy` | gathering a descriptor chain into scatter lists; which bytes the lists stand for, and which chains are accepted |
| `Peek.dfy`, `PeekPops.dfy` | counting the bytes of the pending chains without fetching them, and the same composed with the queue's pops |
| `DirtyLog.dfy` | the dirty-page log of live migration |
| `Inflight.dfy` | the in-flight area, its stores, and the scan a reconnecting backend makes |
| `Crash.dfy`, `CrashOrder.dfy` | a state machine whose steps are single stores into memory that survives the backend, with crashes anywhere |
| `CrashLimits.dfy` | where exactly-once ends: failed allocations, and a used index that is not zero at the start |
| `KickLoop.dfy` | `tx_kick` interleaved with a driver that publishes, fences, reads `avail_event` and maybe kicks |
| `WatchTable.dfy` | the backend's watched descriptors against the queues' kick descriptors and handlers |
| `InflightArea.dfy` | the size formula of the in-flight area and the loop that carves it into slices |
| `NetLog.dfy` | many connections, one record stream: line reassembly and in-place compaction |
| `Sets.dfy` | two facts about finite sets |

Memory another party can write is a function of the number of reads made so far (`Chains.Memory`,
`Peek.Avail`), so the termination and bounds results hold whatever it returns; results about meaning
assume the table is left alone while it is walked (`ChainMeaning.Frozen`). Counters that the program
keeps in 16 bits are unbounded in the specifications and related to their low 16 bits by `Words.Low16`,
so every statement about runs covers any number of wraps.

## What was found

These hold of the code as written, and are stated as exact conditions:

- `addr + len` is compared in 64 bits, so a range that wraps the guest space is not cut at the end of
  its region (`Regions.WrappedRangeNotCut`). A buffer that wraps is therefore accepted as soon as its
  first byte is mapped, as one piece that leaves its region (`ChainMeaning.WrappedRangeAccepted`, with an
  instance in `ChainMeaning.WrappedBufferGathered`); the scatter lists stand for the chain's bytes exactly
  when no buffer wraps (`ChainMeaning.GatherPreservesMeaning`).
- Recovery adds to `inuse` instead of setting it, so `last_avail_idx` is restored exactly when the
  queue counted nothing before (`Inflight.ScanRestoresExactly`).
- A pop that cannot allocate its element returns nothing, panics nothing and has already passed its entry.
  Every request is owed exactly one service at every idle point of a run if and only if that never happens
  (`Crash.DueOnceIffAllocates`); the queue stays in step with its FIFO if and only if it never happens
  (`QueueProofs.InStepIffAllocates`); and of all pops exactly those that fail so on an entry of the ring do
  not conserve (`QueueProofs.PopConservesExactly`). A crash right after forgives it
  (`CrashLimits.CrashForgives`); a crash after one more pop leaves the skipped request unserved and the one
  behind it to be served twice (`CrashLimits.SkipSurvivesCrash`).
- Attaching a zeroed in-flight area does not record `used->idx`. Recovery can forget a fetched request
  exactly when it was not zero (`CrashLimits.ZeroUsedNeeded`). A request then goes unserved or is served
  twice exactly when, besides, the ring has two entries or more, or the index was 65535, so that the first
  completion wraps it to the zero the area still shows (`CrashLimits.OneServiceExactly`).
- `vu_queue_flush` takes a 32-bit count; it conserves for counts up to `inuse`, and for those that wrap so
  far that `inuse` comes out within the ring (`QueueProofs.FlushConservesExactly`).
- With `avail_event` anywhere but at `last_avail`, one publication can stay unnoticed
  (`KickLoop.StaleEventLosesKick`).
- The comparator decides a pair of counters exactly when they are less than 2048 apart
  (`Inflight.CompareDecides`).
- `set_watch` drops a watch silently when its table is full; the table agrees with the queues exactly
  while no more than 32 queues are armed (`WatchTable.RunAgrees`).
- The size formula of the in-flight area reserves 2 of the 16 header bytes; it is right all the same,
  and would be wrong for any alignment that is not a multiple of 16 (`InflightArea.AlignmentMatters`).

## Model

| member | source | states |
|---|---|---|
| `Words.NeedEventExact` | project_1/vhost/standard-headers/linux/virtio_ring.h:220-228 | the 16-bit test is true iff the other side's event index lies in the unwrapped window of entries added, for any distance below 2^16 |
| `Words.SlotOfWrapped` | project_1/vhost/libvhost-user.c:2257-2261 | the slot of a 16-bit index is the slot of the counter behind it, across every wrap |
| `Queue.VuVirtq.VuQueueEmpty` | project_1/vhost/libvhost-user.c:2488-2503 | the whole new state and the answer: cached index first, memory only when the cache shows nothing |
| `Queue.VuVirtq.NextResubmitted` | project_1/vhost/libvhost-user.c:2864-2874 | takes the last resubmitted head; only the list shrinks, also when mapping fails |
| `Queue.VuVirtq.VringSetAvailEvent` | project_1/vhost/libvhost-user.c:2615-2625 | the event index is published iff notification is on |
| `Queue.VuVirtq.AcceptHead` | project_1/vhost/libvhost-user.c:2894-2908 | the event index is published before mapping, and only a mapped head is counted |
| `Queue.VuVirtq.NextAvailable` | project_1/vhost/libvhost-user.c:2885-2908 | head read, index step and both panics of a pop from the ring |
| `Queue.VuVirtq.VuQueuePop` | project_1/vhost/libvhost-user.c:2852-2909 | the whole pop, including broken queue, empty ring, failed mapping and failed allocation |
| `Queue.VuVirtq.VuQueueUnpop` | project_1/vhost/libvhost-user.c:2911-2925 | gives one entry back, in wrapping arithmetic |
| `Queue.VuVirtq.VuQueueRewind` | project_1/vhost/libvhost-user.c:2927-2936 | gives n entries back, or refuses and changes nothing |
| `Queue.VuVirtq.VuQueueFill` | project_1/vhost/libvhost-user.c:3010-3029 | one used-ring slot is written and nothing else; a panic in the log walk breaks the queue after the write |
| `Queue.VuVirtq.VuQueueFlush` | project_1/vhost/libvhost-user.c:3042-3062 | index, count and the invalidation of the last interrupt decision |
| `Queue.VuVirtq.VuQueuePush` | project_1/vhost/libvhost-user.c:3064-3072 | a fill at offset 0 and a flush of one (in-flight tracking off) |
| `Queue.VuVirtq.VringNotify` | project_1/vhost/libvhost-user.c:2505-2529 | the interrupt decision and what it remembers |
| `Queue.VuVirtq.VuQueueNotify` | project_1/vhost/libvhost-user.c:2531-2573 | no interrupt from a broken or unmapped queue, the decision otherwise |
| `Queue.VuVirtq.VuQueueSetNotification` | project_1/vhost/libvhost-user.c:2627-2642 | the switch, by event index or by flag |
| `QueueProofs.FlushKeepsDecision` | project_1/vhost/libvhost-user.c:3056-3061 | the 16-bit comparison keeps the remembered decision iff the true distance stays below 2^15, for every 16-bit count |
| `QueueProofs.EmptyRefines` | project_1/vhost/libvhost-user.c:2488-2503 | the answer is true iff every published entry was fetched, and the cache stays between fetched and published |
| `QueueProofs.SurveyRefines` | project_1/vhost/libvhost-user.c:2269-2274 | counting the pending bytes refreshes the cache, which stays between fetched and published |
| `QueueProofs.PopRefines` | project_1/vhost/libvhost-user.c:2876-2908 | the head returned is the oldest published entry not yet fetched, and a driver with at most `num` outstanding never causes a panic |
| `QueueProofs.PopAnswers` | project_1/vhost/libvhost-user.c:2852-2909 | a head comes back iff one was there, passed the checks and was mapped; the queue breaks iff a check fails or the mapping is refused; an unusable queue is left alone |
| `QueueProofs.UnusableStays` | project_1/vhost/libvhost-user.c:3017-3020 | every operation leaves a broken or unmapped queue as it is |
| `QueueProofs.FailureSkips` | project_1/vhost/libvhost-user.c:2889-2902 | a pop that cannot allocate stays in step iff nothing was pending; otherwise the oldest entry is passed over and not returned |
| `QueueProofs.FillRefines` | project_1/vhost/libvhost-user.c:3024-3028 | completion m goes to slot m mod num and keeps every completion younger than num in place |
| `QueueProofs.PanickedPush` | project_1/vhost/libvhost-user.c:3022-3050 | a push whose log walk panicked has written its entry, breaks the queue and completes nothing |
| `QueueProofs.FlushRefines` | project_1/vhost/libvhost-user.c:3042-3062 | staged completions become done in order, and the decision is remembered iff it is less than 2^15 completions old |
| `QueueProofs.NotifyRefines` | project_1/vhost/libvhost-user.c:2505-2529 | interrupts iff the event index was passed since the last decision, or there is none, or notify-on-empty applies, or without event index unless suppressed |
| `QueueProofs.StepKicks` | project_1/vhost/libvhost-user.c:2894-2896 | every operation keeps the event word at the publication the driver is asked to kick for, which nothing fetched lies beyond while the device listens, and the flag at whether it listens |
| `QueueProofs.StepRefines` | project_1/vhost/libvhost-user.c:2488-3072 | every operation of device and driver, pops that cannot allocate on an empty queue included, keeps the queue in step with an unbounded FIFO and gives its reply |
| `QueueProofs.RunRefines` | project_1/vhost/libvhost-user.c:2488-3072 | the same over runs of any length, hence across any number of 16-bit wraps, in which no pop with an entry at hand fails to allocate |
| `QueueProofs.NoLostKick` | project_1/vhost/libvhost-user.c:2615-2642 | after any run, if the device listens and has fetched everything, the driver kicks for whatever it publishes next, however long ago it last decided |
| `QueueProofs.FlagMeansListening` | project_1/vhost/libvhost-user.c:2632-2636 | without event indices the driver kicks exactly while the device listens |
| `QueueProofs.NoIdleKick` | project_1/vhost/libvhost-user.c:2894-2896 | after a pop the driver does not kick for entries beyond the one asked for |
| `QueueProofs.InStepIffAllocates` | project_1/vhost/libvhost-user.c:2889-2902 | in step with the FIFO after every operation of a run iff no pop with an entry at hand fails to allocate |
| `QueueProofs.FreshRefines` | project_1/vhost/libvhost-user.c:2214-2219 | a queue just set up refines the empty FIFO |
| `QueueProofs.PopsFollowPublications` | project_1/vhost/libvhost-user.c:2289-2304 | over any run that takes nothing back and in which no pop with an entry at hand fails to allocate, the heads popped are the entries published, in order, none skipped or repeated |
| `QueueProofs.PopManyInOrder` | project_1/vhost/libvhost-user.c:2852-2909 | k pops return the next k publications |
| `QueueProofs.RewindReplays` | project_1/vhost/libvhost-user.c:2927-2936 | k pops, a rewind by k and k pops return the same heads in the same order |
| `QueueProofs.RecoveryResumes` | project_1/vhost/libvhost-user.c:1293-1321 | after a reconnect with the marks of the fetched and uncompleted entries in place, the pops of the listed heads end in step with the same FIFO, and kicks agree again if the device was listening |
| `QueueProofs.StepConserves` | project_1/vhost/libvhost-user.c:2852-3072 | last_avail_idx == used_idx + inuse mod 2^16 and inuse <= num survive every operation and recovery, whatever the driver writes |
| `QueueProofs.RecoverConserves` | project_1/vhost/libvhost-user.c:1293-1299 | recovery conserves iff what the queue counted and what it finds marked fit the ring |
| `QueueProofs.FreshRecoverConserves` | project_1/vhost/libvhost-user.c:1293-1299 | a queue set up anew with an area of its size always does |
| `QueueProofs.RefinesRecent` | project_1/vhost/libvhost-user.c:3055-3061 | every queue in step with its FIFO meets the condition of the two results on batching |
| `QueueProofs.RunConserves` | project_1/vhost/libvhost-user.c:1293-1299 | the same in every reachable unbroken state of runs that include recovery and resubmit pops |
| `QueueProofs.PopConservesExactly` | project_1/vhost/libvhost-user.c:2852-2909 | over all pops and outcomes, from the ring or the list: a pop conserves iff it is not one that took an entry from the ring and failed to allocate |
| `QueueProofs.FlushConservesExactly` | project_1/vhost/libvhost-user.c:3055-3058 | for every 32-bit count: a flush conserves iff it completes no more than is in use, or wraps to within the room left |
| `QueueProofs.FlushSplits` | project_1/vhost/libvhost-user.c:3042-3062 | a flush of 1 + k is a flush of 1 and a flush of k |
| `QueueProofs.BatchEqualsPushes` | project_1/vhost/libvhost-user.c:3010-3072 | fills at offsets 0, 1, .. and one flush leave exactly the state that single pushes leave |
| `Regions.TranslateFinds` | project_1/vhost/libvhost-user.c:198-222 | a translation exists iff the length is not zero and some region holds the address |
| `Regions.TranslateExact` | project_1/vhost/libvhost-user.c:198-222 | the piece lies in one region and agrees with the translation of each of its bytes, for a range that does not wrap |
| `Regions.WrappedRangeNotCut` | project_1/vhost/libvhost-user.c:212-215 | the piece stays in its region iff the range does not wrap 64 bits |
| `Regions.RegionTable.GpaToVa` | project_1/vhost/libvhost-user.c:198-222 | the loop computes the first-match translation and the shortened length |
| `Regions.RegionTable.RemMemReg` | project_1/vhost/libvhost-user.c:870-898 | despite the shift in place and the unsigned `i--`, the loop ends with exactly the non-matching regions in order, clears the rest, and panics iff nothing matched |
| `Regions.RegionTable.CloseHole` | project_1/vhost/libvhost-user.c:883-887 | the memmove and memset drop one matching region and keep what remains of the filter |
| `Regions.SurvivorsInOrder` | project_1/vhost/libvhost-user.c:827-837 | the regions kept are, in their order, exactly those that differ from the named one in guest address, user address or size |
| `Regions.RemovalKeepsDisjoint` | project_1/vhost/libvhost-user.c:870-894 | removal keeps regions disjoint |
| `Regions.RemovalKeepsTranslation` | project_1/vhost/libvhost-user.c:198-222 | after a removal, an address a removed region held translates to nothing and every other as before |
| `Chains.MapRangeSize` | project_1/vhost/libvhost-user.c:2651-2674 | a mapped range has at least one piece and never more than the room left |
| `Chains.AddOneProgress` | project_1/vhost/libvhost-user.c:2746-2766 | each successful iteration adds a piece and stays within the 1024 of `iov` |
| `Chains.WalkBounded` | project_1/vhost/libvhost-user.c:2746-2774 | for any memory, changing at every read and cyclic or not: at most max + 1 iterations, and never more than max or 1024 pieces |
| `Chains.VirtqueueMapDesc` | project_1/vhost/libvhost-user.c:2644-2680 | fills `iov` behind what is there with one piece per region met, or refuses zero length, too many pieces or an unmapped byte |
| `Chains.CollectOne` | project_1/vhost/libvhost-user.c:2748-2766 | one iteration: readable pieces go before, writable ones behind, a readable after a writable is refused |
| `Chains.CollectChain` | project_1/vhost/libvhost-user.c:2746-2794 | the loop and the copy into the element compute the walk; the loop terminates for any memory |
| `Chains.VuQueueMapDesc` | project_1/vhost/libvhost-user.c:2704-2795 | a direct chain, an indirect table in one region, and every refusal |
| `ChainMeaning.RangeMeans` | project_1/vhost/libvhost-user.c:2644-2680 | the pieces of one buffer stand for its guest range byte by byte, each in one region |
| `ChainMeaning.RangeAccepted` | project_1/vhost/libvhost-user.c:2644-2680 | a buffer is mapped iff every byte is in a region, or its range wraps and its first byte is, and the room suffices for its region boundaries |
| `ChainMeaning.WrappedRangeAccepted` | project_1/vhost/libvhost-user.c:212-217 | a range that wraps is mapped iff its first byte is and there is room, as one piece of the whole length that leaves its region |
| `ChainMeaning.WalkFollowsChain` | project_1/vhost/libvhost-user.c:2343-2363 | a walk that succeeds followed a chain to its end |
| `ChainMeaning.ChainUnique` | project_1/vhost/libvhost-user.c:2343-2363 | a head leads to at most one finite chain |
| `ChainMeaning.WalkOrdered` | project_1/vhost/libvhost-user.c:2748-2759 | a gathered chain has all readable buffers before all writable ones and no empty one |
| `ChainMeaning.WalkMeans` | project_1/vhost/libvhost-user.c:2746-2794 | flattened, the two lists are the translations of the readable and of the writable bytes in chain order |
| `ChainMeaning.WalkAccepts` | project_1/vhost/libvhost-user.c:2746-2779 | for every chain: the walk succeeds iff the chain is ordered, without empty buffers, small enough, and each buffer is mapped or wraps with its first byte mapped |
| `ChainMeaning.LocateExact` | project_1/vhost/libvhost-user.c:2718-2744 | a head leads to the ring from itself, or to all of its indirect table from entry 0 if the table lies in one region; a bad size, a missing table and a straddling one are told apart exactly |
| `ChainMeaning.GatherPreservesMeaning` | project_1/vhost/libvhost-user.c:2704-2795 | for the table a head leads to, direct or indirect: the chain ends in it, order, sizes; and both lists mean its bytes, one region per piece, iff no buffer wraps the guest space |
| `ChainMeaning.GatherAcceptsExactly` | project_1/vhost/libvhost-user.c:2704-2795 | for every head: the call succeeds iff the head leads to a table with a finite chain that is ordered, mapped or wrapping, without empty buffers and small enough |
| `ChainMeaning.DirectHead` | project_1/vhost/libvhost-user.c:2746-2794 | a direct head: gathered iff the chain from it in the ring is acceptable, into lists that mean that chain |
| `ChainMeaning.IndirectHead` | project_1/vhost/libvhost-user.c:2718-2794 | an indirect head whose table lies in one region: the same for the chain from entry 0 of the table, with as many entries as the table holds |
| `ChainMeaning.WrappedBufferGathered` | project_1/vhost/libvhost-user.c:2704-2795 | one such chain: 16384 bytes over a 4096-byte region are gathered as one piece |
| `ChainMeaning.ChainNotLonger` | project_1/vhost/libvhost-user.c:2768-2772 | a gathered chain has no more descriptors than pieces, so later walks over it cannot be taken for looped |
| `ChainMeaning.WalkReadsInside` | project_1/vhost/libvhost-user.c:2343-2363 | the walk reads no entry at or beyond the table size, whatever memory does |
| `Peek.CountChain` | project_1/vhost/libvhost-user.c:2431-2451 | the inner loop, with its early stop, its 32-bit sums and its panics |
| `Peek.CountHead` | project_1/vhost/libvhost-user.c:2389-2457 | one head: a direct chain adds its descriptors to the count, an indirect one adds one |
| `Peek.PeekReadsInside` | project_1/vhost/libvhost-user.c:2431-2447 | counting reads no entry at or beyond the table size, whatever memory does |
| `Peek.ChainCountedFully` | project_1/vhost/libvhost-user.c:2431-2451 | a chain counts as ended only at its end, with its bytes in 32 bits, and counting stops early only with both limits met |
| `Peek.BadTableFails` | project_1/vhost/libvhost-user.c:2396-2427 | a head whose table cannot be found is an error |
| `Peek.GetAvailBytes` | project_1/vhost/libvhost-user.c:2365-2474 | the nested loops, their totals and the cached index they leave; they terminate even while the driver moves the available index |
| `Peek.WalkSums` | project_1/vhost/libvhost-user.c:2704-2795 | the iovec lengths of a gathered chain add up to its descriptors' lengths, per direction |
| `Peek.PeekHeadAgrees` | project_1/vhost/libvhost-user.c:2396-2457 | one head is counted with exactly the bytes that popping it would map |
| `Peek.PeekFromCovers` | project_1/vhost/libvhost-user.c:2382-2469 | over all pending heads: the full totals, or once both limits are met a part of them that meets both |
| `Peek.PeekRefuses` | project_1/vhost/libvhost-user.c:2449-2474 | too many entries, a head that does not exist or a chain in error give zero totals |
| `Peek.PeekEqualsPop` | project_1/vhost/libvhost-user.c:2365-2474 | with a limit above them, the totals are the summed iovec lengths of the elements that mapping the pending heads gives |
| `Peek.EarlyStopKeepsAnswer` | project_1/vhost/libvhost-user.c:2476-2486 | `vu_queue_avail_bytes` is true iff the full totals reach both limits |
| `PeekPops.RingShowsPending` | project_1/vhost/libvhost-user.c:2269-2287 | what the peek loop reads of a queue in step with its FIFO is exactly the entries published and not fetched |
| `PeekPops.PeekIsSurvey` | project_1/vhost/libvhost-user.c:2269-2274 | on the fields of a queue, the cached index that peeking leaves is the one in memory |
| `PeekPops.PeekPredictsPops` | project_1/vhost/libvhost-user.c:2365-2474 | composed with the queue: popping the whole ring returns exactly those heads, and the totals are the summed iovec lengths of their elements |
| `DirtyLog.MaskBits` | project_1/vhost/libvhost-user.c:470-475 | setting one bit of a byte marks that page and no other |
| `DirtyLog.PagesOfRange` | project_1/vhost/libvhost-user.c:488-493 | the page loop covers exactly the pages the range has bytes in |
| `DirtyLog.Log.LogPage` | project_1/vhost/libvhost-user.c:470-475 | exactly one page more is marked |
| `DirtyLog.Log.LogWrite` | project_1/vhost/libvhost-user.c:477-496 | exactly the pages meeting the range are added, and none when logging is off or the length is 0 |
| `DirtyLog.FillWalkExact` | project_1/vhost/libvhost-user.c:2993-3007 | on a gathered chain the walk never reports a loop and logs exactly the first len writable bytes |
| `DirtyLog.FillReadsInside` | project_1/vhost/libvhost-user.c:2993-3007 | the walk reads no entry at or beyond the table size, whatever memory does |
| `DirtyLog.WalkEndsExactly` | project_1/vhost/libvhost-user.c:2993-3007 | the walk ends without a panic iff within the table size it reaches a descriptor where enough bytes are covered or none follows |
| `DirtyLog.BadTableStops` | project_1/vhost/libvhost-user.c:2965-2991 | a head whose table cannot be found logs nothing and panics |
| `DirtyLog.LogChain` | project_1/vhost/libvhost-user.c:2993-3007 | the loop marks exactly the pages of the walk |
| `DirtyLog.LogQueueFill` | project_1/vhost/libvhost-user.c:2951-3008 | the same from the head, direct or indirect, with every panic |
| `DirtyLog.LogPush` | project_1/vhost/libvhost-user.c:2938-3072 | a push marks the chain's pages, the used element's and, unless the walk panicked, the index's |
| `DirtyLog.PushMarksExactly` | project_1/vhost/libvhost-user.c:2938-3072 | for a popped element whose table is unchanged: marked iff the page meets the first len writable bytes, the used element or `used->idx` |
| `DirtyLog.StoredBytesAreMarked` | project_1/vhost/libvhost-user.c:2951-3008 | the guest byte behind each of the first len bytes of the writable list is on a marked page |
| `Inflight.CompareDecides` | project_1/vhost/libvhost-user.c:1247-1259 | the comparator decides a pair one way and not the other iff the counters are less than 2048 apart, and then puts the later first |
| `Inflight.OrderIsDescending` | project_1/vhost/libvhost-user.c:1247-1259 | on distinct counters of small span its order is descending counters |
| `Inflight.SortDescends` | project_1/vhost/libvhost-user.c:1316-1319 | such a list sorts to descending counters |
| `Inflight.SortUnique` | project_1/vhost/libvhost-user.c:1316-1319 | every arrangement in the comparator's order is the same one, whatever algorithm found it |
| `Inflight.CountIsMarked` | project_1/vhost/libvhost-user.c:1293-1297 | the count is the number of heads marked in flight |
| `Inflight.ScanRestoresExactly` | project_1/vhost/libvhost-user.c:1293-1299 | last_avail_idx is restored to the number fetched iff inuse was 0 mod 2^16 at entry |
| `Inflight.ScanConserves` | project_1/vhost/libvhost-user.c:1293-1299 | recovery of a fresh queue ends conserved: last_avail == used + inuse, inuse <= num |
| `Inflight.ScanReplaysFetchOrder` | project_1/vhost/libvhost-user.c:1301-1321 | the list holds every marked head once, pops in fetch order, and the restored counter is one more than the newest of theirs, or 0 with none |
| `Inflight.Tracker.InflightGet` | project_1/vhost/libvhost-user.c:2797-2812 | counter, then mark, in the shared area |
| `Inflight.Tracker.InflightPrePut` | project_1/vhost/libvhost-user.c:2814-2828 | names the head about to be completed |
| `Inflight.Tracker.InflightPostPut` | project_1/vhost/libvhost-user.c:2830-2850 | unmarks it and records the used index |
| `Inflight.Tracker.CheckQueueInflights` | project_1/vhost/libvhost-user.c:1261-1329 | first attachment, repair and scan, with both error returns; the head to unmark matters only when the area lags behind |
| `Inflight.Tracker.RepairArea` | project_1/vhost/libvhost-user.c:1280-1291 | the area is repaired iff it lags behind the used ring |
| `Inflight.Tracker.Rebuild` | project_1/vhost/libvhost-user.c:1293-1328 | the private fields are the scan's, and the error returns are exactly those of the allocation and the kick |
| `Inflight.Tracker.CountInflight` | project_1/vhost/libvhost-user.c:1293-1297 | the counting loop |
| `Inflight.Tracker.CollectInflight` | project_1/vhost/libvhost-user.c:1307-1314 | the collecting loop: every marked head with its counter, by index |
| `Crash.StartHolds` | project_1/vhost/libvhost-user.c:1274-1278 | a zeroed area attached with `used->idx` 0 satisfies the invariant |
| `Crash.RoomToPublish` | project_1/vhost/libvhost-user.c:2885-2888 | a driver that never re-publishes an outstanding head never has more than num outstanding, across crashes |
| `Crash.PopFindsNext` | project_1/vhost/libvhost-user.c:2876-2892 | after any crashes a pop reads the oldest unfetched request, and neither of its panics can happen |
| `Crash.TaggedKeeps` | project_1/vhost/libvhost-user.c:3055-3058 | the move of `used->idx` completes the one request behind the entry filled in |
| `Crash.RepairedKeeps` | project_1/vhost/libvhost-user.c:1293-1321 | the end of recovery re-establishes the running invariant |
| `Crash.IdleDueOnce` | project_1/vhost/libvhost-user.c:2852-2909 | an idle backend in the invariant owes each published request exactly one service: none if completed, else by holding or resubmitting it or by reading it from the ring |
| `Crash.FailBreaks` | project_1/vhost/libvhost-user.c:2782-2785 | a pop with an entry at hand that cannot allocate, from the ring or the list, leaves an uncompleted request that is owed no service |
| `Crash.StepKeeps` | project_1/vhost/libvhost-user.c:1261-1329 | a store of pop, push or recovery, a publication, crash or restart keeps the invariant, and of all steps only a pop that fails to allocate does not |
| `Crash.RunKeeps` | project_1/vhost/libvhost-user.c:1261-1329 | the invariant holds at every point of a run up to which no allocation failed |
| `Crash.DueOnceIffAllocates` | project_1/vhost/libvhost-user.c:2782-2902 | over every run: each published request is owed exactly one service at every idle point iff no pop with an entry at hand fails to allocate |
| `Crash.ExactlyOnce` | project_1/vhost/libvhost-user.c:2797-2909 | while no allocation fails: no request is completed twice, none before it was fetched, and each is completed, recorded in flight or waiting in its ring slot |
| `Crash.RecoveryExact` | project_1/vhost/libvhost-user.c:1261-1329 | while no allocation fails: recovery resubmits, once each, exactly the heads fetched and not on the used ring, and restores the true fetch counter |
| `Crash.NothingForgotten` | project_1/vhost/libvhost-user.c:2864-2874 | while no allocation fails: whenever the backend is idle, each fetched and uncompleted request is held or still on the list |
| `CrashOrder.StepOrdered` | project_1/vhost/libvhost-user.c:2797-2812 | every step, failed allocations included, keeps counters in fetch order and no further apart than the fetches, the next counter likewise, and the list sorted |
| `CrashOrder.RunOrdered` | project_1/vhost/libvhost-user.c:1301-1321 | the same over every run in which no allocation fails and no recovery finds requests 2048 or more fetches apart |
| `CrashOrder.InOrderRecoversNear` | project_1/vhost/libvhost-user.c:1253-1254 | a device that completes in fetch order, in a ring of up to 2048 entries, never brings recovery there |
| `CrashOrder.ReplaysInFetchOrder` | project_1/vhost/libvhost-user.c:2864-2874 | in such a run the head handed out next carries the oldest request on the list, and all of them precede every entry still on the ring |
| `CrashLimits.CrashForgives` | project_1/vhost/libvhost-user.c:2782-2785 | a crash before anything else is fetched leaves the state that a crash without the failed allocation leaves, and the invariant |
| `CrashLimits.SkipSurvivesCrash` | project_1/vhost/libvhost-user.c:2889-2902 | after a skipped entry, one more pop and a crash, the skipped request is owed no service and the one behind it two |
| `CrashLimits.ZeroUsedNeeded` | project_1/vhost/libvhost-user.c:1274-1291 | from every start, pending publications or not: a run without failed allocations in which recovery forgets any fetched request exists iff `used->idx` is not 0 |
| `CrashLimits.OneServiceExactly` | project_1/vhost/libvhost-user.c:1274-1291 | from every start: a run without failed allocations to an idle point with a request owed no service or too many exists iff `used->idx` is not 0 and the ring has two entries or more or the index is 65535 |
| `CrashLimits.SingleStep` | project_1/vhost/libvhost-user.c:1261-1329 | in a ring of one entry every step keeps the backend either past the one request and holding it, or at it and without it |
| `KickLoop.StepKeeps` | project_1/vhost/backend.c:99-145 | every step of driver and device keeps the invariant, kicks by eventfd or in band and the exit without progress included |
| `KickLoop.NoLostKick` | project_1/vhost/backend.c:124-141 | whenever the device is idle with entries waiting, a kick is pending or decided or the driver's next decision is to kick, now and after any further publications; and avail_event == last_avail |
| `KickLoop.StaleEventLosesKick` | project_1/vhost/backend.c:129-140 | from any other avail_event, one publication leaves an entry waiting with no kick to come, and only then |
| `KickLoop.MeasureFalls` | project_1/vhost/backend.c:124-141 | every step but a publication brings both sides closer to rest |
| `KickLoop.RestMeansDrained` | project_1/vhost/backend.c:124-141 | at rest everything published is consumed |
| `KickLoop.Drains` | project_1/vhost/backend.c:99-145 | from every reachable state a bounded run without publications consumes everything |
| `KickLoop.InterruptWhenConsumed` | project_1/vhost/backend.c:143-144 | a call raises the interrupt iff it consumed something and there is a call descriptor |
| `WatchTable.SetWatchMembers` | project_1/vhost/backend.c:42-48 | the entries after a watch is set, and when it is dropped instead |
| `WatchTable.RemoveWatchMembers` | project_1/vhost/backend.c:50-55 | swapping in the last entry loses nothing but the entry removed |
| `WatchTable.WatchCompletes` | project_1/vhost/libvhost-user.c:1357-1359 | watching the one missing queue completes the table iff the armed queues fit its 32 places |
| `WatchTable.StepExact` | project_1/vhost/libvhost-user.c:1194-1386 | every operation leaves table and queues in agreement iff the armed queues fit |
| `WatchTable.RunAgrees` | project_1/vhost/libvhost-user.c:1331-1386 | along a whole run the table holds each descriptor once and exactly the armed ones iff never more than 32 queues are armed |
| `WatchTable.BackendAgrees` | project_1/vhost/backend.c:147-152 | with at most 32 queues it always does |
| `WatchTable.KickStarts` | project_1/vhost/libvhost-user.c:1331-1363 | a good kick message starts the queue on its descriptor; the transmit queue gets its handler, others keep theirs; a queue with handler, descriptor and room is watched under it and no other, and nothing else changes |
| `WatchTable.BadKickIgnored` | project_1/vhost/libvhost-user.c:1222-1245 | a bad index or a missing descriptor changes nothing |
| `WatchTable.BaseStops` | project_1/vhost/libvhost-user.c:1194-1219 | the queue is stopped, its descriptor neither stored nor watched, the transmit queue without handler, the other queues as they were |
| `WatchTable.InBandStarts` | project_1/vhost/libvhost-user.c:1938-1957 | a queue not started is started, the transmit queue with its handler; nothing else changes |
| `WatchTable.HandlerSwitches` | project_1/vhost/libvhost-user.c:1372-1386 | a handler change changes that handler |
| `WatchTable.HandlersFollowStart` | project_1/vhost/backend.c:147-152 | along every run of messages the transmit queue has a handler exactly while it is started and the others keep theirs |
| `WatchTable.Backend.constructor` | project_1/vhost/libvhost-user.c:2214-2219 | a new backend agrees |
| `WatchTable.Backend.SetWatch` | project_1/vhost/backend.c:42-48 | replace, append or drop, in place |
| `WatchTable.Backend.RemoveWatch` | project_1/vhost/backend.c:50-55 | swap with the last, in place |
| `WatchTable.Backend.SetQueueHandler` | project_1/vhost/libvhost-user.c:1372-1386 | handler and watch change together |
| `WatchTable.Backend.SetStarted` | project_1/vhost/backend.c:147-152 | only the transmit queue's handler follows the started flag |
| `WatchTable.Backend.CloseKick` | project_1/vhost/libvhost-user.c:1343-1347 | a kick descriptor is unwatched and forgotten, if there is one |
| `WatchTable.Backend.SetVringKick` | project_1/vhost/libvhost-user.c:1331-1363 | the old descriptor unwatched and closed, the new one stored, the queue started and watched; both checks of the message |
| `WatchTable.Backend.GetVringBaseExec` | project_1/vhost/libvhost-user.c:1194-1219 | the queue stopped and its descriptor unwatched and closed |
| `WatchTable.Backend.HandleVringKick` | project_1/vhost/libvhost-user.c:1938-1957 | an in-band kick starts a queue that is not started |
| `InflightArea.SizeIsExact` | project_1/vhost/libvhost-user.c:1790-1795 | the size is the least multiple of 64 that holds the 16-byte header and all entries |
| `InflightArea.AlignmentMatters` | project_1/vhost/libvhost-user.c:77-88 | the formula is long enough for every queue size iff the alignment is a multiple of 16 |
| `InflightArea.SlicesFit` | project_1/vhost/libvhost-user.c:1851 | slices are aligned, do not overlap and fit the computed size, which fits 64 bits |
| `InflightArea.ComputedSizeFits` | project_1/vhost/libvhost-user.c:1851 | the size the program computes holds the labels |
| `InflightArea.Carve` | project_1/vhost/libvhost-user.c:1929-1933 | for every mapping that holds the labels: the carving loop hands out slice i at i times the size and labels each |
| `InflightArea.LabelHolds` | project_1/vhost/libvhost-user.h:309-329 | every slice reads back its queue size after all are labelled, and lies in a mapping of the computed size |
| `InflightArea.RestUntouched` | project_1/vhost/libvhost-user.c:1929-1933 | no other byte of a surviving log changes |
| `NetLog.ScanFrames` | project_1/emulator/netlog.c:70-87 | feeding bytes to a buffer gives the framing of the buffer's text and the bytes together: cut at newlines and after every 4199 bytes, tail kept |
| `NetLog.FramesAppend` | project_1/emulator/netlog.c:70-87 | the buffer always holds exactly the unframed remainder, so a stream may be cut into reads anywhere |
| `NetLog.FramesKeepBytes` | project_1/emulator/netlog.c:70-87 | lines and remainder spell the stream without its newlines: no byte lost, doubled or moved |
| `NetLog.PiecesExactly` | project_1/emulator/netlog.c:78-85 | a line is cut into pieces of 4199 bytes and a last one, which spell it |
| `NetLog.ParseSplits` | project_1/emulator/netlog.c:48-65 | level, space and message parse back to the level and the message |
| `NetLog.ParseBare` | project_1/emulator/netlog.c:59-63 | a line without a space is all level |
| `NetLog.ParseStopsAtNul` | project_1/emulator/netlog.c:50-58 | what follows a NUL does not matter |
| `NetLog.ServeKept` | project_1/emulator/netlog.c:129-144 | compaction keeps each open connection with its own buffer and drops exactly the closed ones |
| `NetLog.ServeEmits` | project_1/emulator/netlog.c:129-144 | one turn appends for each connection exactly the lines its own bytes complete |
| `NetLog.OpenExactly` | project_1/emulator/netlog.c:116-144 | told from the events alone: a newcomer is admitted iff fewer than 64 connections are open, and a connection is open, under its own descriptor, iff it was admitted and no empty read or hang-up came since |
| `NetLog.RecordsAreFrames` | project_1/emulator/netlog.c:94-149 | for any reads, interleaving, arrivals and closes: a connection's records are the framing of the bytes that arrive from its admission to its end, told from the events alone, and its buffer is the remainder |
| `NetLog.OnlyOwnBytesMatter` | project_1/emulator/netlog.c:94-149 | two connections, in any two runs, on which the same bytes arrive have the same records |
| `NetLog.NumbersConsecutive` | project_1/emulator/netlog.c:64 | the k-th record appended carries k in 32 bits |
| `NetLog.RunOrderly` | project_1/emulator/netlog.c:116-144 | connections stay distinct and records stay numbered over every run |
| `NetLog.SplitAt` | project_1/emulator/netlog.c:54-58 | overwriting the first space ends the level there and starts the message behind it |
| `NetLog.Listener.ProcessLine` | project_1/emulator/netlog.c:48-65 | one record: the C string split at its first space, numbered |
| `NetLog.Listener.Feed` | project_1/emulator/netlog.c:70-87 | the loop over the bytes computes the scan and never overruns the buffer |
| `NetLog.Listener.AcceptOne` | project_1/emulator/netlog.c:116-127 | the newcomer gets the next slot, or none at 64 |
| `NetLog.Listener.ServeSlot` | project_1/emulator/netlog.c:132-140 | one connection's event: its bytes fed to its own buffer, and whether it is dropped |
| `NetLog.Listener.ServeAll` | project_1/emulator/netlog.c:129-144 | the loop with its in-place compaction computes the service of all connections |
| `NetLog.Listener.TakeTurn` | project_1/emulator/netlog.c:101-145 | one turn of the listener |

## Left out

- Sockets, `recvmsg`, `mmap`, eventfds, memfds, postcopy and the message decoding switch: foreign calls. An eventfd is a sticky flag, a mapping an array, the outcome of an allocation or a poll a parameter.
- `virtqueue_read_indirect_desc`: the copy of an indirect table that straddles regions advances a descriptor pointer by a byte count, so it does not compute the intended copy; such a table ends in the outcome `Bounced` or `Copied`, about which nothing is claimed.
- Memory ordering and byte order: fences are sequentially consistent steps, the host is little-endian.
- Re-addressing a live ring (`vu_set_vring_addr_exec`): it does not reset `signalled_used_valid`, so statements about runs are for one ring setup.
- Regions whose guest or host range wraps 64 bits, or mapped at host address 0; and regions that overlap.
- Queue.VuVirtq.VuQueuePush: with in-flight tracking on, its stores are steps of the crash model instead.
- Crash.ExactlyOnce: does not cover `vu_queue_unpop`, `vu_queue_rewind` or flushes of several entries while tracking is on, because the area names one head per completion only.
- CrashOrder.RunOrdered: does not cover runs in which a recovery finds requests 2048 or more fetches apart, because the comparator is not an order there; `CrashOrder.InOrderRecoversNear` gives devices that never come there.
- Inflight.Tracker.CheckQueueInflights: does not model the wrap of the 64-bit fetch counter.
- `qsort` is stood in for by insertion; `Inflight.SortUnique` shows that the choice cannot be seen.
- Inflight.Tracker.CheckQueueInflights: requires that the head to unmark, when it is looked at, lies in the area, because the program does not check it.
- QueueProofs.RecoveryResumes: starts between completions, with nothing filled in and not yet flushed; the stores inside one are steps of the crash model.
- DirtyLog.LogPush: does not cover the store of `avail_event`, because the program does not log it.
- Peek.GetAvailBytes: models an unbroken, mapped queue, because otherwise the program returns zero totals without reading anything.
- Peek.PeekEqualsPop: does not cover sums of 2^32 bytes or more, because the program's totals wrap.
- KickLoop.NoLostKick: uses the documented contract of `vlog_virtq_handle` (`project_1/vhost/virtio.c:33-69`), because its body in the repository is a stub; and it assumes that the driver decides on a kick before 2^16 publications go by.
- Crash.RunKeeps: assumes that allocations succeed, like the results over runs that rest on it, because a failed one breaks them; `Crash.DueOnceIffAllocates` is the exact statement.
- A mapping that panics breaks the queue and is not a step of the crash model. A restarted backend starts from the used index in memory, which is also the base that the front end sends (`vu_set_vring_addr_exec`, `vu_set_vring_base_exec`).
- `tx_kick` and the crash model are state machines over single steps, not methods: other parties act between any two steps, and a driver that never stops publishing keeps the loop of `tx_kick` going forever.
- WatchTable.Backend.GetVringBaseExec: requires a valid index, because the program does not check it.
- InflightArea.Carve: requires that the mapping holds the labels it writes, because the program does not compare the message's size with the one it computes.
- NetLog.Listener.ProcessLine: a record keeps the level's text, because `strtoul` is not part of this model.
- NetLog.Listener.TakeTurn: the events are arbitrary for every connection, also for one accepted in the same turn, whose `revents` the program reads from a slot it has not filled; that a `read` on it may block is not modelled.
- The stubs of `emulator/vmm.c`, `emulator/device.c` and `vhost/virtio.c`, the runner, guest programs, `logstore.c`, `sink.c` and `project_0`: constants, plumbing or easy members only.
