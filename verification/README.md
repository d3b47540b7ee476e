# Models of Linux 4.19 file-system internals

A Dafny model of the hardest parts of the `fs/` tree in this repository, with proofs about them. Concurrent code is a
state machine whose steps are the regions under a lock or the single shared accesses; properties are about every
point of every run. Code that works in place is a class whose methods are proved against specification functions.

| module | what it models |
|---|---|
| `ParallelLookup` | parallel lookup in the dentry cache: `d_alloc_parallel`, `__d_add`, `i_dir_seq` |
| `DentryKill` | who frees a dentry: killers against owners of shrink lists |
| `DentryMove` | `__d_move` on a forest with counts, child lists, hash chains and shared names |
| `DentryWalk` | the stackless `d_walk` against recursive preorder |
| `AioSlots`, `AioRing` | slot accounting and completion ring of an AIO context |
| `ExclusiveClaim` | exclusive opens of block devices and partitions |
| `DirectIoSubmit`, `DirectIoRequest`, `DirectIoRefs` | direct I/O: coalescing into bios, the request loop, and the reference count |
| `BufferLru`, `PageCompletion`, `PartialWrite` | buffer heads: per-CPU cache, last-buffer-out completion, partial writes |
| `CoreNotes`, `CoreLayout`, `FilesNote` | ELF core dumps: notes, two-pass layout, the note of mapped files |
| `CharDev` | character device regions and the rollback of their registration |
| `Arith`, `Wrappers` | division lemmas, optional values |

Properties that turned out false of the code are stated with the exact condition under which they hold: 32-bit wrap of
`i_dir_seq` (`WrappedWordAdmitsTwo`, `RecheckIsExact`), exchange of two roots (`SwappedRootsLoop`, `MoveKeepsForest`),
exchange of one root without a reference to spare (`ExchangedRootUnpinned`, `PinsKeptIff`), doubling in `io_setup`
(`WrappedSetup`, `CapacityIffNoWrap`, `ServesIff`), a context with half of its slots parked (`HalfParkedExample`,
`HalfParkedIff`), a section that grows across a hole of the file (`HoleReadExample`, `Transfer`), zeros in front of a
write (`PaddingExample`, `Transfer`), a new mark left behind a failed `get_block` (`StaleMarkExample`, `Begin`),
register sets without a note type before ones with (`GapLosesNote`, `NoneLostIff`), character device ranges that
enclose a registered one (`EnclosingExample`, `OverlapIff`), hide it behind an empty one (`EmptyStopExample`,
`EnclosedIff`) or behind a wrapped end (`WrappedEndExample`, `PassedOverIff`), start at the number of an empty one
(`EmptyRangeExample`, `MisplacedIff`) or reach past the signed 32-bit values (`SignedWrapExample`, `SortedIff`), and
rollback without a major (`ZeroMajorLeaks`, `RestoredIff`).

Where code and comment disagree the code is followed: `aio_setup_ring` speaks of a header of 128 bytes, the structure
has 32; `fill_thread_core_info` says that the place of a register set without a note type is left empty and skipped,
while the number of places allocated and written is the number of types; `dio_send_cur_page` says that blocks with a
hole between them cannot be in one bio, while `submit_page_section` grows a section without looking at the file.

Constants from headers that are not in the repository are those of Linux 4.19 on a 64-bit machine: `DNAME_INLINE_LEN`
32, sizes of 64-bit ELF headers, `PN_XNUM`, `MINORBITS` 20, the limits of dynamic majors, pages of 4096 bytes where
the page size is not a parameter.

## Model

| member | source | states |
|---|---|---|
| `ParallelLookup.AtMostOneLive` | arm-reference-platforms/linux/fs/dcache.c:2404-2582 | At every point of every run of lookups, additions, aborts and drops, at most one dentry per parent and name is in-lookup, hashed, or between the two inside `__d_add`, provided fewer than 2^31 additions pass between the two reads of `i_dir_seq` of one lookup |
| `ParallelLookup.FoundIsRight` | arm-reference-platforms/linux/fs/dcache.c:2448-2536 | What a lookup waits for or returns has its own parent and name; what it returns is hashed and the only live dentry of the name |
| `ParallelLookup.NeverStuck` | arm-reference-platforms/linux/fs/dcache.c:2404-2582 | In every run, with short windows or not, every task or the holder of what it waits for (a bucket lock, the sequence word) can go on; bucket locks and odd words always belong to a task that gives them back |
| `ParallelLookup.StepKeepsInv` | arm-reference-platforms/linux/fs/dcache.c:2404-2582 | Each access of each thread keeps chains, bucket locks, sequence word, what every lookup has learnt, and uniqueness |
| `ParallelLookup.RunKeepsInv` | arm-reference-platforms/linux/fs/dcache.c:2404-2582 | The invariant holds at every point of every run |
| `ParallelLookup.RecheckKeepsWindow` | arm-reference-platforms/linux/fs/dcache.c:2472-2482 | The second look at `i_dir_seq` under the bucket lock: if it matches, no dentry of the name is hashed or being moved, although the word was odd in between for others |
| `ParallelLookup.InsertKeepsUnique` | arm-reference-platforms/linux/fs/dcache.c:2490-2536 | Inserting into the in-lookup chain after the recheck and an empty chain search adds the only live dentry of the name |
| `ParallelLookup.RecheckIsExact` | arm-reference-platforms/linux/fs/dcache.c:2477-2482 | In a window of fewer than 2^31 additions the second read accepts if and only if no addition began or ended since the first |
| `ParallelLookup.WrappedWordAdmitsTwo` | arm-reference-platforms/linux/fs/dcache.c:2404-2413 | Without that bound the property is false: a run in which 2^31 additions bring the word back to its value and two dentries of one name are live |
| `DentryKill.FreedAtMostOnce` | arm-reference-platforms/linux/fs/dcache.c:537-582 | In every interleaving of `dput`, killers and shrink-list owners a dentry is freed at most once, only after it was killed, and whoever is about to free it is alone |
| `DentryKill.NeverTouchedAfterFree` | arm-reference-platforms/linux/fs/dcache.c:1057-1092 | A dentry on a list has not been freed, and no killer or list owner holds one that has |
| `DentryKill.KilledIsFreed` | arm-reference-platforms/linux/fs/dcache.c:537-582 | When killers are done and shrink lists are empty, exactly the killed dentries have been freed |
| `DentryKill.KillerIsAlone` | arm-reference-platforms/linux/fs/dcache.c:651-697 | References being tokens of their holders: when a dentry is killed nobody but the killer holds a reference to it, the last one if the killer drops it and none otherwise |
| `DentryKill.HeldIsAlive` | arm-reference-platforms/linux/fs/dcache.c:705-849 | Whoever holds a reference has a dentry that is alive and not freed, and no killer is at it |
| `DentryKill.CountIsHeld` | arm-reference-platforms/linux/fs/dcache.c:705-849 | The count of a live dentry is the number of references held |
| `DentryKill.UnusedIsListed` | arm-reference-platforms/linux/fs/dcache.c:622-645 | An unused dentry is on a list or with a task that has just dropped its reference, unless the owner of a shrink list gave it up |
| `DentryKill.NeverStuck` | arm-reference-platforms/linux/fs/dcache.c:537-582 | A task that has dropped a reference, a killer and one about to free can always go on |
| `DentryKill.UnusedIsCounted` | arm-reference-platforms/linux/fs/dcache.c:392-444 | No flag check of the list helpers fails, and the unused counter is the number of dentries on LRU and shrink lists |
| `DentryKill.StepKeepsInv` | arm-reference-platforms/linux/fs/dcache.c:1443-1470 | Every locked region (put, kill, shrink, LRU isolate, select) keeps the invariant behind these |
| `DentryKill.RunKeepsInv` | arm-reference-platforms/linux/fs/dcache.c:1057-1092 | The invariant holds at every point of every run |
| `DentryMove.MoveKeepsConsistent` | arm-reference-platforms/linux/fs/dcache.c:2724-2803 | A `__d_move` past its ancestor checks keeps forest, child lists, hash chains, names, and counts at least as large as the number of children, if and only if it does not exchange two roots or a root whose count is the number of its children |
| `DentryMove.MovePlacesParents` | arm-reference-platforms/linux/fs/dcache.c:2770-2782 | The dentry gets the target's parent; the target keeps it or gets the dentry's; no other parent changes |
| `DentryMove.MovePlacesCounts` | arm-reference-platforms/linux/fs/dcache.c:2772-2779 | A plain move takes one reference from the old parent, unless the dentry was a root, and gives one to the new; an exchange changes no count |
| `DentryMove.MoveKeepsOthers` | arm-reference-platforms/linux/fs/dcache.c:2764-2788 | The dentry heads its new parent's children; it is hashed, the target exactly if exchanged, and other dentries keep name and hash state |
| `DentryMove.MoveKeepsForest` | arm-reference-platforms/linux/fs/dcache.c:2735-2787 | The parents stay a forest if and only if the move does not exchange two roots |
| `DentryMove.SwappedRootsLoop` | arm-reference-platforms/linux/fs/dcache.c:2770-2787 | Two exchanged roots become each other's parent, so the ancestor walk from them does not end |
| `DentryMove.MoveKeepsChildren` | arm-reference-platforms/linux/fs/dcache.c:2770-2787 | Child lists keep following `d_parent` |
| `DentryMove.MoveKeepsPins` | arm-reference-platforms/linux/fs/dcache.c:2770-2787 | For every dentry, count minus number of children is what it was, except one less for each root that is exchanged |
| `DentryMove.PinsKeptIff` | arm-reference-platforms/linux/fs/dcache.c:2770-2787 | Counts stay at least the number of children if and only if no exchanged dentry is a root without a reference to spare |
| `DentryMove.ExchangedRootUnpinned` | arm-reference-platforms/linux/fs/dcache.c:2827-2839 | This fails already when one root is exchanged, which `d_exchange` only warns about: a root has a child and a count of zero |
| `DentryMove.MoveKeepsHash` | arm-reference-platforms/linux/fs/dcache.c:2764-2788 | A hashed dentry is on the chain of its current name hash, and the moved one is hashed |
| `DentryMove.MoveKeepsNames` | arm-reference-platforms/linux/fs/dcache.c:2652-2711 | The moved dentry shows the target's name, the target keeps its own or gets the other's, and shared names are counted once per user |
| `DentryMove.MoveKeepsLists` | arm-reference-platforms/linux/fs/dcache.c:2764-2788 | Child lists, chains and names agree after the move |
| `DentryMove.WarnOnlyUnpinned` | arm-reference-platforms/linux/fs/dcache.c:2775-2779 | The zero-count warning fires exactly if the old parent had no reference but that of the child taken from it |
| `DentryMove.ChecksDecide` | arm-reference-platforms/linux/fs/dcache.c:2735-2751 | The ancestor checks decide whether the dentry is above the target, for roots and for others |
| `DentryMove.ChildOnPathIff` | arm-reference-platforms/linux/fs/dcache.c:2849-2858 | `d_ancestor` has something to find exactly if its first argument is a proper ancestor of the second |
| `DentryMove.GraftKeepsForest` | arm-reference-platforms/linux/fs/dcache.c:2770-2772 | Moving a subtree under a dentry outside it keeps a forest |
| `DentryMove.SwapKeepsForest` | arm-reference-platforms/linux/fs/dcache.c:2770-2783 | So does the exchange of two separate dentries that are not both roots |
| `DentryMove.CopyKeepsNames` | arm-reference-platforms/linux/fs/dcache.c:2695-2711 | `copy_name` shows the target's name and keeps reference counts of shared names |
| `DentryMove.SwapKeepsNames` | arm-reference-platforms/linux/fs/dcache.c:2652-2693 | `swap_names` exchanges both names, inline or shared |
| `DentryMove.SwapWords` | arm-reference-platforms/linux/fs/dcache.c:2679-2689 | The word-by-word loop exchanges two inline buffers |
| `DentryMove.Dcache.DAncestor` | arm-reference-platforms/linux/fs/dcache.c:2849-2858 | The loop returns the child of the first dentry on the way up from the second, or none |
| `DentryMove.Dcache.CopyName` | arm-reference-platforms/linux/fs/dcache.c:2695-2711 | The new name and the counts of shared names are those of the specified copy |
| `DentryMove.Dcache.SwapNames` | arm-reference-platforms/linux/fs/dcache.c:2652-2693 | The two names are exchanged as specified in all four cases of inline and shared |
| `DentryMove.Dcache.Check` | arm-reference-platforms/linux/fs/dcache.c:2732-2751 | The checks pass exactly if neither dentry is the other or above it |
| `DentryMove.Dcache.Move` | arm-reference-platforms/linux/fs/dcache.c:2724-2803 | The imperative `__d_move` is the specified state change, for plain moves, exchanges and identical dentries; after it the dentry is at the head of the children of the target's parent, the target where it was or where the dentry was, in a plain move one reference has gone from the old parent to the new one, and nothing else has moved, been renamed or changed in the hash table |
| `DentryWalk.DWalk` | arm-reference-platforms/linux/fs/dcache.c:1241-1345 | The loop ends and calls `enter` on exactly the sequence of the recursive preorder, with SKIP, QUIT and cursors |
| `DentryWalk.EnteredOnce` | arm-reference-platforms/linux/fs/dcache.c:1267-1326 | Whatever the callback answers, no dentry is entered twice and only dentries below the start are |
| `DentryWalk.ThoroughEntersAll` | arm-reference-platforms/linux/fs/dcache.c:1267-1326 | A callback that never skips or quits is called on every dentry that no cursor hides |
| `DentryWalk.WalkObeys` | arm-reference-platforms/linux/fs/dcache.c:1254-1300 | The data passed on is that of the calls in order; the walk stops exactly at the first QUIT, and nothing is entered below a dentry answered with SKIP |
| `DentryWalk.Descend` | arm-reference-platforms/linux/fs/dcache.c:1294-1300 | Descending into a child continues the recursive walk |
| `DentryWalk.Ascend` | arm-reference-platforms/linux/fs/dcache.c:1303-1330 | Ascending to the parent continues it with the next sibling |
| `AioSlots.RunConserves` | arm-reference-platforms/linux/fs/aio.c:887-964 | At every point of every run on any CPUs and with any stored head: free + parked + in flight + completed slots are `nr_events` - 1 |
| `AioSlots.StepConserves` | arm-reference-platforms/linux/fs/aio.c:887-1022 | Each submission, failure, completion, refill and read keeps that sum |
| `AioSlots.RunNeverOverruns` | arm-reference-platforms/linux/fs/aio.c:941-964 | If the stored head is always where the reader was at some point since the lock was taken, unread events never outnumber those accounted as completed |
| `AioSlots.StepNeverOverruns` | arm-reference-platforms/linux/fs/aio.c:887-1022 | Each step keeps that, if the head it finds is a position of the reader from which it held |
| `AioSlots.CompleteNeverOverwrites` | arm-reference-platforms/linux/fs/aio.c:1078-1110 | With such a head, in every run `aio_complete` never writes the slot of an unread event; that fewer than a lap is unread follows from the accounting |
| `AioSlots.LessThanHalfParked` | arm-reference-platforms/linux/fs/aio.c:896-902 | Less than half of the slots are parked on per-CPU counters whenever one per CPU is less than half, also with a batch of one |
| `AioSlots.HalfParkedIff` | arm-reference-platforms/linux/fs/aio.c:691-730 | Of every context that `io_setup` makes, at every point of every run less than half of the slots are parked, if and only if twice the number of CPUs is less than the number of slots |
| `AioSlots.UnwrappedNeverParked` | arm-reference-platforms/linux/fs/aio.c:696-717 | A request that does not wrap when doubled meets this |
| `AioSlots.HalfParkedExample` | arm-reference-platforms/linux/fs/aio.c:707-717 | One that wraps may not: a context of 127 events on 64 CPUs, and a run that parks 64 of its 126 slots |
| `AioSlots.RefusedOnlyWhenFull` | arm-reference-platforms/linux/fs/aio.c:1000-1008 | In a context of unwrapped size, right after a refill with the true head a slot is refused only if in-flight plus unread events exceed the `nr` of `io_setup` |
| `AioSlots.AcquiredServes` | arm-reference-platforms/linux/fs/aio.c:1000-1008 | So `aio_get_req`, which refills only if it has to, refuses only then |
| `AioSlots.AttemptIsSteps` | arm-reference-platforms/linux/fs/aio.c:1000-1022 | Its effect is that of a refill if there was no slot and something had completed, of a request if there is a slot then, and of its failure without memory |
| `AioSlots.ServesIff` | arm-reference-platforms/linux/fs/aio.c:1272-1281 | Of every context that `io_setup(nr)` makes: this holds at every point of every run with an honest reader if and only if doubling `nr` did not wrap |
| `AioSlots.NotServed` | arm-reference-platforms/linux/fs/aio.c:1000-1008 | With fewer slots than `nr`, requests until one is refused are such a run |
| `AioSlots.SetupIsSized` | arm-reference-platforms/linux/fs/aio.c:696-717 | A context whose request did not wrap has twice the request and a batch that fits |
| `AioSlots.ReadyIff` | arm-reference-platforms/linux/fs/aio.c:707-717 | A context is made if and only if the doubled request, wrapped or not, is neither zero nor too large and the request is within the limit |
| `AioSlots.CapacityIffNoWrap` | arm-reference-platforms/linux/fs/aio.c:1272-1281 | A context that is made has at least `nr` slots if and only if doubling `nr` did not wrap in 32 bits |
| `AioSlots.WrappedSetup` | arm-reference-platforms/linux/fs/aio.c:707-717 | The wrap is reachable: 2^31 + 1 requests are answered with a context of 127 events |
| `AioSlots.Kioctx.PutReqsAvailable` | arm-reference-platforms/linux/fs/aio.c:887-902 | The shedding loop leaves what the specification says |
| `AioSlots.KeptSheds` | arm-reference-platforms/linux/fs/aio.c:887-902 | What it sheds are whole batches, down to between one and two of them |
| `AioSlots.Kioctx.GetReqsAvailable` | arm-reference-platforms/linux/fs/aio.c:904-932 | One slot from the per-CPU counter, refilled by a batch if empty |
| `AioSlots.Kioctx.RefillReqsAvailable` | arm-reference-platforms/linux/fs/aio.c:941-964 | Reclaims the events between head and tail, at most the completed ones |
| `AioSlots.Kioctx.UserRefillReqsAvailable` | arm-reference-platforms/linux/fs/aio.c:970-994 | The same with the head stored in the ring, only if something has completed |
| `AioSlots.Kioctx.AioGetReq` | arm-reference-platforms/linux/fs/aio.c:1000-1022 | A slot, once more after a refill, given back if the request itself cannot be allocated: the effect is that of enabled steps of a run, and with memory and the true head it refuses only if in-flight plus unread events exceed the `nr` of `io_setup` |
| `AioSlots.Kioctx.AioComplete` | arm-reference-platforms/linux/fs/aio.c:1063-1140 | A request in flight becomes a completed event and its slot is kept until it is reclaimed |
| `AioRing.SlotsAreDistinct` | arm-reference-platforms/linux/fs/aio.c:542-544 | Every event has its own page and slot, inside the ring's pages and clear of the header |
| `AioRing.SetupFits` | arm-reference-platforms/linux/fs/aio.c:457-472 | The pages that `aio_setup_ring` takes hold the events it counts |
| `AioRing.QueueAppend` | arm-reference-platforms/linux/fs/aio.c:1078-1110 | Publishing puts an event at the back of the logical queue |
| `AioRing.RoomToPublish` | arm-reference-platforms/linux/fs/aio.c:1078-1110 | In every run of the slot accounting with an honest head, the ring is not full when `aio_complete` publishes, so the event goes to the back of the queue |
| `AioRing.ChunkIsQueue` | arm-reference-platforms/linux/fs/aio.c:1180-1206 | One chunk within a page is the next part of the queue |
| `AioRing.CopyOut` | arm-reference-platforms/linux/fs/aio.c:1180-1208 | Chunk by chunk, across pages and the end of the ring, the longest prefix of the queue of at most `nr` events, or a fault |
| `AioRing.Ring.Publish` | arm-reference-platforms/linux/fs/aio.c:1078-1110 | The event is stored and the tail advances modulo the ring |
| `AioRing.Ring.ReadEvents` | arm-reference-platforms/linux/fs/aio.c:1146-1224 | The events returned and the queue left behind are the queue there was; a fault consumes nothing |
| `ExclusiveClaim.NeverHeldTogether` | arm-reference-platforms/linux/fs/block_dev.c:1003-1019 | At every point of every interleaving of start, finish, abort and release, a device has one holder and a whole device is not open with one of its partitions |
| `ExclusiveClaim.HoldersCounted` | arm-reference-platforms/linux/fs/block_dev.c:1626-1638 | `bd_holders` is twice the opens of a whole device plus those of its partitions, and the opens of a partition; it is zero exactly if there is no holder |
| `ExclusiveClaim.AssertionsHold` | arm-reference-platforms/linux/fs/block_dev.c:1626-1641 | The BUG_ONs at finish and the negative-count warnings at release never fire |
| `ExclusiveClaim.RefusedIff` | arm-reference-platforms/linux/fs/block_dev.c:1003-1019 | A claim is refused exactly if an open there is conflicts with it |
| `ExclusiveClaim.MarkedIff` | arm-reference-platforms/linux/fs/block_dev.c:1039-1155 | In every run a whole device is marked as being claimed if and only if a claim on it or a partition is in progress |
| `ExclusiveClaim.StartsIff` | arm-reference-platforms/linux/fs/block_dev.c:1039-1155 | A claim can start if and only if it conflicts with no open and no claim on its whole device is in progress |
| `ExclusiveClaim.EndFreesDevice` | arm-reference-platforms/linux/fs/block_dev.c:1619-1645 | A claim in progress can always end, and no claim on its whole device is in progress then |
| `ExclusiveClaim.StepKeepsInv` | arm-reference-platforms/linux/fs/block_dev.c:1039-1155 | Every step keeps counts, holders and claims in progress |
| `ExclusiveClaim.RunKeepsInv` | arm-reference-platforms/linux/fs/block_dev.c:1039-1155 | The invariant holds at every point of every run |
| `ExclusiveClaim.BlockDevices.StartClaiming` | arm-reference-platforms/linux/fs/block_dev.c:1039-1155 | Refused, waiting, or the claim in progress is marked |
| `ExclusiveClaim.BlockDevices.FinishClaiming` | arm-reference-platforms/linux/fs/block_dev.c:1619-1645 | The finish is the specified grant, whole device and device being one or two; the mark of the claim in progress is gone, whatever the result |
| `ExclusiveClaim.BlockDevices.ReleaseClaim` | arm-reference-platforms/linux/fs/block_dev.c:1818-1837 | The release is the specified one and never goes below zero |
| `DirectIoSubmit.Extended` | arm-reference-platforms/linux/fs/direct-io.c:756-776 | A section that continues a bio on disk and in the file extends what the bio carries by its own blocks |
| `DirectIoSubmit.Submitter.BioSubmit` | arm-reference-platforms/linux/fs/direct-io.c:461-486 | The bio under assembly becomes the last submitted one |
| `DirectIoSubmit.Submitter.BioReap` | arm-reference-platforms/linux/fs/direct-io.c:591-612 | An error among reaped completions is returned and recorded |
| `DirectIoSubmit.Submitter.NewBio` | arm-reference-platforms/linux/fs/direct-io.c:731-748 | A new empty bio at the deferred section's block, or a recorded error |
| `DirectIoSubmit.Submitter.BioAddPage` | arm-reference-platforms/linux/fs/direct-io.c:756-776 | The deferred section joins the bio, or the bio refuses it and nothing changes |
| `DirectIoSubmit.Submitter.SendCurPage` | arm-reference-platforms/linux/fs/direct-io.c:788-833 | The bios carry what they did and then the deferred section, on consecutive disk blocks and, counted from the first byte of each bio, at the file blocks of the section, or an error is recorded |
| `DirectIoSubmit.Submitter.Grow` | arm-reference-platforms/linux/fs/direct-io.c:866-873 | The deferred section grows; it then holds file blocks other than those handed over if and only if the new blocks do not follow it in the file |
| `DirectIoSubmit.Submitter.Defer` | arm-reference-platforms/linux/fs/direct-io.c:866-893 | The section grows the deferred one or replaces it after that is sent |
| `DirectIoSubmit.Submitter.SubmitPageSection` | arm-reference-platforms/linux/fs/direct-io.c:852-907 | Unless an error is recorded, everything handed over is in submitted bios, the bio under assembly or the deferred section, in order and once; it is at the file blocks it was handed over for if and only if no section ever grew across a gap in the file, and the first block always is; at a boundary a section that finds none deferred or grows it is sent and submitted at once |
| `DirectIoSubmit.Submitter.SendNow` | arm-reference-platforms/linux/fs/direct-io.c:895-905 | At a boundary the deferred section is sent and its bio submitted |
| `DirectIoSubmit.Submitter.Flush` | arm-reference-platforms/linux/fs/direct-io.c:1348-1358 | At the end, unless an error is recorded, the submitted bios carry exactly what was handed over, and at the file blocks it was handed over for if and only if no section grew across a gap |
| `DirectIoSubmit.FilesGrow` | arm-reference-platforms/linux/fs/direct-io.c:866-873 | Growing keeps the file blocks in place if and only if they were and the new ones follow |
| `DirectIoSubmit.HoleGrowExample` | arm-reference-platforms/linux/fs/direct-io.c:866-873 | This fails, against the comment in `dio_send_cur_page`: file blocks 0 and 2 on adjacent disk blocks go out as file blocks 0 and 1 |
| `DirectIoRequest.PlacedRun` | arm-reference-platforms/linux/fs/direct-io.c:1093-1109 | Blocks that follow each other in file and disk are placed as one section |
| `DirectIoRequest.MappingRun` | arm-reference-platforms/linux/fs/direct-io.c:1009-1039 | A mapping serves the file blocks from the current one to the end of its last filesystem block |
| `DirectIoRequest.Request.GetMoreBlocks` | arm-reference-platforms/linux/fs/direct-io.c:673-726 | A run of blocks that follow in file and disk, a hole, or an error; nothing after a page error |
| `DirectIoRequest.Request.MapMore` | arm-reference-platforms/linux/fs/direct-io.c:994-1040 | The next blocks are where the file has them; zeros are owed before a write into a new filesystem block |
| `DirectIoRequest.Request.ZeroBlock` | arm-reference-platforms/linux/fs/direct-io.c:918-951 | Zeros for the rest of a new filesystem block, before or behind the data, all handed over for the file blocks from the current one on |
| `DirectIoRequest.Request.StartZero` | arm-reference-platforms/linux/fs/direct-io.c:1071-1077 | After it the next disk block is that of the current file block; the zeros are the first to be handed over |
| `DirectIoRequest.Request.PassHole` | arm-reference-platforms/linux/fs/direct-io.c:1042-1069 | A write stops, a read past the end of the file is done, and any other read clears the block |
| `DirectIoRequest.Request.ChunkSize` | arm-reference-platforms/linux/fs/direct-io.c:1079-1091 | The largest non-empty chunk that page, mapping and request allow |
| `DirectIoRequest.Request.SendChunk` | arm-reference-platforms/linux/fs/direct-io.c:1093-1109 | The chunk goes to the blocks its file blocks map to and is handed over for these file blocks; it grows a section across a gap exactly if it follows it in page and disk but not in the file |
| `DirectIoRequest.Request.HandOver` | arm-reference-platforms/linux/fs/direct-io.c:1093-1104 | After it, what was handed over and for which file blocks is what it was and then the chunk, for its own file blocks |
| `DirectIoRequest.Request.PassBlocks` | arm-reference-platforms/linux/fs/direct-io.c:989-1113 | One round of the inner loop advances through page and file together or says why it stops |
| `DirectIoRequest.Request.PassPage` | arm-reference-platforms/linux/fs/direct-io.c:989-1114 | The inner loop uses the page up or reaches the end of the request |
| `DirectIoRequest.Request.GetPage` | arm-reference-platforms/linux/fs/direct-io.c:166-220 | The next part of the user's buffer, or zeros or an error after a fault |
| `DirectIoRequest.Request.PassChunk` | arm-reference-platforms/linux/fs/direct-io.c:976-1119 | One round of the outer loop uses up the next part of the user's buffer or says why it stops |
| `DirectIoRequest.Request.DoDirectIO` | arm-reference-platforms/linux/fs/direct-io.c:969-1121 | The loop ends; what it came past is a prefix of the user's buffer; it stops early only for an error, a hole in a write or the end of the file |
| `DirectIoRequest.Request.Transfer` | arm-reference-platforms/linux/fs/direct-io.c:1331-1358 | With no error recorded, the submitted bios carry the zero padding and every memory block at the disk block of its file block, nothing lost, doubled or out of order; each goes out for the file block it belongs at if and only if no section grew across a gap and there are no zeros in front; a write has come past no hole and a read past none behind the end of the file, and holes are cleared; `result` is the number of blocks advanced |
| `DirectIoRequest.Request.EndZero` | arm-reference-platforms/linux/fs/direct-io.c:1331-1346 | What was handed over is padding for file blocks from the first on, the mapped file blocks in order, and padding for those from the last on |
| `DirectIoRequest.Request.Finish` | arm-reference-platforms/linux/fs/direct-io.c:1348-1358 | The bios hold each block at its own file block if and only if nothing jumped and there are no zeros in front |
| `DirectIoRequest.OwnIff` | arm-reference-platforms/linux/fs/direct-io.c:918-951 | The two ways to be at the wrong file block never cancel out |
| `DirectIoRequest.PaddingExample` | arm-reference-platforms/linux/fs/direct-io.c:918-951 | A write of file block 1 into a new filesystem block of two hands the zeros for file block 0 over for file block 1 |
| `DirectIoRequest.HoleReadExample` | arm-reference-platforms/linux/fs/direct-io.c:866-873 | A read of three blocks, the middle one a hole, into two pages sends file blocks 0 and 2 as one section from file block 0 |
| `DirectIoRefs.CompletedOnceAfterAll` | arm-reference-platforms/linux/fs/direct-io.c:349-406 | In every run `dio_complete` is called at most once, and only when every bio issued has completed and been cleaned up exactly once |
| `DirectIoRefs.CompletedAtEnd` | arm-reference-platforms/linux/fs/direct-io.c:1383-1393 | When nothing is left to do it has been called once: by the submitter, or by the last bio with a callback exactly if the submitter returned "queued" |
| `DirectIoRefs.LeavesOnlyQueued` | arm-reference-platforms/linux/fs/direct-io.c:1390-1393 | The submitter leaves references behind only with the result "queued", and that only for asynchronous requests, so the final BUG_ON cannot fire |
| `DirectIoRefs.NoLostWakeup` | arm-reference-platforms/linux/fs/direct-io.c:503-533 | A sleeping submitter is registered and a bio in flight will wake it |
| `DirectIoRefs.NeverTouchedAfterFree` | arm-reference-platforms/linux/fs/direct-io.c:255-335 | No step uses the request after it has been completed and freed |
| `DirectIoRefs.NeverStuck` | arm-reference-platforms/linux/fs/direct-io.c:503-582 | Until all is done, some step other than a spurious wake-up is possible |
| `DirectIoRefs.StepKeepsInv` | arm-reference-platforms/linux/fs/direct-io.c:461-612 | Every locked region keeps reference count, places of bios and who completes |
| `DirectIoRefs.RunKeepsInv` | arm-reference-platforms/linux/fs/direct-io.c:461-612 | The invariant holds at every point of every run |
| `BufferLru.FrontFollows` | arm-reference-platforms/linux/fs/buffer.c:1226-1247 | The sixteen most recently used buffers after a use follow from the sixteen before it alone |
| `BufferLru.RecentDistinct` | arm-reference-platforms/linux/fs/buffer.c:1184-1191 | In the list by recency each used buffer is once |
| `BufferLru.Lru.Push` | arm-reference-platforms/linux/fs/buffer.c:1236-1242 | The swapping loop shifts the array up to the buffer's old place, or drops the last entry |
| `BufferLru.Lru.Install` | arm-reference-platforms/linux/fs/buffer.c:1226-1247 | Over every sequence of operations the array is the most recently used buffers, at most sixteen, then NULLs; each resident has exactly one reference of the array |
| `BufferLru.Lru.MoveToFront` | arm-reference-platforms/linux/fs/buffer.c:1265-1272 | The loop brings one entry to the front and shifts those before it, nothing else |
| `BufferLru.Lru.Lookup` | arm-reference-platforms/linux/fs/buffer.c:1252-1280 | A hit is the most recent buffer with the key, moved to the front, with one more reference for the caller; a miss means there is none |
| `BufferLru.Lru.FindGetBlock` | arm-reference-platforms/linux/fs/buffer.c:1287-1302 | The answer is that of the page cache, with one reference for the caller |
| `BufferLru.Lru.Invalidate` | arm-reference-platforms/linux/fs/buffer.c:1367-1377 | The array is empty and has given back exactly its references |
| `PageCompletion.GivenBackOnce` | arm-reference-platforms/linux/fs/buffer.c:251-354 | In every completion order the page is unlocked (read) or its writeback ended (write) exactly once, after the last marked buffer |
| `PageCompletion.UptodateIff` | arm-reference-platforms/linux/fs/buffer.c:293-299 | After a read the page is up to date if and only if all its buffers are and no error is set |
| `PageCompletion.ErrorIff` | arm-reference-platforms/linux/fs/buffer.c:318-325 | The page has an error if and only if it had one before or the I/O on a buffer failed; a write does not change whether it is up to date |
| `PageCompletion.NeverStuck` | arm-reference-platforms/linux/fs/buffer.c:1732-1788 | Until the I/O is over, the submitter, a completion or the thread whose lock the submitter waits for can go on |
| `PageCompletion.MarkedAreLocked` | arm-reference-platforms/linux/fs/buffer.c:278-289 | A marked buffer is locked by the submitter, and a completing buffer is marked: the BUG_ONs never fire |
| `PageCompletion.LastOut` | arm-reference-platforms/linux/fs/buffer.c:270-300 | The buffer that finds no other marked is the only one to do so |
| `PageCompletion.StepKeepsInv` | arm-reference-platforms/linux/fs/buffer.c:1732-1788 | Marking, starting, completing and foreign locking keep the invariant |
| `PageCompletion.RunKeepsInv` | arm-reference-platforms/linux/fs/buffer.c:2270-2300 | The invariant holds at every point of every run |
| `PageCompletion.ScanRead` | arm-reference-platforms/linux/fs/buffer.c:280-289 | The scan round the ring finds whether a buffer is marked, and else whether all are up to date |
| `PageCompletion.ScanWrite` | arm-reference-platforms/linux/fs/buffer.c:337-344 | The scan of the other buffers finds whether one is still marked |
| `PageCompletion.PlanRead` | arm-reference-platforms/linux/fs/buffer.c:2218-2268 | Exactly the mapped buffers that are not up to date are to be read; any other is up to date afterwards or the page has an error |
| `PartialWrite.PageBuffers.Write` | arm-reference-platforms/linux/fs/buffer.c:1928-2056 | After begin, copy and commit every block flagged up to date, by buffer or page, holds old content outside the range and the data inside; after a failed begin it holds the old content if and only if zeros in the range are what every stale new block behind the failed one should hold |
| `PartialWrite.StaleMarkExample` | arm-reference-platforms/linux/fs/buffer.c:2008-2009 | Such a mark does harm: a write that fails leaves a block up to date with a zero that the disk does not hold |
| `PartialWrite.PageBuffers.Begin` | arm-reference-platforms/linux/fs/buffer.c:1928-2011 | Blocks of the range are mapped and right outside the range; what is up to date stays right, after an error exactly if no new mark from before is left behind the failed block where zeros are wrong |
| `PartialWrite.PageBuffers.BeginAll` | arm-reference-platforms/linux/fs/buffer.c:1951-1999 | The loop over the buffers stops at the first of the range for which `get_block` fails, leaves those behind it alone, marks new only what was a hole, and has at most two reads to wait for |
| `PartialWrite.PageBuffers.BeginOne` | arm-reference-platforms/linux/fs/buffer.c:1951-1998 | One round fails exactly if `get_block` is asked and fails, and settles its own block only |
| `PartialWrite.PageBuffers.BeginBlock` | arm-reference-platforms/linux/fs/buffer.c:1961-1998 | One buffer of the range: mapped, cleared around the range if new, read if partly covered |
| `PartialWrite.PageBuffers.AwaitReads` | arm-reference-platforms/linux/fs/buffer.c:2000-2007 | Blocks read hold the file's content; a failed read is an error |
| `PartialWrite.PageBuffers.ZeroNew` | arm-reference-platforms/linux/fs/buffer.c:1836-1870 | Exactly the buffers of the range marked new lose the mark, and unless the page is up to date become so with their part of the range zero |
| `PartialWrite.PageBuffers.Recover` | arm-reference-platforms/linux/fs/buffer.c:2008-2009 | After an error blocks that were looked at are right, and known blocks are right if and only if zeros are right for the marked ones behind |
| `PartialWrite.StaleIff` | arm-reference-platforms/linux/fs/buffer.c:1951-1999 | The marks left are those of the range behind the first buffer for which `get_block` fails |
| `PartialWrite.PageBuffers.Commit` | arm-reference-platforms/linux/fs/buffer.c:2020-2056 | Buffers of the range become up to date and dirty, and the page if all are |
| `CoreNotes.CoreFile.Emit` | arm-reference-platforms/linux/fs/coredump.c:783-803 | On success position and count advance by the length; the limit is respected |
| `CoreNotes.CoreFile.Skip` | arm-reference-platforms/linux/fs/coredump.c:805-824 | On success the position advances by the length, by seeking or by zeros |
| `CoreNotes.CoreFile.Align4` | arm-reference-platforms/linux/fs/coredump.c:826-833 | The position is rounded up |
| `CoreNotes.CoreFile.WriteNote` | arm-reference-platforms/linux/fs/binfmt_elf.c:1433-1443 | From an aligned position a note takes exactly `notesize` bytes |
| `CoreNotes.NotesAgreeIff` | arm-reference-platforms/linux/fs/binfmt_elf.c:1722-1919 | Notes written are as long as planned if and only if every note is put inside the places allocated for its thread, which are counted by note types |
| `CoreNotes.PrefixSuffices` | arm-reference-platforms/linux/fs/binfmt_elf.c:1805-1821 | If register sets with a note type come first, every note is put inside the places allocated and all are written |
| `CoreNotes.GapLosesNote` | arm-reference-platforms/linux/fs/binfmt_elf.c:1805-1811 | Otherwise it is false: a note is put behind the places allocated, and is planned and not written |
| `CoreNotes.NoneLostIff` | arm-reference-platforms/linux/fs/binfmt_elf.c:1805-1821 | What can be seen before a dump: no dump loses a note if and only if the register sets with a note type come first |
| `CoreNotes.PlanNotes` | arm-reference-platforms/linux/fs/binfmt_elf.c:1722-1876 | The sum built up by the fill functions is the size of every note that any thread has |
| `CoreNotes.FillThread` | arm-reference-platforms/linux/fs/binfmt_elf.c:1722-1781 | Which notes are put inside the places allocated and which behind them; none is behind if and only if no note has a place at or past the number of note types |
| `CoreNotes.CountTypes` | arm-reference-platforms/linux/fs/binfmt_elf.c:1808-1811 | The places allocated are the register sets with a note type |
| `CoreNotes.WriteNotes` | arm-reference-platforms/linux/fs/binfmt_elf.c:1887-1919 | The position advances by the written size, whatever the interleaving of process and thread notes |
| `CoreLayout.ElfCoreDump` | arm-reference-platforms/linux/fs/binfmt_elf.c:2248-2397 | Note segment, every PT_LOAD and the section header start where the headers say, and the number of segments can be read back |
| `CoreLayout.NoteSegmentFilled` | arm-reference-platforms/linux/fs/binfmt_elf.c:2278-2292 | With note types first the note segment is also as long as its header says |
| `CoreLayout.SegsReadBack` | arm-reference-platforms/linux/fs/binfmt_elf.c:2189-2203 | The number of segments is recovered from `e_phnum` or `sh_info`, also at the escape value |
| `CoreLayout.WalkAreas` | arm-reference-platforms/linux/fs/binfmt_elf.c:2163-2187 | The iteration visits the list and then the gate area, each once |
| `CoreLayout.PlanCore` | arm-reference-platforms/linux/fs/binfmt_elf.c:2248-2350 | The headers promise a readable segment count, the note segment behind the program headers, the dumped areas one after the other from a page boundary, and the section header behind them |
| `CoreLayout.DumpAreas` | arm-reference-platforms/linux/fs/binfmt_elf.c:2366-2388 | Each area starts behind the ones before and takes the planned size |
| `FilesNote.FillFilesNote` | arm-reference-platforms/linux/fs/binfmt_elf.c:1604-1679 | The regrow loop ends; success is exactly count, page size, triples and NUL-terminated names without a gap, for every mix of areas; refusal only near the size limit; all writes are inside the buffer |
| `FilesNote.Buffer.PutEntries` | arm-reference-platforms/linux/fs/binfmt_elf.c:1631-1658 | Entries and names grow in two areas, or a name does not fit |
| `FilesNote.Buffer.PutName` | arm-reference-platforms/linux/fs/binfmt_elf.c:1638-1653 | A name found at the end of the room is moved behind the names so far |
| `FilesNote.Buffer.Compact` | arm-reference-platforms/linux/fs/binfmt_elf.c:1663-1676 | The names move down over the unused entries |
| `CharDev.RegisterAdds` | arm-reference-platforms/linux/fs/char_dev.c:99-171 | A registration adds its range and nothing else, and keeps every list strictly sorted if and only if the entry where the scan stopped is not of the same major at the same or a smaller number |
| `CharDev.RegisterIff` | arm-reference-platforms/linux/fs/char_dev.c:99-171 | A registration succeeds if and only if there is memory, the major asked for or a dynamic one is found and valid, and the overlap tests pass; the errors are told apart |
| `CharDev.AcceptedIff` | arm-reference-platforms/linux/fs/char_dev.c:144-165 | Where no minor at the stop is negative as a signed value, the tests refuse a range if and only if its first or last minor is in the entry where the scan stopped |
| `CharDev.AddedOverlaps` | arm-reference-platforms/linux/fs/char_dev.c:99-171 | So a range that is added overlaps a registered one only if that starts strictly inside it or its end wraps |
| `CharDev.ApartIsAdded` | arm-reference-platforms/linux/fs/char_dev.c:99-171 | And a non-empty range that overlaps none of a valid major is added |
| `CharDev.OverlapExample` | arm-reference-platforms/linux/fs/char_dev.c:151-165 | A range that runs into a registered one from the left and one that starts in it are both refused |
| `CharDev.SortedIff` | arm-reference-platforms/linux/fs/char_dev.c:137-165 | The same for one list, all lists and all ranges |
| `CharDev.MisplacedIff` | arm-reference-platforms/linux/fs/char_dev.c:137-165 | Where no minor of the new range and of the entry at the stop is negative as a signed value, an accepted range, empty or not, breaks the order if and only if an empty range is registered at its first number |
| `CharDev.OverlapIff` | arm-reference-platforms/linux/fs/char_dev.c:137-165 | Under the same condition an accepted range overlaps a registered one if and only if a non-empty one starts inside it, behind its first number, or it is not empty and an entry before the stop has an end that wraps in 32 bits |
| `CharDev.OverlapsInside` | arm-reference-platforms/linux/fs/char_dev.c:144-165 | From the stop on, it overlaps exactly the non-empty entries that start inside it |
| `CharDev.PassedOverIff` | arm-reference-platforms/linux/fs/char_dev.c:137-143 | The scan passes over an entry that a non-empty range overlaps if and only if the end of that entry wraps in 32 bits |
| `CharDev.EnclosedIff` | arm-reference-platforms/linux/fs/char_dev.c:144-165 | That an overlap from the stop on means that the entry at the stop is strictly enclosed holds if and only if it is not an empty range at the same number with another one starting inside |
| `CharDev.OverlapIsEnclosure` | arm-reference-platforms/linux/fs/char_dev.c:144-165 | With a non-empty entry at the stop and no wrapping ends, overlap is enclosure of that entry |
| `CharDev.EnclosingExample` | arm-reference-platforms/linux/fs/char_dev.c:144-165 | This happens: a range around a registered one is accepted |
| `CharDev.EmptyRangeExample` | arm-reference-platforms/linux/fs/char_dev.c:137-165 | A registered empty range breaks the strict order at the next registration from its number |
| `CharDev.SignedWrapExample` | arm-reference-platforms/linux/fs/char_dev.c:137-165 | So does a range that reaches minor 2^31, by the signed overlap tests, and the two overlap |
| `CharDev.EmptyStopExample` | arm-reference-platforms/linux/fs/char_dev.c:137-165 | An empty entry where the scan stops hides an overlap with the entry behind it |
| `CharDev.WrappedEndExample` | arm-reference-platforms/linux/fs/char_dev.c:137-143 | An entry whose end wraps in 32 bits is passed over by the scan, and the overlap with it is missed |
| `CharDev.UnregisterRemoves` | arm-reference-platforms/linux/fs/char_dev.c:174-192 | Exactly the range asked for is removed |
| `CharDev.RegisterUnregister` | arm-reference-platforms/linux/fs/char_dev.c:99-192 | Registering and unregistering leaves any table as it was, whatever the range |
| `CharDev.UnregisterCommutes` | arm-reference-platforms/linux/fs/char_dev.c:174-192 | Ranges of different majors can be unregistered in either order |
| `CharDev.DynamicMajorIsFree` | arm-reference-platforms/linux/fs/char_dev.c:65-86 | A dynamic major has no range and is the highest of the first dynamic range with an empty bucket, or else the highest free one of the second; refusal means that both are full |
| `CharDev.DynamicIsAdded` | arm-reference-platforms/linux/fs/char_dev.c:99-171 | A dynamic registration succeeds if and only if there is memory and a dynamic major is free |
| `CharDev.TakenIsRefused` | arm-reference-platforms/linux/fs/char_dev.c:137-165 | A number at which a non-empty range is registered is refused, where no minor is negative as a signed value |
| `CharDev.FailureRestores` | arm-reference-platforms/linux/fs/char_dev.c:203-226 | A failed registration over several majors restores any table exactly, if its numbers have a major |
| `CharDev.RollbackRestores` | arm-reference-platforms/linux/fs/char_dev.c:209-224 | Chunk by chunk the backward loop takes away what the forward loop has added up to a failure |
| `CharDev.RollbackCommutes` | arm-reference-platforms/linux/fs/char_dev.c:219-224 | The rollback of later majors does not depend on an earlier one being registered |
| `CharDev.RestoredIff` | arm-reference-platforms/linux/fs/char_dev.c:203-226 | It does if and only if the numbers have a major, or there was no memory or no dynamic major for the first chunk |
| `CharDev.ZeroMajorLeaks` | arm-reference-platforms/linux/fs/char_dev.c:203-226 | Without a major a dynamic one stays registered |
| `CharDev.CharDevs.FindDynamic` | arm-reference-platforms/linux/fs/char_dev.c:65-86 | The two scans find the major that the specification picks, which is free |
| `CharDev.CharDevs.RegisterOne` | arm-reference-platforms/linux/fs/char_dev.c:99-171 | The scan, the two overlap tests and the splice are the specified ones |
| `CharDev.CharDevs.UnregisterOne` | arm-reference-platforms/linux/fs/char_dev.c:174-192 | The scan and the unlinking are the specified ones |
| `CharDev.CharDevs.RegisterChunks` | arm-reference-platforms/linux/fs/char_dev.c:209-217 | The forward loop is the specified one, with the number at which it fails |
| `CharDev.CharDevs.Undo` | arm-reference-platforms/linux/fs/char_dev.c:219-224 | The backward loop is the specified one |
| `CharDev.CharDevs.RegisterRange` | arm-reference-platforms/linux/fs/char_dev.c:203-226 | The loop and its rollback; on failure with a major the table is as before |

## Left out

- Renames, `d_splice_alias` and memory reuse during a parallel lookup; every hash insertion is one of `__d_add`.
- A concurrent rename or kill during `d_walk`, and so its restart with the rename lock.
- The part of `__d_move` for a target that is still in lookup, and `fsnotify` and sequence counts around it.
- Parent references dropped by killers, `shrink_dcache_sb` and its own subtraction from the unused counter.
- Memory ordering and RCU grace periods: shared accesses take effect in one order, and freed memory is not reused.
- `aio_poll`, cancellation and ring-page migration; the compare-and-exchange loops of the slot counters are one step.
- Aliased whole devices (floppies), for which the code itself says that claims are not tracked, and `bd_write_holder`.
- DirectIoSubmit.Submitter.NewBio: does not model `pages_in_io`, so nothing is said about the check that a bio is asked for at least one page.
- Alignment checks, locking and i_size handling around direct I/O; 64-bit block and offset arithmetic does not overflow.
- `dio_complete` itself: error precedence, short reads at the end of the file, deferred completion work, cache invalidation.
- Other CPUs' buffer caches: their references are among those the array does not answer for.
- Error recovery of `__block_write_full_page` and buffers cleaned behind its back.
- Delayed and unwritten buffers, and the iomap variant of `__block_write_begin_int`.
- CoreNotes.CoreFile.Emit: counts bytes and does not say which bytes a short write repeats, because the loop does not advance its source address.
- The contents of notes other than that of mapped files, `vma_dump_size` beyond its three possible sizes, and overflow of sizes and offsets.
- The note variant without register sets, `binfmt_elf_fdpic.c`, and loading of ELF files.
- FilesNote.Buffer.FilePath: `file_path` answers the same name each time it is asked about a file, and too little room is the only reason for "too long".
- Names of devices, `cdev` objects and `alloc_chrdev_region`, which is one registration with major 0.
- CharDev.OverlapIff: which overlaps the signed tests miss is not characterised where the new range or the entry at the stop reaches minor 2^31; `SignedWrapExample` is such a case.
- The platform setup script, and the remaining files of `fs/`, are not modelled.
