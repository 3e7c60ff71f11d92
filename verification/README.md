# ARTBox core, modelled and proved

ARTBox runs Linux/Android guest code in user mode. This project models its portable core and the build tool that
rewrites guest code, and proves what those parts are for. One `dafny verify dfyconfig.toml` checks everything.

* **Binder driver.** `BinderState` and `BinderCommands` are the device tables and every command, delivery and lifecycle
  request as functions on a `Device` value. `BinderDevice` is the same driver with its tables updated in place, each
  routine proved equal to its function. `BinderLifetime`, `BinderParcels`, `BinderBuffers`, `BinderCalls`,
  `BinderOneWay` and `BinderDeaths` are the parts of one invariant; `BinderInvariant`, `BinderLifecycle`, `BinderSteps`
  and `BinderTransfer` show that every operation keeps it; `BinderRuns` closes it over runs and `BinderGuarantees` says
  what it means. `BinderHistory` relates the tables before and after a step, and `BinderCallbacks`, `BinderNotices` and
  `BinderQueues` use it for statements about whole runs; `BinderMeaning` shows that received objects keep their meaning,
  `BinderAnswers` that every call is answered, and `BinderProgress` that whatever is queued is handed out. `BinderAccepts`
  says exactly when calls, replies and parcels are accepted, `BinderEffects` and `BinderOutcomes` what single commands
  achieve. `BinderArena` and `ArenaBytes` are the receive allocator, `BinderWire` and `BinderCodec` the byte streams.
* **SVC rewriting.** `SvcMachine` gives meaning to the AArch64 instructions the packager admits or emits, `SvcRewrite`
  is the packager, `SvcSimulation` the forward simulation.
* **ELF loading.** `GnuHash` (validated symbol index), `Relocation` (plan, then commit), `Linker` (load groups).
* **Virtual memory.** `VmPages`, `VirtualMemory` and `AddressSpace` (region list, page map, accounts, watches,
  poisoning), `FaultHandshake` (lock-free fault readers).
* **Waiting and counting.** `Futex` (the queue), `FutexWait` (the wait loop), `Eventfd`, `Timerfd`.

How the source is represented:

* A Binder run interleaves single commands, whole reads, thread exits and process reaping in any order; every real
  interleaving under the device lock is one of these. Endpoints and threads are maps keyed by token and by token and
  TID, because the driver finds them by those only. Unused table slots hold the zero values the driver stores.
  `Status.Broken` marks the returns the driver reserves for inconsistent tables; `NeverBroken` shows that none is reached.
  Death subscriptions carry a serial number the driver does not have, so that a run can tell reuses of a slot apart.
* What the driver reads from guest memory (commands, packets, parcel objects) and whether the guest's output buffer can
  be written are inputs of a step. A mapping watch only loses bits, as the virtual memory part shows.
* Host calls (reserve, protect, reset, release), symbol resolvers, TLS binders and initialisers are parameters with the
  contract the code relies on: fresh storage is whole pages of the address space, disjoint from what is there; errors
  are nonzero.
* Masks and shifts are written as division and remainder by powers of two; `OR` of disjoint fields as addition.
* The callee of a rewritten system call is any function that follows AAPCS64 section 6.1.1: it keeps x19 to x29 and SP
  and writes no stack above SP; everything else it may leave in registers, flags and the stack below SP is arbitrary.
  The dispatcher behind it is any function of the calls so far, the call and the memory the guest may see.
* Concurrency is a state machine over atomic steps (`FaultHandshake`, `Eventfd`, `FutexWait`), or over the critical
  sections of the one lock that serialises an object (Binder, `Futex`). A wake signal is retained until a wait consumes it.

Where a property fails, the exact condition is proved. Timer scans agree at every time but the last representable one;
there they agree if and only if no deadline was capped or the tick count is saturated (`LastInstant`,
`LastInstantDiffers`).

## Model

| member | source | states |
|---|---|---|
| BinderRuns.NextInv | core/src/binder_device.cpp:101-141 | every enabled step keeps the whole device invariant and never returns an internal error |
| BinderRuns.RunInv | core/src/binder_device.cpp:825-856 | the invariant holds in every state of every run from creation |
| BinderRuns.NeverBroken | core/src/binder_device.cpp:598-604 | no step of any run reaches the returns kept for inconsistent calls, transactions or buffers |
| BinderRuns.RunContinues | core/src/binder_device.cpp:498-510 | any enabled step extends a run; no malformed arena blocks one |
| BinderGuarantees.ReferencesSound | core/src/binder_device.cpp:291-309 | in every reachable state a live reference has as many temporary counts as remote claims, a nonzero count, an uncollected node, and the only handle and the only import of that node in its endpoint |
| BinderGuarantees.HandlesResolve | core/src/binder_device.cpp:442-469 | every buffer in use has its parcel, and every handle in it still resolves for its receiver |
| BinderMeaning.StepKept | core/src/binder_device.cpp:442-455 | no step changes the objects or the claims of a buffer that is in use before and after it |
| BinderMeaning.HandlesKeepMeaning | core/src/binder_device.cpp:456-469 | in every run, while a buffer is unfreed each of its handles denotes the node it denoted when written |
| BinderMeaning.SentMeaningLasts | core/src/binder_device.cpp:498-560 | in every run, until its buffer is freed each handle of an accepted parcel denotes for the receiver the node the sender's object denoted |
| BinderGuarantees.DeathSlotsSound | core/src/binder_device.cpp:306-309 | death slots neither dangle nor are shared, and an armed one's owner is registered |
| BinderGuarantees.CallersNotStranded | core/src/binder_device.cpp:470-497 | a waiting caller has exactly one live transaction, queued exactly once or served by exactly one thread, and serves none itself |
| BinderAnswers.WaitEndsAnswered | core/src/binder_device.cpp:479-497 | whatever step ends a thread's wait leaves it a queued reply or the dead-reply error |
| BinderAnswers.CallsAreAnswered | core/src/binder_device.cpp:470-497 | in every run, a caller that no longer waits for a call has an answer coming or has read one |
| BinderAnswers.AnswerStays | core/src/binder_device.cpp:677-751 | in every run, a queued reply or a dead-reply error stays until its thread reads it, for as long as there is the thread |
| BinderAnswers.LeavingAnswers | core/src/binder_device.cpp:479-490 | when a thread or process leaves in the middle of a call, its caller gets the dead-reply error and its server is told that nobody waits |
| BinderAnswers.ServiceEndsTold | core/src/binder_device.cpp:483-486 | a thread stops serving only by queueing its reply or by being told that nobody waits |
| BinderAnswers.DeadReplyStays | core/src/binder_device.cpp:597-599 | in every run, a server that was told stays told until its next reply, which gets the dead-reply error |
| BinderAnswers.LateReply | core/src/binder_device.cpp:597-599 | the reply of a server that was told gets the dead-reply error at once and once, and queues nothing |
| BinderProgress.ReadOrder | core/src/binder_device.cpp:689-700 | a read first hands over the thread's error, else the first callback owed to it, else a completion, else the first parcel it may take, else the first notice it may hear, and hands over nothing only when there is none of these |
| BinderProgress.ReadProgress | core/src/binder_device.cpp:677-751 | a read with room for one delivery brings a waiting parcel or notice or hands over only what was ahead of it, unless the item was for any idle thread and this one took a call; a read long enough brings a parcel at once |
| BinderProgress.ReadsBring | core/src/binder_device.cpp:677-751 | in every run, a thread that reads on gets whatever parcel or notice waits for it after at most as many reads as there were deliveries ahead, unless it was for any idle thread and this one took a call |
| BinderProgress.AnswerArrives | core/src/binder_device.cpp:677-751 | in every run, a caller that reads on gets the reply or dead-reply error it is owed |
| BinderGuarantees.NeverReused | core/src/binder_device.cpp:262-271 | a node, transaction or endpoint identity once used up never names anything again |
| BinderEffects.CallReachesOwner | core/src/binder_device.cpp:579-636 | an accepted call goes to the owner of the live node its handle names, carries the caller's identity and words, and is what the caller waits for |
| BinderEffects.CallIsStored | core/src/binder_device.cpp:552-621 | a queued call lies in one fresh undelivered buffer of its receiver's arena, data first, offsets on the next multiple of eight |
| BinderEffects.ReplyReachesCaller | core/src/binder_device.cpp:597-636 | an accepted reply goes to the calling thread, ends the transaction on both sides and carries the replier's identity |
| BinderEffects.ReplyIsStored | core/src/binder_device.cpp:552-621 | a queued reply lies in one fresh undelivered buffer of its caller's arena, data first, offsets on the next multiple of eight |
| BinderAccepts.CallAccepted | core/src/binder_device.cpp:567-626 | a call is queued exactly when its flags are known, its thread has no error pending and room, a two-way caller is in no call and a transaction is free, the node it names is alive in another process, and its parcel lands there |
| BinderAccepts.UnreachableIs | core/src/binder_device.cpp:580-592 | a call to a node that is gone gets the dead-reply error, any other call without a reachable node the failed-reply error |
| BinderAccepts.ReplyAccepted | core/src/binder_device.cpp:567-626 | a reply is queued exactly when its flags are known, its thread has no error pending and room, it serves a call whose caller was not cancelled, and its parcel lands with the caller |
| BinderAccepts.LandsIs | core/src/binder_device.cpp:498-560 | a parcel is deposited exactly when the receiver's mapping is intact, its sizes are in bounds, it is well formed, some gap of the arena is large enough, and its node and objects can be claimed |
| BinderAccepts.TranslateIs | core/src/binder_device.cpp:530-551 | the objects of a parcel are accepted exactly when each, after those before it, stands for a node the sender owns, may export or holds, and the receiver can hold that node |
| BinderEffects.FreedIsGone | core/src/binder_device.cpp:637-658 | a freed buffer is gone with its parcel and claims, and freeing it again is refused |
| BinderEffects.CountRoundTrip | core/src/binder_device.cpp:327-334 | taking a count adds one to exactly that count, and giving it back restores the device |
| BinderEffects.SubscribeThenClear | core/src/binder_device.cpp:375-397 | a subscription takes one free slot and nothing else; asking again or clearing with another cookie does nothing; clearing gives the reference back and leaves exactly that slot to answer |
| BinderEffects.SettledOnce | core/src/binder_device.cpp:365-374 | one acknowledgement settles a delivered notice, changes no other slot, and none settles it again |
| BinderOutcomes.FreeAccepted | core/src/binder_device.cpp:637-644 | a buffer is freed exactly when it is a delivered one of the process; otherwise nothing changes |
| BinderOutcomes.CountMoves | core/src/binder_device.cpp:310-335 | a count command moves one count of the reference its handle names, drops the reference with its last count, and does nothing without a reference or at the end of the count |
| BinderOutcomes.ManagerCount | core/src/binder_device.cpp:318-324 | taking a count of handle zero takes one of the manager's node, whose reference is made if there is none, and is refused to the manager itself |
| BinderOutcomes.Acknowledges | core/src/binder_device.cpp:336-354 | an acknowledgement clears exactly that mark of exactly the node its pointer and cookie name, and does nothing without one |
| BinderOutcomes.SubscribesWhen | core/src/binder_device.cpp:376-390 | a subscription is taken exactly when its reference exists and has none and a slot is free |
| BinderOutcomes.ClearsWhen | core/src/binder_device.cpp:391-397 | clearing with the right cookie frees the reference and queues the answer at once if no notice is on its way, for the clearing thread if that is a looper and for any otherwise |
| BinderOutcomes.SettlesWhen | core/src/binder_device.cpp:365-374 | an acknowledgement settles a delivered notice of that cookie if there is one, and routes the answer to a clearing |
| BinderOutcomes.LooperTakesWork | core/src/binder_device.cpp:107-117 | a thread in no call takes process work once it entered its looper, unless it also registered, and until it leaves |
| BinderOutcomes.OpensWhen | core/src/binder_device.cpp:869-887 | an open succeeds exactly while tokens and slots last, takes the next token and changes no other process |
| BinderOutcomes.AdmitsWhen | core/src/binder_device.cpp:240-247 | a thread is admitted once, as one that has done nothing, exactly while its process has room for it |
| BinderOutcomes.ManagesWhen | core/src/binder_device.cpp:994-1008 | a process becomes the manager exactly when there is none, no other user ever was, it does not own that node, and a node can be made; which error is returned otherwise |
| BinderOutcomes.ExitClears | core/src/binder_device.cpp:1009-1016 | after a thread's exit no parcel, notice or node is addressed to it |
| BinderOutcomes.ReleaseClears | core/src/binder_device.cpp:756-777 | after a release nothing of the process is left, its nodes are dead, and no subscription to it is armed |
| BinderParcels.TranslationPreservesMeaning | core/src/binder_device.cpp:530-550 | every object a receiver is given denotes the node the sender's object denoted |
| BinderParcels.RefusedDepositRollsBack | core/src/binder_device.cpp:526-560 | a refused parcel leaves references, claims, nodes, deaths, buffers and parcels as they were |
| BinderParcels.UnclaimUndoes | core/src/binder_device.cpp:442-455 | releasing a buffer's claims undoes exactly what claiming for it did |
| BinderTransfer.ReservePayloadEffect | core/src/binder_device.cpp:498-560 | a parcel is either refused with only the node counter moved or deposited with all its claims |
| BinderTransfer.CallCommandInv | core/src/binder_device.cpp:561-636 | a call keeps the invariant in each of its outcomes |
| BinderTransfer.ReplyCommandInv | core/src/binder_device.cpp:598-627 | a reply keeps the invariant and finds its caller waiting for exactly that transaction |
| BinderTransfer.ServedCall | core/src/binder_device.cpp:599-604 | a serving thread's transaction exists and its caller waits for it |
| BinderInvariant.CancelInv | core/src/binder_device.cpp:479-497 | cancelling a thread's or a process's calls keeps the invariant and leaves none involving it |
| BinderLifecycle.ThreadExitInv | core/src/binder_device.cpp:1009-1016 | a thread's exit keeps the invariant |
| BinderLifecycle.ReleaseEndpointInv | core/src/binder_device.cpp:756-777 | releasing a process keeps the invariant and removes exactly its token |
| BinderSteps.ReferenceCommandInv | core/src/binder_device.cpp:310-335 | count commands keep the invariant |
| BinderSteps.NodeDoneInv | core/src/binder_device.cpp:336-354 | acknowledgements keep the invariant |
| BinderSteps.FreeInv | core/src/binder_device.cpp:637-658 | freeing a received buffer keeps the invariant |
| BinderSteps.RequestDeathInv | core/src/binder_device.cpp:375-390 | a death request keeps the invariant |
| BinderSteps.ClearDeathInv | core/src/binder_device.cpp:391-397 | clearing a death request keeps the invariant |
| BinderSteps.DeathDoneInv | core/src/binder_device.cpp:365-374 | acknowledging a death keeps the invariant |
| BinderSteps.DeliverWorkInv | core/src/binder_device.cpp:737-747 | handing out a queued parcel keeps the invariant and finds its buffer and transaction |
| BinderRuns.ReadLoopInv | core/src/binder_device.cpp:677-751 | a read of any size keeps the invariant |
| BinderRuns.SetManagerInv | core/src/binder_device.cpp:994-1008 | becoming the context manager keeps the invariant |
| BinderRuns.OpenInv | core/src/binder_device.cpp:869-887 | opening an endpoint keeps the invariant |
| BinderLifetime.ReleaseClaimLinked | core/src/binder_device.cpp:443-453 | releasing one claim keeps counts, references and claims consistent |
| BinderLifetime.CollectLinked | core/src/binder_device.cpp:283-290 | collection removes no node that a reference or claim needs |
| BinderCallbacks.AcceptedIsLegal | core/src/binder_device.cpp:404-412 | whatever the callback protocol accepts is INCREFS (ACQUIRE RELEASE)* DECREFS with each undo after its acknowledgement |
| BinderCallbacks.OwedIsAllowed | core/src/binder_device.cpp:404-412 | the callback the driver owes is always one the protocol allows next, and DECREFS leaves nothing to hold the node |
| BinderCallbacks.CallbacksAreLegal | core/src/binder_device.cpp:724-730 | in every run a node's callbacks are a legal prefix, RELEASE follows ACQUIRE_DONE, DECREFS follows INCREFS_DONE, and DECREFS ends the node |
| BinderNotices.NoticesAtMostOnce | core/src/binder_device.cpp:731-736 | in every run a subscription emits at most one DEAD_BINDER and at most one CLEAR_DONE, the latter last |
| BinderNotices.DeathAfterRelease | core/src/binder_device.cpp:430-441 | in every run DEAD_BINDER is delivered only after the owner's endpoint was released |
| BinderNotices.DepartedWasReaped | core/src/binder_device.cpp:756-777 | a token that is gone was removed by a release of that endpoint |
| BinderQueues.OneWayInOrder | core/src/binder_device.cpp:637-658 | in every run a node's accepted one-way parcels are those delivered, then those lost with its owner, then those queued, in order, and at most one is delivered and unfreed |
| BinderQueues.ExitQueue | core/src/binder_device.cpp:479-497 | a thread's exit drops no accepted one-way parcel |
| BinderQueues.FirstAndOnly | core/src/binder_device.cpp:659-670 | the parcel handed out is its node's first queued one and no other of the node is out |
| BinderHistory.StepQuiet | core/src/binder_device.cpp:283-290 | between deliveries flags, notices and delivered buffers change only as allowed and identities only grow |
| BinderDevices.BinderDevice.CollectNodes | core/src/binder_device.cpp:283-290 | the loop empties exactly the unused nodes |
| BinderDevices.BinderDevice.ReleaseClaims | core/src/binder_device.cpp:442-455 | the loop does what the claim release of the state machine does |
| BinderDevices.BinderDevice.DropQueued | core/src/binder_device.cpp:470-476 | a dropped entry's buffer and claims go with it |
| BinderDevices.BinderDevice.CancelTransactions | core/src/binder_device.cpp:479-497 | the two loops do what the cancellation of the state machine does |
| BinderDevices.BinderDevice.Import | core/src/binder_device.cpp:291-305 | one pass and a handle search find or make the import the state machine makes |
| BinderDevices.BinderDevice.DepositParcel | core/src/binder_device.cpp:524-560 | the object loop with its rollback does what the state machine does |
| BinderDevices.BinderDevice.ReserveParcel | core/src/binder_device.cpp:498-560 | the checks before a deposit are the state machine's |
| BinderDevices.BinderDevice.Transact | core/src/binder_device.cpp:561-636 | a call does what the state machine does |
| BinderDevices.BinderDevice.Answer | core/src/binder_device.cpp:597-636 | a reply does what the state machine does |
| BinderDevices.BinderDevice.FreePacket | core/src/binder_device.cpp:637-658 | freeing a buffer, the search for its node and the next queued parcel included, does what the state machine does |
| BinderDevices.BinderDevice.AdjustHandle | core/src/binder_device.cpp:310-335 | count commands do what the state machine does |
| BinderDevices.BinderDevice.AcknowledgeNode | core/src/binder_device.cpp:336-354 | acknowledgements do what the state machine does |
| BinderDevices.BinderDevice.ReadWork | core/src/binder_device.cpp:677-751 | the read loop delivers and changes what the state machine does |
| BinderDevices.BinderDevice.ForgetReferences | core/src/binder_device.cpp:430-441 | three loops that drop references with their slots, end or queue subscriptions and bury nodes give exactly the tables of the state machine |
| BinderDevices.BinderDevice.ReleaseProcess | core/src/binder_device.cpp:756-777 | releasing a process does what the state machine does |
| BinderDevices.BinderDevice.ExitThread | core/src/binder_device.cpp:1009-1016 | cancelling, rerouting and wiping entry by entry gives exactly the tables of the state machine |
| BinderArena.ReserveIsBestFit | core/src/binder_arena.cpp:48-86 | a reservation fails only if no gap fits and otherwise takes the lowest of the smallest sufficient gaps |
| BinderArena.ReserveLaid | core/src/binder_arena.cpp:64-84 | a reservation keeps buffers sorted, disjoint, aligned and in range |
| BinderArena.RemoveHolds | core/src/binder_arena.cpp:111-129 | cancelling and releasing remove exactly the buffer of that address and delivery state |
| BinderArena.PublishHolds | core/src/binder_arena.cpp:100-110 | publishing marks exactly that buffer delivered |
| ArenaBytes.ApplyValid | core/src/binder_arena.cpp:40-129 | every operation keeps the layout |
| ArenaBytes.TakeMeans | core/src/binder_arena.cpp:80-85 | a reservation adds one buffer, zeroes it and no other byte; a refused one changes nothing |
| ArenaBytes.FillMeans | core/src/binder_arena.cpp:87-99 | a write puts its data at its offset in the undelivered buffer of that address exactly when it fits there, and changes no other byte |
| ArenaBytes.GoneMeans | core/src/binder_arena.cpp:111-129 | cancelling and releasing remove exactly the buffer of that address and kind and zero its bytes exactly if it asked for that |
| ArenaBytes.DiscardMeans | core/src/binder_arena.cpp:40-47 | discarding forgets every buffer and zeroes the bytes of all of them and no others |
| ArenaBytes.AlwaysLaid | core/src/binder_arena.cpp:40-129 | from an empty arena the layout holds and the size stays in every state of every run |
| ArenaBytes.DeliveredStays | core/src/binder_arena.cpp:87-123 | no operation but its release touches a delivered buffer's place or bytes |
| ArenaBytes.DeliveredNeverRewritten | core/src/binder_arena.cpp:87-123 | in every run delivered bytes stay as they were until released |
| ArenaBytes.BestGap | core/src/binder_arena.cpp:64-75 | the scan finds the best gap |
| ArenaBytes.Arena.Reserve | core/src/binder_arena.cpp:48-86 | reserving changes layout and bytes as specified, zeroing its own extent only |
| ArenaBytes.Arena.Write | core/src/binder_arena.cpp:87-99 | a write changes bytes of its own undelivered buffer only |
| ArenaBytes.Arena.Publish | core/src/binder_arena.cpp:100-110 | publishing changes no byte |
| ArenaBytes.Arena.Remove | core/src/binder_arena.cpp:111-123 | removing clears at most the buffer's own extent |
| ArenaBytes.Arena.Discard | core/src/binder_arena.cpp:40-47 | discarding zeroes every extent and forgets every buffer |
| BinderCodec.PrintParses | core/src/binder_wire.c:41-62 | any sequence of well-formed frames parses back to itself and ends the stream |
| BinderCodec.PacketRoundTrip | core/src/binder_wire.c:63-88 | a packet decodes from its frame to the same values |
| BinderCodec.ReadParsesBack | core/src/binder_device.cpp:677-751 | after a successful read the bytes parse as NOOP and the delivered events in order, fit the buffer, and each parcel decodes to its queued value |
| BinderCodec.CommandConsumes | core/src/binder_device.cpp:101-141 | an accepted command consumes its word and its wire length, which is one frame of the parser |
| BinderCodec.CommandRoundTrip | core/src/binder_wire.c:11-62 | a written command is read back |
| SvcRewrite.InspectText | tools/pack_elf.py:103-142 | the loop accepts exactly the acceptable texts and returns their SVC sites in order |
| SvcRewrite.AdmitsExactly | tools/pack_elf.py:106-138 | a word is admitted exactly when it is an audited instruction that names none of x18, x27 and x28, an ADR inside the image, or a branch inside the text |
| SvcMachine.DecodeInverts | tools/pack_elf.py:110-135 | every audited instruction is read back from its architectural encoding |
| SvcRewrite.SitesAre | tools/pack_elf.py:106-112 | the sites are exactly the SVC instructions, increasing |
| SvcRewrite.Branch | tools/pack_elf.py:145-148 | a branch is encoded exactly when in range and decodes to its distance |
| SvcRewrite.BuildVeneer | tools/pack_elf.py:151-170 | the loops build the specified veneer |
| SvcRewrite.VeneerDecodes | tools/pack_elf.py:151-170 | each veneer word means the save, move, call or restore it is there for |
| SvcRewrite.Transform | tools/pack_elf.py:173-181 | the loop builds the specified payload and fails only on rejected text or range |
| SvcRewrite.RewrittenSites | tools/pack_elf.py:173-181 | each site branches to its own complete veneer that branches back after it |
| SvcRewrite.RewrittenElsewhere | tools/pack_elf.py:173-181 | every other instruction is unchanged |
| SvcRewrite.RewrittenBytes | tools/pack_elf.py:173-181 | every byte outside rewritten words is unchanged |
| SvcRewrite.PayloadExists | tools/pack_elf.py:45-46 | for images up to 1 MiB no veneer is out of branch range |
| SvcSimulation.OrdinaryRelated | tools/pack_elf.py:113-135 | every admitted instruction but SVC acts alike on both sides |
| SvcSimulation.VeneerReturns | tools/pack_elf.py:151-170 | a veneer asks the dispatcher for the guest's call with the guest's visible memory, and changes only x0 and what the answer writes, as far as the guest can see |
| SvcSimulation.StepSimulates | tools/pack_elf.py:103-181 | one original step is matched by one or thirty-three packaged ones and stays in the text |
| SvcSimulation.PackagingPreservesMeaning | tools/pack_elf.py:103-181 | for every dispatcher that answers from the calls so far, the call and the memory the guest may see, any run of the original is matched by a payload run with the same system calls, registers, SP, flags and memory |
| SvcSimulation.LoadedAlike | tools/pack_elf.py:173-181 | image and payload loaded at the same place agree everywhere but in rewritten words, in the appended veneers and below SP |
| SvcSimulation.PackagedGuestRuns | tools/pack_elf.py:103-181 | loaded at the same place and started alike, the packaged guest matches any number of original steps |
| GnuHash.ComputeHash | core/src/dynamic.c:33-37 | the loop computes the hash |
| GnuHash.HashIsPolynomial | core/src/dynamic.c:33-37 | the hash is 5381 * 33^n plus each byte times 33 to the number of bytes after it, modulo 2^32 |
| GnuHash.ReadShape | core/src/dynamic.c:185-220 | counts exactly the tables whose highest chain ends in range, to the end of that chain, and says exactly which headers are too large |
| GnuHash.Validate | core/src/dynamic.c:222-266 | accepts exactly the indexes whose entries agree and whose chains cover the count |
| GnuHash.WalkBucket | core/src/dynamic.c:245-262 | one chain is accepted exactly when all its entries agree and it ends |
| GnuHash.ChainsSize | core/src/dynamic.c:244-263 | chains of different buckets are disjoint, so their lengths add up |
| GnuHash.EverySymbolIndexed | core/src/dynamic.c:244-263 | after validation every indexed symbol is on exactly one chain, its own hash's |
| GnuHash.WantedVersion | core/src/dynamic.c:391-395 | the wanted index is that of the last defined version of the name, or 1 |
| GnuHash.Lookup | core/src/dynamic.c:386-426 | a lookup finds the lowest defined global or unique symbol of default or protected visibility with that name and version, else the highest such weak one, else nothing exactly when there is none, and never an error |
| Relocation.CheckMemory | core/src/relocation.c:43-65 | accepts exactly separate regions that fit writable segments and avoid the image |
| Relocation.MemoryMeans | core/src/relocation.c:43-65 | byte by byte: every region is all of a writable, not executable segment, shares no byte with the image or another region, and has its segment to itself |
| Relocation.HostFollows | core/src/relocation.c:66-76 | disjoint addresses have disjoint host bytes |
| Relocation.GapsSuffice | core/src/relocation.c:194-197 | adjacent gaps after sorting make all host writes pairwise disjoint |
| Relocation.SortOrdered | core/src/relocation.c:130-133 | sorting orders and permutes the plan |
| Relocation.PrepareRela | core/src/relocation.c:93-104 | the loop plans exactly the entries or reports the first error |
| Relocation.PrepareRelr | core/src/relocation.c:105-129 | the cursor loop plans exactly the decoded addresses with their old contents as addends, or rejects a malformed table |
| Relocation.DecodedIsDenoted | core/src/relocation.c:105-129 | decoding yields exactly the addresses the RELR format denotes |
| Relocation.PlanFits | core/src/relocation.c:179-187 | the plan never exceeds its capacity and every write lies in a region |
| Relocation.AcceptableIs | core/src/relocation.c:175-219 | planning, the adjacent-gap check and binding succeed exactly when every denoted address and entry has a slot in writable memory, every entry a known kind and a value, and no two slots overlap |
| Relocation.CommittedIs | core/src/relocation.c:198-232 | committing the bound plan gives every slot its value computed from the original memory |
| Relocation.ApplyAssigns | core/src/relocation.c:229-232 | committing disjoint writes assigns every slot and nothing else |
| Relocation.OrderIrrelevant | core/src/relocation.c:229-232 | any order of commits gives the same memory |
| Relocation.Relocate | core/src/relocation.c:166-237 | succeeds exactly on acceptable input and changes nothing otherwise; every RELR slot gets its old word plus the bias, every entry's slot addend plus bias, addend plus what its symbol resolves to, or its descriptor pair, and no other byte changes |
| Base.BytesRoundTrip | core/src/relocation.c:21-30 | a stored word reads back |
| Linker.Scope | core/src/linker.cpp:111-169 | breadth-first scope is a duplicate-free enumeration of the reachable modules, nearest to the root first, or some reachable module lacks a dependency |
| Linker.LoadGroup.Visit | core/src/linker.cpp:77-82 | a visit ends on any graph, finishes what it reaches once, and puts dependencies first |
| Linker.AcyclicOrder | core/src/linker.cpp:77-82 | on an acyclic graph every dependency precedes its dependents |
| Linker.Create | core/src/linker.cpp:97-173 | scope, nearest first, and initialisation order, dependencies first, both enumerate exactly the reachable modules |
| Linker.LoadGroup.Relocate | core/src/linker.cpp:315-340 | succeeds exactly when every module in scope is relocatable; a failure leaves all memory and the state, a success relocates exactly the modules in scope |
| Linker.RelocateCopy | core/src/linker.cpp:321-330 | a staged copy is relocated as a whole exactly when it is relocatable |
| Linker.LoadGroup.Initialize | core/src/linker.cpp:350-374 | from a relocated group, succeeds exactly when every initialiser is executable and works; calls nothing if one is not executable, else all up to the first that fails; the group has failed exactly then |
| Linker.CallsAre | core/src/linker.cpp:354-366 | the calls are each module's initialisers in order, module after module |
| VmPages.ViewUpdate | core/src/vm.cpp:86-91 | changing one region changes the page map inside it only |
| VirtualMemory.ReplaceSteps | core/src/vm.cpp:286-294 | rewriting whole pages of a region changes exactly those bytes of the page map and keeps every account |
| VirtualMemory.WatchesUpdate | core/src/vm.cpp:39-50 | an intact watch keeps meaning that every page is the file's |
| VirtualMemory.BytesMean | core/src/vm.cpp:102-112 | checking pages is checking every byte |
| AddressSpaces.AddressSpace.Access | core/src/vm.cpp:102-112 | access is allowed exactly inside one region whose bytes all permit it, and never once poisoned |
| AddressSpaces.AddressSpace.MapFixed | core/src/vm.cpp:279-296 | succeeds exactly on a range of one owned region above its guard that the host resets, overrides exactly that range, and poisons exactly when the host fails |
| AddressSpaces.AddressSpace.Mmap | core/src/vm.cpp:244-324 | succeeds exactly on valid arguments with a place to map, says where, and overrides exactly the range it returns, readable exactly if reading or writing was asked for and writable exactly if writing was; otherwise changes nothing or poisons |
| AddressSpaces.AddressSpace.MapNew | core/src/vm.cpp:297-323 | succeeds exactly when there is room and the host gives and prepares storage, and adds exactly its pages and its length to the account |
| AddressSpaces.AddressSpace.MapFile | core/src/vm.cpp:344-401 | succeeds exactly on valid arguments, an acquired file, room and prepared storage, and adds file pages readable and writable as asked, write-denied when the file is read only, with an intact watch when asked |
| AddressSpaces.AddressSpace.ReserveWindow | core/src/vm.cpp:198-232 | succeeds exactly on a valid window with room and usable storage, and adds a guarded region without a mapped page |
| AddressSpaces.FindHole | core/src/vm.cpp:253-278 | finds a place exactly when the window has a hole above its guard: the hint if it is free, else the lowest |
| AddressSpaces.AddressSpace.Mprotect | core/src/vm.cpp:415-439 | succeeds exactly when the range is in one protectable region, all mapped, no write denied that is asked for, and the host agrees; makes exactly the range readable and writable as asked and updates never a watch |
| AddressSpaces.AddressSpace.Munmap | core/src/vm.cpp:440-475 | succeeds exactly when everything in the way is owned and the host agrees to each release and reset; restricts the page map to outside the range |
| AddressSpaces.AddressSpace.RegisterData | core/src/vm.cpp:541-562 | succeeds exactly on an aligned range that overlaps nothing and has room, and adds exactly its pages, readable and writable as asked, and nothing to the account |
| AddressSpaces.AddressSpace.Madvise | core/src/vm.cpp:477-512 | succeeds exactly on mapped owned pages for which the host agrees to discard every run of equal pages; changes no page |
| AddressSpaces.AskSpans | core/src/vm.cpp:494-510 | the two loops ask the host for exactly the maximal runs of equal pages |
| AddressSpaces.GuardNeverMapped | core/src/vm.cpp:285-286 | guard bytes are never mapped |
| AddressSpaces.DeniedUntilReplaced | core/src/vm.cpp:430-432 | over any sequence of operations a page of a read-only file stays marked and never becomes writable until something else takes its place |
| AddressSpaces.IntactKeepsFile | core/src/vm.cpp:22-25 | an intact watch implies that all its file pages remain |
| FaultHandshake.RunInv | core/src/vm.cpp:125-148 | the counter, the gate and the writers' turns agree in every interleaving |
| FaultHandshake.NeverTogether | core/src/vm.cpp:125-148 | no acquired reader coexists with a writer past its wait loop |
| FaultHandshake.ReaderIsWaitFree | core/src/vm.cpp:136-148 | a reader's next step is always possible and it finishes within four |
| FaultHandshake.ReaderAcquires | core/src/vm.cpp:136-148 | with the gate down an undisturbed reader acquires in three steps, counted once, and leaves in a fourth; with it up a reader turns back or uncounts itself |
| FaultHandshake.WriterGetsIn | core/src/vm.cpp:125-135 | an announced writer waits only for readers that were past the gate: no reader step adds to what they still have to do, theirs take from it, and with nothing left its next step lets it in |
| Futex.Queue.Wake | core/src/futex.cpp:27-39 | wakes exactly the earliest eligible waiters: up to the count if that is positive, one otherwise |
| Futex.Queue.Requeue | core/src/futex.cpp:96-124 | wakes the earliest, moves the next, counts each once even for equal keys |
| Futex.ServedMeans | core/src/futex.cpp:27-39 | of the waiters at the address, of the same privacy and with a common bit, the first in queue order are woken, the next moved, and nobody else is touched |
| Futex.ServedMarks | core/src/futex.cpp:27-39 | a wake marks exactly as many waiters as it reports |
| Futex.WakesConserved | core/src/futex.cpp:136-178 | in every run marked waiters are waits that returned zero plus woken waiters still queued |
| Futex.WokenStays | core/src/futex.cpp:27-39 | whatever is done to the queue, a woken waiter stays woken and queued until it leaves |
| FutexWait.RunInv | core/src/futex.cpp:136-178 | lock, queue, results and signals agree in every interleaving of the wait loop, wakes, requeues and guest stores |
| FutexWait.WaitBegins | core/src/futex.cpp:145-154 | a wait is queued last, not woken, exactly when its word is there with the expected value and there is room; otherwise it ends with the reason |
| FutexWait.WaitSleeps | core/src/futex.cpp:155-173 | a queued wait goes to sleep exactly when it is not interrupted and its deadline has not passed; otherwise it leaves with the reason |
| FutexWait.ReturnsZeroIffWoken | core/src/futex.cpp:155-176 | in every interleaving a wait that leaves the queue returns zero exactly when its waiter was woken |
| FutexWait.ConservedThroughout | core/src/futex.cpp:136-178 | in every interleaving marked waiters are waits that returned zero plus woken waiters still queued |
| FutexWait.BlockedIsSignalled | core/src/futex.cpp:155-173 | a thread blocked on a woken waiter has been signalled |
| FutexWait.StoreThenWake | core/src/futex.cpp:144-153 | once the word has changed and a wake found fewer waiters than it may wake, nobody waiting for the old value there is left asleep or falls asleep |
| Eventfd.RunInv | core/src/vfs.cpp:223-270 | lock, registration, wake-up and counter invariants hold in every interleaving |
| Eventfd.CountsExactly | core/src/vfs.cpp:241-248 | the counter stays below 2^64-1 and is initial plus writes minus reads |
| Eventfd.CallEffect | core/src/vfs.cpp:241-247 | a read goes ahead exactly when there is a count and takes all of it, or one of a semaphore; a write exactly when the sum stays below 2^64-1, and adds its value |
| Eventfd.SleepersAreWoken | core/src/vfs.cpp:183-216 | a sleeper whose operation is possible has a retained wake-up whenever the lock is free |
| Eventfd.NotifyReaches | core/src/vfs.cpp:29-36 | a notification reaches every sleeper |
| Timerfd.CountExact | core/src/vfs.cpp:293-294 | ticks counted are exactly the expirations whose time has come |
| Timerfd.OneShot | core/src/vfs.cpp:291-298 | a timer without an interval gives exactly one tick once it is due and never another |
| Timerfd.TicksSaturate | core/src/vfs.cpp:294 | a scan adds the expirations it finds to the unread ones, up to 2^64-1 |
| Timerfd.NextDeadline | core/src/vfs.cpp:295-297 | the next deadline is the first expiration after now, capped |
| Timerfd.PathIndependent | core/src/vfs.cpp:288-298 | an earlier scan changes nothing about a later one |
| Timerfd.ScansAgree | core/src/vfs.cpp:288-298 | any number of scans equals the last one alone |
| Timerfd.LastInstant | core/src/vfs.cpp:295-297 | at the last instant the paths agree exactly when no deadline was capped or ticks are saturated |
| Timerfd.LastInstantDiffers | core/src/vfs.cpp:295-297 | an input on which they differ |
| Timerfd.TimerOpen.Refresh | core/src/vfs.cpp:291-298 | the in-place refresh is the specified one |
| Timerfd.TimerOpen.Arm | core/src/vfs.cpp:354-360 | arming sets interval and deadline, capped, and clears ticks |
| Timerfd.TimerOpen.Take | core/src/vfs.cpp:375-381 | a read takes every unread expiration once |

## Left out

- Binder: readiness polling, observers, blocking reads, `GET_NODE_INFO_FOR_REF`, thread limits requested by the guest and the active-call guard on close.
- Binder: the bytes of parcels. A parcel is the objects the driver writes into it; its other bytes are copied by the arena model only.
- Binder: handle 0 always naming the current manager, which the driver does not promise.
- SvcRewrite.Transform: the ELF header checks and the Mach-O writer around the rewriting.
- SvcSimulation.PackagingPreservesMeaning: assumes that the guest does not load rewritten words or the stack below SP, which the packager cannot check; instructions live apart from data memory because text is mapped read-only.
- GnuHash.Lookup: the System V hash path, parsing of version tables and the byte layout of the dynamic section.
- Relocation.Relocate: the rules by which a symbol's value and a TLS binding are found; they are parameters.
- Linker.Create: per-module size, overlap and TLS template checks.
- Linker.LoadGroup.Initialize: reading initialiser arrays from memory; the addresses are a parameter.
- AddressSpaces.AddressSpace.MapNew: storage the host gives at an unusable address is released and the answer to that release ignored, as the code does.
- AddressSpaces: msync, registration of read-only host memory and byte copies in and out of guest memory.
- FutexWait.StoreThenWake: clocks and signal epochs are choices of a step, and a blocked thread may continue at any time; argument checks before the lock are not modelled.
- Eventfd.SleepersAreWoken: failing wake signals; a signal is taken to be retained.
- Epoll scanning, signals, threads, path walking, device files and the regular-file parts of the virtual file system.
- Memory exhaustion and C++ exceptions anywhere.
