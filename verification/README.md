# Verified models of the lock-free and timeline cores

This project models the parts of the latency layer that are hard to get right:
the bounded ring and the sleep worker on it, the HybridFusion frame timeline
with its one-time freeze of owners, the Vulkan device registry, the OpenXR
timeline, the frame-generation cadence detector and its ownership router, and
four supporting cores (client tables, input arbitration, time conversion, stall
baseline).

Two shapes recur.

* A *protocol* (ring, sleep worker, registry snapshots, OpenXR records, cadence
  router, startup freeze, marker path) is a state with one program counter per thread and a step function in
  which every atomic load, store or compare-exchange of shared data is one step.
  In `XrSnapshot.dfy` the words only one thread writes and reads move with a
  neighbouring step, as its header says; with one waiting and one begin/end thread
  nobody else can tell. A run is any list of steps; a step that is not enabled
  changes nothing.
  Histories kept beside the state (values sent, tables published, owner word over
  time) let the theorems talk about whole runs. Steps are sequentially consistent.
* A *mutable object* (`FixedMpmcRing`, `HybridFusion`, `StartupFreeze`,
  `VulkanDeviceRegistry`, `XrFlexTimeline`, `FrameGenerationCadenceDetector`,
  `AudioFlexTimeline`, `InputArbiter`) is a class over arrays and counters whose
  methods are proved against functions on values. Where the object's meaning is
  its call history, the history is a ghost field and the class invariant says the
  fields are the result of playing it, so that every theorem about histories
  holds of the object.

Positions, sequences, epochs, generations and revisions are unbounded; machine
widths are written out where they matter: the owner and control words, the bit
window, byte counters, the 32-bit presentation count, 32- and 64-bit time
arithmetic.

Everything is checked, with the limits the proofs are kept within, by

    dafny verify --resource-limit 2000000 --verification-time-limit 0 --warn-contradictory-assumptions dfyconfig.toml

Every proof is meant to stay near or below 1,000,000 resource units whatever the
solver seed (`--boogie /randomSeed:<n>`). Where a proof does not depend on a
definition, a `hide` statement says so.

Where code and comments differ the model follows the code: the cadence router's
frame encoding is meant to saturate only the largest frame ID, yet 2^64 - 2 is
read back as 2^64 - 1 too, and `CadenceRouter.FrameRoundTrip` says exactly when
the round trip holds. The router's comment lets a producer lose the stream only
when it is provably stale, yet a claimer judges whatever stands in the owner-frame
word. `TakeoverJudgement.JudgedFrameIsItsOwn` says exactly when that is the
displaced producer's own frame, three runs show it failing (its store pending,
another producer's late store, a frame of an earlier tenure), and
`TakeoverJudgement.SerialTakeoversAreProven` shows that it never fails when calls
overlap neither each other nor a reset.

| file | what it models |
|---|---|
| `MpmcRing.dfy` | `FixedMpmcRing` as interleaved steps, and as a sequential object |
| `SleepWorker.dfy` | the emulated sleep worker, its flag, event and producers |
| `RegistrySnapshot.dfy`, `RegistryPrograms.dfy` | generation seqlock, snapshot caches; the writers' store sequences on device and queue rows |
| `DeviceRegistry.dfy` | device and queue tables as the writers see them |
| `Frontends.dfy`, `HybridTimeline.dfy`, `HybridRuns.dfy`, `HybridTokens.dfy` | frame ring, bindings, markers, presentations; histories of calls; who is answered, with which token |
| `HybridOwners.dfy`, `HybridControl.dfy`, `HybridFusion.dfy` | owner choice and freeze; control words; the mutable object |
| `FreezeRace.dfy`, `MarkerRace.dfy` | callers racing to freeze, and readers; marker callers against slot recycling |
| `XrFrames.dfy`, `XrSnapshot.dfy`, `XrLife.dfy`, `XrRecords.dfy`, `XrTimeline.dfy` | frame records; revision protocol; one session's life, and what its records and counters say; the session table |
| `Cadence.dfy`, `CadenceRouter.dfy`, `RouterCalls.dfy`, `TakeoverJudgement.dfy` | sliding-window detector; ownership router; what becomes of every call; whose frame a takeover judges |
| `AudioTable.dfy`, `AudioMath.dfy` | open-addressing tables; time conversion and queue estimate |
| `InputArbiter.dfy`, `ArbiterScores.dfy`, `StallBaseline.dfy` | arbitration with hysteresis; what quality is made of; winsorized average and classification |

## Model

| member | source | states |
|---|---|---|
| `MpmcRing.RunKeepsInv` | src/fixed_mpmc_ring.h:40-97 | In every interleaving of any number of producers and consumers each cell serves one position, its sequence says how far that position has got, and at most one thread holds each reservation |
| `MpmcRing.FifoInEveryRun` | src/fixed_mpmc_ring.h:40-97 | In every run dequeue_pos <= enqueue_pos <= dequeue_pos + Capacity; the value copied out at a position is the value sent there; no position is delivered twice and each dequeued one is delivered or being read; every queued value is intact or still with its producer |
| `MpmcRing.EnqueueRefusedOnlyWhenFull` | src/fixed_mpmc_ring.h:61-62 | A refused enqueue met a full ring, or a consumer still reading the previous lap of its cell |
| `MpmcRing.DequeueRefusedOnlyWhenEmpty` | src/fixed_mpmc_ring.h:92-93 | A refused dequeue met an empty ring, or the oldest value still being written by its producer |
| `MpmcRing.QuiescentRing` | src/fixed_mpmc_ring.h:40-97 | With no operation in flight the cells are a window of full cells then free ones, the full ones hold exactly the queued values, and every earlier position was delivered |
| `MpmcRing.SoloEnqueue` | src/fixed_mpmc_ring.h:40-66 | From any quiescent state an undisturbed enqueue appends, and refuses exactly when the ring is full |
| `MpmcRing.SoloDequeue` | src/fixed_mpmc_ring.h:68-97 | From any quiescent state an undisturbed dequeue hands out the oldest value, and refuses exactly when the ring is empty |
| `FixedRing.FixedMpmcRing.constructor` | src/fixed_mpmc_ring.h:28 | A new ring is an empty queue |
| `FixedRing.FixedMpmcRing.Reset` | src/fixed_mpmc_ring.h:33-38 | Resetting empties the queue whatever it held |
| `FixedRing.FixedMpmcRing.TryEnqueue` | src/fixed_mpmc_ring.h:40-66 | On the real arrays: succeeds exactly when fewer than Capacity values are queued, and then appends the value |
| `FixedRing.FixedMpmcRing.TryDequeue` | src/fixed_mpmc_ring.h:68-97 | On the real arrays: hands out and removes the oldest value, or nothing exactly when the queue is empty |
| `FixedRing.FillCell` | src/fixed_mpmc_ring.h:48-58 | Storing value and sequence pos + 1 in the cell modulo Capacity extends the queue window by one |
| `FixedRing.DrainCell` | src/fixed_mpmc_ring.h:79-89 | Storing sequence pos + Capacity frees the oldest cell and leaves the rest of the window |
| `SleepWorker.RunKeepsInv` | src/vulkan_hooks.cpp:454-544 | In every interleaving of worker and callers: a cleared flag while the worker is arming means a wakeup is on its way, and a set flag with work in the ring means a caller has yet to look at it |
| `SleepWorker.NoLostWakeup` | src/vulkan_hooks.cpp:454-544 | Whenever the worker is blocked with its event unset and no caller is inside the enqueue, the ring is empty and every accepted job has been signalled |
| `SleepWorker.AcceptedJobsAreSignalled` | src/vulkan_hooks.cpp:454-487 | Progress: from any reachable state with no caller inside the enqueue, the worker alone signals every accepted job, in order, within 12 of its steps per job and 11 more |
| `SleepWorker.JobsAreConserved` | src/vulkan_hooks.cpp:1635-1645 | Signalled jobs, the one in hand and the queued ones are, in order, exactly the accepted jobs; every offered job is accepted, signalled by its refused caller, or still with its caller |
| `SleepWorker.RunKeepsConserved` | src/vulkan_hooks.cpp:521-544 | The multiset of offered jobs equals accepted plus caller-signalled plus held by callers, after any run |
| `SleepWorker.BusyWorkerIsLeftAlone` | src/vulkan_hooks.cpp:454-544 | In every interleaving the flag is up only between the worker's arming and its own lowering of the flag, each arming is taken by at most one caller, and each wakeup used up an event of its own |
| `RegistrySnapshot.RunKeepsInv` | src/vulkan_device_registry.cpp:104-153 | Under mutex-serialised mutations the generation is even exactly between mutations, and each even generation's table is the previous one after the mutation's stores |
| `RegistrySnapshot.AcceptedSnapshotIsAtomic` | src/vulkan_device_registry.cpp:326-447 | In every interleaving a device or queue snapshot accepted at generation g, found or not found, is what one undisturbed scan of the table published at g gives, and g was current at some instant between the reader's call and its return |
| `RegistrySnapshot.CacheHitIsFresh` | src/vulkan_device_registry.cpp:389-411 | A thread-local cache hit answers what a fresh scan would at the instant the generation is loaded |
| `RegistrySnapshot.UndisturbedLookupAnswers` | src/vulkan_device_registry.cpp:326-447 | Between mutations a lookup nobody disturbs is answered within its rows, its fields and five more steps, with the fields of the first row with its key, or not found |
| `RegistryPrograms.ProgramEffect` | src/vulkan_device_registry.cpp:169-324 | The stores of a mutation have exactly its intended effect on the rows: one row unpublished, filled and published, and for a device the walk over its queues' rows |
| `RegistryPrograms.SweepWorks` | src/vulkan_device_registry.cpp:304-324 | The walk that refreshes or erases a device's queues rewrites exactly the rows that name the device, whatever is stored along the way |
| `RegistryPrograms.ProgramPublishes` | src/vulkan_device_registry.cpp:468-654 | Every register_device, unregister_device, semaphore change and register_queue takes the tables from representing the device and queue maps to representing the changed ones |
| `RegistryPrograms.LookupAnswersTheRegistry` | src/vulkan_device_registry.cpp:326-447 | Linearisability: a device or queue lookup accepted at even generation g answers the abstract map after the first (g - 2) / 2 mutations, the not-found answer included, and g was current at some instant within the lookup's call |
| `RegistryPrograms.QueueLookupIsCoherent` | src/vulkan_device_registry.cpp:413-447 | Under concurrent readers too: a queue lookup that answers names a device registered at the accepted generation, with exactly the pointers that device had then |
| `RegistryPrograms.HistoryRepresentsRegistry` | src/vulkan_device_registry.cpp:468-654 | The table published by each generation represents the device and queue maps its mutations build |
| `RegistryPrograms.AlwaysCoherent` | src/vulkan_device_registry.cpp:304-324 | Whatever the mutations, every queue of the maps they build belongs to a registered device and carries that device's pointers |
| `RegistryPrograms.ProgramsRefineTheRegistry` | src/vulkan_device_registry.cpp:468-654 | The store programs build, operation by operation, the maps of the sequential registry |
| `DeviceRegistry.CoherentInEveryRun` | src/vulkan_device_registry.cpp:304-324 | After any history of register_device (again or anew), register_queue and unregister_device, every queue belongs to a registered device and caches that device's current present pointer and, for a native device, its notify pointer, 0 for any other |
| `DeviceRegistry.VulkanDeviceRegistry.Register` | src/vulkan_device_registry.cpp:468-489 | Fails exactly for the null handle or a new device with no free row; otherwise the device map is updated and all its queues' caches follow |
| `DeviceRegistry.VulkanDeviceRegistry.Unregister` | src/vulkan_device_registry.cpp:491-514 | Removes the device and exactly its queues, and nothing else |
| `DeviceRegistry.VulkanDeviceRegistry.AddQueue` | src/vulkan_device_registry.cpp:623-654 | Fails exactly for null handles, an unregistered device or a new queue with no free row; otherwise the queue caches its device's pointers |
| `DeviceRegistry.VulkanDeviceRegistry.QueuePresentDispatch` | src/vulkan_device_registry.cpp:538-550 | The queue row alone gives a registered device and that device's own present pointer |
| `DeviceRegistry.VulkanDeviceRegistry.RefreshQueuesForDevice` | src/vulkan_device_registry.cpp:315-324 | Rewrites the entries of exactly the rows that belong to the device |
| `DeviceRegistry.VulkanDeviceRegistry.EraseQueuesForDevice` | src/vulkan_device_registry.cpp:304-313 | Frees exactly the rows that belong to the device |
| `HybridTimeline.LookupIsSound` | src/hybrid_fusion.cpp:635-647 | A successful lookup returns a live frame of the current epoch whose recorded native ID for that frontend is the ID asked for |
| `HybridTimeline.WindowIsExact` | src/hybrid_fusion.cpp:621-633 | A sequence of the current epoch is found exactly while it is one of the last 64 |
| `HybridTimeline.BindTargetIsExact` | src/hybrid_fusion.cpp:682-706 | A secondary frontend is refused a token exactly for an unusable ID, when no token came after its last one, or when it is catching up with an ID that is not past its last one by 1 up to the number of tokens missed; otherwise it attaches strictly after its last token and not beyond the newest, to a frame it has not used, and when it is behind by less than the ring the token distance equals its native ID distance |
| `HybridTimeline.PacingOwnerNeverCatchesUp` | src/hybrid_fusion.cpp:672-721 | In sequential runs the pacing owner never binds through the catch-up path |
| `HybridTimeline.BindKeepsInv` | src/hybrid_fusion.cpp:672-721 | Binding keeps ring and bindings coherent; it changes nothing unless it attaches, and then one frame and one frontend's last token only |
| `HybridTimeline.CreateKeepsInv` | src/hybrid_fusion.cpp:738-766 | Creating a token recycles one slot and keeps every sequence s with latest - 64 < s <= latest in slot s mod 64 |
| `HybridTimeline.RingAdvances` | src/hybrid_fusion.cpp:945-967 | Storing the next presentation keeps exactly the newest 128 in their slots |
| `HybridRuns.PlayKeepsInv` | src/hybrid_fusion.cpp:621-766 | After any history of markers, pacing observations, presentations, freezes and resets, frames, bindings and presentations are coherent |
| `HybridRuns.TokensNeverRepeat` | src/hybrid_fusion.cpp:738-766 | (epoch, sequence) pairs of created tokens strictly increase over every history, resets included |
| `HybridRuns.AttachmentsIncrease` | src/hybrid_fusion.cpp:649-670 | Each frontend attaches to strictly increasing tokens, so two of its native IDs never share one |
| `HybridRuns.MarkersAcceptedOnce` | src/hybrid_fusion.cpp:797-831 | Over any history each (epoch, sequence, marker) is accepted at most once, even after the frame slot was recycled |
| `HybridRuns.AcceptanceIsNew` | src/hybrid_fusion.cpp:826-830 | An accepted marker was not yet set on its frame and is remembered from then on |
| `MarkerRace.PromptMarkersAcceptedOnce` | src/hybrid_fusion.cpp:738-831 | With callers and creations interleaved: while fewer than 64 tokens are created during the time a call holds a frame, no marker of a token is accepted twice, and a call that set a new bit hands out exactly the token it looked up with that token's own fields |
| `MarkerRace.LateMarkerIsHandedOutTwice` | src/hybrid_fusion.cpp:754-830 | A lead of 64 is too much: a call that holds frame 1 while token 65 is created hands out token 65, and the next call with that marker hands it out again |
| `HybridRuns.GenerationsCountUp` | src/hybrid_fusion.cpp:941-950 | The presentations that name one render token carry their true count 1, 2, 3 and so on as generation while it fits 32 bits, and the count modulo 2^32 in every run |
| `HybridRuns.PresentationsIncrease` | src/hybrid_fusion.cpp:941-944 | Presentation sequences strictly increase within an epoch |
| `HybridRuns.LookupAnswersThePublished` | src/hybrid_fusion.cpp:894-904 | Looking up a presentation answers if and only if it was published in the current epoch with fewer than 128 later ones and a generation that has not wrapped to 0, and then with precisely the published token |
| `HybridRuns.GenerationWraps` | src/hybrid_fusion.cpp:943-963 | That wrap is reached: presenting one native ID n times in a row leaves a newest presentation that cannot be looked up if and only if n is a multiple of 2^32 |
| `HybridRuns.FrozenUntilReset` | src/hybrid_fusion.cpp:420-502 | Once owners are frozen, any history of calls without a reset leaves them as they are |
| `HybridRuns.TokensNameThePacingOwner` | src/hybrid_fusion.cpp:603-619 | Every frame token handed out names the frozen pacing owner as its pacing source |
| `HybridRuns.LookupIsStable` | src/hybrid_fusion.cpp:635-670 | A native ID keeps its token across any call until its frame slot or its binding slot is reused |
| `HybridTokens.MarkersAreAnsweredToTheirOwners` | src/hybrid_fusion.cpp:797-831 | Over any history a marker call hands out a token if and only if somebody paces, the caller is the frozen owner of the marker's aspect, its ID is bound or can be bound or created, and the marker was never accepted for that token; the token is the one the caller's ID is attached to by the log of attachments, with the caller's ID, the frozen pacing owner and the transport in force at its creation |
| `HybridTokens.PacingIsAnsweredToItsOwner` | src/hybrid_fusion.cpp:322-336 | Over any history a pacing observation is answered if and only if it comes from the frozen pacing owner with a usable ID, and with the token that ID is attached to |
| `HybridTokens.PresentationsAreAnsweredToTheirOwner` | src/hybrid_fusion.cpp:919-977 | Over any history a presentation is published if and only if it comes from the frozen owner of FrameGeneration with an ID that is bound or not refused; it names the caller, its ID and its flag, and renders the token that ID is attached to, with that token's transport |
| `HybridTokens.AttachmentsAreExact` | src/hybrid_fusion.cpp:672-831 | Exactly which calls create or attach, answered or not: the frozen pacing owner's markers and pacing observations create the next token for every usable unbound ID, even where another frontend owns the marker; the owner of the marker's aspect or of FrameGeneration attaches an unbound ID unless it is refused; the ID then stands for that token |
| `HybridTokens.LatestFrameIsTheNewest` | src/hybrid_fusion.cpp:906-917 | After any history the latest frame is the newest token of the current epoch, with the frozen pacing owner, the transport in force at its creation and no native ID |
| `HybridOwners.ChooseBestSource` | src/hybrid_fusion.cpp:392-418 | Chooses the eligible listed frontend of highest quality plus bias, earliest priority on ties, and nobody exactly if nobody is eligible |
| `HybridOwners.ChoiceIsUnique` | src/hybrid_fusion.cpp:392-418 | There is only one frontend that meets that description |
| `HybridOwners.EligibleMeans` | src/hybrid_fusion.cpp:344-383 | A frontend is eligible if and only if it is masked in, fresh, good enough and capable of the aspect, has published the control field the aspect is about, and, where startup evidence is asked for, has paced for Pacing, presented for FrameGeneration and shown every marker that is routed by the aspect |
| `HybridOwners.OwnersShowedWhatTheyOwn` | src/hybrid_fusion.cpp:344-420 | Whoever owns an aspect had shown all of that at the freeze; the owner of Pacing had paced unless nobody who could pace had; Boost is never AntiLag2's, and flashes, pings and marker optimisation are Reflex's or its Vulkan twin's alone |
| `HybridOwners.FavouredWinAtEqualQuality` | src/hybrid_fusion.cpp:71-182 | A frontend the aspect prefers (AntiLag2 for pacing, input sampling and frame generation, XeLL for the interval, Reflex for flashes and pings, and so on) loses it, when eligible, only to a strictly better quality or to another preferred one |
| `HybridOwners.PackOwnerWord` | src/hybrid_fusion.cpp:231-240 | The loop builds the word with four bits per aspect, the first aspect lowest |
| `HybridOwners.PackedRoundTrip` | src/hybrid_fusion.cpp:231-245 | Every nibble of the packed word decodes to the owner stored there, for any number of owners |
| `HybridOwners.PackedOwnersDecode` | src/hybrid_fusion.cpp:242-245 | If each stored owner was chosen for its aspect, each aspect decodes from the word to its chosen owner, and the word fits its bits |
| `HybridOwners.StartupFreeze.MaybeLock` | src/hybrid_fusion.cpp:420-502 | Locks exactly when startup locking is on and a healthy frontend has been observed long enough; every aspect then decodes to the owner chosen for it, Pacing with a second pass without startup evidence; once locked nothing changes |
| `HybridOwners.StartupFreeze.ChooseOwners` | src/hybrid_fusion.cpp:481-499 | Stores for every aspect the owner chosen from the evidence, Auto if none |
| `HybridOwners.StartupFreeze.Reset` | src/hybrid_fusion.cpp:283-297 | Unlocks, clears every owner and the owner word, and forgets the start of collection |
| `FreezeRace.RunKeepsInv` | src/hybrid_fusion.cpp:420-502 | In every interleaving of callers, readers and quiet resets only the last winner stores owners, it is exactly as far as its place says, and lock state 2 means its finished word is published |
| `FreezeRace.FrozenOncePerReset` | src/hybrid_fusion.cpp:446-502 | At most one caller freezes between two resets, and exactly one once the lock state is 2; it has collected long enough since the one beginning all callers agree on; every word a reader gets after seeing lock state 2 is the finished one this caller packed |
| `FreezeRace.ReadersAgree` | src/hybrid_fusion.cpp:504-509 | All readers between two resets get the same word |
| `FreezeRace.ReadersDecodeTheChoice` | src/hybrid_fusion.cpp:466-500 | If the winner's owners were chosen from its evidence, every aspect any reader decodes is the owner chosen from that one caller's evidence |
| `FreezeRace.AnswersAreRight` | src/hybrid_fusion.cpp:420-502 | A call answers yes only with the owners frozen at the instant it returns, and no only if they were not when it looked last, nothing was there to freeze, or too little was collected |
| `FreezeRace.OverlappingResetLetsTwoFreeze` | src/hybrid_fusion.cpp:247-297 | A reset during a freeze lets a second caller win while the first is still storing owners |
| `HybridControl.ControlRoundTrip` | src/hybrid_fusion.cpp:211-229 | Unpacking a packed control packet, its whole 8-bit field mask included, gives it back, and the word fits 64 bits |
| `HybridControl.ResolveControl` | src/hybrid_fusion.cpp:536-601 | A resolved control has a pacing owner and an enabled source, carries a field exactly if some frontend supplied it, and its values are the ones those sources published |
| `HybridControl.FrozenControlResolves` | src/hybrid_fusion.cpp:536-601 | With the controls the owners were frozen from, a frozen pacing owner always resolves, and each field comes from exactly the owner chosen for its aspect |
| `HybridControl.ResolvesToThePublished` | src/hybrid_fusion.cpp:536-601 | Whatever the frontends publish after the freeze: a control resolves exactly if a frozen pacing owner exists and it or the frozen Enabled owner now publishes an enabled field, and every other field is there, with its owner's current value, exactly if its frozen owner now publishes it |
| `HybridControl.SignatureIsCollisionFree` | src/hybrid_fusion.cpp:519-534 | Two signatures are equal if and only if the resolved controls are, up to mask bits that name no field, which no resolved control has |
| `HybridFusion.HybridFusion.constructor` | src/hybrid_fusion.h:245-258 | A new object is the timeline of the empty history |
| `HybridFusion.HybridFusion.CanonicalizeMarkerLocked` | src/hybrid_fusion.cpp:797-831 | A marker call is one more step of the object's history and returns that step's token; whoever gets one had shown this very marker in the evidence the owners were frozen from |
| `HybridFusion.HybridFusion.CanonicalizePacingObservation` | src/hybrid_fusion.cpp:322-336 | A pacing observation is one more step of the history and returns that step's token; whoever gets one had paced before the freeze, unless nobody who could pace had |
| `HybridFusion.HybridFusion.CanonicalizeFgPresentationLocked` | src/hybrid_fusion.cpp:919-977 | A presentation is one more step of the history and returns that step's presentation token; whoever gets one had presented before the freeze |
| `HybridFusion.HybridFusion.LookupPresentationToken` | src/hybrid_fusion.cpp:894-904 | Answers exactly for the presentations of the current epoch with fewer than 128 later ones and a generation other than 0, with the token published |
| `HybridFusion.HybridFusion.LatestCanonicalFrame` | src/hybrid_fusion.cpp:906-917 | Answers exactly if a token exists, and then with the newest sequence of the current epoch |
| `HybridFusion.HybridFusion.MaybeLockStartup` | src/hybrid_fusion.cpp:420-502 | The timeline sees one freeze, at the call that locks, with the owners the packed word decodes to; otherwise nothing. By the object's invariant those are, until the next reset, the owners chosen from the evidence of that call |
| `HybridFusion.HybridFusion.ResetTimeline` | src/hybrid_fusion.cpp:247-297 | Clears every slot array and starts the next epoch |
| `XrFrames.StoreWait` | src/openxr_timeline.cpp:210-234 | Storing the fields one by one leaves the wait's record whatever the slot held before |
| `XrFrames.StoreEnd` | src/openxr_timeline.cpp:302-346 | Storing the fields one by one gives the record of the ended frame, and correlation is reported exactly when a render identity is stored |
| `XrFrames.UpdateKeepsTheWait` | src/openxr_timeline.cpp:239-349 | Begins, discards and ends add their flags and never touch what the wait recorded |
| `XrFrames.EndCorrelation` | src/openxr_timeline.cpp:320-341 | With numbers: the render sequence right after a nonzero watermark, in the newest token's epoch, if that token is past the watermark and in its epoch as far as it is known; the newest token itself without a watermark; otherwise the render identity stays |
| `XrFrames.EndSubmits` | src/openxr_timeline.cpp:304-318 | An end records its own times and, if there is a clock, the display time and the saturated distance to it, and leaves the begin time alone |
| `XrFrames.SignedDelta` | src/clock_math.h:31-45 | The difference of two 64-bit clocks, exact while it fits and saturated with the right sign otherwise |
| `XrSnapshot.RunKeepsInv` | src/openxr_timeline.cpp:145-349 | In every interleaving of one waiting thread, one begin/end thread and any readers, a slot with an even revision holds a complete state of the record its sequence names |
| `XrSnapshot.AcceptedTokenIsOneState` | src/openxr_timeline.cpp:145-183 | Every token a reader accepts is one complete state: what its wait recorded followed by whole updates, at most one begin and then at most one end or discard, never a mix |
| `XrSnapshot.UndisturbedReadAccepts` | src/openxr_timeline.cpp:145-183 | A reader of a record nobody is updating accepts it as it stands, within four steps more than it has fields |
| `XrLife.EveryBeginIsAccountedFor` | src/openxr_timeline.cpp:239-349 | For every run, ends + discarded + (1 if active) <= begins <= waits and correlated <= ends; the slack in the first is exactly the number of begun frames the calls lost track of |
| `XrLife.WellPairedRunsLoseNothing` | src/openxr_timeline.cpp:252-270 | If discard is reported exactly when a frame is active and no wait recycles the active frame's slot, the first relation is an equality |
| `XrLife.BeginPairsWithItsWait` | src/openxr_timeline.cpp:264-283 | The k-th begin succeeds if and only if the k-th wait has happened and is among the last 16, and reports the record of that very wait |
| `XrLife.LifeIsCounted` | src/openxr_timeline.cpp:185-349 | The last 16 waits are in their slots and nothing else is, with the counter relations, after any calls |
| `XrRecords.BeginReportsItsFrame` | src/openxr_timeline.cpp:264-283 | The k-th begin reports the k-th wait's own record with its return time and the Begun flag, and nothing else changed |
| `XrRecords.DiscardMarksItsFrame` | src/openxr_timeline.cpp:252-262 | A reported discard marks and counts the frame begun last and not yet ended, if its record is still in the ring, and changes nothing else in it |
| `XrRecords.EndReportsItsFrame` | src/openxr_timeline.cpp:297-348 | Over any calls an end belongs to the frame begun last and not ended or discarded since, if its wait is among the last 16, and reports nothing otherwise; every field of its record is what that frame's own wait, begin and end were told |
| `XrRecords.EndCorrelatesWithItsWait` | src/openxr_timeline.cpp:320-341 | The ended frame names watermark + 1 for its own wait's nonzero watermark, the newest token if that wait saw none, and nothing if it was not to render, no token came after the watermark or the newest is of another epoch; it is counted as correlated exactly if it names one |
| `XrRecords.CountersAreRead` | src/openxr_timeline.cpp:185-349 | All seven counters of a session are what its calls alone say |
| `XrRecords.LifeIsAtRest` | src/openxr_timeline.cpp:145-349 | Between calls every revision is even, so no token is withheld for a half-done update |
| `XrTimeline.XrFlexTimeline.Find` | src/openxr_timeline.cpp:101-127 | Probing finds a slot exactly for registered sessions |
| `XrTimeline.XrFlexTimeline.FindOrClaim` | src/openxr_timeline.cpp:45-95 | Fails exactly for the null session or when all 16 slots are taken; otherwise claims the first free slot in probe order, cleared, with the next epoch |
| `XrTimeline.XrFlexTimeline.PerformWait` | src/openxr_timeline.cpp:204-236 | The stores of a successful wait are one more call of its session |
| `XrTimeline.XrFlexTimeline.PerformBegin` | src/openxr_timeline.cpp:252-283 | The stores of a begin are one more call of its session, dropped exactly when its record is not in the ring |
| `XrTimeline.XrFlexTimeline.PerformEnd` | src/openxr_timeline.cpp:297-348 | The stores of an end are one more call of its session, dropped exactly when there is no active record |
| `XrTimeline.XrFlexTimeline.OnWait` | src/openxr_timeline.cpp:185-237 | Succeeds for every session with or able to get a slot, moves only that session by one wait and returns that wait's record; a slot that is claimed anew gets a later epoch; otherwise only the drop count moves |
| `XrTimeline.XrFlexTimeline.OnBegin` | src/openxr_timeline.cpp:239-283 | Changes only its own session, returns the record it worked on, and counts a drop exactly when it returns none |
| `XrTimeline.XrFlexTimeline.OnEnd` | src/openxr_timeline.cpp:285-349 | Changes only its own session and counts a drop exactly when it returns nothing, which is when the session's calls leave no frame to end; otherwise the token says in every field what that frame's wait, begin and end were told, and names the render its wait's watermark calls for |
| `XrTimeline.XrFlexTimeline.OnDestroySession` | src/openxr_timeline.cpp:351-369 | Frees the session's slot and moves it to a later epoch, touches no other, and leaves every total of stats() unchanged |
| `XrTimeline.XrFlexTimeline.Stats` | src/openxr_timeline.cpp:381-405 | The loop reports retired totals plus the counters of all readable sessions, and what it reports always satisfies ends + discarded <= begins <= waits and correlated <= ends |
| `XrTimeline.XrFlexTimeline.Latest` | src/openxr_timeline.cpp:371-379 | Answers exactly for registered sessions that have waited, with their newest record |
| `XrTimeline.TotalMoves` | src/openxr_timeline.cpp:381-404 | Replacing one session moves the totals by the difference of its counters |
| `XrTimeline.CallMovesTheTotals` | src/openxr_timeline.cpp:185-349 | A frame call moves the totals by what it did to its own session's counters and nothing else |
| `XrTimeline.ClaimKeepsTheTotals` | src/openxr_timeline.cpp:70-92 | Claiming and clearing a free slot leaves the totals as they were |
| `FrameCadence.WindowIsTheLastEleven` | src/frame_generation_cadence.h:30-62 | After any observations the packed word is the list of the last min(n, 11) comparisons since the start or the last backwards ID, and the stored count is its number of repeats |
| `FrameCadence.ShiftPushes` | src/frame_generation_cadence.h:50-62 | One shift, mask and byte update pushes the newest comparison and drops the twelfth |
| `FrameCadence.VerdictReadsTheList` | src/frame_generation_cadence.h:64-72 | Enable exactly when disabled with at least 5 repeats in the list; Disable exactly when enabled with a full list without repeats |
| `FrameCadence.ClosedLoopReadsTheList` | src/frame_generation_cadence.h:30-73 | In the closed loop, where decisions switch the state the detector is asked about, each decision and the state after it are read off the list of comparisons up to it |
| `FrameCadence.EnableHoldsElevenObservations` | src/frame_generation_cadence.h:30-73 | In the closed loop from reset and disabled, a Disable comes no sooner than 11 observations after an Enable |
| `FrameCadence.DisableHoldsFiveObservations` | src/frame_generation_cadence.h:30-73 | And an Enable no sooner than 5 observations after a Disable |
| `FrameCadence.FrameGenerationCadenceDetector.Observe` | src/frame_generation_cadence.h:30-73 | The object's decision is the list's decision over everything observed since its last reset |
| `FrameCadence.FrameGenerationCadenceDetector.Reset` | src/frame_generation_cadence.h:22-28 | Forgets all observations |
| `CadenceRouter.RunKeepsInv` | src/frame_generation_cadence_router.h:53-168 | While the owner word shows a thread that believes it owns the stream, it has shown it without interruption since the thread entered |
| `CadenceRouter.DecisionsRestOnOwnedWindows` | src/frame_generation_cadence_router.h:53-168 | No decision without grounds: under any interleaving of producers, takeovers and resets, every Enable or Disable handed out is the list's decision over samples the caller took itself within one unbroken interval of its ownership |
| `RouterCalls.EveryOwnedCallIsSampled` | src/frame_generation_cadence_router.h:64-111 | No present is dropped: under any interleaving, while the owner word shows a producer, its detector has seen the frame of every call the producer made in its present tenure, in order and duplicates included, from the call in progress when the tenure began; only a call still on its way to the detector is missing |
| `RouterCalls.EveryOwnedCallIsAnswered` | src/frame_generation_cadence_router.h:90-110 | And no decision is withheld: a call that returns while the owner word shows its thread hands out exactly one Enable if disabled with at least 5 repeats among the last 11 comparisons of the tenure's calls, exactly one Disable if enabled with 11 comparisons and no repeat, and nothing otherwise; a call that returns without the stream hands out nothing |
| `RouterCalls.CallsAreWaitFree` | src/frame_generation_cadence_router.h:53-168 | A call returns within six of its own steps, whatever the other threads do |
| `RouterCalls.OwnersPublishEveryOtherFrame` | src/frame_generation_cadence_router.h:64-111 | The common path stays off the shared words: a producer that has called in its present tenure reads the owner word again exactly if the new frame is before the one it published last or at least two past it; any other call is over in its first step, but for a decision still to be confirmed |
| `RouterCalls.UndisturbedCall` | src/frame_generation_cadence_router.h:70-157 | From any state, an undisturbed call takes or keeps the stream exactly if nobody owns it, the caller does, or the published frame is more than 3 behind the caller's or at least 32 ahead of it, and then publishes its frame; an owner less than two frames past its last publication touches neither word |
| `CadenceRouter.TakeoversAreJustified` | src/frame_generation_cadence_router.h:108-142 | Under any interleaving the stream changes hands only when, within one call, the claimer saw the displaced producer in the owner word, then read an owner-frame word more than 3 behind its own frame or at least 32 ahead of it, and then replaced the owner word while it still showed that producer; the frame it read was published by some producer that had held the stream, which need not be the displaced one |
| `TakeoverJudgement.JudgedFrameIsItsOwn` | src/frame_generation_cadence_router.h:71-158 | For every run: a takeover judges a frame the displaced producer stored in the tenure that ends if and only if one of its stores lies in that tenure and neither another producer's store nor a reset comes between it and the claimer's load; then the displaced producer's last published frame was more than 3 behind the claimer's or at least 32 ahead of it |
| `TakeoverJudgement.SerialTakeoversAreProven` | src/frame_generation_cadence_router.h:13-18 | If no call begins and nothing is reset while a call is under way, every takeover judges the displaced producer's own last published frame, so it is stale as promised |
| `TakeoverJudgement.JudgedByThePredecessor` | src/frame_generation_cadence_router.h:130-158 | A run in which the displaced producer had won the owner word and its store was still pending |
| `TakeoverJudgement.JudgedByALateStore` | src/frame_generation_cadence_router.h:76-92 | A run in which the displaced producer had published frame 20 and was judged by frame 13, a store its predecessor made after losing the stream |
| `TakeoverJudgement.JudgedByAnOldTenure` | src/frame_generation_cadence_router.h:108-158 | A run in which the judged frame is the displaced producer's own, but of an earlier tenure |
| `CadenceRouter.TakeoversAreLogged` | src/frame_generation_cadence_router.h:130-140 | No other step moves the stream from one producer to another |
| `AudioTable.AudioFlexTimeline.Find` | src/audio_timeline.cpp:20-33 | The probe with its early stop returns a slot exactly for registered clients |
| `AudioTable.AudioFlexTimeline.FindOrClaim` | src/audio_timeline.cpp:46-94 | The table is a finite map: a known client keeps its entry, a new one gets a fresh entry, and it fails only when all 32 slots are taken |
| `AudioTable.AudioFlexTimeline.OnBufferSize` | src/audio_timeline.cpp:144-146 | A store through find changes that client's entry and no other, and nothing for an unknown client |
| `AudioTable.AudioFlexTimeline.BindClock` | src/audio_timeline.cpp:259-280 | Binds or re-binds the clock in the map; dropped only when the clock is new and all slots are taken |
| `AudioTable.AudioFlexTimeline.ClientForClock` | src/audio_timeline.cpp:282-306 | Answers the bound client or 0, whichever slot the calling thread had cached |
| `AudioTable.RegisteredKeyIsReached` | src/audio_timeline.cpp:24-31 | A key that probing has not met before a never-used slot is not in the table |
| `AudioTable.ClaimKeepsReachable` | src/audio_timeline.cpp:54-91 | Claiming the first free slot on the probe path leaves no never-used slot between any stored key's start and its slot |
| `AudioTable.ContentsUpdate` | src/audio_timeline.cpp:54-91 | Writing an entry over a free slot or its own old value keeps keys unique and updates the map at that key only |
| `AudioTable.FullTableHoldsAll` | src/audio_timeline.cpp:53-93 | A table without a free slot holds exactly 32 keys |
| `InputArbiter.QualityStaysAPercentage` | src/input_arbiter.cpp:39-145 | Over all runs of observe and note_evidence quality stays between 0 and 100 |
| `InputArbiter.FreshMeansRecentlyAdvanced` | src/input_arbiter.cpp:187-197 | A frontend is fresh exactly if it is among the last 17 to advance to a new native frame |
| `InputArbiter.HealthyMeans` | src/input_arbiter.cpp:187-228 | Healthy is: masked in, among the last 17 to advance, and of at least the minimum quality |
| `InputArbiter.RepeatedCallbackIsFree` | src/input_arbiter.cpp:75-145 | Repeating a callback for the same native frame changes nothing |
| `ArbiterScores.ProgressMovesQuality` | src/input_arbiter.cpp:106-115 | Over any history a callback with a marker its frontend has shown before adds 4 up to 100 for a frame after the last one, takes 12 down to 0 for a frame before it, and nothing for the same frame |
| `ArbiterScores.NewMarkersPayOnce` | src/input_arbiter.cpp:106-142 | A marker's first showing adds 8, or 13 for the four markers that start something, on top of progress, and never again; a frontend's first callback starts it from at least 20, the marker evidence included |
| `ArbiterScores.EvidencePaysOnce` | src/input_arbiter.cpp:39-73 | Each kind of evidence adds its own bonus up to 100 the first time and never again |
| `ArbiterScores.QualityIsItsOwn` | src/input_arbiter.cpp:39-145 | In any history, interleaved with others in any way, a frontend's quality is what its own calls alone would give |
| `ArbiterScores.SteadyProgressPays` | src/input_arbiter.cpp:109-125 | A frontend that keeps advancing with a known marker gains 4 a frame until it reaches 100 |
| `InputArbiter.SelectedIsHealthy` | src/input_arbiter.cpp:199-261 | Whatever is selected is fresh, masked in and above the minimum quality |
| `InputArbiter.SelectionIsIdempotent` | src/input_arbiter.cpp:199-261 | Selecting again on unchanged evidence, from what was selected, selects the same |
| `InputArbiter.IncumbentIsDisplacedOnlyByMargin` | src/input_arbiter.cpp:250-260 | Without a healthy forced mode a healthy listed incumbent is displaced if and only if some healthy listed frontend is at least 8 better, and then by the best |
| `InputArbiter.VacancyGoesToTheTop` | src/input_arbiter.cpp:230-245 | Without a healthy incumbent the highest quality wins, earliest listed on ties, and nobody exactly if nobody is healthy |
| `InputArbiter.InputArbiter.NoteEvidence` | src/input_arbiter.cpp:39-73 | The in-place update is one more call of the object's history |
| `InputArbiter.InputArbiter.ObserveMarker` | src/input_arbiter.cpp:75-145 | The in-place update is one more call of the object's history, whose effect on quality is the one the calls say |
| `InputArbiter.InputArbiter.IsFresh` | src/input_arbiter.cpp:187-197 | On the object: fresh exactly if among the last 17 advances of its history |
| `InputArbiter.InputArbiter.Select` | src/input_arbiter.cpp:199-261 | The loop with its running best returns the specified selection |
| `AudioMath.FramesToNsIsExact` | src/audio_latency_math.h:8-20 | frames_to_ns equals min(floor(frames * 10^9 / rate), 2^64 - 1) for every 64-bit count and nonzero 32-bit rate |
| `AudioMath.RateUnitsToNsIsExact` | src/audio_queue_model.h:58-71 | rate_units_to_ns equals min(floor(value * 10^9 / frequency), 2^64 - 1) for all 64-bit inputs with nonzero frequency |
| `AudioMath.ConversionsAreMonotone` | src/audio_queue_model.h:58-71 | Both conversions are monotone in what they convert, saturation included |
| `AudioMath.HundredNsToNs` | src/audio_latency_math.h:22-26 | The saturated hundredfold |
| `AudioMath.ReferenceTimeToNs` | src/audio_latency_math.h:28-31 | The saturated hundredfold of positive times, 0 for the others |
| `AudioMath.DurationsAreExact` | src/audio_queue_model.h:84-90 | Queued, capacity and available durations are the exact floors for padding, buffer and their difference |
| `AudioMath.PeriodIsExact` | src/audio_queue_model.h:106-118 | The period is known exactly if some source gives one; current period at the engine rate first, then the stream default, then the device's, each exact |
| `AudioMath.QueueIsConserved` | src/audio_queue_model.h:84-90 | In a valid estimate with padding <= buffer, queued + available <= capacity <= queued + available + 1 ns; with more padding nothing is available and the queue covers the capacity |
| `AudioMath.FillIsAPermille` | src/audio_queue_model.h:97-104 | The fill level is floor(1000 * min(padding, buffer) / buffer), 0 without a buffer, never truncated to 16 bits, and 1000 exactly when the padding covers the buffer |
| `AudioMath.EstimateKnowsItsAge` | src/audio_queue_model.h:73-134 | An estimate is valid exactly for an initialized shared render stream of known rate with observed padding, and empty otherwise; ages, freshness, clock position and confidence follow from the observation times alone |
| `StallBaseline.UpdateStaysPlausible` | src/vulkan_structural_stall.cpp:68-89 | From a baseline in 500,000 to 100,000,000 ns any sample leaves it there, and one outside that range leaves it alone |
| `StallBaseline.ColdStartBecomesPlausible` | src/vulkan_structural_stall.cpp:71-74 | From no baseline it stays 0 until the first plausible sample and is in range ever after |
| `StallBaseline.UpdateApproaches` | src/vulkan_structural_stall.cpp:76-89 | A plausible sample pulls the baseline toward itself without overshoot, strictly if and only if the gap is at least 8 |
| `StallBaseline.OneSampleMovesLittle` | src/vulkan_structural_stall.cpp:76-89 | One outlier moves the baseline by at most an eighth up and a sixteenth, rounded, down |
| `StallBaseline.RepetitionConverges` | src/vulkan_structural_stall.cpp:68-89 | Repeating one plausible sample brings any plausible baseline within 7 ns in finitely many updates, at most one per nanosecond of the gap |
| `StallBaseline.ConvergedRests` | src/vulkan_structural_stall.cpp:86-89 | Within 7 ns no number of repetitions moves it |
| `StallBaseline.SaturatingDouble` | src/vulkan_structural_stall.cpp:11-15 | Doubling capped at 2^64 - 1 |
| `StallBaseline.StructuralMeans` | src/vulkan_structural_stall.cpp:18-66 | With numbers: which gaps are trusted, and that a stall is structural exactly for a trusted gap of at least twice and 4 ms more than expected, explained by a recent pipeline, with room for the threshold |
| `StallBaseline.CompensationIsLargestAllowed` | src/vulkan_structural_stall.cpp:54-65 | Compensation is nonzero exactly for structural stalls, and then the largest amount that pipeline duration, maximum and the expected gap all allow |

## Left out

- C++ weak memory orders: steps are sequentially consistent. The sleep worker's publish-then-read-flag pattern is a store-buffering shape, so its theorem is about the protocol and says nothing about the fences.
- Wrap-around of 64-bit positions, sequences, epochs, generations and revisions, and with it the reserved busy sequence in HybridFusion and the registry. The 32-bit presentation count of a HybridFusion frame does wrap in the model, and control masks have all their 8 bits.
- `MpmcRing.AdvanceThread`: does not model the null output pointer of try_dequeue, which returns before touching the ring.
- Worker creation, shutdown and failure of the wait call racing with producers: the sleep worker theorems are for runs without shutdown, because a job published behind an unfinished reservation may not be drained.
- The fallback in get_native_queue_notify, which re-stamps a queue cache entry with a generation read later than the one its device field came from.
- The swapchain table of the registry, capability fields and enumeration tables: easy members of the same kind as the queue table. A swapchain mutation is in the runs as one that stores nothing in the device and queue rows.
- Interleaved steps of the rest of HybridFusion: bindings, attachments and presentations are modelled in sequential runs, and so is the marker path except for what `MarkerRace.dfy` interleaves, the creation of tokens and the marking of a frame already looked up, within one epoch and with the fields of a token as one store.
- The fg_flags, fg_source and latest_presentation_sequence fields of HybridFusion frames: written but never read.
- The marker mask is a set of markers, and a mask of frontends a set; each bit is one member.
- `HybridOwners.StartupFreeze.MaybeLock`: takes the evidence (freshness, quality, markers and startup masks) as one input instead of loading it field by field from the arbiter and the published masks, and is one caller's; `FreezeRace.dfy` has the race, with what a caller would choose as an input of its call and a reset as one step.
- `XrSnapshot.AcceptedTokenIsOneState`: is for one session life, and for callers whose waits do not recycle the slot an unfinished begin or end is updating (waits fewer than 16 ahead of begin/end); slot reuse while a reader is mid-read is not covered. Readers also load the two watermark fields, which the real token does not carry.
- The thread-local slot cache of XrFlexTimeline::find: a cached slot is used only if its key is the session's, and keys are unique.
- The concurrent first registration of one key in the audio tables; claiming is sequential, so the busy key is never seen.
- The counters and stream parameters of an audio client beyond those the table operations need.
- `CadenceRouter.DecisionsRestOnOwnedWindows`: a producer token belongs to one thread; two threads sharing a token are not modelled.
- LatencyFleX estimation (floating point), ticks_to_ns (long-double fallback), detours, COM tables, Vulkan, OpenXR and WASAPI calls, logging, configuration parsing and library lifecycle.
