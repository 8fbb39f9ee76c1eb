# Event pipeline of a ciphernode: a verified model

A ciphernode admits events from many publishers, gives each a sequence number in an append-only log,
and fans it out to subscribers. It must shut down without losing an admitted event, come back from a
crash with an exact index, and never repeat a timestamp or an identifier. This project models the code
that does this and proves what it promises, for every input, every interleaving and every reachable
state.

| files | part |
|---|---|
| `Admission`, `AdmissionProtocol`, `AdmissionInvariant`, `AdmissionRuns`, `AdmissionProgress`, `AdmissionService` | the shutdown fence, the bounded window, receipts and wakeups, as a class and as an interleaving of atomic steps |
| `Pipeline`, `PipelineInvariant`, `PipelineOrder`, `PipelineDrain`, `PipelineRuns`, `PipelineProgress`, `PipelineBoots` | sequencer, router, stores and bus as actors with mailboxes, the flush that drains them, and restarts |
| `NodeShutdown`, `NodeShutdownRuns`, `NodeDrain` | admission and pipeline in one machine, through shutdown |
| `EventLog`, `SequenceIndex`, `EventStore`, `EventStoreRecovery`, `EventStoreHistory`, `NetworkSync` | the log, the derived index, bounded queries, crashes, paging and historical sync |
| `HamtBits`, `Hamt`, `HamtRefinement`, `HamtMap` | the persistent hash trie and the finite map that it refines |
| `HlcTimestamp`, `Hlc`, `HlcRuns` | the hybrid logical clock: encoding, operations, causality |
| `Dedup`, `CorrelationId`, `Boundary`, `PublicKeyChunks`, `CleanPlan` | deduplication window, ids across boots, dependency boundaries, key chunks, the clean planner |
| `Wrappers`, `Ordering` | `Option` and `Result`; finite sets in ascending order |

How the parts are modelled:

- The admission protocol is an interleaving of single loads, stores, read-modify-writes, critical
  sections and notifications, with any number of publishers, waiting publishers and receipts. The
  atomics are taken as sequentially consistent; the source uses acquire and release orderings.
- An actor's mailbox is a FIFO queue, and a step runs one handler. Storage faults, stopped stores and
  the end of a fanout are choices of the run. Aggregates are numbered in the order in which the router
  flushes their stores; the source takes that order from a hash map.
- A pipeline run starts with a boot, of a fresh node or a restarted one. Its stores hold what earlier boots
  logged, and `past` counts the events that earlier boots enqueued. A restart keeps at least the synced part
  of every log, and every reachable state restarts into a boot (`PipelineBoots.RestartBoots`), so that the
  results hold for every boot of a node's life. A store finds a timestamp exactly when its log has it, which
  is what `EventStoreRecovery` proves of the index and says when it fails.
- In the joint machine a waiting publisher keeps its guard until the sequencer handled its event
  (`crates/events/src/bus_handle.rs:203-212`). The admission protocol on its own lets it drop the guard as soon
  as the event is enqueued, which only adds runs.
- Clocks, storage faults, what a crash keeps and whether a durable write completes are parameters.
- The hash function of the trie is a parameter, and so every theorem about it holds for every hash
  function. Encoded sizes are positive numbers. Event contents, ids and sources are numbers that are
  only compared.
- Machine widths are explicit: 64-bit hashes and 32-bit bitmaps are bit-vectors, byte counters saturate,
  sequence numbers and clock fields are checked for overflow, and the id counter wraps.

These results say where the code meets its promise and where it does not, each with the input that
fails and the exact condition:

- The trie's `unreachable!()` arm is reachable (`HamtMap.ArmIsReachable`), exactly when a collision
  bucket of another hash stands on the insertion's way (`HamtMap.ArmIffBlocked`).
- Reconciliation does not compare rows that exist, and it adds rows for records that are not synced:
  opening the log (`crates/state/storage/src/commit_log_event_log.rs:103-150`) does not sync a complete tail
  that survived in a cache. After crash, restart and second crash a store can run with a row whose record is
  gone, and refuse the event as missing (`EventStoreRecovery.RecoveredTailIsLost`). A run is exact
  throughout if and only if none of its crashes keeps a row and loses its record
  (`EventStoreRecovery.RunsExactIffRecordsKept`), and no crash in a state can if and only if every row's
  record is synced (`EventStoreRecovery.CrashesKeepIffSynced`). Acknowledged events survive in every run.
- A timestamp may be sent without being stored: a document announcement carries a bare tick
  (`crates/net/src/document_publishing/effects.rs:129`). Its node can make it again after a restart
  (`HlcRuns.SentTimestampRepeats`). A restarted node's next tick exceeds everything that it ever made if and
  only if each of those is within what it stored or before the wall time
  (`HlcRuns.RestartExceedsEverything`), and over a run a node never goes back if and only if every clock
  operation passes what its node made before (`HlcRuns.NodesAscendIffPassed`).
- After a loss, a publisher can still reserve if and only if it had already passed the failure check
  (`AdmissionRuns.FailureRefuses`, with the run in `AdmissionRuns.ReservesAfterFailure`).
- An event that a restarted node already has is settled and not delivered: a peer's history may bring it again
  (`crates/state/sync/src/service.rs:588-592`), and the flush that follows returns with nothing fanned out
  (`PipelineBoots.RepeatIsNotDelivered`). After a flush an event was delivered by this boot if and only if no
  earlier boot logged it (`PipelineRuns.FlushDelivers`).
- Waiting publishers may hold more than their documented quarter of the window
  (`crates/events/src/event_admission.rs:34-37`), because the first event fits an empty window whatever its size;
  then they hold that single reservation and no other (`AdmissionService.WaitersKeepToShare`).
- The clean planner removes a regular file that stands where a tracked path needs a directory
  (`CleanPlan.FileAboveTrackedIsOutput`), and exactly then selects a path at or above a tracked one
  (`CleanPlan.PlanClean`).
- A history page with a limit of zero makes no progress (`EventStoreHistory.ZeroLimitMakesNoProgress`);
  every positive limit does. Historical sync completes if and only if no record to be forwarded is larger
  than a reply (`NetworkSync.SyncIsExact`).
- Correlation ids of a boot exceed those of the boot before it if and only if that boot issued at most
  2^32 ids after it reserved, or the clock seed was ahead (`CorrelationId.ReservationIsExact`).

`dafny verify dfyconfig.toml` checks the whole project with Dafny 4.11.

## Model

| member | source | states |
|---|---|---|
| Admission.Charge | crates/events/src/event_admission.rs:161-165 | the charge is the encoded size, 32 MiB when an event does not encode, or the byte limit less a quarter of it, whichever is least |
| Admission.EventAdmission.constructor | crates/events/src/event_admission.rs:68-84 | a new window is empty and open |
| Admission.EventAdmission.Default | crates/events/src/event_admission.rs:30-33 | a node's window holds 2560 events and 512 MiB, and is empty and open |
| Admission.EventAdmission.SetFailureSignal | crates/events/src/event_admission.rs:86-88 | the first signal set is kept |
| Admission.EventAdmission.ReserveWithin | crates/events/src/event_admission.rs:153-179 | a failure refuses with its reason; otherwise the event gets no receipt exactly when the window is not empty and has no place or too few bytes left in the share, and else exactly the capped charge is added |
| Admission.EventAdmission.Reserve | crates/events/src/event_admission.rs:118-132 | succeeds if and only if nothing failed and the window is empty or has a place and the bytes left within the limit; a refusal leaves the window as it was |
| Admission.EventAdmission.ReserveWaiting | crates/events/src/event_admission.rs:136-146 | gives a receipt if and only if nothing failed and the window is empty or has a place and the bytes left within a quarter of the limit |
| Admission.EventAdmission.Release | crates/events/src/event_admission.rs:193-199 | undoes one reservation of the same size |
| Admission.EventAdmission.ReportLoss | crates/events/src/event_admission.rs:201-226 | keeps the first loss, closes admission, and never replaces an earlier reason |
| Admission.EventAdmission.Settle | crates/events/src/event_admission.rs:255-259 | returns the capacity and reports nothing |
| Admission.EventAdmission.DropReceipt | crates/events/src/event_admission.rs:262-270 | a receipt dropped unsettled closes admission and returns the capacity |
| AdmissionProtocol.SumWithout | crates/events/src/event_admission.rs:193-199 | the byte sum of the live reservations does not depend on the order in which they are summed |
| AdmissionProtocol.NoUnderflow | crates/events/src/event_admission.rs:193-237 | every guard that is about to drop is counted and every receipt about to be returned is in the window, so no counter goes below zero |
| AdmissionInvariant.GuardsStep | crates/events/src/event_admission.rs:90-102 | every step keeps `in_flight` equal to the number of publishers that hold a guard |
| AdmissionInvariant.WindowStep | crates/events/src/event_admission.rs:153-199 | every step keeps the window equal to the count and byte sum of the live reservations, within max(limit, 1) events and the byte limit |
| AdmissionInvariant.FenceStep | crates/events/src/event_admission.rs:90-115 | every step keeps the fence: once closed and drained, nobody holds an accepted guard |
| AdmissionInvariant.WakeupStep | crates/events/src/bus_handle.rs:198-215 | every step keeps that a parked publisher that could be admitted is notified or about to be |
| AdmissionInvariant.CloserWakesStep | crates/events/src/event_admission.rs:104-115 | every step keeps that a sleeping closer is owed a notification |
| AdmissionInvariant.MailboxStep | crates/events/src/bus_handle.rs:219-243 | every step keeps each admitted event enqueued once, and nothing after Shutdown |
| AdmissionRuns.InvReachable | crates/events/src/event_admission.rs:90-237 | every reachable state satisfies all of these invariants |
| AdmissionRuns.FenceOrdersShutdown | crates/events/src/bus_handle.rs:219-234 | once `close_and_wait` returned, in every continuation nobody holds or gets an accepted guard, Shutdown is enqueued last, and every reservation is enqueued before it or reported as lost |
| AdmissionRuns.WindowConserved | crates/events/src/event_admission.rs:118-213 | in every reachable state the window is exactly the live reservations and within its limits, releases never underflow, and two capped events never hold capacity together |
| AdmissionRuns.CapExcludesAPair | crates/events/src/event_admission.rs:161-165 | the cap leaves no room for a second capped event exactly when the byte limit is positive |
| AdmissionRuns.FailureRefuses | crates/events/src/event_admission.rs:153-213 | after a loss or failure, some continuation gives a publisher a new receipt if and only if it had passed the failure check before |
| AdmissionRuns.OnlyPastReserve | crates/events/src/event_admission.rs:153-213 | every reservation of a continuation after a failure is of a publisher that had passed the check |
| AdmissionRuns.FittingPastReserves | crates/events/src/event_admission.rs:158-179 | the next step gives a publisher a receipt if and only if it passed the check and its event fits |
| AdmissionRuns.ReservesAfterFailure | crates/events/src/event_admission.rs:153-179 | a run in which the failure comes between a publisher's check and its reservation, and it reserves |
| AdmissionRuns.WakeupsReachWaiters | crates/events/src/bus_handle.rs:198-215 | a parked publisher is notified, or a release is about to notify it, or it does not fit and the window is not empty; after the closer's notification every parked publisher can wake, and none holds a guard |
| AdmissionRuns.DrainNeverStuck | crates/events/src/event_admission.rs:104-115 | while the closer sleeps, some publisher with a guard or a pending notification can step |
| AdmissionProgress.WorkStep | crates/events/src/event_admission.rs:90-115 | behind a closed fence every step of the closer and of a publisher leaves strictly less to do, and a new publisher adds a fixed amount |
| AdmissionProgress.DrainEnds | crates/events/src/event_admission.rs:104-115 | after the fence closes, publishers and closer take a number of steps known at that time, and eight for each publisher that comes later |
| AdmissionProgress.DrainEndsWithShutdown | crates/events/src/bus_handle.rs:219-234 | when neither closer nor publisher can step any more, `close_and_wait` has returned, Shutdown is enqueued and every publisher is done |
| AdmissionService.RefusedIffFull | crates/events/src/event_admission.rs:136-179 | in every reachable state a publisher past the check is refused if and only if reservations are live and their number has reached the limit or their bytes and its own exceed it, with a quarter of the limit for a publisher that waits; otherwise exactly its own reservation is added |
| AdmissionService.NoneRefusedForever | crates/events/src/bus_handle.rs:198-215 | while the fence is open and nothing failed, a publisher can still get a receipt if and only if it is still trying, and a parked one, behind a full share or woken from there, is |
| AdmissionService.WaitersPersistInRuns | crates/events/src/bus_handle.rs:198-215 | over every run with the fence open and no failure, a waiting publisher is done without a reservation of its own only if it found the sequencer stopped |
| AdmissionService.StoppedSequencerRefuses | crates/events/src/bus_handle.rs:205-206 | a publisher that finds the sequencer stopped gets no receipt in any continuation |
| AdmissionService.WakesOnlyWhenNotified | crates/events/src/bus_handle.rs:200-213 | a registered publisher cannot wake in any continuation without a release or the closed fence notifying it |
| AdmissionService.WaitersKeepToShare | crates/events/src/event_admission.rs:34-37 | in every reachable state waiting publishers together hold at most a quarter of the window, or a single reservation |
| AdmissionService.LossIsNoticed | crates/events/src/event_admission.rs:201-213 | a lost event has closed admission: from then on exactly the publishers that were past the check can still reserve |
| Pipeline.Find | crates/events/src/eventstore.rs:36-75 | a timestamp is found if and only if it was logged |
| PipelineInvariant.TotalStep | crates/events/src/sequencer.rs:64-83 | no step makes, copies or drops an event: the number of places that hold it is kept |
| PipelineInvariant.AccountedStep | crates/events/src/eventstore.rs:450-469 | every step keeps each event in flight in one place, settled once or lost once |
| PipelineInvariant.StreamedStep | crates/events/src/eventstore.rs:76-85 | every step keeps what reaches the bus for an aggregate a gap-free prefix of what this boot logged and synced, in order |
| PipelineOrder.OrderStep | crates/events/src/eventstore_router.rs:175-191 | every step keeps each log, mailbox and queue in order of submission |
| PipelineOrder.HomedStep | crates/events/src/eventstore_router.rs:175-191 | every step keeps a store's mailbox and log to its own aggregate |
| PipelineOrder.LossesStep | crates/events/src/eventstore.rs:462-466 | every step keeps that an event is lost only when no store runs for its aggregate |
| PipelineOrder.DuplicateHasCopy | crates/events/src/eventstore.rs:41-66 | an event answered as a duplicate has an equal event logged and submitted before it |
| PipelineOrder.SettlementsStep | crates/events/src/eventbus.rs:265-271 | every step keeps that a settled event is of an earlier boot, was fanned out or repeats a logged one |
| PipelineDrain.GatedStep | crates/events/src/sequencer.rs:85-106 | every step keeps the flush in front of later events: behind its marker, in each of the five queues it passes, nothing from before the flush remains |
| PipelineRuns.InvReachable | crates/events/src/sequencer.rs:64-106 | every state that some boot reaches, of a fresh or a restarted node, satisfies all pipeline invariants |
| PipelineRuns.DispatchFollowsLog | crates/events/src/eventstore.rs:76-85 | in every reachable state the fanouts begun for an aggregate are its log from the first record of this boot on, numbered on from the b records of earlier boots as b+1, b+2..., in order of submission, and only the synced part |
| PipelineRuns.OutcomeIsExact | crates/events/src/eventstore.rs:36-86 | in every reachable state a store settles exactly what repeats a logged event, of this boot or an earlier one, when index and log can be read, stores exactly new timestamps that nothing fails on, and stops on everything else; a new event is then in the log unless its lookup or append failed, and synced unless its sync failed |
| PipelineRuns.FlushOutcomeIsExact | crates/events/src/eventstore.rs:471-482 | in every reachable state a store meets the flush only when the flush waits for it; a failed sync stops the store, loses what waits in its mailbox and fails the flush, and otherwise the whole log is synced |
| PipelineRuns.EveryEventInOnePlace | crates/events/src/event_admission.rs:241-270 | in every reachable state a submitted event is in flight in exactly one place, settled once or lost once |
| PipelineRuns.DeliveredAtMostOnce | crates/events/src/eventstore.rs:41-75 | in one boot no event is fanned out twice, however often it was submitted |
| PipelineRuns.NoRedelivery | crates/events/src/eventstore.rs:41-66 | nothing that an earlier boot logged is fanned out |
| PipelineRuns.FlushSettles | crates/events/src/bus_handle.rs:248-253 | when a flush returns successfully, nothing submitted before it is in flight; it is settled once, or lost once exactly when this boot enqueued it and no store is configured for its aggregate |
| PipelineRuns.FlushDelivers | crates/events/src/eventstore_router.rs:359-374 | when a flush returns successfully, an event that this boot submitted before it for a configured aggregate had the fanout of it, or of an equal earlier event, ended if and only if no earlier boot logged an equal event |
| PipelineRuns.SyncedStep | crates/events/src/eventstore.rs:471-482 | every step keeps that where a flush has passed a store, every record from before the flush is synced |
| PipelineProgress.WaitsStep | crates/events/src/bus_handle.rs:248-253 | every step keeps the flush's marker where the flush waits for it, and a stopped store's mailbox empty |
| PipelineProgress.NothingIsStuck | crates/events/src/bus_handle.rs:245-253 | a reachable state in which no handler can run has no flush under way, so that one can start, and every submitted event settled or lost |
| PipelineProgress.WorkStep | crates/events/src/sequencer.rs:64-106 | every step other than a submission or a new flush leaves strictly less work |
| PipelineProgress.DrainEnds | crates/events/src/bus_handle.rs:245-253 | without new work every run ends within a number of steps known at its start |
| PipelineBoots.RestartBoots | crates/events/src/eventstore.rs:326-335 | whatever a node was doing when it stopped, it starts again in a boot state: logs of own events in order of submission, no timestamp twice |
| PipelineBoots.DurableLater | crates/events/src/eventstore.rs:76-82 | over a life of any number of boots, an event whose record was synced stays synced and counts as logged before in every later boot |
| PipelineBoots.FlushSyncs | crates/events/src/eventstore.rs:471-482 | when a flush returns successfully, every record of every log of an event from before it is synced, records of earlier boots included |
| PipelineBoots.FlushMakesDurable | crates/events/src/eventstore.rs:471-482 | when a flush returns successfully, every event that this boot submitted before it for a configured aggregate has an equal synced record |
| PipelineBoots.FlushedOutlives | crates/events/src/eventstore.rs:471-482 | over a life of any number of boots, what a flush of one boot covered is in the log of every later boot |
| PipelineBoots.DeliveredInOneBoot | crates/events/src/eventstore.rs:36-86 | over a life of any number of boots, what one boot fans out no later boot fans out |
| PipelineBoots.RepeatIsNotDelivered | crates/state/sync/src/service.rs:588-592 | a run in which a restarted node gets a logged event again, and the flush returns with it settled and nothing fanned out |
| NodeShutdown.PassAllFollows | crates/events/src/event_admission.rs:241-270 | settling or dropping the receipts of events that were in flight keeps every receipt with its event |
| NodeShutdownRuns.InvStep | crates/events/src/bus_handle.rs:198-253 | every step of admission and pipeline together keeps each receipt queued while its event is in flight, settled when it is settled and lost when it is lost |
| NodeShutdownRuns.ShutdownSettlesEverything | crates/events/src/bus_handle.rs:219-253 | on a fresh or restarted node, after the fence, Shutdown and a successful flush, every reservation is settled or lost, an enqueued one settled exactly when its aggregate has a store, and the window is empty but for losses that are still being reported |
| NodeDrain.WorkStep | crates/events/src/bus_handle.rs:198-253 | behind a closed fence every step of closer, publisher, handler or flush leaves strictly less to do; a new publisher and a new flush add a fixed amount |
| NodeDrain.DrainEnds | crates/events/src/bus_handle.rs:203-234 | with waiting publishers holding their guards until the sequencer handled their events, a node behind a closed fence takes a number of steps known at that time, 56 for each later publisher and 9 + 2n for each flush |
| NodeDrain.NeverStuck | crates/events/src/bus_handle.rs:203-234 | when nothing of such a node can step any more, `close_and_wait` has returned, Shutdown is enqueued, every publisher is done, no flush is under way and every event is settled or lost |
| NodeDrain.DrainedIsSequenced | crates/events/src/bus_handle.rs:203-212 | once `close_and_wait` returned, the sequencer has handled every event that a waiting publisher sent |
| EventLog.ReadFrom | crates/events/src/traits.rs:192-196 | consecutive records from a sequence number to the head, numbered from 1; sequence 0 reads from the first |
| EventLog.FitIsLongest | crates/events/src/traits.rs:209-231 | no longer prefix fits the count limit and byte budget than the one read |
| EventLog.ReadFromBoundedByBytes | crates/events/src/traits.rs:214-231 | reads exactly the longest prefix within the limits, the first record always |
| Ordering.AscendsUnique | crates/events/src/traits.rs:177-178 | an ascending listing of a set of timestamps is unique |
| SequenceIndex.KeysOn | crates/events/src/traits.rs:177-178 | reading the index from one past a listed timestamp lists exactly the others |
| SequenceIndex.RangeFrom | crates/events/src/traits.rs:177-178 | up to `limit` rows from a timestamp on, in timestamp order, each with its sequence number |
| EventStore.EventStore.New | crates/events/src/eventstore.rs:326-335 | opens a store on a log and an index and reconciles them |
| EventStore.EventStore.StoreEvent | crates/events/src/eventstore.rs:36-86 | the whole new state and answer for a new timestamp, a duplicate, a collision, a corrupt row and every storage fault |
| EventStore.EventStore.ReconcileIndex | crates/events/src/eventstore.rs:356-443 | whatever the log gives back, the index gains exactly the missing rows of consecutive records that were given back, and success means as many as the head; on a log that reads back what it holds only an index failure or the last sequence number stops it |
| EventStore.EventStore.CollectFilteredBounded | crates/events/src/eventstore.rs:113-163 | returns records of the asked source from the cursor on, in order; one that is left out comes after the answer reached its count, or at or after a record of that source that would have exceeded the byte budget; whatever the scan page boundaries |
| EventStore.EventStore.QueryBySeq | crates/events/src/eventstore.rs:278-322 | refuses exactly a cursor beyond one past the head; otherwise returns records of the asked source, or of all, from the cursor on, in order, and leaves one out only where the count limit or the byte budget ended the answer; without a count limit the byte budget is not applied |
| EventStore.EventStore.QueryHistoryPage | crates/events/src/eventstore.rs:216-265 | on a sound index gives exactly the page that the timestamp-ordered history defines; on any index it returns only records that agree with their rows, stops early only at a record that does not fit, and fails only at the first row that disagrees |
| EventStore.MatchingExact | crates/events/src/eventstore.rs:139-144 | the filtered records are those of the scanned ones that match |
| EventStore.MatchingAscends | crates/events/src/eventstore.rs:139-144 | and they keep the order of the log |
| EventStore.FitAnswers | crates/events/src/eventstore.rs:113-163 | the longest fitting prefix of the matching records is such an answer |
| EventStoreRecovery.FilledRows | crates/events/src/eventstore.rs:394-415 | reconciliation keeps every row, adds only rows of the log, and leaves no event without one |
| EventStoreRecovery.ReconcileExact | crates/events/src/eventstore.rs:356-443 | with distinct timestamps the reconciled index is exactly the log's if and only if the rows before agreed with the log |
| EventStoreRecovery.GreatestIsMax | crates/events/src/eventstore.rs:394-395 | the recomputed timestamp is the greatest one in the log, and absent only for an empty log |
| EventStoreRecovery.InvStep | crates/events/src/eventstore.rs:36-86 | storing, failing, flushing, crashing and restarting keep timestamps distinct, a running index complete and every acknowledged event in place; that rows agree with the log is kept by every step but a crash that keeps a row and loses its record |
| EventStoreRecovery.RunsExactIffRecordsKept | crates/events/src/eventstore.rs:350-443 | over every run of stores, faults, crashes and restarts, the store is exact whenever it is up if and only if no crash of the run keeps a row and loses its record |
| EventStoreRecovery.RunningStoreIsExact | crates/events/src/eventstore.rs:356-443 | after a run without such a crash, a running store's index is exactly timestamp to sequence of its log and its greatest timestamp is the true one |
| EventStoreRecovery.CrashesKeepIffSynced | crates/events/src/eventstore.rs:76-83 | no crash in a reachable state keeps a row and loses its record if and only if every row's record is synced |
| EventStoreRecovery.RecoveredTailIsLost | crates/events/src/eventstore.rs:394-415 | the run of two crashes after which the store runs with a row of an empty log and answers that the record is missing |
| EventStoreRecovery.AcknowledgedSurvives | crates/events/src/eventstore.rs:76-85 | an acknowledged event keeps its sequence number and content through every later fault, crash and restart, whatever else the crashes lose |
| EventStoreRecovery.StoredSurvives | crates/events/src/eventstore.rs:76-85 | an event that storing answered with a sequence number has that number and is acknowledged in every continuation, whatever faults, crashes and restarts follow |
| EventStoreRecovery.FlushedSurvives | crates/events/src/eventstore.rs:471-482 | everything in the log when a flush succeeds is there, in place, in every continuation |
| EventStoreRecovery.FailureStopsTheStore | crates/events/src/eventstore.rs:450-482 | after a failed store or flush nothing is added to the log until the process restarts |
| EventStoreRecovery.StoreAnswers | crates/events/src/eventstore.rs:36-86 | in every reachable running state in which the event's row, if any, agrees with the log: stored if and only if the timestamp is new, ignored if and only if the same event is logged, refused if and only if another event has the timestamp |
| EventStoreRecovery.StoreAnswersEveryEvent | crates/events/src/eventstore.rs:36-86 | after a run without a crash that keeps a row and loses its record, that is every event |
| EventStoreRecovery.MissingIffOutlived | crates/events/src/eventstore.rs:41-54 | in every reachable state, storing answers that a record is missing exactly when the event's row outlived its record |
| EventStoreRecovery.NextRecoveryIsExact | crates/events/src/eventstore.rs:350-356 | a recovery after the next crash is exact whatever it keeps of the log, if and only if the whole log is synced |
| EventStoreHistory.PageProgress | crates/events/src/eventstore.rs:216-265 | a page that is not the last holds a record and leaves a cursor in 128-bit range that continues exactly where it ended |
| EventStoreHistory.PagingEnds | crates/events/src/eventstore.rs:211-265 | asking for page after page ends, for every limit of at least one and every byte budget |
| EventStoreHistory.PagingIsComplete | crates/events/src/eventstore.rs:211-265 | the pages together are the whole history from the start, nothing twice and nothing missing |
| EventStoreHistory.HistoryIsEveryRecord | crates/events/src/eventstore.rs:211-222 | the history is every record at or after the timestamp, once, in timestamp order, however the log is ordered |
| EventStoreHistory.PageWithinBudget | crates/events/src/eventstore.rs:226-264 | a page of more than one record is within the budget, stops early only when the next record would exceed a limit, and says `exhausted` exactly when nothing follows |
| EventStoreHistory.ZeroLimitMakesNoProgress | crates/events/src/eventstore.rs:216-265 | a limit of zero gives an empty page without a cursor |
| NetworkSync.BuildSyncBatch | crates/net/src/network_sync/workflow.rs:145-233 | the handler's loop builds exactly the defined reply: a bad request, a failure, or a batch with its cursor |
| NetworkSync.ConsumedFits | crates/net/src/network_sync/workflow.rs:160-192 | what a reply consumes fits its count and size limits, and it stops only at a record that does not |
| NetworkSync.ReplyIsExact | crates/net/src/network_sync/workflow.rs:136-233 | a reply fails only at a record larger than a reply; otherwise it returns the forwardable part of what it consumed, at most 100 records and no more than were asked for, goes on until it is full, the next record does not fit or four times as many records were scanned, and its cursor reads on exactly after that, also within a storage page |
| NetworkSync.SyncEnds | crates/net/src/network_sync/workflow.rs:145-233 | a peer that follows the cursors gets finitely many replies |
| NetworkSync.SyncIsExact | crates/net/src/network_sync/workflow.rs:136-233 | the last reply says done if and only if no record to be forwarded is larger than a reply, and the replies are then every forwardable record from the start, once, in timestamp order |
| HamtBits.Select | crates/hamt/src/lib.rs:75-81 | every child position belongs to exactly one set bit of the bitmap |
| HamtBits.AddedSlot | crates/hamt/src/lib.rs:79-81 | setting a bit moves exactly the children behind it by one |
| HamtBits.AgreeEverywhere | crates/hamt/src/lib.rs:75-77 | hashes that agree on the chunks up to shift 60 are equal |
| HamtRefinement.SplitShift | crates/hamt/src/lib.rs:120-165 | two leaves with different hashes are split by shift 60 |
| HamtRefinement.InsertSound | crates/hamt/src/lib.rs:93-189 | insertion keeps the trie well-formed and never computes a shift of 64 or more or an index out of range |
| HamtRefinement.InsertGet | crates/hamt/src/lib.rs:83-235 | after an insertion the key has the value and every other lookup is unchanged |
| HamtRefinement.RemoveSound | crates/hamt/src/lib.rs:239-334 | removal changes nothing exactly when the key is absent; otherwise the trie stays well-formed and only the key is gone |
| HamtMap.CollectEntries | crates/hamt/src/lib.rs:339-360 | pushes the entries of a node after what was collected |
| HamtMap.EntriesAreLookups | crates/hamt/src/lib.rs:339-360 | a pair is listed if and only if a lookup of the key gives the value |
| HamtMap.EntriesDistinct | crates/hamt/src/lib.rs:339-360 | no key is listed twice |
| HamtMap.InsertRefines | crates/hamt/src/lib.rs:83-189 | insertion refines a map update, size included, or meets the unreachable arm |
| HamtMap.RemoveRefines | crates/hamt/src/lib.rs:239-334 | removal refines removal from the map, size included |
| HamtMap.EntriesRefine | crates/hamt/src/lib.rs:339-364 | `entries` lists every binding exactly once and `len` is their number |
| HamtMap.Run | crates/hamt/src/lib.rs:57-368 | for any hash function, a run of operations represents the map that they describe, unless it meets the unreachable arm |
| HamtMap.ArmIffBlocked | crates/hamt/src/lib.rs:166-186 | an insertion meets the arm if and only if a collision bucket of another hash shares the low bits of its hash up to the bucket's depth |
| HamtMap.InjectiveRunsComplete | crates/hamt/src/lib.rs:93-189 | when no two keys in use share a hash, every run completes |
| HamtMap.ArmIsReachable | crates/hamt/src/lib.rs:184-186 | two keys of one hash and a third of another reach the arm |
| HlcTimestamp.FromToBytes | crates/events/src/hlc.rs:68-83 | big-endian bytes of a number in range give it back |
| HlcTimestamp.UnpackUndoesPack | crates/events/src/hlc.rs:68-105 | unpacking a packed timestamp gives it back |
| HlcTimestamp.PackUndoesUnpack | crates/events/src/hlc.rs:76-105 | packing what 16 bytes unpack to gives the bytes back, and any other length is refused |
| HlcTimestamp.U128Value | crates/events/src/hlc.rs:55-88 | the 128-bit value is time, counter and node side by side |
| HlcTimestamp.U128RoundTrip | crates/events/src/hlc.rs:85-93 | timestamps and 128-bit values convert both ways without loss |
| HlcTimestamp.LexLessIsLess | crates/events/src/hlc.rs:65-74 | byte order and numeric order agree |
| HlcTimestamp.OrdersAgree | crates/events/src/hlc.rs:107-114 | the order by fields, by packed bytes and by 128-bit value is the same, equality included |
| Hlc.Hlc.SeedFromHistory | crates/events/src/hlc.rs:258-264 | takes over the persisted time and counter exactly when they are later, and otherwise changes nothing |
| Hlc.Hlc.Tick | crates/events/src/hlc.rs:292-317 | succeeds if and only if there is a wall time and the clock is not at its last position; the answer is the first timestamp of the node that is later than the clock and not before the wall time; an error changes nothing |
| Hlc.Hlc.LatestAdmissible | crates/events/src/hlc.rs:319-326 | a remote time is at most the wall time plus the drift allowance, in unbounded addition, if and only if the timestamp is at or before this one |
| Hlc.Hlc.Receive | crates/events/src/hlc.rs:328-379 | with a wall time, fails for drift if and only if the remote time exceeds the wall time plus the allowance, in unbounded addition; otherwise, unless clock or remote is at the last position, the answer is the first timestamp of the node that is later than both and not before the wall time; an error changes nothing |
| Hlc.Hlc.WithState | crates/events/src/hlc.rs:225-232 | a clock with the given state has an allowance of five minutes |
| Hlc.TickAfterRestart | crates/events/src/hlc.rs:252-264 | a clock seeded from history ticks past it whatever the wall time, unless history holds the last position |
| HlcRuns.RunClock | crates/events/src/hlc.rs:292-379 | a clock that is given operations one by one ends where the position after the operations says |
| HlcRuns.ClockStaysNearWallTime | crates/events/src/hlc.rs:292-379 | after n operations from a fresh clock, time is at most the greatest wall time seen plus the drift allowance plus n/2^32 rounded up |
| HlcRuns.InvStep | crates/events/src/hlc.rs:258-379 | ticks, receives of stored and unstored timestamps, stores and restarts of any number of nodes keep every direct cause strictly earlier |
| HlcRuns.CausalityIsOrder | crates/events/src/hlc.rs:68-114 | in every run of many nodes, what happened before has the strictly smaller 128-bit value, across messages and restarts and through timestamps that were sent and then lost |
| HlcRuns.TimestampsAreDistinct | crates/events/src/hlc.rs:68-114 | with distinct node ids two timestamps are equal only when their node lost the first in a restart and made it again |
| HlcRuns.RestartLosesUnstored | crates/events/src/hlc.rs:252-264 | a restart loses exactly the timestamps of the node that it had not stored |
| HlcRuns.RestartExceedsStored | crates/events/src/hlc.rs:252-264 | after a restart the next tick exceeds everything that the node stored, whatever the wall time |
| HlcRuns.RestartExceedsEverything | crates/events/src/hlc.rs:252-317 | a restarted node's next tick exceeds everything that it ever made, sent or not, if and only if each of those is within what it stored or before the wall time |
| HlcRuns.NodesAscendIffPassed | crates/events/src/hlc.rs:292-379 | in a run every node's timestamps ascend, lost ones included, if and only if every clock operation passes what its node made before |
| HlcRuns.SentTimestampRepeats | crates/net/src/document_publishing/effects.rs:120-131 | a run in which a timestamp that another node received is made again after a restart |
| Dedup.ExactDedup.constructor | crates/events/src/eventbus.rs:73-79 | a new window is empty |
| Dedup.ExactDedup.Contains | crates/events/src/eventbus.rs:81-83 | true exactly for the ids in the queue |
| Dedup.ExactDedup.Insert | crates/events/src/eventbus.rs:85-105 | a new id becomes the youngest and the oldest leaves a full window; set and queue keep the same distinct ids, and the reset for diverged state is never taken |
| Dedup.EventBus.PrepareFanout | crates/events/src/eventbus.rs:168-228 | with deduplication an event is accepted if and only if its id is not among the last `capacity` accepted ones; without it every event is |
| Dedup.AcceptedApart | crates/events/src/eventbus.rs:57-106 | over any stream, equal accepted ids are more than `capacity` apart |
| Dedup.AcceptedSame | crates/events/src/eventbus.rs:57-106 | over any stream, an id is accepted at some point if and only if it occurs |
| Dedup.LargeWindowIsExact | crates/events/src/eventbus.rs:57-106 | a window as large as the number of different ids accepts each exactly once |
| Dedup.PrepareAll | crates/events/src/eventbus.rs:209-228 | a bus that is fed a stream accepts exactly what the stream's definition says, event by event |
| CorrelationId.Seed | crates/events/src/correlation_id.rs:32-41 | the seed is the time in microseconds, 1 for no time or time zero, and half the counter's range for a time beyond it |
| CorrelationId.CorrelationIds.constructor | crates/events/src/correlation_id.rs:32-41 | a node without a reservation file starts at the clock seed |
| CorrelationId.CorrelationIds.New | crates/events/src/correlation_id.rs:55-60 | issues the counter's value and advances it, wrapping |
| CorrelationId.CorrelationIds.ReserveCorrelationIds | crates/events/src/correlation_id.rs:73-107 | raises the counter to the recorded reservation and, when it completes, records one 2^32 above, or the greatest 64-bit number |
| CorrelationId.IdsExceedEarlierBoots | crates/events/src/correlation_id.rs:68-107 | over any sequence of boots, clock seeds and repeated, failed or completed reservations, an id issued after a reservation exceeds every id of every earlier boot that reserved, while reserved boots stay below their reservation and nothing saturates |
| CorrelationId.BootReservesAndIssues | crates/events/src/correlation_id.rs:68-107 | a node may boot in any state, and reserve and issue while nothing saturates |
| CorrelationId.ReservationAllows | crates/events/src/correlation_id.rs:24-26 | a completed reservation leaves room for exactly 2^32 ids |
| CorrelationId.IdsIncreaseWithinBoot | crates/events/src/correlation_id.rs:55-60 | within a boot later ids are greater |
| CorrelationId.ReservationIsExact | crates/events/src/correlation_id.rs:24-26 | from any state, whatever was recorded before: a boot reserves and issues n ids, and the next boot's id exceeds them if and only if n is at most 2^32 or the clock was ahead |
| PublicKeyChunks.LayoutIsExact | crates/data-availability/src/public_key.rs:19-29 | exactly the lengths from 1 byte to 512 KiB have a layout, of as many chunks of 90 KiB as it takes |
| Boundary.ChainTo | scripts/checks/cargo-dependency-boundaries.py:133-136 | the parents give a chain of permitted links from the start, as long as the package's depth |
| Boundary.PathsAreFound | scripts/checks/cargo-dependency-boundaries.py:121-132 | when the queue is empty every path ends at a found package that is no deeper than the path is long |
| Boundary.Crossings | scripts/checks/cargo-dependency-boundaries.py:116-137 | reports exactly the non-permitted packages other than the start that are reachable through permitted ones, each once, with a shortest chain |
| PublicKeyChunks.RangesPartition | crates/data-availability/src/public_key.rs:39-45 | the ranges of a legal key are non-empty, follow each other and cover it |
| PublicKeyChunks.InsertChunk | crates/data-availability/src/public_key.rs:54-68 | fills an empty slot, never changes a filled one, and accepts exactly when the slot then holds these bytes |
| PublicKeyChunks.AssembleChunks | crates/data-availability/src/public_key.rs:71-80 | gives the slots joined in order if and only if all are filled and the length is right |
| PublicKeyChunks.FirstArrivalIsKept | crates/data-availability/src/public_key.rs:52-68 | over any arrivals a slot holds what arrived first for it |
| PublicKeyChunks.AssemblyIsExact | crates/data-availability/src/public_key.rs:70-80 | with arrivals of accepted shape in any order, repeated and conflicting, assembly gives the key if and only if the first arrival for each index is its part of the key |
| PublicKeyChunks.AcceptedChunksAssemble | crates/data-availability/src/public_key.rs:47-80 | with arrivals of accepted shape, whatever their bytes, assembly succeeds if and only if every index arrived |
| CleanPlan.ProtectedPaths | scripts/dev/clean.ts:28-32 | exactly the tracked files and the directories above them |
| CleanPlan.Candidates | scripts/dev/clean.ts:34-41 | exactly the output names of each kind beside a tracked manifest of that kind, unless the kind is skipped |
| CleanPlan.SelectIsSafe | scripts/dev/clean.ts:55-73 | what is selected is reached over nothing that must stay, and nothing below it must stay |
| CleanPlan.SelectIsComplete | scripts/dev/clean.ts:55-73 | every file reached over nothing that must stay is covered |
| CleanPlan.RemovableIff | scripts/dev/clean.ts:55-73 | an entry is removable if and only if everything at and below it may go: nothing that must stay, no protected directory or link, no link that is the root of the selection |
| CleanPlan.SelectExact | scripts/dev/clean.ts:55-73 | a path is selected if and only if it is reached over nothing that must stay and is removable while nothing above it is |
| CleanPlan.SelectSparesProtected | scripts/dev/clean.ts:58-72 | a protected path that is selected is a regular file on disk |
| CleanPlan.PlanClean | scripts/dev/clean.ts:25-80 | exactly what goes as a whole is selected unless something above it goes; no selected path is or contains a tracked file, state directory or nested repository or lies below one, none lies below another, a path at or above a tracked one is selected exactly when a regular file that is an output stands there, and a file is covered if and only if it is an output |
| CleanPlan.FileAboveTrackedIsOutput | scripts/dev/clean.ts:65 | the input in which a regular file above a tracked path is an output |

## Left out

- Weak-memory behaviour of the atomics: they are taken as sequentially consistent.
- Mailbox capacities, timeouts, actor scheduling and a fanout's listeners: a mailbox is an unbounded FIFO queue and a fanout is one step that begins and one that ends.
- Quarantined records and histories merged over several stores: sync is proved over one store's history.
- AdmissionRuns.DrainNeverStuck: says nothing about a guard that waits for the sequencer; `NodeDrain.NeverStuck` does.
- AdmissionProgress.DrainEnds: bounds the steps of publishers and closer, without the sequencer that a guard may wait for; `NodeDrain.DrainEnds` bounds both.
- Two flushes at the same time: a flush starts after the previous one returned.
- Startup replay and forked buses: only events that pass the sequencer reach the modelled bus. A replay of the log is not counted as a delivery, and deduplication is proved on its own streams.
- The query aggregation, quarantine and history routing of the event-store router: bookkeeping over the queries proved here.
- `query_by_ts_with_bounds`: the same bounded reads from the first indexed record at or after a timestamp.
- Encodings, digests, encryption and the default hasher: sizes, ids and hashes are parameters.
- Files under the log and index: segments, frames, blobs and directory syncs; a log is a sequence with a synced prefix and an index is a map.
- Writing, syncing and renaming the reservation file: one durable update that completes or not.
- Reading manifests for the dependency graph: the graph is given, and its links lead to packages in it.
- Running `git` and deleting: the tracked files and the file tree are given.
- The command line, initialisation, network clients, benchmarks and user interface.
- Logs of 2^64 - 1 records: the crash runs stay below the last sequence number; reconciliation and the queries have its error.
