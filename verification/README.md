# EPON manager: a verified model

A Dafny model of the stateful middle of the EPON manager daemon, with proofs about
whole runs and all interleavings. The HAL, the clock, the bus (RBUS), the WAN manager,
the persistent store (PSM) and the telemetry backend (T2) are oracles: their answers
are parameters of each call, and every result holds for all of them.

| file | models |
|---|---|
| CText.dfy | the C text routines in use: `%u`, `atoi`, bounded copy and comparison, substring search |
| EventQueue.dfy | the ring buffer between HAL callbacks and the controller loop |
| Telemetry.dfy | event catalogue, value formatting, alarm mapping, dispatch, and a decoder for the marker trace |
| WanManager.dfy | index discovery, virtual-interface update, PHY notification |
| Interfaces.dfy | the interface list: update, aggregate, lookup, normal form |
| RowTables.dfy | registration of dynamic TR-181 rows, clean-up |
| Controller.dfy | event handlers, callbacks, the batched drain, the wait deadline |
| ControllerRuns.dfy | what state and telemetry are after any run of handled events; VEIP rows and GETs under events and list refreshes |
| Pipeline.dfy | callback threads and controller loop as a concurrent machine: refinement, order, latency |
| EndToEnd.dfy | the pipeline's refinement in terms of the events alone |
| TelemetryTrace.dfy | what the telemetry backend sees of a run, decoded from markers and values, against what the events call for |
| StatsCache.dfy | the TTL cache and the bound on HAL load |
| ClearCache.dfy | readers and clears of the statistics as a concurrent machine |
| HalLists.dfy | ownership of HAL-allocated lists, with an allocation ledger |
| ChangeTracking.dfy | when tables are resynchronised, as a concurrent machine |
| VeipTracking.dfy | the same for the VEIP table, over actual interface lists and rows |
| RowPaths.dfy | the path-parsing GET handlers of the dynamic tables |
| Locking.dfy, DataLocks.dfy | a lock-order checker with its soundness proof, and the locking skeletons of the operations |
| Poller.dfy | the statistics poller as a thread protocol |
| Psm.dfy, Persistence.dfy | the persistent store and the four-key configuration |

Code that changes fields step by step is a class whose methods are proved against
specification functions; code of several threads is a machine whose actions are the
critical sections, built on the same functions, and an arbitrary sequence of actions is
an arbitrary interleaving. `dafny verify dfyconfig.toml` checks the project.

## Where the code falls short of its description

- The table refresh of LLID and CPE lists is not safe on its own: a refresh that fails
  between another thread's unlock and synchronisation hides rows until the count changes
  (`ChangeTracking.UntimelyLosesRows`), and so does a null list reported with a count
  (`ChangeTracking.NullListLosesRows`). No caller in the repository reaches such a run:
  both getters are called only from the GET handlers (eponMgr_tr181.c:1161 and 1279),
  which hold the recursive data mutex throughout and synchronise once more
  (`ChangeTracking.HandlersKeepTablesComplete`).
- LLID rows 33 to 64 are registered but rejected by the GET handler
  (`RowPaths.LlidRowsBeyond32`).
- VEIP rows keep 63 characters of a name and are looked up by it, so if the HAL's name
  field holds 64 characters or more (EPON_HAL_INTERFACE_NAME_LEN is a parameter here), an
  interface with such a name is not found under its row (`ControllerRuns.VeipGetReadsLatest`,
  `ControllerRuns.LongNameIsNotFound`); a list refresh may leave a row
  behind whose interface is gone, and a GET on it then finds nothing
  (`ControllerRuns.GetAnswersWhileListed`, `ControllerRuns.RefreshOrphansRow`).
- The poller's start checks a flag that only the new thread sets, so two starts in that
  window give two threads and a stop in it has no effect (`Poller.StartInWindowDoubles`,
  `Poller.StopInWindowIsLost`); a stop that arrives while the thread collects or is about
  to wait is not signalled to it, and the thread first sleeps until its wait times out
  (`Poller.StopWaitsForTimeoutIff`).
- The save is documented as atomic but writes key by key: `Persistence.AllOrNothingIff`
  and `Persistence.ChangedSaveIsAtomicIff` say exactly when it is, `Persistence.TornSave`
  shows one that is not, and `Persistence.CrashConsistent` and
  `Persistence.EarlierKeysAreNewer` say what survives. The poller's set_interval takes
  values a load rejects (its only caller in the repository, eponMgr_tr181.c:1632, admits
  60 to 3600 seconds); `Persistence.RoundTripIff` gives the exact condition and
  `Persistence.ShortIntervalIsLost` an instance.

## Assumptions

- The HAL leaves the caller's buffers unchanged when it fails, and a block it allocates
  has as many entries as the counts it reports (`HalLists.Truthful`). It may leave the
  list pointer null and report any counts.
- In `ChangeTracking` and `VeipTracking` the bus handle is set and the bus takes every row
  it is offered; `RowTables` covers refusals. Without it the event handler still writes the
  count cache after a failed synchronisation (eponMgr_controller.c:280-284).
- `epon_hal.h` is not part of this model: the interface limit, the name length and the
  not-applicable LLID are parameters. A name field holds at most that many characters.
- `atoi` and `sscanf` promise nothing for numbers out of range; their results there are
  parameters (`wild`).
- A bus write that reports failure may or may not have taken effect (PSM); a refused
  WAN manager write has no effect.
- The interface-event handler does not take the data mutex; each of its four stages is
  taken as one step. A list refresh up to its unlock is one step too, although that handler
  is not kept out by the mutex the refresh holds.
- The statistics getters return pointers into the cache; what a reader sees is taken to be
  the contents at the getter's unlock.
- HAL counters are read and cleared atomically.
- The check of guarded accesses covers the data context's own functions and the GET handlers;
  the interface-event handler and the poller's log lines use it without the mutex.

## Model

| member | source | states |
|---|---|---|
| EventQueue.Queue.Init | src/core/data_structures/eponMgr_queue.c:44-69 | initialisation fails exactly on capacity zero or missing resources; otherwise the queue is empty with the given capacity |
| EventQueue.Queue.Push | src/core/data_structures/eponMgr_queue.c:114-138 | appends the event, or refuses and leaves the queue unchanged exactly when it is full; no 32-bit index addition wraps |
| EventQueue.Queue.Pop | src/core/data_structures/eponMgr_queue.c:154-177 | delivers and removes the oldest event, or reports failure on an empty queue and leaves it unchanged |
| EventQueue.Queue.HeadFromTail | src/core/data_structures/eponMgr_queue.c:128-132 | the write position is always (read position + count) mod capacity |
| EventQueue.Queue.Size | src/core/data_structures/eponMgr_queue.c:190-237 | size, emptiness and fullness are those of the abstract FIFO |
| EventQueue.AcceptedIsDeliveredThenQueued | src/core/data_structures/eponMgr_queue.c:114-177 | over any run of pushes and pops the accepted events are the delivered ones followed by the queued ones, in order, and never more than the capacity is queued |
| Telemetry.Dispatcher.Dispatch | src/telemetry/eponMgr_telemetry.c:274-295 | nothing is sent before initialisation; afterwards exactly the formatted event, unless the alarm is unknown, the value does not fit or the backend refuses; success is then reported exactly when it was sent, and before initialisation for everything but an unknown alarm |
| Telemetry.MarkerDecodes | src/telemetry/eponMgr_telemetry.c:69-122 | alarm markers are pairwise distinct and shared by no other event: each decodes to the alarm it stands for |
| Telemetry.AlarmTextDecodes | src/telemetry/eponMgr_telemetry.c:153-170 | the alarm value always fits the buffer and determines raised/cleared and the LLID; the LLID suffix is missing exactly for the not-applicable value |
| Telemetry.DecodeOutgoing | src/telemetry/eponMgr_telemetry.c:205-213 | marker and value of one sent event determine cause, state and LLID of the alarm, and every catalogued alarm is sendable |
| Telemetry.TraceDeterminesAlarms | src/telemetry/eponMgr_telemetry.c:351-364 | the marker trace of any sequence of raises, with any of them refused by the backend, decodes to exactly the accepted catalogued alarms in order |
| WanManager.Client.Discover | src/rbus/wanmanager_update/eponMgr_wanmanager_update.c:66-122 | a cached index is returned unchanged; otherwise the first of the counted rows that can be read and names the EPON base interface is cached, and nothing is cached on failure |
| WanManager.Client.NotifyPhy | src/rbus/wanmanager_update/eponMgr_wanmanager_update.c:138-177 | succeeds exactly when the interface is known or found by this call, the handle exists and the write is accepted; then only that index's PHY status changes |
| WanManager.Client.UpdateVirtual | src/rbus/wanmanager_update/eponMgr_wanmanager_update.c:195-300 | succeeds exactly when the interface is known or found by this call, a counted readable row carries the name, the handle exists and the write is accepted; then only that row's Enable changes |
| WanManager.PhyEffect | src/rbus/wanmanager_update/eponMgr_wanmanager_update.c:138-177 | from the bus's answers alone: when a PHY status is written, under which index, and that nothing else changes |
| WanManager.VirtualEffect | src/rbus/wanmanager_update/eponMgr_wanmanager_update.c:205-285 | from the bus's answers alone, for a cached and an uncached index: when an Enable is written, which one, and that nothing else changes |
| WanManager.IndexIsSticky | src/rbus/wanmanager_update/eponMgr_wanmanager_update.c:66-122 | over any run of calls the index is the first readable match of the view of the call that found it, and never changes afterwards |
| WanManager.PhyHoldsLastWritten | src/rbus/wanmanager_update/eponMgr_wanmanager_update.c:138-177 | after any run with arbitrary bus failures the WAN manager holds exactly one PHY status, under the discovered index: that of the last call that was written |
| WanManager.PhyNeverWritten | src/rbus/wanmanager_update/eponMgr_wanmanager_update.c:138-177 | while no PHY call has been written, the WAN manager holds no PHY status |
| WanManager.WritesShareIndex | src/rbus/wanmanager_update/eponMgr_wanmanager_update.c:155-166 | in every run all PHY and Enable writes go to the one discovered index |
| WanManager.OnlyFirstMatchIsEnabled | src/rbus/wanmanager_update/eponMgr_wanmanager_update.c:236-297 | one virtual-interface call writes the Enable of the first readable row with that name and nothing else |
| Interfaces.Table.Update | src/core/controller/eponMgr_controller.c:227-244 | a name that compares equal is overwritten in place at its first position; a new one is appended while there is room; otherwise nothing changes |
| Interfaces.Table.HasAnyUp | src/core/controller/eponMgr_controller.c:201-210 | true exactly when some listed interface is up |
| Interfaces.Table.ByName | src/core/data_structures/eponMgr_data.c:819-835 | delivers the first entry whose name compares equal, or nothing when there is none |
| Interfaces.Table.AtIndex | src/core/data_structures/eponMgr_data.c:787-801 | succeeds exactly below the count and delivers that entry |
| Interfaces.NormalForm | src/core/controller/eponMgr_controller.c:229-243 | after any event sequence from empty the table is exactly the first maxInterfaces distinct names in order of first appearance, each with its latest event; names are pairwise distinct |
| Interfaces.AggregateIsSomeTrackedUp | src/core/controller/eponMgr_controller.c:201-210 | the aggregate is up exactly when the latest event of some tracked name is up |
| Interfaces.NamesAreStable | src/core/controller/eponMgr_controller.c:229-243 | later events never move, rename or drop an entry |
| CText.SameNameIsSameKey | src/core/controller/eponMgr_controller.c:231 | strncmp with bound n reports equality exactly when the first n characters of both names agree |
| CText.SameNameMeans | src/core/controller/eponMgr_controller.c:231 | that is, exactly when the names are equal or both go on for n characters and agree in those |
| Controller.OnuRecord.UpdateStatus | src/core/data_structures/eponMgr_onu_state.c:102-118 | the new status becomes current, the old current previous, and the time is recorded |
| Controller.Context.ProcessOnuStatus | src/core/controller/eponMgr_controller.c:162-193 | records the status and raises its marker; which marker that is, read from its text, is stated by TelemetryTrace.StatusMarkersOfRun |
| Controller.Context.ProcessInterface | src/core/controller/eponMgr_controller.c:218-291 | list, WAN manager, rows, count cache and telemetry change as the four handler stages say, in that order |
| Controller.StagedIs | src/core/controller/eponMgr_controller.c:218-291 | the four stages together update the entry, publish its Enable and then the new aggregate, and bring the rows up to date exactly when the count changed and handle and context exist |
| Controller.Context.GetInterfaceList | src/core/data_structures/eponMgr_data.c:407-435 | a failed refresh changes nothing; a successful one replaces the list and resynchronises the rows exactly when the count differs from the cache, without touching PHY status |
| Controller.Context.ProcessOne | src/core/controller/eponMgr_controller.c:396-427 | takes the oldest event and handles it, or changes nothing when the queue is empty |
| Controller.Context.Callback | src/core/controller/eponMgr_controller.c:88-154 | enqueues the event; only a full queue loses it, and that raises the queue-full marker; ignored while no controller is installed |
| Controller.Context.Drain | src/core/controller/eponMgr_controller.c:703-713 | one pass handles min(batch, queued) events from the front in order and leaves the rest queued |
| Controller.WaitDeadline | src/core/controller/eponMgr_controller.c:717-724 | the deadline is exactly 500 ms from now with nanoseconds below one second |
| ControllerRuns.OnuHoldsLastTwo | src/core/data_structures/eponMgr_onu_state.c:109-115 | after any run the ONU state is the last two reported statuses, LOS standing in before them |
| ControllerRuns.OnuRecordsLastChange | src/core/data_structures/eponMgr_onu_state.c:109-115 | and the recorded time of change is that of the last status event |
| ControllerRuns.FoldedInterfaces | src/core/controller/eponMgr_controller.c:218-265 | the interface list depends on the interface events only, and the WAN manager has received exactly, per event, the virtual-interface update and the aggregate of the events so far |
| ControllerRuns.PublishedAggregate | src/core/controller/eponMgr_controller.c:261-268 | with arbitrary bus failures the WAN manager holds the aggregate at the last event whose publish succeeded: up exactly when the latest event of some name tracked by then was up |
| ControllerRuns.InterfaceTelemetry | src/core/controller/eponMgr_controller.c:246-285 | an interface event raises its link marker, then the marker of the resulting aggregate, and one bus-error marker per failed bus operation, nothing else |
| ControllerRuns.RowsStayCoherent | src/rbus/tr181/eponMgr_tr181.c:1411-1428 | in every run whose list changes come from events, each registered VEIP row records its instance and the (bounded) name of the interface at its index |
| ControllerRuns.RowReadsLatest | src/rbus/tr181/eponMgr_tr181.c:1480-1491 | looking a registered row's name up finds the interface at its index with its latest event exactly when the name has at most 63 characters |
| ControllerRuns.VeipGetReadsLatest | src/rbus/tr181/eponMgr_tr181.c:1437-1508 | a GET of Name or Status on a registered row answers with the latest event of the row's interface exactly when the name has at most 63 characters |
| ControllerRuns.LongNameIsNotFound | src/rbus/tr181/eponMgr_tr181.c:1418-1423 | a concrete run, with a name length of 64, in which a row is registered for a 64-character name and a GET on it finds nothing |
| ControllerRuns.GetAfterRefresh | src/core/data_structures/eponMgr_data.c:416-429 | after a list refresh in any coherent state a GET on a registered row answers with the first delivered entry that carries the name of the row's interface, wherever it stands, and finds nothing exactly when no delivered entry does |
| ControllerRuns.RefreshIsItsSteps | src/core/data_structures/eponMgr_data.c:416-429 | an uninterrupted refresh is the delivery and, when the count changed, the row synchronisation, the two steps that such runs interleave |
| ControllerRuns.RowsAreNeverRenamed | src/rbus/tr181/eponMgr_tr181.c:1418-1423 | in every run that mixes the stages of interface events with list refreshes, a registered row keeps its instance and name whatever follows |
| ControllerRuns.GetAnswersWhileListed | src/rbus/tr181/eponMgr_tr181.c:1474-1502 | in every such run a GET on a registered row answers exactly while the current list has its recorded name, and then with the latest report of that name by event or refresh |
| ControllerRuns.RefreshOrphansRow | src/rbus/tr181/eponMgr_tr181.c:1411-1428 | a concrete run in which a refresh replaces an interface and a GET on its surviving row finds nothing |
| ControllerRuns.TraceShowsAlarms | src/core/controller/eponMgr_controller.c:355-390 | with telemetry initialised and any answers of the backend, the marker trace of any run of handled events decodes to exactly the accepted ones of its catalogued alarms, in order |
| TelemetryTrace.StatusSeenIs | src/telemetry/eponMgr_telemetry.c:70-120 | the markers of the known ONU statuses, decoded from their text, say the status they are raised for, and an unknown status raises none |
| TelemetryTrace.PhySeenIs | src/telemetry/eponMgr_telemetry.c:70-120 | the aggregate markers, decoded from their text, say up for up and down for down |
| TelemetryTrace.ErrorSeenIs | src/telemetry/eponMgr_telemetry.c:70-120 | the bus-error and queue-full markers, decoded from their text, say which of the two errors it is |
| TelemetryTrace.LinkSeenIs | src/telemetry/eponMgr_telemetry.c:148-151 | a link marker carries direction and interface name, and is sent exactly when the value fits its 256 characters |
| TelemetryTrace.AlarmSeenIs | src/telemetry/eponMgr_telemetry.c:176-213 | an alarm is sent exactly when its kind and code are catalogued, and then its text gives back cause, state and LLID as the HAL reported them |
| TelemetryTrace.StatusMarkersOfRun | src/core/controller/eponMgr_controller.c:162-193 | the ONU markers of any run, decoded from their text, are exactly the known statuses its events report, in order |
| TelemetryTrace.TraceShowsRun | src/core/controller/eponMgr_controller.c:218-285 | with telemetry initialised and any answers of the backend, the decoded trace of a run is exactly the accepted part of what its events call for, in order: statuses, link and aggregate states, a bus error before the marker of each write that fails, rows that could not be synchronised, alarms |
| Pipeline.PipelineRefinesFold | src/core/controller/eponMgr_controller.c:396-427 | for every interleaving of any number of callback threads with the loop: accepted = popped followed by queued, each loss raises one marker, the queue never exceeds its capacity, and between handlers state and handler telemetry are the fold of the handlers over the popped events |
| Pipeline.RefusedIffFull | src/core/controller/eponMgr_controller.c:97-103 | over every run each push was refused exactly when, at the moment it was made, as many accepted events were not yet popped as the queue holds |
| Pipeline.ProducerOrder | src/core/controller/eponMgr_controller.c:97-99 | each producer's accepted events are popped in the order it pushed them |
| Pipeline.PoppedWithin | src/core/controller/eponMgr_controller.c:703-713 | an event with p events ahead of it at the top of a pass is popped within p / batch + 1 passes whatever is pushed meanwhile |
| Pipeline.PoppedWithinTwoPasses | src/core/controller/eponMgr_controller.c:529 | with capacity 100 and batch 50 every queued event of a reachable state is popped within two passes |
| Pipeline.CallbacksGoOn | src/core/controller/eponMgr_controller.c:88-154 | callbacks and shutdown requests are never held up, and a failed push can always raise its marker |
| Pipeline.LoopGoesOn | src/core/controller/eponMgr_controller.c:703-731 | until it has left, the loop always has an action it can take, whatever the callbacks do |
| Pipeline.ExitsOnlyAfterShutdown | src/core/controller/eponMgr_controller.c:703 | the loop has left only in runs in which a shutdown was requested |
| Pipeline.NextBeginLeaves | src/core/controller/eponMgr_controller.c:703 | after a shutdown request the next test of the flag leaves, and nothing is done after that |
| Pipeline.PassesFinish | src/core/controller/eponMgr_controller.c:703-731 | without a shutdown request, n times (batch * (STAGES + 1) + 2) actions of the loop finish n passes |
| Pipeline.PoppedWithinActs | src/core/controller/eponMgr_controller.c:703-731 | an event with fewer than n batches ahead of it at the top of a pass is popped within that many loop actions, whatever is pushed meanwhile |
| Pipeline.PoppedWithin504 | src/core/controller/eponMgr_controller.c:529 | with capacity 100 and batch 50 every queued event is popped within 504 loop actions |
| Pipeline.ShutdownEndsLoop | src/core/controller/eponMgr_controller.c:703-731 | after a shutdown request the loop takes at most the rest of one pass |
| EndToEnd.StateAfterAnyInterleaving | src/core/controller/eponMgr_controller.c:703-713 | for every interleaving the interface list is the normal form of the popped interface events and the ONU state the last two popped statuses |
| EndToEnd.AlarmsAfterAnyInterleaving | src/core/controller/eponMgr_controller.c:386-387 | for every interleaving, with telemetry initialised and any answers of the backend, the marker trace of all threads decodes to exactly the accepted catalogued alarms among the popped events, in order |
| TelemetryTrace.SeenAfterAnyInterleaving | src/core/controller/eponMgr_controller.c:396-427 | for every interleaving, everything raised but the queue-full markers, decoded from text, is what the popped events call for, in order |
| EndToEnd.AggregateAfterAnyInterleaving | src/core/controller/eponMgr_controller.c:263-268 | for every interleaving and any bus failures the WAN manager holds the aggregate at the last interface event whose publish succeeded |
| EndToEnd.RowsCoherentThroughout | src/core/controller/eponMgr_controller.c:218-291 | in every reachable state, also between the stages of a handler, the registered VEIP rows are coherent with the list and its names are distinct |
| EndToEnd.VeipGetAtAnyMoment | src/rbus/tr181/eponMgr_tr181.c:1437-1508 | so a VEIP GET at any moment answers with the current entry at the row's index exactly when its name has at most 63 characters |
| StatsCache.Cache.Get | src/core/data_structures/eponMgr_data.c:262-295 | a hit serves the buffer with an age from 0 to below the TTL, even if the clock stepped back; a miss serves what the HAL delivers and stamps it; a HAL failure serves nothing and changes nothing |
| StatsCache.Cache.Invalidate | src/core/data_structures/eponMgr_statsData.c:117-134 | the record is no longer valid and its stamp is reset; the data stays |
| StatsCache.RefreshBound | src/core/data_structures/eponMgr_statsData.c:94-103 | with a positive clock that never steps back, any pattern of reads and k invalidations refreshes at most (b - a) / ttl + 1 + k times within [a, b] |
| ClearCache.SectionIsInvalidation | src/core/data_structures/eponMgr_data.c:855-858 | the uninterrupted section of a clear invalidates both caches |
| ClearCache.GenerationCountsClears | src/core/data_structures/eponMgr_data.c:849-853 | the generation of the HAL's counters is the number of its successful clears |
| ClearCache.SectionIsRead | src/core/data_structures/eponMgr_data.c:266-294 | a thread's uninterrupted critical section is exactly the getter's effect, with the HAL answering its current counters |
| ClearCache.NoSnapshotFromBeforeClear | src/core/data_structures/eponMgr_data.c:849-865 | for any number of reading and clearing threads, over the sequence of their actions: a read of either kind called after a clear or factory reset has returned success serves nothing, or a snapshot counting at least all clears up to that one |
| ClearCache.ServedIsBuffer | src/core/data_structures/eponMgr_data.c:266-294 | what a read serves is what its cache's buffer holds when it returns |
| ClearCache.CallsGoOn | src/core/data_structures/eponMgr_data.c:170-190 | a thread in the middle of a read or clear can take its next action, or waits for the mutex of one that can |
| ClearCache.OldSnapshotBeforeReturn | src/core/data_structures/eponMgr_data.c:853-858 | a concrete interleaving in which a read between the HAL clear and the invalidation still serves the old counters |
| HalLists.SoundLog | src/core/data_structures/eponMgr_data.c:366-392 | a sound allocation log allocates no block twice, frees a block at most once and after its allocation, and accesses it only in between |
| HalLists.List.Refresh | src/core/data_structures/eponMgr_data.c:358-392 | the old block is freed before the new one is obtained, and nothing else is logged; afterwards the list is what the HAL delivered, or empty after a failure that followed a non-null list |
| HalLists.List.AtIndex | src/core/data_structures/eponMgr_data.c:724-770 | succeeds exactly when the list is non-null and the index below the count, delivers that entry, and a successful read is one access of the list's own live block |
| HalLists.List.Destroy | src/core/data_structures/eponMgr_data.c:139-145 | the block still owned is freed, and nothing else |
| HalLists.Lifetime | src/core/data_structures/eponMgr_data.c:613-650 | over any refreshes and index reads of both lists ending in destruction the logged events are, in order, one allocation per non-null delivery, one access per successful read and the frees in between and at the end; every allocated block is freed exactly once and never accessed outside its life |
| RowTables.Table.SyncRows | src/rbus/tr181/eponMgr_tr181.c:262-295 | registers exactly the missing rows that are in the list and that the bus takes; no row the bus holds is asked for again; without handle or context it fails and changes nothing |
| RowTables.Table.Cleanup | src/rbus/tr181/eponMgr_tr181.c:361-369 | forgets every row and empties the bus of exactly the rows whose removal it accepts |
| RowTables.RegisteredIffOffered | src/rbus/tr181/eponMgr_tr181.c:1411-1428 | under any failures a row is registered exactly when some synchronisation offered it, and records instance index + 1 and the bounded name from the first one that did |
| RowTables.RowsStayInRange | src/rbus/tr181/eponMgr_tr181.c:274-291 | registered rows only grow and lie within 1..min(largest count seen, table size) |
| ChangeTracking.RegisteredIsSynced | src/rbus/tr181/eponMgr_tr181.c:323-337 | the abstract synchronisation is what the real one does when registrations succeed; a null list registers nothing |
| ChangeTracking.RefreshTracks | src/core/data_structures/eponMgr_data.c:366-375 | count and presence in the abstract table follow the real list through every answer of the HAL |
| ChangeTracking.OwnedTablesComplete | src/core/data_structures/eponMgr_data.c:366-392 | across growth, shrinkage, failure, null lists, invalidation and concurrent refreshes every row of the last list delivered in the run is registered whenever no synchronisation is outstanding, provided no refresh fails while one is outstanding with rows missing and no null list is reported with a count whose rows are missing |
| ChangeTracking.UntimelyLosesRows | src/core/data_structures/eponMgr_data.c:366-371 | the proviso is exact: after such a failure the outstanding synchronisations leave rows unregistered, and, the cache not being invalidated, any number of refreshes delivering the same list leave them so |
| ChangeTracking.NullListLosesRows | src/core/data_structures/eponMgr_data.c:376-383 | likewise after such a null list: the next real list with that count, and any repetition of it, is taken for unchanged and stays incomplete |
| ChangeTracking.ResetForcesSynchronisation | src/core/data_structures/eponMgr_data.c:700-704 | after cache invalidation the next non-empty list asks for a synchronisation even if its length is unchanged, and without one it does not |
| ChangeTracking.UntimelyIsReachable | src/core/data_structures/eponMgr_data.c:366-375 | both kinds of untimely refresh occur from the initial state |
| ChangeTracking.HandlersKeepTablesComplete | src/rbus/tr181/eponMgr_tr181.c:1159-1168 | after each GET handler, which holds the data mutex around refresh and synchronisation, every row of the last list the HAL gave is registered, whatever it answers, null lists included, and whenever caches are invalidated in between |
| ChangeTracking.VeipTableComplete | src/core/controller/eponMgr_controller.c:276-285 | for every interleaving of refreshes, failures, invalidations and events the VEIP table is complete whenever no synchronisation and no event is in flight |
| ChangeTracking.ResetForcesSharedSynchronisation | src/core/data_structures/eponMgr_data.c:700-704 | the same for the interface list |
| VeipTracking.RunIsCounted | src/core/controller/eponMgr_controller.c:276-285 | every run of event stages, list refreshes and invalidations on the actual list and rows is a run of the counting machine of the previous row |
| VeipTracking.ListedInterfacesHaveRows | src/core/data_structures/eponMgr_data.c:416-429 | so in every such run, the bus taking every row, each listed interface up to the table size has a registered row whenever no event and no synchronisation is under way |
| CText.ScanOfDecimal | src/rbus/tr181/eponMgr_tr181.c:1190-1192 | scanning a printed number with %u returns it for every 32-bit value, whatever non-digit follows |
| RowPaths.LlidPathRoundTrip | src/rbus/tr181/eponMgr_tr181.c:1170-1244 | on the printed path of any 32-bit instance and any column the handler extracts the instance, accepts it exactly from 1 to 32 and answers with that column of the entry one below |
| RowPaths.LlidRowsBeyond32 | src/rbus/tr181/eponMgr_tr181.c:1194 | rows 33 to 64 are registered by the synchronisation and rejected by the handler whatever the list holds |
| RowPaths.CpePathRoundTrip | src/rbus/tr181/eponMgr_tr181.c:1288-1373 | likewise for the CPE handler, from 1 to 256, no scalar parameter being mistaken for a row |
| RowPaths.VeipPathRoundTrip | src/rbus/tr181/eponMgr_tr181.c:1444-1502 | on a printed path the VEIP handler accepts rows 1 up to the table size, looks up the recorded name and answers with the printed column |
| RowPaths.SuffixIdentifiesColumn | src/rbus/tr181/eponMgr_tr181.c:1212-1234 | for dot-free column names the suffix tests accept exactly the printed column |
| RowPaths.CpeCounts | src/rbus/tr181/eponMgr_tr181.c:1289-1325 | each of the four CPE counts answers with its own number, no name being mistaken for one tested earlier |
| RowPaths.OtherCounts | src/rbus/tr181/eponMgr_tr181.c:1171-1177 | the LLID and VEIP counts answer with the list's count |
| RowPaths.UnknownVeipColumn | src/rbus/tr181/eponMgr_tr181.c:1494-1502 | likewise for the VEIP table |
| RowPaths.NoInstance | src/rbus/tr181/eponMgr_tr181.c:1188-1199 | behind the prefix but without a number the LLID handler rejects the path |
| RowPaths.UnknownColumn | src/rbus/tr181/eponMgr_tr181.c:1212-1244 | a column the LLID table does not have gets a successful reply without a value on rows it answers |
| Locking.NoWaitCycle | src/core/data_structures/eponMgr_data.c:92-97 | no state reachable by threads running checked code has a wait cycle |
| Locking.NeverDeadlocked | src/core/data_structures/eponMgr_data.c:170-190 | threads running checked code can always go on until all have finished |
| Locking.RunLeaves | src/core/data_structures/eponMgr_data.c:170-190 | whatever the other threads do, a thread running checked code never releases a lock it does not hold, never touches data whose lock it does not hold, and finishes holding exactly what the check says |
| Locking.ChoicesAreFree | src/core/data_structures/eponMgr_data.c:366-392 | every condition in a skeleton may go either way and a repetition may end or go on at every turn |
| Locking.UsesAreExclusive | src/core/data_structures/eponMgr_data.c:92-97 | no two threads running checked code are ever about to touch the data of the same lock |
| Locking.DropIsCaught | src/core/data_structures/eponMgr_data.c:186-190 | checked code with any one of its lock operations left out never passes the check with the same result |
| DataLocks.HandlersKeepDepth | src/rbus/tr181/eponMgr_tr181.c:554-633 | every data-context GET handler (base, optical, transceiver, statistics, manufacturer, OLT, EPON, LLID, CPE, VEIP), written exit by exit with an unlock of its own at each, passes the check with its starting depth as result, through nested getters, refreshes and synchronisations, and touches the data context only under its mutex |
| DataLocks.HandlersReturnAtDepth | src/rbus/tr181/eponMgr_tr181.c:1143-1250 | in execution: among any other threads and under any schedule a thread that called one of these handlers at any depth is back at that depth, holding nothing else, when the handler has returned by whichever exit |
| DataLocks.MissingUnlockIsCaught | src/rbus/tr181/eponMgr_tr181.c:1170-1210 | one of these handlers with any single lock operation left out, on whatever path, fails the check at every depth |
| DataLocks.ExitsAreSeparate | src/rbus/tr181/eponMgr_tr181.c:1170-1373 | the LLID handler has five exits of its own after the synchronisation and the CPE handler eight, each with its unlock |
| DataLocks.OperationsNeutral | src/core/data_structures/eponMgr_data.c:689-707 | every operation acquires in rank order and releases what it took, including callbacks made from inside HAL calls |
| DataLocks.DataLayerNeverDeadlocks | src/rbus/tr181/eponMgr_tr181.c:1143-1250 | any number of threads running any operations in any order never form a wait cycle, and some thread can step unless all are done |
| DataLocks.DataIsTouchedByOne | src/core/data_structures/eponMgr_data.c:92-97 | and no two of those threads are ever about to touch the data context at the same time |
| Poller.Poller.StartCheck | src/core/stats_poller/eponMgr_stats_poller.c:251-260 | start is refused while running; otherwise the shutdown flag is clear afterwards and a thread will be created |
| Poller.Poller.StopRequest | src/core/stats_poller/eponMgr_stats_poller.c:287-301 | stop does nothing while not running; otherwise shutdown is flagged and the thread will be joined |
| Poller.Poller.SetInterval | src/core/stats_poller/eponMgr_stats_poller.c:405-411 | zero seconds are refused and change nothing; any other interval is taken |
| Poller.Poller.Sample | src/core/stats_poller/eponMgr_stats_poller.c:118-130 | the thread leaves exactly when shutdown is flagged, else goes on with the sampled flag and interval |
| Poller.StartedRunsOn | src/core/stats_poller/eponMgr_stats_poller.c:251-270 | after an accepted start and until a stop is requested shutdown is not flagged and no thread leaves its loop |
| Poller.DisablingEnds | src/core/stats_poller/eponMgr_stats_poller.c:366-371 | from the call that disables the poller no collection begins until it is enabled again, whatever is under way at that moment |
| Poller.EnablingCollects | src/core/stats_poller/eponMgr_stats_poller.c:366-371 | from the call that enables it the next cycle collects |
| Poller.FailedCreationCanBeRepeated | src/core/stats_poller/eponMgr_stats_poller.c:262-266 | after an accepted start the creation of the thread may succeed or fail; a failed one leaves no thread behind and the start can be repeated |
| Poller.CycleUsesSample | src/core/stats_poller/eponMgr_stats_poller.c:126-156 | a thread at the top of its loop collects exactly if enabled then, and waits the interval of that moment, whatever is set meanwhile |
| Poller.SignalsWake | src/core/stats_poller/eponMgr_stats_poller.c:405-411 | a trigger, a stop request and a new interval each end the thread's wait without a timeout |
| Poller.ShutdownEnds | src/core/stats_poller/eponMgr_stats_poller.c:117-173 | while shutdown is flagged and every start is refused (the thread still being marked running) no collection begins, every thread leaves within at most four steps, and only threads that were collecting or about to wait begin one more wait |
| Poller.DisableEnds | src/core/stats_poller/eponMgr_stats_poller.c:366-371 | after disabling no collection begins until the poller is enabled again |
| Poller.AtMostOneThread | src/core/stats_poller/eponMgr_stats_poller.c:246-270 | at most one thread is alive and one collection in flight in every run, with thread creations that fail and are retried, in which no start is attempted while another is under way |
| Poller.StartInWindowDoubles | src/core/stats_poller/eponMgr_stats_poller.c:253-263 | the condition is exact: a start attempted while another is under way leads to two live threads |
| Poller.TwoStartsDouble | src/core/stats_poller/eponMgr_stats_poller.c:251-263 | from the initial state two starts in a row give two live threads |
| Poller.StopInWindowIsLost | src/core/stats_poller/eponMgr_stats_poller.c:289-292 | a stop request flags shutdown exactly when the thread has marked itself running; while a start is under way it changes nothing |
| Poller.StopAfterStartIsLost | src/core/stats_poller/eponMgr_stats_poller.c:289-292 | from the initial state a stop right after a start is lost and the thread goes on |
| Poller.StopWaitsForTimeoutIff | src/core/stats_poller/eponMgr_stats_poller.c:151-159 | after a stop request, with no later signal, the thread leaves without any timeout if it was not collecting or about to wait, and otherwise only after exactly one |
| Poller.CanLeave | src/core/stats_poller/eponMgr_stats_poller.c:151-173 | a thread can always leave so on its own steps |
| Poller.StopCanFindCollecting | src/core/stats_poller/eponMgr_stats_poller.c:132-148 | from the initial state a stop can find the thread collecting |
| Psm.Client.GetUint | src/rbus/eponMgr_psm.c:152-165 | fails exactly when the string cannot be read; otherwise delivers atoi of the text truncated to the buffer |
| Psm.Client.GetBool | src/rbus/eponMgr_psm.c:180-193 | fails exactly when the string cannot be read; otherwise true exactly for the three accepted spellings |
| Psm.Client.SetUint | src/rbus/eponMgr_psm.c:270-274 | stores the decimal text unless the write fails without effect, and reports success exactly when the bus does |
| Psm.UintReadsBack | src/rbus/eponMgr_psm.c:152-165 | %u then atoi is the identity below 2^31, untouched by the buffer; beyond, atoi promises nothing |
| Psm.OddTextReads | src/rbus/eponMgr_psm.c:152-165 | a stored negative number reads as what a uint32_t keeps of it, and text that is no number as 0 |
| Psm.BoolReadsBack | src/rbus/eponMgr_psm.c:180-193 | a stored boolean reads back unchanged |
| CText.AtoiOfDecimal | src/rbus/eponMgr_psm.c:163 | atoi of a printed number is that number below 2^31 and out of range from there on |
| CText.DecimalFits | src/rbus/eponMgr_psm.c:271-272 | every uint32_t prints in at most ten characters |
| CText.DecimalIsBaseTen | src/rbus/eponMgr_psm.c:271-272 | numbers are printed in base ten with the usual digits |
| CText.PrefixOfSigned | src/rbus/eponMgr_psm.c:163 | blanks and a sign in front of a number are read as C does |
| CText.ScanLimits | src/rbus/eponMgr_psm.c:163 | the ranges of both conversions, for numbers of either sign |
| CText.AtoiOfNoNumber | src/rbus/eponMgr_psm.c:163 | text that starts with no number reads as 0 |
| Persistence.Config.Load | src/core/config/eponMgr_persistence.c:71-125 | each readable value replaces the current one, numbers only within their range |
| Persistence.LoadKeepsUnread | src/core/config/eponMgr_persistence.c:88-122 | each value whose key is missing or unreadable stays as it was before the load, whatever the other keys do; an empty store changes nothing |
| Persistence.LoadTakesRead | src/core/config/eponMgr_persistence.c:71-125 | each readable number is taken exactly within its range, each readable flag is true exactly for TRUE, true and 1, whatever the other keys do |
| Persistence.LoadRefusesText | src/core/config/eponMgr_persistence.c:82-119 | text that does not start with a number never replaces one |
| Persistence.Config.Store | src/core/config/eponMgr_persistence.c:140-173 | keys are written in order up to and including the first failing write, and success is reported exactly when all four succeed |
| Persistence.SaveWrites | src/core/config/eponMgr_persistence.c:147-169 | a save leaves at every key the new text if it wrote it and the old one otherwise, and touches no other key |
| Persistence.SaveOrder | src/core/config/eponMgr_persistence.c:147-169 | TTL, DPoE, enable and interval are written in this order, each only if all before it succeeded, as decimal text or TRUE/FALSE |
| Persistence.AllOrNothingIff | src/core/config/eponMgr_persistence.c:147-169 | a save is all or nothing exactly when every key it did not write held the new text already, or every key it wrote did |
| Persistence.ChangedSaveIsAtomicIff | src/core/config/eponMgr_persistence.c:147-169 | a save whose four values all differ from the stored ones is all or nothing exactly when its first write has no effect or its last one is reached and takes effect |
| Persistence.TornSave | src/core/config/eponMgr_persistence.c:147-169 | a concrete save cut short after which a load returns neither the old nor the new configuration |
| Persistence.LoadAfterSave | src/core/config/eponMgr_persistence.c:71-125 | after a successful save the store equals memory, and a load recovers every value in range; an out-of-range number keeps the value from before |
| Persistence.RoundTripIff | src/core/config/eponMgr_persistence.c:82-119 | save then load is the identity exactly when each number is in range or was the value before the load |
| Persistence.ShortIntervalIsLost | src/core/config/eponMgr_persistence.c:109-119 | a concrete instance: an interval of 30 seconds is stored and the load keeps the 900 from before |
| Persistence.LoadStaysInRange | src/core/config/eponMgr_persistence.c:82-119 | a load keeps the configuration in range whatever the store holds and whichever reads fail |
| Persistence.CrashConsistent | src/core/config/eponMgr_persistence.c:147-169 | after any history of saves failing at any key each key holds the text of the last save that wrote it |
| Persistence.EarlierKeysAreNewer | src/core/config/eponMgr_persistence.c:147-169 | after any such history an earlier key is never older than a later one |
| Persistence.SaveRepairs | src/core/config/eponMgr_persistence.c:140-173 | one more successful save of an in-range configuration makes a load return it, after any history |

## Left out

- The SET handler of the stats poller parameters: it holds the controller's non-recursive mutex while calling operations that lock it again; the poller operations are modelled directly.
- Persisting from set_enabled and set_interval: the poller model has the control fields only, the configuration model the save.
- Which counter each Stats parameter returns: the handler's substring tests shadow several of them.
- LLID and CPE rows on the bus after clean-up: the unregister calls omit the instance number.
- Removal of rows when lists shrink: the code only ever adds rows.
- HAL list refreshes inside the event pipeline: `Pipeline` runs contain events only; refreshes between the stages of events are covered for list, rows and GETs (`ControllerRuns.GetAnswersWhileListed`) and as counts (`ChangeTracking`).
- The joins of stop and the length of a wait: an unsignalled wait may time out at any step.
- Thread schedules are taken as any sequence of steps; nothing is claimed about fairness, so latency is counted in passes and actions of the loop.
- The printed text of columns (MAC addresses, enum names), the BER string, scaled optical values and the statistics box: formatting only.
- The validity-flag caches of OLT, manufacturer and link information: the same shape as the statistics cache without expiry; only their locking is modelled.
- Controller start-up and tear-down order, daemonising, signals, logging, RBUS objects, T2 transport: plumbing.
- Allocation failure while copying, and the 64-bit size of the queue's memory request.
- Locking: condition-variable waits are modelled as a plain lock and unlock of their mutex.
