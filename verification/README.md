# Fleet Monitor: a verified model

Fleet Monitor takes in vehicle telemetry (the ingestion service) and serves fleet views, alerts and
WebSocket feeds from it (the serving service). What is hard about it is not one algorithm but several
small protocols in which goroutines, Redis keys with lifetimes, database constraints and clocks act on each
other. This project models those protocols and proves what every run of them keeps.

Each protocol appears twice. A module such as `Pipeline`, `StateWrites`, `AlertDedup`, `Hub`, `StopTracking`,
`AuthCache`, `Deviation` or `Heartbeat` gives it as a state and atomic steps: a schedule is *any* sequence of
actions, an action that is blocked changes nothing, and the theorems hold for every state some schedule reaches.
Beside it `PipelineService`, `StateWriter`, `AlertEvaluator`, `HubService`, `StopDetector`, `Authenticator` and
`DeviationDetector` hold the code's own form: classes whose methods and loops change fields in place, each tied to
its machine. A method's new state is the machine's step, the result of a schedule it returns for the proof, or a
fold whose rounds are shown to be machine steps (`TurnIsStep`, `HandledIsPoolSteps`, `RunMatches`). `Ingestion`
joins the dispatcher to the state writers. `Geo` and `AlertQuery` have no concurrency. `Channel` is a Go channel
with its history; a capacity of zero is an unbuffered channel, where a send and a receive happen together.

Redis, the database and the clock are explicit state: maps of expiry times, row sequences, an integer `now`
that only grows. Failures are steps, not assumptions: a lost reply, a refused insert, a failed release or a
missing progress row is something a schedule may contain unless a theorem says otherwise.

Main results:

- **Pipeline.** The alert, state and database histories are nested prefixes of the admission order, wherever
  cancellation strikes; every admitted message is persisted, given up, or still in a queue, hand or batch, for
  any number of writers; the two counters account for all but a backlog bounded by the capacities. Each message is
  accounted for once exactly when no commit went unacknowledged.
- **Vehicle state.** Each vehicle's hash is its last write that reached Redis and no message is written twice,
  for any number of workers; the hashes are sure to end up at the latest messages exactly when there is at most
  one worker, and then they are the latest messages admitted.
- **Alert deduplication.** Rows of one vehicle and type are five minutes apart and every publication is backed
  by such a row, whatever fails. At most one evaluator is ever inside a claim as long as nobody overstays the
  claim's lifetime; from every state with a busy and an idle evaluator, overstaying breaks it.
- **Hub.** No channel is closed twice or sent to after its close; what a client was sent is a gap-free segment
  of its fleet's history; subscriptions are cancelled exactly once; and an empty fleet is always owed an
  unregister if its clients' registers are taken first, while from every state that is about to take one of them
  out of order the fleet can be made to leak.
- **Stops.** Arrivals are recorded in stop order under any positions and write failures, exactly for routes
  without a repeated stop number; completion and final
  arrival stay in step exactly when their two writes agree; the ETA target follows the furthest reached stop.
- **Auth cache.** A cached answer is at most ttl plus one lookup-to-stamp delay old, under any interleaving,
  and that delay cannot be dropped from the bound.
- **Deviation, heartbeat, geometry, listings.** See the table.

Where the code and its comments disagree the model follows the code: `parsePagination` says a limit is capped
at 100, but a larger one falls back to 50 (`AlertQuery.ParsePagination`); `pointToSegmentDistanceKm` says it
returns the shortest distance, but it measures to the point closest in degrees. Where a degree of longitude is
shorter than one of latitude that point is the nearest one exactly when two clamped projections agree
(`Geo.NearestExactly`); `Geo.NotAlwaysNearest` is a segment at sixty degrees north for which it is not.
Four behaviours of the code that a reader may not expect are lemmas with a witness, each beside a theorem
that says exactly when it can happen: two state workers can leave a vehicle at its older message
(`StateWrites.LaterWorkerFirst`), a vehicle can be deviated with no open alert and none possible for ten minutes
(`Deviation.DeviatedWithoutAlert`), a fleet's subscriptions can leak (`Hub.UnregisterFirstLeaksFleet`), and a very
large page number shows the first page again (`AlertQuery.HugePageRepeats`).

`dafny verify dfyconfig.toml` checks the whole project.

## Model

| member | source | states |
|---|---|---|
| `Pipeline.FanOutIsNestedPrefix` | ingestion/internal/pipeline/dispatcher.go:31-65 | in every reachable state, cancelled or not: alert within state within DB within taken within admitted, as prefixes; DB ahead of alert, and taken ahead of DB, by at most one; taken followed by still buffered is exactly what was admitted |
| `Pipeline.Conservation` | ingestion/internal/pipeline/db_writer.go:43-91 | for any number of writers and any interleaving, admitted plus committed-under-error equals persisted plus given up plus in transit, as multisets; the counters lag the table and the losses exactly by batches about to be counted |
| `Pipeline.CountedOnceExactly` | ingestion/internal/pipeline/db_writer.go:78-91 | table, losses and messages in transit account for each admitted message once if and only if no batch was committed under an error reply |
| `Pipeline.HandledOnceExactly` | ingestion/internal/pipeline/db_writer.go:78-91 | the same over every schedule and configuration, as a condition on its steps: every insert that committed was acknowledged |
| `Pipeline.PersistedAtMostOnce` | ingestion/internal/store/timescale.go:66-101 | with an all-or-nothing insert, persisted and given-up messages together are a sub-multiset of the admitted ones |
| `Pipeline.LostAcknowledgementDuplicates` | ingestion/internal/pipeline/db_writer.go:78-91 | the retry after a lost acknowledgement stores one admitted message twice: a reachable state |
| `Pipeline.DrainedMeansSettled` | ingestion/internal/pipeline/db_writer.go:43-91 | once queues, hand and batches are empty, the admitted messages are exactly those persisted or given up, and the counters are their numbers |
| `Pipeline.Backpressure` | ingestion/internal/pipeline/dispatcher.go:19-39 | admitted minus counted is exactly what sits in the ingress buffer, the hand, the DB queue and the batches, and is at most stateSize + 1 + dbSize + writers x batchSize; a batch is below the clamped batch size between rounds |
| `Pipeline.ClampedBatchSize` | ingestion/internal/pipeline/db_writer.go:29-31 | the requested batch size if it is at least 1, otherwise 1 |
| `Pipeline.DispatchExactly` | ingestion/internal/pipeline/dispatcher.go:31-39 | a message is admitted exactly when the ingress buffer has a free place, or is unbuffered and the dispatcher waits at it; otherwise only the rejection count changes |
| `Pipeline.ReceiveExactly` | ingestion/internal/pipeline/db_writer.go:50-67 | a writer at its select takes the oldest queued message, flushes exactly when that fills its batch, and nobody else changes |
| `Pipeline.WriterExactly` | ingestion/internal/pipeline/db_writer.go:60-91 | when a tick, a done context, a reply and the count move a writer, and to where |
| `Pipeline.SetWriterKeepsPool` | ingestion/internal/pipeline/db_writer.go:50-74 | one writer's step keeps the books of the whole pool if its own batch, the table, the losses and the counters balance |
| `PipelineService.Dispatcher.constructor` | ingestion/internal/pipeline/dispatcher.go:19-26 | four empty channels of the given sizes, the ingress sized like the state channel |
| `PipelineService.Dispatcher.Dispatch` | ingestion/internal/pipeline/dispatcher.go:31-39 | in terms of the channel: admits exactly when the buffer has a free place or the goroutine waits at an unbuffered one, and then the message is the last one sent; otherwise it counts a rejection and changes nothing else |
| `PipelineService.Dispatcher.Advance` | ingestion/internal/pipeline/dispatcher.go:48-53 | the goroutine's next receive or send is the machine's step; a send that finds no room stays where it is until a worker receives or, on an unbuffered DBChan, meets it |
| `PipelineService.ProgressExactly` | ingestion/internal/pipeline/dispatcher.go:43-65 | in terms of the channels: a message the goroutine can take or deliver moves on by one station, and otherwise nothing changes |
| `PipelineService.NeighboursExactly` | ingestion/internal/pipeline/dispatcher.go:31-65 | what an arrival, a seen cancellation and a worker's receive do to the channels |
| `PipelineService.TurnIsStep` | ingestion/internal/pipeline/dispatcher.go:43-65 | every turn around the goroutine, unbuffered hand-over included, is a step of the whole machine |
| `PipelineService.AdmissionsInOrder` | ingestion/internal/pipeline/dispatcher.go:31-39 | the admitted messages are the arrivals in order with some left out |
| `PipelineService.Dispatcher.Run` | ingestion/internal/pipeline/dispatcher.go:43-56 | among arbitrary neighbours the run is the fold of the machine's turns and keeps the prefix invariant; exactly the arrivals that found room are admitted, in order, and the others counted as rejected |
| `PipelineService.DBWriter.constructor` | ingestion/internal/pipeline/db_writer.go:23-41 | an empty batch and balanced books with the clamped size |
| `PipelineService.DBWriter.Flush` | ingestion/internal/pipeline/db_writer.go:78-91 | insert, retry once, then exactly one of the two counters by the batch length |
| `PipelineService.FlushOutcome` | ingestion/internal/pipeline/db_writer.go:78-91 | the batch counts as a success exactly when one of at most two attempts was acknowledged, otherwise as given up, and is in the table once per attempt that went through |
| `PipelineService.FlushIsPoolSteps` | ingestion/internal/pipeline/db_writer.go:78-91 | a whole flush is a schedule of the pool machine |
| `PipelineService.HandledIsPoolSteps` | ingestion/internal/pipeline/db_writer.go:48-91 | one round of the loop, whatever the select takes and the database answers, is the corresponding steps of the pool machine |
| `PipelineService.DBWriter.HandleEvent` | ingestion/internal/pipeline/db_writer.go:48-74 | what one round does to buffer, table, counters and flushed batches, for each of the select's cases |
| `PipelineService.RoundExactly` | ingestion/internal/pipeline/db_writer.go:48-74 | a message waits until the batch is full, a tick or closing event leaves nothing held, and what leaves the buffer is flushed as one batch |
| `PipelineService.TickEmpties` | ingestion/internal/pipeline/db_writer.go:60-74 | after a tick or a closing event nothing is held and, with an acknowledged insert, all that was held is in the table and counted |
| `PipelineService.HandledKeepsBooks` | ingestion/internal/pipeline/db_writer.go:48-91 | one round, whatever the database answers, keeps the books of table, losses, counters and batch, and cuts the received messages in order |
| `PipelineService.DBWriter.Run` | ingestion/internal/pipeline/db_writer.go:43-76 | the run is the fold of its rounds and stops exactly at the first closed channel or done context; the flushed batches, concatenated, followed by the current one are the received messages in order; no batch is empty or oversized; the books balance; nothing is held at the end |
| `StateWrites.HashIsLastWrite` | ingestion/internal/store/redis.go:53-76 | for any number of workers, failures and interleaved pipelines, each hash is the last write of its vehicle that reached Redis; a batch is below 100 between rounds |
| `StateWrites.WrittenExactlyOnce` | ingestion/internal/pipeline/state_writer.go:28-66 | for any number of workers no message is written twice, and without failures all are written once the batches are empty |
| `StateWrites.OneWorkerInOrder` | ingestion/internal/pipeline/state_writer.go:28-66 | one worker, failing or not, never writes an older message after a newer one |
| `StateWrites.OneWorkerLatest` | ingestion/internal/pipeline/state_writer.go:28-66 | one worker without failures: when nothing is held every hash is its vehicle's latest message |
| `StateWrites.LaterWorkerFirst` | ingestion/main.go:59-62 | with two or more workers any two messages of one vehicle can end up with the older one stored |
| `StateWrites.LatestExactlyForOneWorker` | ingestion/main.go:59-62 | the hashes agree with the channel's order in all quiet states of all unfailed runs if and only if there is at most one worker |
| `StateWriter.Writer.FlushBatch` | ingestion/internal/store/redis.go:53-79 | the executed commands are applied in batch order, as if written one by one |
| `StateWriter.RoundExactly` | ingestion/internal/pipeline/state_writer.go:33-57 | a message waits until a hundred are held, a tick or closing event leaves nothing held, and of what leaves the buffer the first commands are executed, all of them if the pipeline succeeds |
| `StateWriter.HandledIsOk` | ingestion/internal/pipeline/state_writer.go:33-57 | one round keeps the hashes at the last writes and the buffer below its limit, and with a successful pipeline loses and reorders nothing |
| `StateWriter.RunMatches` | ingestion/internal/pipeline/state_writer.go:28-66 | a whole run of the loop is a run of the machine with one worker over the same messages: same held batch, writes and hashes, and no failure step if every pipeline succeeds |
| `StateWriter.RunIsOrdered` | ingestion/internal/pipeline/state_writer.go:28-66 | so the writer never writes an older message after a newer one, and after successful pipelines with nothing held the hashes are the latest messages received |
| `StateWriter.Writer.Run` | ingestion/internal/pipeline/state_writer.go:28-57 | the run is the fold of its rounds up to the first closing event and matches a run of the one-worker machine; if every pipeline succeeds, sent and held messages are the received ones in order |
| `Ingestion.WorkersTakeAdmitted` | ingestion/main.go:59-62 | what the state workers have taken is a prefix of what was admitted, and all of it exactly when nothing is on the way |
| `Ingestion.LastAdmittedIsStored` | ingestion/internal/pipeline/dispatcher.go:43-56 | with one state worker and no failed pipeline, once nothing is on the way or held every vehicle's hash is its last admitted message |
| `Ingestion.StoredWasAdmitted` | ingestion/internal/store/redis.go:53-79 | with any workers and failures every hash is an admitted message of its vehicle |
| `AlertDedup.RangesMeetIffNear` | ingestion/scripts/init_db/init_db.go:222-228 | two five-minute ranges overlap exactly when their starts are less than five minutes apart |
| `AlertDedup.RowsFiveMinutesApart` | ingestion/internal/store/timescale.go:111-127 | in every reachable state any two rows of one vehicle and type are at least five minutes apart |
| `AlertDedup.PublishedIsBacked` | ingestion/internal/pipeline/alert_evaluator.go:75-92 | every publication has a stored row of its vehicle and type created within five minutes of its insert attempt, suppressed inserts included |
| `AlertDedup.ClaimsExclude` | ingestion/internal/pipeline/alert_evaluator.go:64-87 | if nobody overstays the claim's lifetime, at most one evaluator is between claim and insert or release for a vehicle and type |
| `AlertDedup.ReleasesAreOwn` | ingestion/internal/store/redis.go:95-112 | under the same condition no release deletes another evaluator's claim |
| `AlertDedup.FailuresMayApply` | ingestion/internal/store/redis.go:95-102 | a claim or insert that reported an error may still have set the key or stored the row |
| `AlertDedup.OverstayBreaksExclusion` | ingestion/internal/store/redis.go:95-102 | from any reachable state with a busy and an idle evaluator, overstaying leads to both being inside the same claim |
| `AlertDedup.OverstayReleasesAnother` | ingestion/internal/pipeline/alert_evaluator.go:75-81 | ... and then a failed insert of the late one deletes the other's claim |
| `AlertEvaluator.Evaluator.TryClaim` | ingestion/internal/store/redis.go:95-102 | true exactly when no unexpired key is set; then the key is set for five minutes; the new state is the machine's claim step |
| `AlertEvaluator.Evaluator.InsertAlert` | ingestion/internal/store/timescale.go:103-128 | the row is stored unless one of its vehicle and type lies within five minutes, and a suppressed row is not an error |
| `AlertEvaluator.Evaluator.ReleaseClaim` | ingestion/internal/store/redis.go:106-112 | the delete step, whoever owns the key |
| `AlertEvaluator.Evaluator.EvaluateRule` | ingestion/internal/pipeline/alert_evaluator.go:59-93 | one rule is a schedule of the protocol; it publishes exactly when it fires on a free key without a fault, and touches no other key |
| `AlertEvaluator.PublicationsExactly` | ingestion/internal/domain/telemetry.go:48-70 | by readings: on a free key without a fault SPEEDING is published if and only if the speed is over 100, LOW_FUEL if the fuel is under 10, ENGINE_OVERHEAT if the temperature is over 100; each at most once and for the sender's vehicle |
| `AlertEvaluator.Evaluator.Evaluate` | ingestion/internal/pipeline/alert_evaluator.go:58-94 | the whole loop is a schedule of the protocol; publications as above, in rule order; which of the vehicle's keys are taken afterwards; no key, row or publication of another vehicle is touched, so none of its alerts is suppressed |
| `Hub.ClosedOnceAndNeverSentAfter` | serving/internal/ws/hub.go:95-163 | in every reachable state no close or send has hit a closed channel; a channel is closed at most once; a client is in its fleet's set, and in no other, exactly while added and open |
| `Hub.DeliveryHasNoGaps` | serving/internal/ws/client.go:82-118 | what was enqueued to a client is the contiguous segment of its fleet's history from its addition to its removal, eviction or now; what was written is a prefix of it; the buffer stays within 256 |
| `Hub.ClosedIsFinal` | serving/internal/ws/hub.go:113-148 | no step changes the segment of a closed client or closes it again |
| `Hub.FanOutExactly` | serving/internal/ws/hub.go:134-148 | a member with fewer than 256 messages waiting gets the message last in its buffer, one with 256 is closed with its buffer left to the pump, and nobody else is touched |
| `Hub.FanOutFleetsExactly` | serving/internal/ws/hub.go:134-148 | the members with fewer than 256 messages waiting stay, other fleets are as they were, and the history grows by the message |
| `Hub.RegisterExactly` | serving/internal/ws/hub.go:101-111 | the oldest register becomes a member from this point of the history on; only a new fleet gets a subscription pair |
| `Hub.UnregisterExactly` | serving/internal/ws/hub.go:113-132 | the oldest unregister is closed exactly if it still was a member, and nobody else is touched |
| `Hub.UnregisterFleetsExactly` | serving/internal/ws/hub.go:113-132 | its fleet leaves the map exactly when nobody is left in it |
| `Hub.ShutdownExactly` | serving/internal/ws/hub.go:150-163 | exactly the members are closed, every pair has then been cancelled once, and the map is empty |
| `Hub.ConnectExactly` | serving/internal/ws/client.go:28-36 | a new client waits for registration while fewer than 64 do, with an empty buffer of 256 |
| `Hub.WriteExactly` | serving/internal/ws/client.go:69-109 | the oldest waiting message leaves the buffer and reaches the socket, or the pump stops |
| `Hub.CloseSendExactly` | serving/internal/ws/client.go:38-43 | a close gets through to the unregister channel once, while fewer than 64 wait there |
| `Hub.OneSubscriptionPerFleet` | serving/internal/ws/hub.go:101-163 | each fleet in the map has one uncancelled pair of its own; a pair is cancelled at most once, and is cancelled exactly when it is not its fleet's current one |
| `Hub.EmptyFleetIsOwed` | serving/internal/ws/hub.go:113-148 | if each register of the fleet's clients is taken before its unregister, whatever happens in other fleets, the fleet without members has an evicted client still owing an unregister, and taking it removes the fleet |
| `Hub.OutOfOrderLeaks` | serving/internal/ws/hub.go:59-73 | from every reachable running state whose next unregister belongs to a client not yet added, a state is reachable in which its fleet is empty, subscribed, and owed by nobody |
| `Hub.UnregisterFirstLeaksFleet` | serving/internal/ws/hub.go:59-73 | such a leak is reachable for every fleet |
| `HubService.Service.TakeRegister` | serving/internal/ws/hub.go:101-111 | addClient is the machine's step and keeps the invariant |
| `HubService.Service.TakeUnregister` | serving/internal/ws/hub.go:113-132 | removeClient is the machine's step and keeps the invariant |
| `HubService.Service.OfferAll` | serving/internal/ws/hub.go:141-147 | in any iteration order every member is offered the message once and exactly the full ones are evicted |
| `HubService.Service.FanOutMessage` | serving/internal/ws/hub.go:134-148 | fanOut is the machine's step and keeps the invariant |
| `HubService.Service.ShutDown` | serving/internal/ws/hub.go:150-163 | in any iteration order shutdown cancels every pair once, closes every member once and empties the map |
| `HubService.Service.Close` | serving/internal/ws/client.go:38-43 | close queues the client at most once, and while the unregister channel is full stays blocked at its send |
| `HubService.Service.WritePump` | serving/internal/ws/client.go:82-92 | what is written stays a prefix of what was enqueued and, with enough successful writes, is all of it |
| `StopTracking.Furthest` | serving/internal/jobs/stop_detector.go:92-98 | the largest number among reached stops, 0 if none |
| `StopTracking.ArrivalsInOrder` | serving/internal/jobs/stop_detector.go:92-131 | over any ticks, positions and write failures: arrivals strictly increasing in stop number and listing exactly the reached stops; beyond the furthest all PENDING; every MISSED stop has a later reached one |
| `StopTracking.TickReachesExactly` | serving/internal/jobs/stop_detector.go:100-131 | which stops a tick newly reaches, departs and misses, each if and only if; arrival and departure get the time read in this tick, and no other time, number or radius changes |
| `StopTracking.RisingExactly` | ingestion/scripts/init_db/init_db.go:304-313 | for a started trip with its stops sorted by numbers from 1: every run logs arrivals in strictly increasing number if and only if no number repeats |
| `StopTracking.AnnouncedOnce` | serving/internal/jobs/stop_detector.go:109-118 | with all writes applied the broadcasts are exactly the recorded arrivals |
| `StopTracking.AnnouncesExactly` | serving/internal/jobs/stop_detector.go:104-118 | an arrival is announced whether or not its mark took effect: exactly the pending stops at or beyond the furthest within their radius |
| `StopTracking.IdleTick` | serving/internal/jobs/stop_detector.go:72-90 | a completed trip or a tick without a position changes nothing |
| `StopTracking.RowsTellOneStory` | serving/internal/jobs/stop_detector.go:134-145 | each row written at most twice, arrival time set once and not after departure, stops_completed never decreases |
| `StopTracking.CountGrows` | serving/internal/handler/trip.go:272-276 | stops_completed cannot fall while reached stops stay reached |
| `StopTracking.CountIsCardinality` | serving/internal/handler/trip.go:274-276 | stops_completed is the number of stops that are ARRIVED or DEPARTED |
| `StopTracking.CompletionExact` | serving/internal/jobs/stop_detector.go:119-121 | a tick keeps COMPLETED and final-stop-ARRIVED in step if and only if the two writes both take effect or both do not |
| `StopTracking.CompletedIffFinalArrived` | serving/internal/jobs/stop_detector.go:147-173 | over any run in which they agree, COMPLETED exactly when the final stop is ARRIVED, and it is never MISSED or DEPARTED |
| `StopTracking.LostCompletion` | serving/internal/jobs/stop_detector.go:124-128 | after a failed completion, driving on departs the final stop with the trip still in progress |
| `StopTracking.QuietTickClears` | serving/internal/jobs/stop_detector.go:104-108 | after a positioned tick without a new arrival the PENDING stops are exactly those beyond the furthest if and only if every skipped stop's mark took effect |
| `StopTracking.MarkKeepsRow` | serving/internal/jobs/stop_detector.go:134-145 | a mark keeps the row's story: the status tells how often it was written, times already set are kept, and departure does not precede arrival |
| `StopDetector.TripRecord.MaxArrived` | serving/internal/jobs/stop_detector.go:92-98 | the first loop computes the furthest reached number |
| `StopDetector.TripRecord.ProcessTrip` | serving/internal/jobs/stop_detector.go:72-132 | the two loops on a snapshot are one tick of the machine |
| `StopDetector.NextStops` | serving/internal/jobs/eta_estimator.go:65-76 | the map holds, for every trip, the stop of its first row |
| `StopDetector.TargetFollowsFurthest` | serving/internal/jobs/eta_estimator.go:43-81 | for a trip in progress whose table is clear, the target is the stop right after the furthest reached one, and absent only when none is left |
| `StopDetector.EtaTargets` | serving/internal/jobs/eta_estimator.go:43-81 | the estimator's tick finds that stop for every such trip, and a target for no completed or unknown trip |
| `StopDetector.EtaAfterQuietTick` | serving/internal/jobs/stop_detector.go:92-131 | from a fresh trip through any run and then a tick with a position, applied marks and no new arrival: if still in progress, the trip's target is the stop right after the furthest reached one |
| `AuthCache.StalenessBound` | ingestion/internal/auth/authenticator.go:53-84 | under any interleaving and store changes an accepted answer is the non-empty fleet the store's table had for the key at a lookup made during the call or less than ttl plus that lookup's delay before |
| `AuthCache.DelayIsNeeded` | serving/internal/auth/authenticator.go:103-111 | for every delay an answer that is ttl - 1 plus the delay old is reachable, for a key revoked right after its lookup |
| `AuthCache.NoTtlNoCache` | ingestion/internal/auth/authenticator.go:63-69 | with ttl at most 0 every accepted answer was asked for during the call |
| `AuthCache.RefusedWithCause` | serving/internal/auth/authenticator.go:86-106 | a refusal has an empty key, or during the call a lookup of its key that failed or found it absent or mapped to the empty string; only configured keys pass without a lookup |
| `Authenticator.ServingTtl` | serving/internal/auth/authenticator.go:33-37 | a ttl of zero becomes 300 seconds, any other is kept |
| `Authenticator.Cache.FleetID` | serving/internal/auth/authenticator.go:86-114 | an undisturbed call is a schedule of the protocol; it asks exactly for a key that is neither configured nor cached unexpired, and then accepts exactly if the store answers and has a non-empty fleet for it, which it returns and caches for ttl |
| `Authenticator.Cache.Validate` | serving/internal/auth/authenticator.go:53-84 | accepted exactly for a configured key, a live entry or a key the store knows |
| `Deviation.OpenAlertsTenMinutesApart` | serving/internal/jobs/deviation_detector.go:119-153 | over any checks, failures and operator resolves, two open alerts of one trip were claimed at least ten minutes apart |
| `Deviation.OnRouteMeansNothingOpen` | serving/internal/jobs/deviation_detector.go:86-98 | with the flag and auto-resolve writes successful, a false flag between checks means no open alert |
| `Deviation.AutoResolveExact` | serving/internal/jobs/deviation_detector.go:140-153 | auto-resolve leaves nothing open if and only if it succeeded or nothing was open |
| `Deviation.OperatorResolveExact` | serving/internal/handler/alert.go:278-312 | an operator's resolve closes one alert and no other |
| `Deviation.DeviatedCheckExact` | serving/internal/jobs/deviation_detector.go:119-138 | a check that finds the vehicle off its route leaves an open alert if and only if one was open, or the key was free, the claim answered and the insert successful outside the exclusion window |
| `Deviation.DeviatedWithoutAlert` | serving/internal/jobs/deviation_detector.go:119-138 | hence with every write accepted but the excluded row: deviated, no open alert, key kept |
| `DeviationDetector.Vehicle.FireAlert` | serving/internal/jobs/deviation_detector.go:119-138 | a row is added exactly when the key was free, no row lies within five minutes and neither call failed; the key is set for ten minutes exactly when it was free and the claim applied |
| `DeviationDetector.Vehicle.ResolveAlerts` | serving/internal/jobs/deviation_detector.go:140-153 | all rows resolved unless the update failed; the key goes only after that |
| `DeviationDetector.Vehicle.CheckTrip` | serving/internal/jobs/deviation_detector.go:71-98 | a check is a schedule of the machine; it uses the route distance; unless its write failed the flag says whether that exceeds the corridor; rows and keys for every combination of faults |
| `Geo.Projection` | serving/internal/jobs/geo.go:31-33 | the parameter lies in [0, 1] |
| `Geo.ClosestInPlane` | serving/internal/jobs/geo.go:27-35 | no point of the segment is closer to P in the degree plane, degenerate segments included |
| `Geo.SegmentExactly` | serving/internal/jobs/geo.go:27-35 | the distance to a segment is the one to its point closest in the degree plane and to no other |
| `Geo.NearestExactly` | serving/internal/jobs/geo.go:25-35 | for every weight of longitude against latitude, the point measured to is the nearest of the segment if and only if the clamped projections with and without the weight agree |
| `Geo.SameProjectionExactly` | serving/internal/jobs/geo.go:31-32 | unclamped they agree if and only if the weight is one, the segment runs along a meridian or parallel, or the point is on its line |
| `Geo.NearestOnAxes` | serving/internal/jobs/geo.go:25-35 | so along meridians and parallels, and for points on the line, the point measured to is always the nearest |
| `Geo.NotNearestBetween` | serving/internal/jobs/geo.go:25-35 | and otherwise, with the projection inside the segment and another weight than one, it never is |
| `Geo.NotAlwaysNearest` | serving/internal/jobs/geo.go:25-27 | an instance at sixty degrees north |
| `Geo.MinDistanceToRoute` | serving/internal/jobs/deviation_detector.go:100-117 | no larger than the distance to the closest point of any leg, and equal to one of them or to 1e18; 0 without stops, the distance to a single one |
| `Heartbeat.EventsAlternate` | serving/internal/jobs/heartbeat_monitor.go:72-109 | with the status key readable and writable, online and offline strictly alternate and the stored status is the last emitted |
| `Heartbeat.RepeatsExactly` | serving/internal/jobs/heartbeat_monitor.go:90-109 | in any state, whatever was lost before, a check emits the last event again if and only if it reaches that verdict and the stored status was not read or does not say so |
| `Heartbeat.AlternatesExactly` | serving/internal/jobs/heartbeat_monitor.go:72-109 | over every run with any faults, events strictly alternate if and only if no check is of that kind |
| `Heartbeat.SetFailureRepeats` | serving/internal/jobs/heartbeat_monitor.go:93-109 | after a failed write of a new status, online or offline, the next check with the same verdict repeats the event |
| `Heartbeat.SilenceMeansOffline` | ingestion/internal/store/redis.go:68-69 | a check thirty seconds or more after the last state write leaves the vehicle offline |
| `Heartbeat.RecentStateDecides` | serving/internal/jobs/heartbeat_monitor.go:76-98 | until then, without a newer write, the verdict depends on the receipt's age alone |
| `Heartbeat.OnlineExactly` | serving/internal/jobs/heartbeat_monitor.go:76-98 | a check leaves it online if and only if the hash is live and its receipt age within the threshold, otherwise offline |
| `Heartbeat.LoadThresholds` | serving/internal/jobs/heartbeat_monitor.go:111-126 | the map has exactly the configured fleets, each with its last row's value |
| `Heartbeat.Vehicle.CheckVehicle` | serving/internal/jobs/heartbeat_monitor.go:72-99 | check is the machine's step |
| `AlertQuery.FleetHistory` | serving/internal/handler/alert.go:357-408 | for every combination of filters the clause over its positional arguments selects exactly the wanted rows; LIMIT and OFFSET read the last two arguments |
| `AlertQuery.AttentionQueue` | serving/internal/handler/alert.go:64-100 | the same for the attention queue: unacknowledged, unresolved, and matching |
| `AlertQuery.ParsePagination` | serving/internal/handler/helpers.go:31-41 | a positive page and a limit of 1 to 100 are kept; anything else, larger limits included, gives page 1 and limit 50 |
| `AlertQuery.OffsetExact` | serving/internal/handler/alert.go:386-387 | the machine offset is the intended one if and only if it fits in 63 bits |
| `AlertQuery.HugePageRepeats` | serving/internal/handler/alert.go:386-387 | beyond that a page can repeat the first one |
| `AlertQuery.PagesPartition` | serving/internal/domain/types.go:136-147 | pages 1 to Pages of a fixed ordered result, concatenated, are the result |
| `AlertQuery.BeyondLastPage` | serving/internal/domain/types.go:136-147 | a page beyond Pages is empty |
| `AlertQuery.WrappedPageIsEmpty` | serving/internal/handler/alert.go:386-387 | a page whose offset wraps to a negative number shows nothing |

## Left out

- HTTP routing, JSON, health and metrics endpoints, middleware and start-up: plumbing without a property over runs.
- The telemetry each state write also publishes, and the expiry of the hash, which only the heartbeat model has.
- The hub's broadcast channel, its dropped events and the Redis pub/sub readers: a broadcast is an arrival at the hub.
- WebSocket upgrade, ping, deadlines and the read pump: they decide only when a client closes, which may be at any time.
- Floating-point rounding and the haversine formula: distances are any real function, the projection is in real arithmetic, and nearness is judged by weighted degrees, the great-circle distance's first-order form.
- Alert acknowledgement, alert enrichment, detail and panel handlers, `countLiveStates`: joins, field copies and one-row updates.
- Alert severity and trigger values: stored and shown, never read by a decision modelled here.
- Liveness and fairness: the results bound what any run can do, not when something happens.
- A trip cancelled or completed from outside the stop detector: only the detector changes a trip here.
- Go's panic on a negative channel size or page arithmetic beyond the offset: sizes are natural numbers.
- Ties in `created_at`: pages are cut from a fixed ordered result, which the query's ORDER BY gives only when times are distinct.
