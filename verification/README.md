# Open Job Spec client and worker: a verified model

The project models the parts of the Python SDK where several things happen at once, where a
run can be cut short and resumed, or where a value travels through text, and proves what the
SDK promises about them. Asyncio code between two awaits is one atomic step, so each
concurrent part is a small-step machine whose scheduler and environment are arbitrary. Code
that updates objects and lists is a class or a method with loops, tied by its contract to the
same functions the machines use; the theorems are about those functions and about whole runs.

* **Batch enqueue** (`EnqueueChain`, `EnqueueBatch`, `EnqueueSchedules`, `EnqueueOutcomes`,
  `EnqueuePipeline`, `TerminalReentry`, `MiddlewareChain`, `MiddlewareOrder`,
  `MiddlewareProgress`, `Names`). Each middleware chain is an arbitrary coroutine over its own
  state. Every interleaving that finishes pushes and returns (or raises) exactly what a
  sequential specification says, and what that is follows from where each chain comes to rest
  alone, without reference to the lists the code keeps; there is at most one push, no schedule
  is stuck, and every schedule ends when the middleware makes progress on the batch's requests.
  A list of middlewares, run on a stack, is such a coroutine, agrees with the source's
  recursion over the list, and makes progress where that recursion ends, for example when each
  middleware has finitely many awaits left whatever it is answered. The two name patterns are
  matched by a nondeterministic relation and accept exactly the intended names.
* **Worker run protocol** (`LeaseAdmission`, `ExecutionRegistry`, `WorkerProtocol`,
  `WorkerRuns`, `WorkerFetching`, `WorkerDrain`, `WorkerOrphans`, `FetchIteration`). One machine
  for the fetch loop, the heartbeat loop, the job tasks, the shutdown coordinator and stop
  requests. Capacity is conserved in every reachable state, a quiet worker takes nothing,
  shutdown is one-way, and a run that was asked to stop is left, after finitely many steps, with
  nothing running and all capacity returned.
* **Durable replay** (`ReplayLog`, `ReplayLoading`, `DurableContext`, `DurableRuns`,
  `DurableCheckpoints`, `DurableRefusals`, `DurableHandlers`). The loader accepts exactly the
  logs that are well formed and refuses every other answer, and each restart goes through it. A
  deterministic handler may crash and restart at any point, catch whatever its operations and
  checkpoints raise, refusals included, and change lists and objects it was given in place, which
  changes the log, as the log holds the same objects. No checkpointed effect runs again. Checkpoints extend one another exactly as long as
  no checkpointed value stands changed where the next checkpoint is taken, and later attempts
  then see the values first checkpointed. A replay can be refused exactly when its log does not
  fit. As long as every stored value stands as it was given, it is never refused when the
  handler goes on after an exception as if there had been none (or ends), nor when nothing is
  raised before a checkpoint of the same attempt or during a replay.
* **Server-Sent Events** (`SseParser`, `SseFrames`, `SseSession`, `SseEndings`). The incremental
  parser means what a declarative reading of the line list says, a written field reads back as
  its name and value, and reconnecting is invisible for exactly the cuts that leave nothing
  pending.
* **Offset pages** (`Paging`, `PagingTotals`, `PagingCycles`), **durations and retry policies**
  (`Decimals`, `Durations`, `DurationValues`, `NegativeDurations`, `DurationGrammar`, `Rfc3339`,
  `RetryDurations`, `RetryProjection`, `RetryRoundTrip`, `RetryDelays`), **leases and local retries**
  (`ExecutionLease`, `ExecutionRetry`), **completion and SQS redelivery** (`Completion`,
  `Serverless`), **proto values** (`ProtoValue`).

`dafny verify dfyconfig.toml` checks everything.

## Where the code and its promises differ

* A terminal that is called again after the push failed raises the generic error, although the
  comment there promises the original one (`src/ojs/client/enqueue_pipeline.py:173-199`). The
  original error comes again exactly when it was the terminal's own validation error
  (`TerminalReentry.OriginalRaisedAgain`; an input in `TerminalReentry.PushErrorIsLost`).
* `_request_termination` says that no one can see shutdown set before the state is TERMINATE
  or the other way round. That holds as long as the coordinator watches the loops
  (`WorkerRuns.WatchingAgrees`). The coordinator itself can set shutdown alone
  (`WorkerRuns.ShutdownWithoutTerminate`), and from then on the two agree exactly when the
  state was TERMINATE before or a stop or terminate directive has come since
  (`WorkerRuns.AgreesExactly`).
* `sleep_for_retry` can give up at or after its target. With at most g between two readings of
  the clock that follow each other directly, this can happen exactly when g is positive, the
  lease at the start does not last until g after the target, and there is a lease at the start
  or the target is at most g away (`ExecutionLease.LateExactly`; an input in
  `ExecutionLease.LateGiveUp`). It is never more than g late (`ExecutionLease.GivesUpWithin`).
* A checkpoint writes the log as it then stands. A handler that changes, in place, a value it
  was given by a checkpointed side effect, and checkpoints again, replaces the recorded value,
  and a restart gives it the changed one, although `side_effect` promises the recorded result
  (`DurableCheckpoints.AlteredIsSaved`; `DurableCheckpoints.ExtendExactly` says when).
* A handler that catches an exception and then does something else than it would have done
  without, for example another side effect, can be refused a replay after a restart
  (`DurableHandlers.CaughtIsRefused`), and so can one that changes a value in place and then
  checkpoints it (`DurableHandlers.ChangedIsRefused`; `DurableRefusals.RefusedExactly` says
  when).
* The accepted ISO durations are not a subset of those of Appendix A of RFC 3339. An accepted
  text is one exactly when it has no fraction, a unit after "P" and after "T", and no hours
  directly followed by seconds (`Rfc3339.InRfcExactly`; inputs in `Rfc3339.OutsideRfc`).
* `_parse_iso8601_duration` uses `match` with `$` and so also accepts one final newline; the
  gRPC projection does not, and they differ on nothing else
  (`RetryDurations.RetryParserAcceptsExactly`, `RetryDurations.NewlineAccepted`).
* A negative protobuf duration with a fraction is read as its whole seconds negated plus the
  fraction: "-1.5s" as half a second less than nothing (`NegativeDurations.HalfIsRead`), unlike
  the JSON form of google.protobuf.Duration, where it is one and a half seconds less. The sign
  negates the duration exactly when the fraction is zero or nothing is left of the duration in
  milliseconds (`NegativeDurations.NegatedExactly`).
* A frame whose only data is one empty `data:` line is dropped, and an `id` in a frame that
  yields no event does not survive a reconnect (`SseSession.EventlessIdIsLost`), both unlike
  section 9.2.6 of the WHATWG HTML Living Standard. `SseSession.CutInvisibleExactly` says which
  cuts lose something.
* A retry policy with `jitter` false, `max_attempts` 0 or a coefficient of 0 does not survive
  a codec that omits proto3 zero values (`RetryRoundTrip.PolicyKeptExactly`; the default policy
  without jitter in `RetryRoundTrip.JitterComesBack`).

## Assumptions

Chains share no state, call `next` one call at a time from the coroutine they run in, and wait
for it to the end: no chain puts a timeout around its own `await next(...)` or leaves it by
cancellation. `enqueue_batch` is not cancelled from outside. Job tasks start in FIFO order, so
each has taken its first step before the drain cancels it; without this a run can come to a
state it never leaves (`WorkerOrphans.OrphanArises`, `WorkerOrphans.OrphanBlocksLeaving`).
`start()` is not cancelled during its own cleanup. Every cancelled task eventually finishes.
Permit tokens never repeat. A recorded value is changed in place only by the durable handler it
was given to, and a list stays a list, an object an object. `json.loads` undoes `json.dumps` on
the logs that are saved, and accepts `{}`. The cursors of a paged backend come from one finite
set; nothing in the source bounds them. A timer never fires early.

## Model

| member | source | states |
|---|---|---|
| Names.QueuePatternAcceptsExactly | src/ojs/client/enqueue_pipeline.py:17 | the queue pattern, as a match relation, accepts exactly the non-empty strings over `[a-z0-9.-]` that start and end alphanumeric with no two adjacent separators |
| Names.TypePatternAcceptsExactly | src/ojs/client/enqueue_pipeline.py:16 | the type pattern accepts exactly the dot-joined non-empty segments, which one left-to-right scan decides |
| Names.ValidatesExactly | src/ojs/client/enqueue_pipeline.py:281-304 | a request is accepted if and only if both names are well formed and within 255 and 128 characters; the blank checks reject nothing more |
| EnqueueChain.EvaluatesOnce | src/ojs/client/enqueue_pipeline.py:203-211 | a chain run alone comes to rest, at its terminal or at its end, in at most one way |
| EnqueueChain.CostDecreases | src/ojs/client/enqueue_pipeline.py:203-211 | each step of a chain that makes progress brings it one step closer to rest |
| EnqueueBatch.FirstErrorIsLowest | src/ojs/client/enqueue_pipeline.py:227-233 | the raised error is the one of the lowest index that has one, and none is raised only when there is none |
| EnqueueBatch.PendingAtRank | src/ojs/client/enqueue_pipeline.py:235-238 | the pushed list holds each reached request at its rank among the reached ones, and nothing else |
| EnqueueBatch.KeptInOrder | src/ojs/client/enqueue_pipeline.py:268-278 | the returned list is the non-None results in request order, as many as there are |
| EnqueueBatch.StepInv | src/ojs/client/enqueue_pipeline.py:153-278 | every step of any chain or of the batch itself keeps the invariant that relates the state to the chains run alone |
| EnqueueSchedules.SequentialOnce | src/ojs/client/enqueue_pipeline.py:117-278 | the sequential meaning of a batch is a single pushed list and a single result |
| EnqueueSchedules.EveryScheduleIsSequential | src/ojs/client/enqueue_pipeline.py:117-278 | every finished schedule pushed and returned (or raised) what the sequential specification says |
| EnqueueOutcomes.EveryScheduleMeans | src/ojs/client/enqueue_pipeline.py:215-278 | every finished schedule: a chain that alone raises or ends without a job before its terminal aborts the batch with the lowest such error and nothing is pushed; else the candidates are pushed once in item order; each chain at its terminal goes on with the job at its own place; the error of the lowest item that then raised is raised, else exactly the jobs the chains returned are returned, in item order |
| EnqueueOutcomes.FinishMeans | src/ojs/client/enqueue_pipeline.py:264-278 | the last step raises or returns what the chains, as they stand then, came to |
| EnqueueOutcomes.PushedAreValid | src/ojs/client/enqueue_pipeline.py:169-211 | in every reachable state whatever was pushed is valid, and so is every request of a batch that pushed anything |
| EnqueueSchedules.SchedulesAgree | src/ojs/client/enqueue_pipeline.py:117-278 | any two finished schedules of one batch agree on pushes and result |
| EnqueueSchedules.PushedAtMostOnce | src/ojs/client/enqueue_pipeline.py:215-238 | a batch that pushed anything pushed one list, that of the sequential run, and each item either reached its terminal or had already returned a job: no push happens when a pre-phase fails or rejects |
| EnqueueSchedules.AnsweredOnce | src/ojs/client/enqueue_pipeline.py:229-252 | no step changes an answer a terminal has been given |
| EnqueueSchedules.AnsweredWithOwnJob | src/ojs/client/enqueue_pipeline.py:229-252 | once the batch joins its chains every reached terminal has the job at its own rank, or the shared failure |
| EnqueueSchedules.NeverStuck | src/ojs/client/enqueue_pipeline.py:213-262 | short of the end some step can always be taken |
| EnqueueSchedules.EveryScheduleFinishes | src/ojs/client/enqueue_pipeline.py:213-262 | when each request's chain comes to rest, and comes to rest again whatever its terminal is answered, every schedule ends in the sequential result |
| EnqueueSchedules.EnabledHasNothing | src/ojs/client/enqueue_pipeline.py:203-211 | a task that can still be scheduled has put nothing in the lists of results and errors: each item is written once, which `BatchRun.RunChain` asks for |
| TerminalReentry.OriginalRaisedAgain | src/ojs/client/enqueue_pipeline.py:169-201 | a terminal called again raises its first error again exactly when that was its own validation error, and the generic error after a failed push |
| TerminalReentry.PushErrorIsLost | src/ojs/client/enqueue_pipeline.py:173-188 | a chain that retries a failed push ends with the generic error, not the push's |
| MiddlewareProgress.SettlingProgresses | src/ojs/client/enqueue_pipeline.py:169-211 | a coroutine that settles on everything a batch terminal can answer makes progress in a batch |
| MiddlewareProgress.SettlesExactly | src/ojs/middleware/__init__.py:69-84 | a composed list settles on exactly the answers the recursion over the list ends on |
| MiddlewareProgress.RankedBatchFinishes | src/ojs/middleware/__init__.py:69-84 | a batch over any list of middlewares whose awaits run out ends in the sequential result, whatever the requests, the transport and the schedule |
| MiddlewareProgress.RetryingBatchFinishes | src/ojs/client/enqueue_pipeline.py:173-188 | so does a batch over any number of middlewares that each retry once, or none |
| EnqueuePipeline.BatchRun.constructor | src/ojs/client/enqueue_pipeline.py:153-162 | the lists start undecided, one cell for each request; an empty batch is done at once |
| EnqueuePipeline.BatchRun.RunChain | src/ojs/client/enqueue_pipeline.py:169-211 | one scheduling of one task is one chain step of the machine |
| EnqueuePipeline.BatchRun.OpenBarrier | src/ojs/client/enqueue_pipeline.py:215-238 | when all gates are open, the in-place loops leave exactly the state the machine's barrier step leaves |
| EnqueuePipeline.BatchRun.AnswerTerminals | src/ojs/client/enqueue_pipeline.py:250-252 | the zip over pending terminals gives each the job at its rank and touches nothing else |
| EnqueuePipeline.BatchRun.ReceiveReply | src/ojs/client/enqueue_pipeline.py:237-252 | a reply of the right length is handed out; a failure or a wrong count fails every pending terminal |
| EnqueuePipeline.BatchRun.Finish | src/ojs/client/enqueue_pipeline.py:254-278 | the end is the push failure, else the lowest post error, else the jobs that are left, as the machine's last step has it |
| MiddlewareChain.ComposedExecutes | src/ojs/middleware/__init__.py:69-84 | a list of middlewares run on a stack, as one coroutine, settles with exactly the outcome of the recursion over the list, with the terminal called on the same requests in the same order |
| MiddlewareOrder.OutermostFirst | src/ojs/middleware/__init__.py:69-84 | the first middleware of a list changes the request first and the outcome last |
| LeaseAdmission.ReserveAllConserves | src/ojs/worker/lease_admission.py:27-43 | what is available is what the semaphore holds, and reserving all of it under new tokens leaves nothing available and loses nothing |
| LeaseAdmission.ReleaseAllConserves | src/ojs/worker/lease_admission.py:45-50 | releasing distinct live permits gives back exactly as many slots |
| LeaseAdmission.Admission.ReserveAvailable | src/ojs/worker/lease_admission.py:35-43 | reserves everything available, never waiting, and returns the new tokens |
| LeaseAdmission.Admission.Free | src/ojs/worker/lease_admission.py:45-50 | a permit is released once; a second release changes nothing and says so; the bound is never exceeded |
| ExecutionRegistry.Registry.Register | src/ojs/worker/execution_registry.py:32-51 | a new token is recorded and `_empty` cleared; a known one raises and changes nothing |
| ExecutionRegistry.Registry.Complete | src/ojs/worker/execution_registry.py:53-60 | a known execution is forgotten and its permit released, once if it is live; `_empty` tells emptiness |
| WorkerProtocol.StepInv | src/ojs/worker/runtime.py:121-392 | every step of any component keeps the invariant: permits are those held by the fetch iteration plus those of registered executions, disjointly, and the drain's phases mean what they say |
| WorkerRuns.CapacityConserved | src/ojs/worker/runtime.py:188-247 | in every reachable state free slots, held permits and running executions add up to the concurrency, so no more jobs run and the semaphore is never over-released |
| WorkerRuns.RegistryTells | src/ojs/worker/execution_registry.py:47-60 | in every reachable state `_empty` is set exactly when nothing is registered, tasks and executions correspond, and TERMINATE implies shutdown |
| WorkerRuns.ShutdownWithoutTerminate | src/ojs/worker/shutdown_coordinator.py:47-53 | a run in which shutdown is set while the state is still RUNNING: the converse of the above is false |
| WorkerRuns.WatchingAgrees | src/ojs/worker/runtime.py:159-180 | as long as the coordinator watches the loops, shutdown is set exactly when the state is TERMINATE |
| WorkerRuns.AgreesExactly | src/ojs/worker/shutdown_coordinator.py:47-53 | afterwards the two agree exactly when they did before or a stop or terminate directive came since |
| WorkerRuns.ReserveNeverBlocks | src/ojs/worker/lease_admission.py:35-43 | in every invariant state the fetch loop can take its turn: reserving never waits |
| WorkerFetching.TurnTakesAll | src/ojs/worker/runtime.py:184-191 | a turn of a worker that is neither shut down nor quiet takes every free slot, and pauses when there is none |
| WorkerFetching.ReplyStartsInOrder | src/ojs/worker/runtime.py:193-217 | the i-th job of a reply runs under the i-th permit, nothing else changes among the executions, unused permits are given back, surplus jobs are kept for rejection, and only an empty reply makes the loop pause |
| WorkerFetching.SurplusRejected | src/ojs/worker/runtime.py:206-207 | each surplus lease is rejected, one by one, before the next turn |
| WorkerFetching.QuietTakesNothing | src/ojs/worker/runtime.py:183-191 | as long as the state stays QUIET no permit is taken, no request is sent and nothing is registered but jobs of a request already in flight, in every run |
| WorkerFetching.StateMoves | src/ojs/worker/runtime.py:361-376 | only the start and end of a run, a stop request and a directive change the public state, QUIET and RUNNING only before shutdown |
| WorkerFetching.QuietWorkerFetchesNothing | src/ojs/worker/runtime.py:371-376 | from a QUIET directive before shutdown until the next directive or stop request the worker takes no permit and asks for no jobs |
| WorkerRuns.AnyReplyIsTakenIn | src/ojs/worker/runtime.py:200-217 | whatever list the backend returns, surplus included, no token is registered twice |
| WorkerRuns.CompletionReleasesOnce | src/ojs/worker/runtime.py:237-247 | the `finally` of a job task releases a live permit, exactly once |
| WorkerRuns.ShutdownIsOneWay | src/ojs/worker/runtime.py:159-180 | after shutdown, whatever heartbeat is in flight, the state stays or becomes TERMINATE until the final IDLE |
| WorkerRuns.RegistryOnlyShrinks | src/ojs/worker/shutdown_coordinator.py:59-73 | once both loops are gathered, executions and tasks only shrink |
| WorkerRuns.LeavesClean | src/ojs/worker/runtime.py:138-150 | `start()` leaves only with no task, no execution, all capacity returned and state IDLE |
| WorkerDrain.ShutdownDescends | src/ojs/worker/shutdown_coordinator.py:47-73 | after shutdown every step that changes anything descends in one well-founded order |
| WorkerDrain.ShutdownLeaves | src/ojs/worker/shutdown_coordinator.py:47-73 | in every endless schedule a run asked to shut down is left, clean |
| WorkerDrain.ShutdownNeverStuck | src/ojs/worker/shutdown_coordinator.py:47-73 | after shutdown, and until the run is left, some step changes something |
| WorkerOrphans.OrphanArises | src/ojs/worker/runtime.py:219-247 | without FIFO starts, a run in which a task is cancelled before its first step and its execution stays behind |
| WorkerOrphans.OrphanBlocksLeaving | src/ojs/worker/shutdown_coordinator.py:69-73 | from then on the execution stays registered and the run is never left |
| FetchIteration.StartAdmitted | src/ojs/worker/runtime.py:207-210 | the loop over jobs and permits registers them in order, as many as both lists allow |
| FetchIteration.Iterate | src/ojs/worker/runtime.py:193-214 | one iteration on the real objects ends as the protocol's steps do, whatever the reply, and every live permit belongs to an execution |
| ReplayLog.EntryRoundTrip | src/ojs/durable/replay_loader.py:28-51 | reading a written entry gives the entry back |
| ReplayLog.AcceptedEntryIsFaithful | src/ojs/durable/replay_loader.py:38-51 | an accepted entry, written again, has the fields it was read from |
| ReplayLog.CheckEntries | src/ojs/durable/replay_loader.py:89-99 | the checked loop decodes all or fails with the first error; accepted entries are numbered by position |
| ReplayLog.DecodedIsNumbered | src/ojs/durable/replay_loader.py:89-99 | every accepted log is numbered by position and holds known kinds only |
| ReplayLog.SavedLogLoads | src/ojs/durable/replay_loader.py:54-99 | loading a saved log through the whole response gives the same entries back |
| ReplayLoading.EntryReadExactly | src/ojs/durable/replay_loader.py:38-51 | fields read as an entry exactly when each has its type and value, a missing key being empty |
| ReplayLoading.FirstUnreadable | src/ojs/durable/replay_loader.py:89-99 | a log is refused exactly when some item cannot be read, with the error of the lowest |
| ReplayLoading.LoadsExactly | src/ojs/durable/replay_loader.py:54-99 | for every answer of the server: no log exactly when there is no checkpoint, these entries exactly when the log text decodes to an array whose items read as them in order, and an error otherwise |
| DurableContext.Durable.ReplayEntry | src/ojs/durable/context.py:204-230 | gives the entry at the cursor and moves it, refuses one of another kind or key without moving, and ends replaying at the end of the log |
| DurableContext.Durable.Now | src/ojs/durable/context.py:90-112 | `now` does what the specification of one operation does: replay, refuse or record |
| DurableContext.Durable.RandomHex | src/ojs/durable/context.py:114-129 | the same for `random` |
| DurableContext.Durable.SideEffect | src/ojs/durable/context.py:131-162 | the same for `side_effect`; a function that raises records nothing |
| DurableContext.Durable.Checkpoint | src/ojs/durable/context.py:164-189 | the body carries the whole log so far |
| DurableRuns.EffectDoes | src/ojs/durable/context.py:90-162 | an operation gives the value in the log at its place without running anything, or runs and records it at the end, or is refused and changes nothing, so that a handler that catches the refusal goes on from there |
| DurableRuns.StepInv | src/ojs/durable/context.py:131-230 | every step, exceptions, refusals, failed checkpoints, changes in place and crashes included, keeps the log equal to what the handler was given and has left of it, and what it was given equal to the log the attempt started from |
| DurableRuns.LogsNumbered | src/ojs/durable/context.py:103-161 | in every run `seq` equals the index in both logs |
| DurableRuns.SavedLogRestarts | src/ojs/durable/context.py:70-88 | whatever was checkpointed last, the next attempt starts from exactly that log |
| DurableRuns.RestartIs | src/ojs/durable/context.py:70-88 | a restart, which opens with what the loader makes of the server's answer, opens with exactly the stored log |
| DurableRuns.RestartCan | src/ojs/durable/context.py:70-88 | and is always possible |
| DurableRuns.EffectsNeverRerun | src/ojs/durable/context.py:131-162 | after a checkpoint no effect in it is ever run again, in any run, changes in place included |
| DurableCheckpoints.StepIntact | src/ojs/durable/context.py:148-162 | a step leaves the checkpointed values as they are exactly when it does not change one of them in place |
| DurableCheckpoints.IntactAsHeld | src/ojs/durable/context.py:148-162 | no checkpointed value stands changed in the log exactly when the handler holds each checkpointed value it was given as it was checkpointed |
| DurableCheckpoints.ExtendExactly | src/ojs/durable/context.py:164-189 | across any crashes, checkpointed logs extend one another exactly when no checkpointed value stands changed where the next checkpoint is taken |
| DurableCheckpoints.SparedExtends | src/ojs/durable/context.py:164-189 | they do in every run in which the handler changes no checkpointed value |
| DurableCheckpoints.SeesLastSaved | src/ojs/durable/context.py:82-86 | in every run, the values a handler is given after a restart are those checkpointed last |
| DurableCheckpoints.SeesFirstRecorded | src/ojs/durable/context.py:90-162 | where no checkpointed value stands changed at a later checkpoint, whatever a later attempt is given of a checkpointed operation is the value it had in the first checkpoint |
| DurableCheckpoints.AlteredIsSaved | src/ojs/durable/context.py:148-189 | a handler that empties a list it was given between two checkpoints: the second does not extend the first, and the next attempt is given the empty list |
| DurableRefusals.RefusedExactly | src/ojs/durable/context.py:208-230 | an attempt started from a checkpointed log can be refused exactly when some way of retracing the log, failed checkpoints and changes in place included, comes to an operation the next entry does not answer |
| DurableRefusals.NeverRefused | src/ojs/durable/context.py:131-230 | as long as whatever is stored stands as it was given, a handler that after exceptions ends or goes on as if nothing had been raised is never refused; nor is any handler as long as, besides, nothing is raised before a checkpoint of the same attempt or while replaying |
| DurableHandlers.RetryingForgets | src/ojs/durable/context.py:148-162 | doing again whatever raised makes any handler one of the first kind |
| DurableHandlers.EndingForgets | src/ojs/durable/context.py:148-162 | so does ending on any exception |
| DurableHandlers.ConsumingNeverRefused | src/ojs/durable/context.py:131-189 | a handler that changes its list after its last checkpoint is never refused, in any run |
| DurableHandlers.CaughtIsRefused | src/ojs/durable/context.py:131-162 | a handler that catches an exception and does something else instead, and the run in which it is refused |
| DurableHandlers.ChangedIsRefused | src/ojs/durable/context.py:148-189 | a run without exceptions in which a value changed in place and then stored leads to a refusal |
| SseParser.FrameParser.Feed | src/ojs/sse/frame_parser.py:54-75 | one line changes the buffers and emits as the line's meaning says |
| SseParser.FrameParser.Finish | src/ojs/sse/frame_parser.py:77-87 | a truncated frame is discarded and the id buffer stays |
| SseParser.BuffersHold | src/ojs/sse/frame_parser.py:54-113 | after any lines the buffers are the open frame's data and last event type, and the last NUL-free id of all lines, else the seed |
| SseParser.OutputMeans | src/ojs/sse/frame_parser.py:89-113 | for every prefix a line emits an event only when it is blank and ends a frame with non-empty joined data, with that data, the last event type or "message", and the sticky id |
| SseParser.JoinedIsEmpty | src/ojs/sse/frame_parser.py:89-96 | joined data is empty exactly when there is none or one empty line |
| SseFrames.LineReads | src/ojs/sse/frame_parser.py:60-75 | a field written with a colon and a value, after a space or not, or as a name alone, reads back as that name and value |
| SseFrames.EveryLineIsField | src/ojs/sse/frame_parser.py:57-75 | every line that is neither blank nor a comment is such a field |
| SseFrames.JoinedSplits | src/ojs/sse/frame_parser.py:90 | splitting the joined data at its line breaks gives the data lines back |
| SseFrames.FrameYields | src/ojs/sse/frame_parser.py:89-113 | a frame of such fields yields nothing without data, and else an event with exactly the last id without a NUL, the last event type or "message", and the joined data |
| SseFrames.EventReads | src/ojs/sse/frame_parser.py:54-113 | the lines "event: ...", "id: ..." and "data: ..." yield the event with exactly these texts |
| SseSession.ConsumeOnce | src/ojs/sse/subscription_session.py:160-209 | one connection yields what the parser seeded with the sticky id makes of its lines, and ends as the connection does |
| SseSession.Events | src/ojs/sse/subscription_session.py:121-155 | the loop is the recursive session, and opens at most one stream more than the reconnects allowed |
| SseSession.StreamsBounded | src/ojs/sse/subscription_session.py:144-158 | at most `max_reconnects + 1` streams open, and one without reconnecting |
| SseEndings.SessionDoes | src/ojs/sse/subscription_session.py:121-158 | each stream yields the events of its own lines, is followed by another exactly when it does not end the session and the policy allows it, and the last one decides the ending |
| SseSession.HeaderIsLastYielded | src/ojs/sse/subscription_session.py:127-171 | every stream is opened with the id yielded last, by whichever stream, and without the header when that is empty |
| SseSession.ParseConcat | src/ojs/sse/frame_parser.py:54-113 | parsing two pieces is parsing the first and going on from the state it left |
| SseSession.ReconnectTransparent | src/ojs/sse/subscription_session.py:121-209 | a line stream cut cleanly into pieces, each read on its own connection, yields the events of one parser reading it whole |
| SseSession.CutInvisibleExactly | src/ojs/sse/subscription_session.py:189-198 | a cut is invisible for every continuation if and only if no data and no event type is pending and the id buffer is the last yielded id |
| SseSession.EventlessIdIsLost | src/ojs/sse/subscription_session.py:127-137 | a stream whose eventless id is lost by reconnecting |
| Paging.CollectOffsetPage | src/ojs/transport/grpc/paging.py:21-74 | the loop over cursors ends, each further turn using up a cursor not seen before, with the result of the specified walk |
| PagingTotals.CollectVisits | src/ojs/transport/grpc/paging.py:29-74 | whatever the backend answers: each request asks, with the last cursor, for exactly what is still missing, up to the first answer that cannot be read, completes the page, has no cursor or repeats one; the page is the slice of all items received, its total the number named last or 0, its cursor the last one |
| PagingTotals.BadArguments | src/ojs/transport/grpc/paging.py:29-32 | a limit below one and a negative offset are refused |
| PagingTotals.PageIsSlice | src/ojs/transport/grpc/paging.py:49-92 | from a backend that names the length of its list in every response the page has the items and the total of the plain slice |
| PagingTotals.NoCursorAtEnd | src/ojs/transport/grpc/paging.py:55-74 | a page without a next cursor reaches the end of the list when no page is longer than asked for |
| Paging.CollectIsSlice | src/ojs/transport/grpc/paging.py:34-92 | however the backend chops the list into pages, collecting gives the items of the plain slice, or rejects a repeated cursor |
| PagingCycles.RejectedExactly | src/ojs/transport/grpc/paging.py:63-68 | a serving backend is rejected exactly when its cursors run into a cycle of empty pages before the limit is met |
| Paging.ForwardCollectIsSlice | src/ojs/transport/grpc/paging.py:34-92 | with cursors that lead forward nothing is rejected: the page is the slice |
| Paging.NextCursorResumes | src/ojs/transport/grpc/paging.py:58-74 | the returned cursor stands right behind the returned items when no page is longer than asked for |
| DurationGrammar.IsoPatternAcceptsExactly | src/ojs/transport/grpc/protobuf_time.py:9-13 | the scanner of ISO durations accepts exactly what the pattern, as a match relation, does |
| DurationGrammar.ProtoPatternAcceptsExactly | src/ojs/transport/grpc/protobuf_time.py:14 | the reading of protobuf durations accepts exactly what the pattern does |
| Rfc3339.InRfcExactly | src/ojs/retry.py:30 | an accepted duration is one of RFC 3339, Appendix A, exactly when it has no fraction, a unit after "P" and after "T", and no hours directly followed by seconds |
| Rfc3339.OutsideRfc | src/ojs/retry.py:30 | "PT1H5S", "PT1.5S", "P1DT", "P" and "PT" are accepted and are not |
| Decimals.NormalizedKeeps | src/ojs/transport/grpc/protobuf_time.py:69-73 | normalizing a decimal keeps its value and moves only zeros |
| Durations.NothingToStrip | src/ojs/transport/grpc/protobuf_time.py:69-73 | after normalizing there is nothing left to strip from the text |
| Durations.MillisRoundTrip | src/ojs/transport/grpc/protobuf_time.py:17-30 | reading a printed duration gives the milliseconds it was printed from, for every non-negative count |
| Durations.PlainReads | src/ojs/transport/grpc/protobuf_time.py:24-30 | plain decimal text with at most nine fraction digits reads as its whole thousandths |
| Durations.TimeRead | src/ojs/retry.py:30-42 | hours, minutes and seconds text reads back as it was printed |
| DurationValues.IsoMeans | src/ojs/retry.py:12-42 | a day is 24 hours, an hour 60 minutes, a minute 60 seconds: what a text with days, hours, minutes and whole seconds stands for |
| DurationValues.FractionMeans | src/ojs/retry.py:38-42 | a digit of the fraction counts by its place |
| NegativeDurations.SignedMeans | src/ojs/transport/grpc/protobuf_time.py:24-30 | after a minus sign the whole seconds are taken from the fraction, and the difference is cut toward zero to milliseconds |
| NegativeDurations.NegatedExactly | src/ojs/transport/grpc/protobuf_time.py:24-30 | the sign negates the duration if and only if its fraction is zero or it counts less than a millisecond |
| NegativeDurations.HalfIsRead | src/ojs/transport/grpc/protobuf_time.py:28-30 | "1.5s" is read as 1500 and "-1.5s" as -500 |
| RetryDurations.MillisFloor | src/ojs/transport/grpc/protobuf_time.py:30 | the whole thousandths of a decimal are its real value times 1000, cut down |
| RetryDurations.IsoProtoRead | src/ojs/transport/grpc/protobuf_time.py:33-51 | an ISO duration sent and turned back is readable exactly when it has at most nine fraction digits |
| RetryDurations.IsoProtoIso | src/ojs/transport/grpc/protobuf_time.py:33-51 | it then keeps its value, cut down to whole milliseconds |
| RetryDurations.IsoProtoIsoExact | src/ojs/transport/grpc/protobuf_time.py:33-51 | and keeps it unchanged exactly when it is a whole number of milliseconds |
| RetryDurations.ParsersAgree | src/ojs/retry.py:30-42 | where the projection reads a duration, the retry policy reads the same value |
| RetryDurations.RetryParserAcceptsExactly | src/ojs/retry.py:30-33 | the retry policy accepts what the projection does and that with one final newline, and the two differ on exactly those texts |
| RetryDurations.NewlineAccepted | src/ojs/retry.py:30-33 | "PT1S" with a newline is such a text |
| RetryDurations.SecondsToIso8601 | src/ojs/retry.py:45-67 | the printed text reads back within half a millisecond, exactly for whole milliseconds (so for every whole number of seconds), and as zero when nothing is positive |
| RetryProjection.ProjectToProto | src/ojs/transport/grpc/enqueue_projection.py:126-150 | filling the dictionary key by key converts every field as specified, or fails on an unreadable interval |
| RetryProjection.PlainFieldsSent | src/ojs/transport/grpc/enqueue_projection.py:126-150 | a field that is no interval is sent exactly when it has its type, and unchanged |
| RetryProjection.IntervalsSent | src/ojs/transport/grpc/enqueue_projection.py:131-137 | an interval is sent exactly when it is text, converted |
| RetryProjection.ProjectFromProto | src/ojs/transport/grpc/job_projection.py:152-174 | the same on the way back |
| RetryRoundTrip.ReturnsExactly | src/ojs/transport/grpc/enqueue_projection.py:126-150 | the trip to gRPC and back ends in a policy exactly when both intervals are ISO durations with at most nine fraction digits |
| RetryRoundTrip.PolicyKeptExactly | src/ojs/transport/grpc/job_projection.py:152-174 | the policy comes back the same exactly when its intervals are whole milliseconds and, where the codec omits zeros, `jitter` is true and the numbers are not zero |
| RetryRoundTrip.JitterComesBack | src/ojs/transport/grpc/job_projection.py:152-174 | the default policy without jitter comes back with it through a codec that omits zeros, and unchanged through one that does not |
| RetryRoundTrip.DelaysKept | src/ojs/retry.py:90-117 | then the delay before jitter is the same for every attempt on both sides |
| RetryRoundTrip.DelayForAttempt | src/ojs/retry.py:90-117 | the delay is the capped exponential one, moved by the random factor and capped again |
| RetryRoundTrip.DelaysGrow | src/ojs/retry.py:90-117 | for every policy with a coefficient of at least one, delays never shrink from attempt to attempt, jitter moves them by at most half, and none exceeds the cap |
| RetryDelays.PowersMultiply | src/ojs/retry.py:107 | the power of the coefficient is 1 for 0, the coefficient for 1, and exponents add up |
| RetryDelays.NegativePowers | src/ojs/retry.py:107 | a negative exponent gives the inverse and raises exactly for a coefficient of 0 |
| RetryDelays.DelaysMultiply | src/ojs/retry.py:107-108 | with a coefficient of at least one the first delay is the capped initial interval and each later one the one before times the coefficient, capped |
| RetryDelays.JitterCovers | src/ojs/retry.py:110-115 | every delay between half and one and a half of the capped one, as far as the cap goes, comes from some draw |
| ExecutionLease.Lease.Extend | src/ojs/worker/execution_retry.py:44-51 | the deadline becomes the later of itself and now plus the extension |
| ExecutionLease.ExtensionMeans | src/ojs/worker/execution_retry.py:41-48 | after an extension the lease lasts at least that many milliseconds, exactly that if it lasted less, and is never shortened |
| ExecutionLease.Lease.SleepForRetry | src/ojs/worker/execution_retry.py:53-90 | refuses a negative delay; otherwise the loop ends, and leaves clock and deadline, as the specified sleep does |
| ExecutionLease.SleepSafe | src/ojs/worker/execution_retry.py:53-90 | the sleep returns only at or after its goal; it gives up only when a reading before the goal is followed, a given drift or lag later, by one with no lease left; neither clock nor deadline moves back |
| ExecutionLease.UndisturbedSleep | src/ojs/worker/execution_retry.py:54-90 | an undelayed sleep ends exactly at its goal when the lease lasts until then, and else gives up exactly when the lease ends |
| ExecutionLease.GivesUpWithin | src/ojs/worker/execution_retry.py:58-90 | with at most g between two readings, a sleep that gives up does so less than g after its goal, and its lease at the start ran out before that |
| ExecutionLease.GivesUpExactly | src/ojs/worker/execution_retry.py:58-90 | a sleep can give up exactly when the lease at its start does not last until g after its goal |
| ExecutionLease.LateExactly | src/ojs/worker/execution_retry.py:58-90 | it can give up at or after its goal exactly when, besides, g is positive and there is a lease at the start or the goal is at most g away |
| ExecutionLease.NeverLateExactly | src/ojs/worker/execution_retry.py:58-90 | no sleep, wherever it starts, is late exactly when no time passes between two readings |
| ExecutionLease.LateGiveUp | src/ojs/worker/execution_retry.py:59-63 | a sleep that gives up after its goal |
| ExecutionLease.TurnsBounded | src/ojs/worker/execution_retry.py:58-90 | it uses at most one turn more than the extensions that arrive in its turns |
| ExecutionLease.ExtendLeases | src/ojs/worker/execution_registry.py:69-77 | extends the leases of the named jobs, or of all, and no others |
| ExecutionRetry.Run | src/ojs/worker/execution_retry.py:112-126 | the handler is called until the first call that ends the run, at most `max_retries + 1` times, and the run ends as that call or the sleep after it does |
| ExecutionRetry.DelayWithin | src/ojs/worker/execution_retry.py:128-132 | a retry waits between half the capped delay and all of it, and the capped delay never shrinks |
| ExecutionRetry.BackoffDoubles | src/ojs/worker/execution_retry.py:125-126 | the capped delay starts at the base delay and doubles from attempt to attempt up to the cap |
| ExecutionRetry.JitterCovers | src/ojs/worker/execution_retry.py:127-129 | every delay from half the capped one up to all of it comes from some random value |
| Completion.CompletionReporter.Claim | src/ojs/worker/completion_reporter.py:60-64 | the first outcome wins for good |
| Completion.CompletionReporter.Deliver | src/ojs/worker/completion_reporter.py:69-90 | identical calls carrying the outcome, at most the maximum; a connection error, a timeout and a retryable answer are followed by another call while one is left, every other error ends it at once; none after a return or a cancellation, and the end tells how the last one went |
| Completion.CompletionReporter.Report | src/ojs/worker/completion_reporter.py:58-67 | true exactly when this outcome won and was accepted; a losing report calls nothing |
| Completion.ProcessJob | src/ojs/worker/runtime.py:265-338 | a job gets the one outcome its handler came to, with the code, message and retryability of each case, in at most three identical calls; which errors leave the job task |
| Serverless.Invoke | src/ojs/serverless/invocation_bridge.py:39-85 | redelivery is asked for exactly when no ack or nack was accepted, or without a transport when the handler failed; a cancellation leaves |
| Serverless.FaultsTell | src/ojs/serverless/error_response.py:62-87 | each kind of fault has its own code, and only a broken handler is retryable |
| Serverless.LastAnswers | src/ojs/worker/completion_reporter.py:69-81 | only the last call of a delivery can have been accepted |
| Serverless.HandleSqs | src/ojs/serverless/aws_lambda.py:108-138 | every record is handled unless a cancellation comes first; the reported records are exactly those that failed, and calls are made only for well-formed records |
| Serverless.FailedIdsInOrder | src/ojs/serverless/aws_lambda.py:114-138 | each failed record's identifier stands at the place given by the failed records before it, and nothing else is reported |
| ProtoValue.ValueRoundTrip | src/ojs/transport/grpc/transport.py:491-524 | reading a converted JSON tree gives the tree back at every depth, booleans kept apart from numbers |
| ProtoValue.WritesValue | src/ojs/transport/grpc/transport.py:491-505 | what is written is a message with exactly one kind set, holding a value of that kind |
| ProtoValue.MessageRoundTrip | src/ojs/transport/grpc/transport.py:508-524 | writing what was read from any such message gives the message back |

## Left out

- EnqueueSchedules.EveryScheduleIsSequential: a chain that leaves its own await at the terminal, by a timeout or a cancellation, is not modelled; the source then skips that future, and abort or push depends on timing.
- EnqueueSchedules.EveryScheduleFinishes: middleware that never comes to rest is not bounded by the source either.
- Paging.CollectOffsetPage: ends because the cursors come from a finite set; the source has no such bound.
- Serverless.HandleSqs: parsing a body into a job is an oracle, and a record's calls are answered by a given list.
- RetryRoundTrip.PolicyKeptExactly: the codec is the identity or drops zeros; protobuf's own range checks, integer widths and spelling of durations are not modelled.
- ExecutionLease.Lease.SleepForRetry: cancellation of the sleep, which only cleans up and leaves, is not modelled.
- Completion.CompletionReporter.Deliver: how long the sleeps between calls last is not modelled.
- ProtoValue.ValueRoundTrip: values outside JSON, which become strings, are not modelled.
- Cancelling `enqueue_batch` from outside, and a push that raises CancelledError.
- Floating point: reals stand for floats, and Decimal arithmetic is exact (no 28-digit context). Digits are ASCII.
- Python's `bool` being an `int`, except in the retry projection, where it is modelled.
- Nested or concurrent durable operations, `complete()`, a durable context without a transport, and the text form of datetimes.
- A consumer that closes the event generator early, and the reconnect delays.
- Adding, inserting and removing middlewares; the execution middleware chain, which has the same recursion without a request.
- Heartbeat backoff and progress reports, logging, signals, the HTTP and gRPC clients, encryption, attestation, agents and machine-learning helpers: foreign code or one-branch facts.
