# saad-node-agent: verified model

saad-node-agent is a small service on a Linux node. It keeps one WebSocket to a dashboard, sends
heartbeats over it as snapshots and deltas, runs a fixed set of deployment commands through a control
helper, and streams container logs. This project models its logic in Dafny and proves what the design
relies on.

- **Commands.** `agent/client/realtime.py` runs each command in its own task. Tasks append ACK, RUNNING
  and a terminal frame to an outbox that outlives the sockets. The connection loop flushes the outbox,
  replays finished commands and reconnects. `CommandProtocol` is this as a state machine: every stretch
  between two suspension points of the event loop is one step, and a run is any interleaving. A send that
  returns has crossed the socket; a send that raises may or may not have. `CommandRuntime` is the mutable
  state itself, each method proved to be a run of that machine, and `Registry` the bounded idempotency
  registry. `CommandTheorems` holds what every run guarantees, `CommandAnswers` what the dashboard is told in
  which case.
- **Telemetry.** `Emitter` is the delta encoder over mutable heartbeat objects, `Replica` what a receiver
  rebuilds from its events, `Rebuild` how telemetry completes it, `TelemetryLink` the cycle of one socket
  after another, with sends that break in the middle of a batch.
- **Log streams and reconnects.** `LogStreams` follows the streams over one socket after another, with
  `LogFrames` and `LogDelivery` for what the dashboard sees of them and `LogRuntime` for the dictionary itself.
  `SharedSocket` puts telemetry batches, log streams and other frames on one socket. `Backoff` is the delay
  between connections.
- **Text.** `EnvFile` and `Shlex` are the three `KEY=value` parsers, with theorems in `EnvTheorems`,
  `EnvAgreement`, `EnvLines` and `EnvReadings`. `Redaction` is the two substitutions that hide secrets, with
  theorems in `RedactionTheorems`, `SecretValues` and `SecretNames`. `Alphabets` spells the character classes.
- **Docker.** `Docker` selects the containers of a Compose project, joins them with their stats and adds
  them up; `SizeTheorems`, `DockerTheorems` and `DockerFields` hold the results.

Each class or method is proved against a specification function. The lemmas about that function say what it
does without naming the functions it is built from: on runs, on what was enqueued, sent or read, and on
literal words and signs.

## What the proofs found

Where the code falls short of what a reader would expect, a lemma gives an input that shows it and another
one the exact condition.

- The terminal frame of a command cancelled at shutdown ("Agent stopped before the operation
  completed.") is enqueued when the loop has already left its last socket, so it never crosses one
  (`CommandTheorems.CancelledResultsStayBehind`, `CommandWitnesses.CancelledResultIsLost`).
- A command task cancelled before its first step never runs its `finally` block: it emits nothing and its
  id stays in flight for good (`CommandTheorems.RegistryMirrorsExecutions`,
  `CommandWitnesses.CancelledBeforeItStarts`). One whose cancellation handler is interrupted again, by a
  second cancellation or because killing the helper raises, is recorded as completed without a terminal
  frame, and there is no other such case (`CommandTheorems.UnreportedIffInterrupted`,
  `CommandWitnesses.KillRaises`, `CommandWitnesses.CancelledTwice`).
- `log_tasks`, `send_event` and `websocket` are looked up when they are used, and every connection rebinds
  them. A log stream that was told to stop and whose helper is slow to die can outlive its socket. It then
  sends its `logs.ended` on the next one, and its done callback removes whatever the new dictionary files
  under its id (`LogFrames.LeftoverReachesTheNextSocket`).
- That `logs.ended` can come before the snapshot (`SharedSocket.EndedBeforeSnapshot`). A snapshot is the first
  of all frames of a socket, in every continuation, if and only if no stream of an earlier socket can still
  send when it opens (`SharedSocket.SnapshotIsFirstIff`), so always with a dashboard that stops no stream
  (`SharedSocket.SnapshotIsFirstWithoutStops`).
- So a start keeps all streams tracked if and only if no task of that id, from this socket or an earlier
  one, is still to be cleaned up (`LogStreams.TrackingIffNoReuse`), and it keeps the frames of its request
  proper if and only if it is not stale (`LogFrames.OneEndIffNotStale`). Stopping and restarting a stream
  under one id is enough to fail (`LogFrames.RestartReuses`).
- Deltas carry no removals, so a receiver is exact after a delta if and only if nothing vanished
  (`EmitterTheorems.ExactIffNothingVanished`, `EmitterTheorems.VanishedContainerIsNotReported`). The
  telemetry frame lists what is alive, so it makes up for that (`Rebuild.TelemetryRebuildsHeartbeat`).
- If two instances of a heartbeat share an app id and differ, the emitter reports them as changed on
  every cycle (`EmitterTheorems.RepeatIsQuietIffDuplicatesAgree`, `EmitterTheorems.DuplicatesAreNeverQuiet`).
- The control helper looks for a quote before it strips, the other two parsers after: the line `A= 'x'`
  reads differently (`EnvAgreement.LinesAgreeIff`, `EnvLines.BlankBeforeQuote`). Its `[0]` on the token list
  never raises.
- A key is secret if it holds one of the words anywhere, but also if it merely ends with one of the names, because
  the pattern is searched for: `my-cookie=x` becomes `my-cookie=[redacted]` (`SecretNames.SecretIffNamed`).
- A log line of more than 16384 characters makes no frame: it is not sent, and the stream ends
  (`LogDelivery.LongLineEndsTheStream`).
- Of a sensitive value only the text up to its first blank is hidden, so `Authorization: Bearer abc` becomes
  `Authorization=[redacted] abc` (`SecretValues.WholeValueIsHiddenIff`, `SecretValues.BearerTokenStays`).
- The size pattern accepts `PB`, `EB` and `IB`, which have no entry in the unit table. One such size, or one
  malformed field, raises and costs a project all its containers (`DockerTheorems.ProjectRaisesIff`,
  `DockerTheorems.OnePetabyteLosesTheProject`).
- Rounding the memory total adds no error to rounding its summands, so the bound is 0.005 MiB per
  container (`DockerTheorems.AggregateMemoryBound`).
- The documentation string of `run_realtime` speaks of decorrelated jitter; the code multiplies a doubled
  delay by an independent factor, and the model follows the code.

## Model

| member | source | states |
|---|---|---|
| Registry.CommandExecutionRegistry.constructor | agent/client/realtime.py:77-80 | a new registry has claimed and completed nothing |
| Registry.CommandExecutionRegistry.Claim | agent/client/realtime.py:82-86 | succeeds exactly for ids neither in flight nor completed, and then only puts the id in flight |
| Registry.CommandExecutionRegistry.Replay | agent/client/realtime.py:88-89 | frames are found exactly for the ids of the completion window, never for one in flight, and are those it was completed with |
| Registry.CommandExecutionRegistry.Complete | agent/client/realtime.py:91-96 | the id leaves flight, becomes the newest completion, and only the newest `max` remain; in flight and completed stay disjoint |
| Registry.CommandExecutionRegistry.Evict | agent/client/realtime.py:95-96 | the eviction loop keeps exactly the last `max` entries with their frames |
| Registry.AfterWellFormed | agent/client/realtime.py:77-96 | after any calls the order lists the completed ids once each, at most `max` of them, none in flight |
| Registry.CompletedIsWindow | agent/client/realtime.py:91-96 | after any calls the completed entries are the last `max` distinct completions in order, each with the frames of its last completion |
| Registry.BoundedAtMostOnce | agent/client/realtime.py:82-96 | between two successful claims of one id at least `max` distinct other ids completed |
| CommandInvariants.EmitTraced | agent/client/realtime.py:123-126 | an emission keeps the enqueued history equal, execution by execution, to what each task emitted, without repeats and causally ordered |
| CommandInvariants.EmitOutbox | agent/client/realtime.py:123-126 | an append, also during a suspended send, keeps the outbox equal to what was enqueued and not yet popped, and keeps the crossed frames a stuttered prefix |
| CommandSteps.TaskRest | agent/client/realtime.py:116-161 | every step of a command task, on every exit path, keeps the protocol invariant over outbox, crossings, registry and claims |
| CommandSteps.TaskExecutions | agent/client/realtime.py:116-161 | every step leaves each execution with exactly the frames its suspension point calls for |
| CommandSteps.ReceiveInv | agent/client/realtime.py:257-266 | receiving a command, whether it is replayed, claimed or ignored, keeps the protocol invariant |
| CommandSteps.PopHead | agent/client/realtime.py:183-190 | removing the head after its send returned keeps the protocol invariant |
| CommandSteps.RunInv | agent/client/realtime.py:99-161 | every run, over all interleavings of tasks, flushes, replays, broken sends, reconnects and shutdown, satisfies the protocol invariant |
| CommandTheorems.CausalDelivery | agent/client/realtime.py:111-126 | a frame reaches a socket only after all earlier frames of its execution did: ACK, then RUNNING, then the result, replays included |
| CommandTheorems.OutboxConservation | agent/client/realtime.py:183-190 | enqueued is popped followed by queued; what crossed from the outbox is a prefix of the enqueued history with only adjacent repeats, at most one frame ahead of the pops |
| CommandTheorems.PopleftTakesTheSentFrame | agent/client/realtime.py:185-190 | whatever tasks append during the send, the head removed afterwards is the frame that was sent |
| CommandTheorems.RunExtends | agent/client/realtime.py:111-126 | histories only grow, and nothing crosses once the loop stopped |
| CommandTheorems.CancelledResultsStayBehind | agent/client/realtime.py:153-157 | the result of a cancelled command never crosses a socket |
| CommandTheorems.DrainDelivers | agent/client/realtime.py:183-190 | an unbroken flush of n queued frames empties the outbox and enqueues nothing |
| CommandTheorems.ReconnectDeliversEverything | agent/client/realtime.py:163-190 | after any history, connecting and one unbroken flush have delivered every enqueued frame, in order |
| CommandTheorems.ExecutionTrace | agent/client/realtime.py:116-161 | an execution enqueues a prefix of ACK, RUNNING, one terminal, spawns at most once, reports SUCCESS only after exit code 0, has the terminal exactly when it reported and nothing exactly when it never started |
| CommandTheorems.UnreportedIffInterrupted | agent/client/realtime.py:153-161 | a started execution ends without terminal frame exactly if the kill raised, or a second cancellation arrived, in its cancellation handler |
| CommandTheorems.ReplayIsFaithful | agent/client/realtime.py:257-262 | what is recorded for an id is exactly what its latest execution enqueued, and that execution is over |
| CommandTheorems.RegistryMirrorsExecutions | agent/client/realtime.py:77-96 | over every run the completed ids are the last `max` completions, disjoint from those in flight; every execution that is unfinished or never started is in flight and alone with its id |
| CommandTheorems.BoundedReexecution | agent/client/realtime.py:257-264 | two executions of one command id are separated by at least `max` completions of other ids |
| CommandAnswers.StartAnnounces | agent/client/realtime.py:128-130 | over every run, a started command task enqueues exactly ACK and RUNNING |
| CommandAnswers.SpawnFails | agent/client/realtime.py:158-161 | if the helper cannot be spawned, exactly one frame follows, FAILED for the unavailable helper, and the registry records the execution |
| CommandAnswers.ExitReports | agent/client/realtime.py:148-152 | after exit code 0 exactly one frame follows, SUCCESS; after any other one FAILED with that code; the registry records the execution |
| CommandAnswers.TimeoutReports | agent/client/realtime.py:142-146 | a timeout enqueues nothing until the killed helper is gone, and then FAILED for the timeout; if the kill raises, FAILED for the unavailable helper |
| CommandAnswers.CancelReports | agent/client/realtime.py:153-157 | a running task that is cancelled at the stop enqueues FAILED for the stopped agent, at once or when the killed helper is gone |
| CommandAnswers.OutcomeIffCause | agent/client/realtime.py:116-161 | the third frame of an execution reports an outcome if and only if the event that means it took place |
| CommandAnswers.SuccessIffExitZero | agent/client/realtime.py:149-150 | it reports SUCCESS if and only if the helper was waited for and exited with 0 |
| CommandAnswers.NewCommandStarts | agent/client/realtime.py:263-265 | a command neither in flight nor remembered adds exactly one task with its id, which has sent nothing yet, and puts the id in flight |
| CommandAnswers.CommandInFlightIsIgnored | agent/client/realtime.py:82-86 | a command in flight gets no second task and nothing is sent |
| CommandAnswers.ReplayAnswers | agent/client/realtime.py:257-262 | a remembered command is not run again: after unbroken sends exactly the frames of its latest execution have crossed again, in order, and nothing else changed |
| CommandAnswers.BrokenConnectionKeepsAll | agent/client/realtime.py:109-114 | a broken connection changes nothing but the phase: outbox, tasks and registry stay, and the frame being sent is still the head of the outbox |
| CommandAnswers.CommandIsAnswered | agent/client/realtime.py:116-190 | a new command that runs undisturbed brings, behind what was queued, ACK, RUNNING and the outcome its exit code means; repeated, it brings the same three frames again |
| CommandAnswers.InFlightIffHeld | agent/client/realtime.py:82-96 | over every run the ids in flight are exactly those of the executions that are not over or never started |
| CommandWitnesses.KillRaises | agent/client/realtime.py:153-157 | a run in which killing the helper raises ends without a terminal frame |
| CommandWitnesses.CancelledTwice | agent/client/realtime.py:153-157 | so does one with a second cancellation |
| CommandWitnesses.CancelledResultIsLost | agent/client/realtime.py:307-309 | a run whose cancelled command reports, with nothing delivered in any continuation |
| CommandWitnesses.CancelledBeforeItStarts | agent/client/realtime.py:264-266 | a command cancelled before its first step emits nothing and stays in flight |
| CommandRuntime.CommandRuntime.constructor | agent/client/realtime.py:107-114 | the process starts in the initial state of the protocol |
| CommandRuntime.CommandRuntime.Emit | agent/client/realtime.py:123-126 | appends the frame to the command's own list and to the outbox in one step |
| CommandRuntime.CommandRuntime.Finish | agent/client/realtime.py:160-161 | the finally block completes the id with the frames emitted so far |
| CommandRuntime.CommandRuntime.ResumeTask | agent/client/realtime.py:116-161 | a command task run from one suspension point to the next is one step of the protocol |
| CommandRuntime.CommandRuntime.CancelTask | agent/client/realtime.py:153-161 | each branch of the cancellation handler, from each suspension point, is the protocol's cancel step |
| CommandRuntime.CommandRuntime.ReceiveExecute | agent/client/realtime.py:257-266 | a completed id replays its recorded frames from the first one, an id in flight changes no task, any other one adds exactly one task |
| CommandRuntime.CommandRuntime.Send | agent/client/realtime.py:180-181 | a suspended send with arbitrary task steps before and behind the crossing is a run of the protocol |
| CommandRuntime.CommandRuntime.PopHead | agent/client/realtime.py:190 | the popped frame is the one that was sent |
| CommandRuntime.CommandRuntime.SendHead | agent/client/realtime.py:184-190 | one pass of the flush: the head crosses if delivered, and is popped exactly if the send returned; otherwise it stays queued, and only the back of the outbox grows |
| CommandRuntime.CommandRuntime.FlushCommandOutbox | agent/client/realtime.py:183-190 | the flush goes on until the outbox is empty or a send raises: it drains if none of its sends raises and there are as many as frames; then every enqueued frame has crossed in order; if send i raises, the i frames before it were popped and the outbox still starts with the next one |
| CommandRuntime.CommandRuntime.SendReplay | agent/client/realtime.py:259-262 | a replay sends the recorded lifecycle from its first frame, all of it unless a send raises, and stops early only then |
| Emitter.AgentEventEmitter.Snapshot | agent/events.py:27-38 | the memory becomes the signatures of this heartbeat even when the payload is rejected; otherwise the full snapshot is returned |
| Emitter.AgentEventEmitter.Remember | agent/events.py:91-92 | the memory holds, for each app id, the signature of its last instance |
| Emitter.AgentEventEmitter.EntriesOf | agent/events.py:92 | the comprehension keeps the signature of the last instance of each app id |
| Emitter.AgentEventEmitter.ContainersByName | agent/events.py:96 | each container name maps to its last container |
| Emitter.AgentEventEmitter.SignatureOfInstance | agent/events.py:94-124 | the signature holds metadata, deployment and container signatures and leaves out resource use |
| Emitter.AgentEventEmitter.ChangesAndTelemetry | agent/events.py:40-89 | a telemetry frame and then the changes against the memory, which becomes current; a rejected payload changes nothing |
| Emitter.AgentEventEmitter.CompareInstances | agent/events.py:65-88 | the loop yields the changes of every instance in order, each against the memory left by those before it |
| Emitter.AgentEventEmitter.CompareInstance | agent/events.py:65-88 | one instance is compared with what is remembered of its id, which then becomes its signature |
| Emitter.AgentEventEmitter.CompareContainers | agent/events.py:78-87 | one event for each container name whose signature differs from the remembered one |
| Replica.BatchConverges | agent/events.py:65-88 | a receiver that agrees with the memory agrees again after the batch, and stays exact if no container of a current app vanished, or only with metadata that replaces the instance |
| Replica.DeltaConvergence | agent/events.py:27-28 | after any calls starting with a snapshot, and whatever was held before, the folded replica has the emitter's apps, metadata, deployments and container signatures |
| Replica.DeltaEqualsSnapshot | agent/events.py:65-88 | for either kind of receiver, if nothing vanished since the latest snapshot that it would have to drop, the deltas rebuild exactly the structural view of the latest heartbeat |
| Replica.SkippedHeartbeatsDoNotMatter | agent/events.py:65-88 | two such histories that end in the same instances leave the same replica |
| Rebuild.InstanceIsRebuilt | agent/events.py:48-60 | an instance is recovered with every field from its telemetry entry and a replica entry that covers its signature |
| Rebuild.TelemetryRebuildsHeartbeat | agent/events.py:40-88 | after any run that starts with a snapshot, with removals on the way, the replica and the latest telemetry frame give back all instances of the latest heartbeat in order, provided entries sharing an app id or a container name agree |
| Rebuild.FramesCarryTheHeartbeat | agent/events.py:27-62 | a snapshot gives back the whole heartbeat, a telemetry frame its host and the resource use of every instance and container |
| EmitterTheorems.WireIdLetters | agent/models.py:149 | identifiers on the wire are 1 to 120 small letters, digits, underscores and dashes, with a letter or digit first |
| EmitterTheorems.TelemetryFitsIff | agent/models.py:142-156 | a telemetry frame is built if and only if instances, containers and names are within their limits |
| EmitterTheorems.BatchIsMinimal | agent/events.py:65-88 | with distinct app ids a change event is in the batch if and only if what it reports differs from the memory |
| EmitterTheorems.BatchRepeatsNothing | agent/events.py:65-88 | with distinct app ids no event is in a batch twice |
| EmitterTheorems.ResourceNoiseIsOnlyTelemetry | agent/events.py:106-108 | heartbeats that differ only in resource use or host metrics yield only telemetry |
| EmitterTheorems.RepeatIsQuietIffDuplicatesAgree | agent/events.py:65-92 | repeating a heartbeat is quiet if and only if instances with the same app id have the same signature |
| EmitterTheorems.ExactIffNothingVanished | agent/events.py:65-88 | a receiver that shows exactly the memory shows exactly the heartbeat after the batch if and only if no app vanished and no container did, except with changed metadata for a receiver that replaces the instance |
| EmitterTheorems.DuplicatesAreNeverQuiet | agent/events.py:65-88 | two differing instances under one id are both reported again when the heartbeat repeats |
| EmitterTheorems.VanishedContainerIsNotReported | agent/events.py:78-87 | a container that vanishes yields no event and stays with the receiver |
| EmitterTheorems.MemoryIsItsOwn | agent/events.py:91-124 | a frame fact: what the emitter remembers reads no heartbeat object, whatever happens to those |
| EmitterTheorems.MutateAfterSnapshot | tests/test_events.py:24-36 | changing containers, deployment, resources, metadata and lists in place does not reach the emitter's memory |
| EmitterTheorems.ReportsInPlaceMutation | tests/test_events.py:36-42 | such changes are compared with the values remembered before them and reported |
| TelemetryLink.FirstFrameIsSnapshot | agent/client/realtime.py:176-178 | on every socket the first telemetry frame that gets through is a full snapshot, and a completed cycle has sent one |
| TelemetryLink.SocketAgrees | agent/client/realtime.py:220-231 | after every completed cycle the replica built on that socket agrees with the emitter |
| TelemetryLink.ConnectionRecovery | agent/client/realtime.py:163-178 | a replica kept across sockets, however their batches broke, agrees after the first completed cycle of the next one and at each later cycle |
| TelemetryLink.FirstFrameRestores | agent/client/realtime.py:220-231 | the first frame alone makes the replica exactly the collected heartbeat, even if the socket breaks behind it |
| TelemetryLink.DeltasAreRecent | agent/client/realtime.py:223-228 | a delta is sent only within the snapshot interval of a snapshot on the same socket, with no snapshot request since |
| TelemetryLink.SnapshotIffDue | agent/client/realtime.py:223-226 | a snapshot is sent if and only if none was yet, a request arrived since the latest one, or the interval is over |
| TelemetryLink.CycleSends | agent/client/realtime.py:220-231 | a cycle completes if and only if nothing raised and the payload was within its limits; then exactly the whole heartbeat, or its telemetry and the changes, was sent |
| TelemetryLink.TelemetryConnection.constructor | agent/client/realtime.py:176-178 | a connection starts with a fresh emitter and a snapshot due |
| TelemetryLink.TelemetryConnection.TakeEvents | agent/client/realtime.py:223-228 | a snapshot when one was requested or is due, otherwise the changes; a rejected payload ends the pass |
| TelemetryLink.TelemetryConnection.RunCycle | agent/client/realtime.py:220-242 | one pass of the loop is one cycle of the model, also when collecting raises, a send breaks or a payload is rejected |
| TelemetryLink.TelemetryConnection.SendBatch | agent/client/realtime.py:229-230 | without a break all frames crossed; otherwise those before the broken send, that one if it was delivered, and none behind it |
| LogStreams.RunningStreamsAreTracked | agent/client/realtime.py:244-256 | over any number of sockets, without reuse of an id not yet cleaned up, every running stream not told to stop is tracked under its id, belongs to the open socket, and there are at most three |
| LogStreams.TrackingIffNoReuse | agent/client/realtime.py:248-256 | a start keeps all streams tracked in every continuation without starts, over later sockets too, if and only if no task of that id is still to be cleaned up |
| LogStreams.LeavingStopsEverything | agent/client/realtime.py:289-293 | leaving the connection tells every running stream to stop |
| LogFrames.ChunksStayOnTheirSocket | agent/client/realtime.py:201-204 | without such reuse log lines reach only the socket they were requested on |
| LogFrames.OneEndPerRequest | agent/client/realtime.py:213-218 | in runs without stale starts a request id gets chunks, then at most one logs.ended, and nothing behind it, on each socket or over all of them |
| LogFrames.OneEndIffNotStale | agent/client/realtime.py:244-251 | a start keeps that in every continuation without starts if and only if its id has no logs.ended yet and no other task can still send for it |
| LogFrames.FreshIdsAreNeverStale | agent/client/realtime.py:244-251 | with fresh request ids no start is stale, so each request gets at most one logs.ended over the whole run |
| LogFrames.RestartReuses | agent/client/realtime.py:251-256 | stopping a stream and starting one under its id reuses an id that is not cleaned up |
| LogFrames.LeftoverReachesTheNextSocket | agent/client/realtime.py:213-218 | a stream told to stop on one socket can send its logs.ended first thing on the next, where a start under its id is a reuse and stale |
| LogDelivery.BreaksAreDropped | agent/client/realtime.py:202 | of a line exactly the carriage returns and line feeds at its end are dropped |
| LogDelivery.ChunksAreTheLines | agent/client/realtime.py:201-204 | over every run the chunks of a request are, in order, exactly the non-empty lines of fitting length that its running streams read while a socket was open and the send got through |
| LogDelivery.LineIsSent | agent/client/realtime.py:203-204 | a line of a running stream reaches the open socket as exactly one chunk of its request |
| LogDelivery.StreamIsDelivered | agent/client/realtime.py:192-218 | with fewer than three streams tracked, a request brings all its lines in order and then its logs.ended |
| LogDelivery.LongLineEndsTheStream | agent/models.py:212-214 | a line of more than 16384 characters is not sent and ends the stream |
| LogDelivery.FourthStreamIsRefused | agent/client/realtime.py:246-247 | with three streams tracked, a new request gets its logs.ended and nothing else |
| LogDelivery.StopEndsTheStream | agent/client/realtime.py:252-256 | a stream told to stop sends no line any more, only its logs.ended |
| SharedSocket.LogsAreARun | agent/client/realtime.py:192-256 | with telemetry and other frames between them, the log streams of a run are a run of their own, so all that is stated of those holds |
| SharedSocket.TelemetryIsARun | agent/client/realtime.py:176-242 | the telemetry of an open socket is one of the cycles of `TelemetryLink`, so all that is stated of those holds |
| SharedSocket.WiresCarryTheLogs | agent/client/realtime.py:180-181 | every socket carries exactly the frames the log streams sent while it was open, in order |
| SharedSocket.SharedSocketAgrees | agent/client/realtime.py:220-231 | whatever log and other frames share the socket, the events on it rebuild what the emitter remembers each time a batch is through |
| SharedSocket.SnapshotIsFirstIff | agent/client/realtime.py:163-231 | when a socket opens, a snapshot is its first frame in every continuation if and only if no log stream of an earlier socket can still send |
| SharedSocket.SnapshotIsFirstWithoutStops | agent/client/realtime.py:252-256 | with a dashboard that stops no log stream, a snapshot is the first frame of every socket |
| SharedSocket.EndedBeforeSnapshot | agent/client/realtime.py:213-218 | a run over two sockets in which the `logs.ended` of a stopped stream comes before the snapshot of the second |
| LogRuntime.LogTasks.constructor | agent/client/realtime.py:164 | no streams, nothing tracked, no socket |
| LogRuntime.LogTasks.Connect | agent/client/realtime.py:164-172 | the next socket gets an empty dictionary while the streams live on |
| LogRuntime.LogTasks.LogsStart | agent/client/realtime.py:244-251 | refused exactly for a new id when three are tracked; a tracked id is ignored; otherwise a stream starts and is tracked |
| LogRuntime.LogTasks.LogsStop | agent/client/realtime.py:252-256 | the tracked stream is dropped and told to stop; an unknown id changes nothing |
| LogRuntime.LogTasks.LeaveConnection | agent/client/realtime.py:288-293 | every tracked stream is cancelled and waited for |
| LogRuntime.LogTasks.ResumeTask | agent/client/realtime.py:192-218 | a stream task run to its next suspension point, or its done callback, is one step of the model: a line that fits is sent, a closing stream sends its logs.ended, and the callback acts on the current dictionary |
| Backoff.ReconnectSleeps | agent/client/realtime.py:296-305 | every sleep is the jitter times the smaller of the maximum and the initial delay doubled once per sleep since the last connection |
| Backoff.FailuresDouble | agent/client/realtime.py:298-305 | after k failures in a row the base is min(max, initial * 2^k); a connection resets it |
| Backoff.SleepBounds | agent/client/realtime.py:298-299 | every sleep lies between 0.8 times its base and 1.2 times the maximum, also when the initial delay exceeds the maximum |
| Backoff.NextBase | agent/client/realtime.py:298-305 | from one attempt to the next the base doubles up to the maximum; a connection starts it over |
| EnvLines.LineIsRead | agent/collectors/saad_deploy.py:47-57 | every line made of blanks, an optional export, a key of letters, digits and underscores, blanks, an equals sign and a value is read as that key and raw value |
| EnvLines.LineIsOfThisShape | agent/collectors/saad_deploy.py:47-56 | only such lines are read, all others are skipped |
| EnvFile.ParseEnvFile | agent/collectors/saad_deploy.py:38-70 | the agent's loop stores the reading of each line, the last one of a key winning |
| EnvFile.ParseDeclaration | scripts/deploy_metadata.py:35-59 | the metadata helper's loop computes the same map as the agent's |
| EnvFile.ControlValue | scripts/control_helper.py:42-47 | the control helper's value expression; taking the first token cannot fail |
| EnvFile.EnvValues | scripts/control_helper.py:28-50 | the control helper's loop stores its own reading of each line |
| Shlex.FirstToken | agent/collectors/saad_deploy.py:60-64 | from any state inside a quotation, splitting fails or yields a first token no longer than what was read |
| Shlex.QuotedHasFirstToken | scripts/control_helper.py:44 | a value that starts with a quote and splits has a first token, shorter than the value |
| Shlex.LexFailsIff | agent/collectors/saad_deploy.py:59-63 | splitting fails exactly when the text ends inside a quotation or behind an escape |
| EnvTheorems.SkippedIff | agent/collectors/saad_deploy.py:57-63 | a value is not read exactly when it starts with a quote and ends inside a quotation or behind an escape |
| EnvTheorems.UnclosedIsSkipped | agent/collectors/saad_deploy.py:58-63 | a quotation that is never closed is read by no parser |
| EnvTheorems.ReadQuote | agent/collectors/saad_deploy.py:58-64 | a single-quoted value with inner quotes spliced is read as the value itself |
| EnvTheorems.ReadStripped | agent/collectors/saad_deploy.py:57-68 | a value written as it is, its trailing blanks dropped with the line's, is read as itself if and only if it has no edge blanks, no quote at its start and no blank before a hash |
| EnvTheorems.QuotedLine | agent/collectors/saad_deploy.py:57-64 | a single-quoted line with inner quotes spliced is read back by every parser |
| EnvTheorems.EnvRoundTrip | agent/collectors/saad_deploy.py:45-70 | any map of valid keys to values without line breaks, printed so in any order, parses to the same map in all three parsers |
| EnvTheorems.PlainValueSurvives | agent/collectors/saad_deploy.py:57-69 | an unquoted value survives if and only if it has no edge blanks, no blank before a hash, and no quote at its start |
| EnvReadings.KeyLetters | agent/collectors/saad_deploy.py:54 | keys are non-empty words of ASCII letters, digits and underscores |
| EnvReadings.QuotationsReadBack | agent/collectors/saad_deploy.py:58-64 | a double-quoted value with escaped quotes and backslashes, and a shell-quoted one, read as what was quoted, in all parsers |
| EnvReadings.OtherBackslashesStay | agent/collectors/saad_deploy.py:60 | inside double quotes a backslash in front of any other character stays |
| EnvReadings.OnlyTheFirstTokenCounts | agent/collectors/saad_deploy.py:60-64 | a word behind a quotation is dropped, but skips the line if it cannot be split |
| EnvReadings.CommentBehindQuotation | agent/collectors/saad_deploy.py:60 | a comment behind a quotation changes nothing, whatever it holds |
| EnvReadings.GluedTextBelongs | agent/collectors/saad_deploy.py:60-64 | text glued to a quotation belongs to the value |
| EnvReadings.CommentEndsTheValue | agent/collectors/saad_deploy.py:65-68 | a blank and a hash end an unquoted value, in all parsers |
| EnvReadings.LastLineWins | agent/collectors/saad_deploy.py:69 | a key has the value of the last line that assigns it |
| EnvReadings.UnassignedIsNotRead | agent/collectors/saad_deploy.py:45-70 | keys that no line assigns are not read |
| EnvReadings.LineEnds | agent/collectors/saad_deploy.py:46 | lines end with a line feed, a carriage return, or both |
| EnvAgreement.TokenIsNotTheText | scripts/control_helper.py:44-46 | for a value that starts with a quote the first token never equals the text up to the comment |
| EnvAgreement.ReadingsAgreeIff | scripts/control_helper.py:43-47 | the control helper reads a value like the other two if and only if it has no blank in front of a quote and no space directly in front of a hash |
| EnvAgreement.LinesAgreeIff | scripts/control_helper.py:32-49 | the same for whole lines |
| EnvAgreement.ParsersAgree | scripts/control_helper.py:31-50 | all parsers return equal maps on every file without such a line |
| EnvLines.BlankBeforeQuote | scripts/control_helper.py:43-47 | one blank in front of a quote makes the control helper keep the quotes |
| Redaction.KeyValueIsSound | agent/collectors/saad_deploy.py:19-21 | the key/value matcher finds only what the pattern describes |
| Redaction.KeyValueIsComplete | agent/collectors/saad_deploy.py:19-21 | it finds all that the pattern describes, with that key and the longest value |
| Redaction.CredentialsIsThePattern | agent/collectors/saad_deploy.py:22 | the user and password matcher finds exactly the texts of the pattern |
| Redaction.UrlIsThePattern | agent/collectors/saad_deploy.py:22 | the URL matcher finds exactly the texts of the pattern |
| RedactionTheorems.ValuesAreHidden | agent/collectors/saad_deploy.py:217 | after the key/value pass every match left is a redacted one |
| RedactionTheorems.CredentialsAreGone | agent/collectors/saad_deploy.py:218 | after the URL pass no credentials match anywhere |
| RedactionTheorems.MaskingKeepsValuesHidden | agent/collectors/saad_deploy.py:217-218 | the URL pass uncovers and creates no key/value match |
| RedactionTheorems.HidingAgain | agent/collectors/saad_deploy.py:217 | a text whose values are all hidden is left as it is |
| RedactionTheorems.MaskingAgain | agent/collectors/saad_deploy.py:218 | a text without credentials is left as it is |
| RedactionTheorems.NothingRecognisableIsLeft | agent/collectors/saad_deploy.py:214-218 | the sanitized text holds no URL credentials, and behind every sensitive key stands the marker |
| RedactionTheorems.SanitizeIsIdempotent | scripts/deploy_metadata.py:75-77 | sanitizing in the helper and again in the agent is sanitizing once |
| SecretNames.KeyCharacters | agent/collectors/saad_deploy.py:20 | keys are made of ASCII letters, digits, underscores and dashes |
| SecretNames.SecretIffNamed | agent/collectors/saad_deploy.py:19-21 | behind a key the value is replaced up to its first blank if the key holds one of the words or ends with one of the names, and otherwise the assignment is not touched |
| SecretNames.SecretWordsHide | agent/collectors/saad_deploy.py:20 | token, secret, password, apikey, api_key and api-key, in any case and anywhere in a key, leave only the marker of a value without blanks |
| SecretNames.SecretNamesHide | agent/collectors/saad_deploy.py:20 | so do authorization, cookie and database_url at the end of a key |
| SecretNames.OtherKeysKeepTheirValue | agent/collectors/saad_deploy.py:19-21 | an assignment to any other key stays as it is |
| SecretNames.PasswordIsMasked | agent/collectors/saad_deploy.py:22 | user and password of a URL are replaced, its scheme and what follows stay |
| SecretNames.PlainErrorIsKept | agent/collectors/saad_deploy.py:214-218 | a text with neither sign stays as it is, an empty one is none |
| SecretValues.OnlyTheFirstWordIsHidden | agent/collectors/saad_deploy.py:19-21 | behind a sensitive key the value is removed up to its first blank, and the rest is scanned anew |
| SecretValues.WholeValueIsHiddenIff | agent/collectors/saad_deploy.py:217 | nothing but the marker is left of a value if and only if it holds no blank |
| SecretValues.BearerTokenStays | agent/collectors/saad_deploy.py:214-218 | of an authorization header of two words the second stays readable |
| Docker.FindStat | agent/collectors/docker.py:50-55 | the first stat whose id is a prefix of the container's or extends it, or the empty one |
| Docker.ContainersForProject | agent/collectors/docker.py:76-112 | the loop, its early exits and all it raises compute the selection, join and sort of the records |
| SizeTheorems.SizeIsComplete | agent/collectors/docker.py:16 | every text of the size pattern is read as its number, fraction and unit |
| SizeTheorems.SizeIsSound | agent/collectors/docker.py:16 | only texts of the size pattern are read |
| SizeTheorems.UnitsAreScaled | agent/collectors/docker.py:17-29 | the table holds the powers of 1024 for the six binary units and of 1000 for KB to TB, and nothing for PB and EB |
| SizeTheorems.MemoryMbRaisesIff | agent/collectors/docker.py:39-47 | reading a size raises KeyError if and only if its unit is PB, EB or IB |
| SizeTheorems.HostLimitRaisesIff | agent/collectors/docker.py:93-97 | whatever the configured limit prints as, reading it raises if and only if that is a size without its B in P, E or I |
| SizeTheorems.HostLimitIs | agent/collectors/docker.py:93-97 | an integer limit gives its MiB, or none when negative or rounded to zero |
| SizeTheorems.RoundIsNearest | agent/collectors/docker.py:47 | rounding gives a number of hundredths that no other one beats, off by at most 0.005 |
| DockerFields.AmountIs | agent/collectors/docker.py:45 | the number of a size is the one its digits make, with the point as far from the right as the fraction is long |
| DockerFields.PrintedSizes | agent/collectors/docker.py:39-47 | 12.5MiB, 1.25GiB, 512KiB and 2mb read as 12.5, 1280, 0.5 and 1.91 MiB |
| DockerFields.HalvesGoEven | agent/collectors/docker.py:47 | a tie is rounded to the even neighbour |
| DockerFields.NameOrderIsLexicographic | agent/collectors/docker.py:112 | names are ordered by their first different character, a prefix first |
| DockerFields.RelatedIff | agent/collectors/docker.py:52-53 | a stat is related if it has an id and the shorter of both ids runs along the longer one |
| DockerFields.ShortIdJoins | agent/collectors/docker.py:50-55 | a stat under a short form of the id is joined unless an earlier one is related |
| DockerFields.ShownFields | agent/collectors/docker.py:98-111 | CPU, health, restart count, service and status are those of the stat and the record, with "unknown" for no status |
| DockerFields.ShownName | agent/collectors/docker.py:102 | the name is the record's, the stat's or the id, without leading slashes |
| DockerFields.ShownMemory | agent/collectors/docker.py:58-63 | used memory stands in front of the slash, the limit behind it, and a limit that is no size or zero makes way for the configured one |
| DockerFields.ShownMemoryAlone | agent/collectors/docker.py:58-63 | without a slash all of the text is used memory and the limit is the configured one |
| DockerFields.SelectedInOrder | agent/collectors/docker.py:84-89 | records are selected in their order |
| DockerFields.AggregateCpuBound | agent/collectors/docker.py:115-119 | the reported CPU use is within 0.005 of what the joined stats add up to |
| DockerTheorems.FirstRelatedIsFirst | agent/collectors/docker.py:50-55 | the search finds a related stat with no related one before it, and the empty stat only if none is related |
| DockerTheorems.SelectedCounts | agent/collectors/docker.py:85-89 | a project's selection holds each record as often as the snapshot if it carries the label, and otherwise not at all |
| DockerTheorems.ProjectsPartitionRecords | agent/collectors/docker.py:85-89 | distinct projects share no record and together hold every record labelled with one of them exactly once |
| DockerTheorems.SortIsStable | agent/collectors/docker.py:112 | the result is name-sorted, a permutation, and keeps equal names in order |
| DockerTheorems.StableSortIsUnique | agent/collectors/docker.py:112 | there is only one such arrangement |
| DockerTheorems.JoinIgnoresOrderIff | agent/collectors/docker.py:50-55 | the joined stat is the same for every order of the stats if and only if all related stats are equal |
| DockerTheorems.ProjectIgnoresStatOrder | agent/collectors/docker.py:76-112 | a project whose containers all join uniquely does not depend on the order of the stats |
| DockerTheorems.ProjectRaisesIff | agent/collectors/docker.py:85-111 | the selection raises if and only if a record of the project is malformed or joins a size in PB, EB or IB, from its stat or, when that shows no limit, from its configuration |
| DockerTheorems.OnePetabyteLosesTheProject | agent/collectors/docker.py:39-47 | one container using 1PB takes all containers of its project with it |
| DockerTheorems.ProjectShowsItsRecords | agent/collectors/docker.py:84-112 | otherwise it shows each record of the project once, built from the stat it joins, in stable name order |
| DockerTheorems.AggregateMemoryBound | agent/collectors/docker.py:115-119 | the reported memory is within 0.005 MiB per container of the exact sum of the parsed sizes |

## Left out

- The WebSocket, TLS and HTTP clients, subprocess spawning, signals and logging: only their outcomes (returned, raised, delivered or not, exit code, timeout, kill raised) are in the model, as free choices.
- `agent/client/dashboard.py`, `agent/main.py` and the HTTP fallback: a bounded retry and glue. That `collect_payload` contains a KeyError from one project is therefore not shown.
- `agent/collectors/host.py`, `agent/config.py`, the shell installer, the snapshot script and the systemd unit; of the configuration only the ranges of the reconnect delays are used.
- The instance's host metrics and text fields are values; containers, deployments, resources, instances and heartbeats are objects.
- Process crash and restart: registry and outbox live in memory, so every guarantee is for one process lifetime.
- The dictionary `command_tasks` and its done callbacks: which tasks are cancelled at shutdown is a free choice of the run, so the results hold for any such set. A second cancellation is a real path, because stopping the whole service cancels the realtime task while it awaits them.
- The command payload, its type and app id, timestamps and message texts: a frame keeps its execution, command id, kind and outcome. The execution number stands for the fresh message id.
- In `SharedSocket` the frames of commands, replays and error answers are only other frames that are sent behind a batch; what they are is the subject of `CommandProtocol`.
- Receiving other dashboard events, and rejecting malformed ones, which sends at most an error frame.
- The dashboard's treatment of `instance.changed` is not part of the repository: the convergence results hold for a receiver that updates metadata only and for one that replaces the whole instance.
- Wall-clock time: collection times and delays are reals given from outside.
- Unicode case folding and the alphanumeric test beyond ASCII: `isalnum`, `upper` and the ignore-case patterns are modelled on ASCII text. Blanks and line breaks are Python's.
- Reading files, the 8 KiB limit on error texts, decoding JSON and globbing: texts and records are given.
- Log streams: the reason in a `logs.ended`, and the raw bytes of a line with their decoding; a stream that ends for another reason, an overlong raw line included, is a close step. A refused start whose answer cannot be sent breaks the connection; the model lets the loop go on, which only adds runs.
- Floating point: amounts, percentages and rounding are over the reals. The CPU percentage is given as a number, its text is not parsed.
- Docker.ContainersForProject: a missing text field is the empty string, names, states and health are texts, and a project label that is no text is a missing one. The shape of the snapshot itself is checked before it gets here.
- DockerTheorems.ProjectRaisesIff: that a service label is no text, or a restart count no integer, is given with the record, so this part holds by construction; the conversion itself is not modelled.
- The commands of `scripts/control_helper.py` and its validation of ids: fixed branch selection.
