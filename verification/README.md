# Verification of mcoda's relay node and tooling

Dafny models of the stateful and algorithmic core of the repository, with proofs of what
that code is for. `dafny verify dfyconfig.toml` checks everything.

| file | models |
|---|---|
| `RelayDaemon.dfy`, `RelayDaemonRuns.dfy`, `RelayDaemonPolicy.dfy`, `RelayDaemonClass.dfy` | the relay daemon: as a step machine, its safety over whole runs, when and for which lane it polls, and as the object with mutable fields that refines the steps |
| `RelayJob.dfy` | one relay job from claim to posted result |
| `ExecutionTelemetry.dfy`, `GenericJobs.dfy`, `ExecutionInterleaving.dfy` | the counters of active executions and the advertised load, the owner-local generic jobs that report to them, and relay and generic jobs running side by side |
| `PngChunks.dfy`, `PngValidator.dfy`, `PngScanlines.dfy`, `PngImage.dfy`, `PngReference.dfy` | the PNG validator: bytes of a chunk, chunk order, passes and scanlines, the whole; and what the standard says about modes, palettes, passes and row lengths |
| `InferenceSlot.dfy` | handler and inference slots of the image server across its threads |
| `InstallOrder.dfy`, `InstallOrderMethod.dfy` | the install order of workspace packages |
| `PlanRecords.dfy`, `PlanRunner.dfy`, `PlanMain.dfy` | the resumable task queue of the automation script |
| `TarWalker.dfy` | the search for the manifest in a packed archive |
| `Base64.dfy` | base64, base64url and the length bounds computed from them |
| `AgentCatalog.dfy`, `AgentSync.dfy`, `ServerGrouping.dfy` | agent slugs, the synchronised agent registry, the grouping of agents by server |

## How to read it

Protocols are step machines. A step of the daemon is one callback of the JavaScript event
loop: a settled promise runs its `then` or `catch`, and only later its `finally`, with other
callbacks in between; a timer fires only when no `finally` is outstanding, because promise
callbacks run first. A step of the image server is one action of one thread. Theorems about
runs quantify over every interleaving of enabled steps. The classes beside the step machines
hold the source's mutable fields, and each method is proved to take exactly one step.

The outside world is a parameter. The gateway answers by request number, the agents, usage
limits and git of the task queue by question number, so a theorem for all worlds covers every
pattern of failures, and a crash is a world that answers no more.

Stated assumptions, beyond the preconditions:

- Chunks of a stream are emitted one at a time, because each emission is awaited.
- A rejected request to the gateway delivered nothing.
- The checksum, inflation, text decoding, slug normalisation, the merging of catalog entries
  and the server an agent resolves to are given functions.
- `localeCompare` is a strict total order on names; the orders of agents and of servers are
  total preorders.
- Package names and task ids are distinct.

## Where the code falls short of what it promises

- The image server hands its one inference slot to a worker thread. If the operating system
  refuses that thread, nothing gives the slot back, and the server answers "busy" from then
  on. `InferenceSlot.SlotFreeIffUnowned` gives the exact condition, `AfterFailureAlwaysBusy` the
  consequence, `SlotCanLeak` a run.
- The install order skips a package whose name is empty and then reports that no order
  exists. `InstallOrderMethod.OrderWorkspacePackages` gives the exact condition,
  `InstallOrderMethod.RefuseUnnamedPackage` an input.
- A generic job counts as ended only after its failure report was accepted by the event
  observer. With an observer that rejects it, the job stays counted as active for good.
  `GenericJobs.PromiseRejects` is the condition on plan and observer, `RefusedEscapes` and
  `CompletedEscapes` give inputs, and `ExecutionInterleaving.GenericExactIff` says that the counter
  is right over all interleavings exactly when no job meets it. Chat and agentic work is not
  affected: `ExecutionInterleaving.BalancedInterleaving`.
- The archive walk trims the names it reads, so an entry whose name is a manifest's but for
  white space around it is taken for the manifest: `TarWalker.TakesManifestIff` gives the exact
  condition, `TarWalker.BlankHidesManifest` an archive.
- The response limit is capped at the largest safe integer, so for the largest output limits
  a payload within the limit does not fit: `Base64.LimitFitsIff`, `Base64.LargestLimitFails`.

## Model

| member | source | states |
|---|---|---|
| RelayDaemonModel.RetryDelayMonotone | packages/mswarm/src/runtime.ts:917-923 | a longer failure streak never waits less |
| RelayDaemonRuns.StepKeepsInv | packages/mswarm/src/runtime.ts:8563-8757 | every callback keeps the whole invariant: counters and alias table describe the executions in flight, both lanes are within their limits even after a claim that a pending poll may still bring, a wake-up is pending and never two |
| RelayDaemonRuns.RunKeepsInv | packages/mswarm/src/runtime.ts:8539-8757 | the invariant holds in every state of every run |
| RelayDaemonRuns.LaneSafety | packages/mswarm/src/runtime.ts:8552-8561 | once the constructor accepted the configuration, in every reachable state the regular, the reserved and all executions in flight are within their limit, their reserve and the configured cap, and the counters are their true numbers |
| RelayDaemonRuns.NoLostWakeUp | packages/mswarm/src/runtime.ts:8630-8757 | after the first heartbeat, while nothing forbids polling, exactly one of a poll in flight and an armed timer exists |
| RelayDaemonRuns.PollStartsOnlyFromTimer | packages/mswarm/src/runtime.ts:8647-8674 | in every run a poll starts only when the timer fires, never beside another poll, and only while no flag and no limit forbids it |
| RelayDaemonRuns.HaltIsFinal | packages/mswarm/src/runtime.ts:8571-8578 | from the stop on, no timer is armed and no poll or heartbeat starts, but a claim that a pending poll brings is still executed |
| RelayDaemonRuns.ClaimedIsExecuted | packages/mswarm/src/runtime.ts:8675-8688 | a claim runs under a fresh number, in the lane that was fixed when its poll started, with its aliases recorded |
| RelayDaemonRuns.HeartbeatNeverLost | packages/mswarm/src/runtime.ts:8734-8757 | unless stopped, a heartbeat is always under way or scheduled |
| RelayDaemonRuns.ClampsNeverAct | packages/mswarm/src/runtime.ts:8701-8708 | a completion takes one off the counters of its lane, which the clamps at zero never change, and removes exactly its own alias entry |
| RelayDaemonRuns.AliasesTrackExecutions | packages/mswarm/src/runtime.ts:8687-8706 | in every run the alias table has one entry for each execution in flight, in the order of their claims |
| RelayDaemonRuns.FailureHoldsBack | packages/mswarm/src/runtime.ts:8692-8716 | a failed poll or execution raises its streak by one and puts the timer off by the delay of the new streak |
| RelayDaemonRuns.StepKeepsHeldBack | packages/mswarm/src/runtime.ts:8605-8652 | no step but a reset brings the timer forward again |
| RelayDaemonRuns.BackoffHolds | packages/mswarm/src/runtime.ts:8605-8731 | in every run no poll starts earlier after a failure than the delay of the streak it reached, unless a success of the same kind or a resuming heartbeat came between |
| RelayDaemonPolicy.LimitsAreConfigured | packages/mswarm/src/runtime.ts:6308-6316 | the limits number by number: a missing or zero setting falls back to the next one, others are rounded down to at least 1; a reserve must be a whole number; regular and reserved capacity fit the cap |
| RelayDaemonPolicy.RetryDelays | packages/mswarm/src/runtime.ts:917-923 | 0 ms without a failure, then 1 s doubled for each further failure, and one minute from the seventh on |
| RelayDaemonPolicy.PollLane | packages/mswarm/src/runtime.ts:8665-8669 | in every run, stated on the executions in flight: a poll is for reserved work exactly when there is a reserve and the regular lane is full |
| RelayDaemonPolicy.TimerStartsPoll | packages/mswarm/src/runtime.ts:8647-8674 | in every run a timer that fires starts a poll if and only if no flag forbids it and an execution slot is free, and disarms itself |
| RelayDaemonPolicy.NextPollDue | packages/mswarm/src/runtime.ts:8701-8757 | when the next poll is due: the longer backoff after a poll, the same after an execution unless the timer was armed for later, and at once after the first heartbeat |
| RelayDaemonPolicy.HeartbeatResumes | packages/mswarm/src/runtime.ts:8605-8622 | a successful heartbeat ends revocation and backoff and makes a poll due at once, if there is something to resume, and otherwise leaves streaks and timer alone |
| RelayDaemonPolicy.TimerIsNear | packages/mswarm/src/runtime.ts:8630-8652 | an armed timer is never more than a minute ahead of the callback before it |
| RelayDaemonPolicy.StreaksCount | packages/mswarm/src/runtime.ts:8688-8716 | each streak is the number of its failures since the last success of its kind or resuming heartbeat; a 410 does not count |
| RelayDaemonPolicy.RetiredUntilHeartbeat | packages/mswarm/src/runtime.ts:8588-8622 | after a 410 to a poll, a result or a heartbeat no poll starts until a heartbeat succeeds |
| RelayDaemonPolicy.DisabledForGood | packages/mswarm/src/runtime.ts:8325-8329 | once polling is disabled no poll starts any more |
| RelayDaemonClass.FirstOccurrencesOfConcat | packages/mswarm/src/runtime.ts:1147-1161 | leaving out repetitions keeps each alias, once |
| RelayDaemonClass.BoundedRelayAgentAliases | packages/mswarm/src/runtime.ts:1147-1161 | the aliases of all groups, without repetition, in order, cut off at 64 |
| RelayDaemonClass.RelayDaemon.constructor | packages/mswarm/src/runtime.ts:8539-8561 | starts with the first heartbeat under way and nothing else, under the limits of an accepted configuration |
| RelayDaemonClass.RelayDaemon.ClearPollTimer | packages/mswarm/src/runtime.ts:8563-8569 | disarms the poll timer and changes nothing else |
| RelayDaemonClass.RelayDaemon.SchedulePoll | packages/mswarm/src/runtime.ts:8630-8652 | arms the timer or puts it off; never brings it forward |
| RelayDaemonClass.RelayDaemon.NoteRevoked | packages/mswarm/src/runtime.ts:8588-8603 | a 410 disarms the timer and marks the node revoked; nothing else is noted |
| RelayDaemonClass.RelayDaemon.NoteAlive | packages/mswarm/src/runtime.ts:8605-8622 | a heartbeat ends revocation and backoff and schedules a poll at once, unless there is nothing to resume |
| RelayDaemonClass.RelayDaemon.CurrentRelayRetryDelayMs | packages/mswarm/src/runtime.ts:8624-8628 | the longer of the two delays |
| RelayDaemonClass.RelayDaemon.PollTimerFires | packages/mswarm/src/runtime.ts:8647-8674 | starts a poll unless forbidden; asks for 250 ms in the reserved lane and for 2000 ms otherwise, with a priority bound exactly when there is a reserve and the executions in flight fill the regular lane; and with a reserve, asks the gateway to leave out the busy aliases, at most 64 |
| RelayDaemonClass.RelayDaemon.PollResolves | packages/mswarm/src/runtime.ts:8675-8688 | books a claim in the lane fixed at the start of the poll |
| RelayDaemonClass.RelayDaemon.PollRejects | packages/mswarm/src/runtime.ts:8710-8716 | lengthens the poll streak, or notes the revocation |
| RelayDaemonClass.RelayDaemon.PollFinally | packages/mswarm/src/runtime.ts:8717-8731 | ends the poll and schedules the next one after the current delay |
| RelayDaemonClass.RelayDaemon.ExecutionResolves | packages/mswarm/src/runtime.ts:8688-8691 | ends the execution streak |
| RelayDaemonClass.RelayDaemon.ExecutionRejects | packages/mswarm/src/runtime.ts:8692-8700 | lengthens the execution streak, or notes the revocation |
| RelayDaemonClass.RelayDaemon.ExecutionFinally | packages/mswarm/src/runtime.ts:8701-8708 | frees the slot and the alias entry and schedules a poll |
| RelayDaemonClass.RelayDaemon.HeartbeatTimerFires | packages/mswarm/src/runtime.ts:8736-8738 | starts the next heartbeat |
| RelayDaemonClass.RelayDaemon.HeartbeatResolves | packages/mswarm/src/runtime.ts:8738-8739 | a successful heartbeat lets the daemon resume |
| RelayDaemonClass.RelayDaemon.HeartbeatRejects | packages/mswarm/src/runtime.ts:8740-8742 | a failed heartbeat only notes a revocation |
| RelayDaemonClass.RelayDaemon.HeartbeatFinally | packages/mswarm/src/runtime.ts:8749-8757 | schedules the next heartbeat, and after the first one the first poll |
| RelayDaemonClass.RelayDaemon.Halt | packages/mswarm/src/runtime.ts:8571-8578 | stops, and disarms both timers |
| RelayDaemonClass.RelayDaemon.DisablePolling | packages/mswarm/src/runtime.ts:8325-8329 | latches the flag that forbids polling, and leaves an armed timer to find it |
| RelayDaemonClass.RelayDaemon.Play | packages/mswarm/src/runtime.ts:8539-8760 | driven over any run, the object goes through the states of that run and keeps the invariant |
| RelayJob.DeliveredOfSliced | packages/mswarm/src/runtime.ts:8386-8406 | the accepted batches are, in order, all chunks before the batch that failed |
| RelayJob.ForwardedOnce | packages/mswarm/src/runtime.ts:8453-8460 | the delivered batches followed by the chunks in the result are the emitted stream: none lost, none twice, none out of order |
| RelayJob.StreamForwarder.PostJobStart | packages/mswarm/src/runtime.ts:8409-8424 | one start request; a 404 marks the lifecycle protocol as degraded |
| RelayJob.StreamForwarder.FlushStreamEvents | packages/mswarm/src/runtime.ts:8386-8406 | sends exactly the pending chunks as one batch, counts them if they were accepted, latches if not, and sends nothing more after that |
| RelayJob.StreamForwarder.OnOpenAIChunk | packages/mswarm/src/runtime.ts:8426-8434 | a chunk is held back until eight are pending; then they are sent as one batch |
| RelayJob.Perform | packages/mswarm/src/runtime.ts:7785-7792 | every emitted chunk is recorded and shown to the observer, until an error of the observer is passed on |
| RelayJob.ExecuteJob | packages/mswarm/src/runtime.ts:7769-8151 | nothing runs before an accepted start; errors become failed results, marked as pre-start failures exactly when no start was acknowledged; one begin and one end for the counters |
| RelayJob.RunAndFlush | packages/mswarm/src/runtime.ts:8407-8452 | after the run one final flush, of less than a batch |
| RelayJob.ExecuteAndFlush | packages/mswarm/src/runtime.ts:8407-8460 | the result that will be posted carries exactly what was not forwarded, also when it is rewritten after a 404 in the final flush |
| RelayJob.PostJobResult | packages/mswarm/src/runtime.ts:8461-8485 | the same result is tried until one is accepted, at most four times |
| RelayJob.TriesReachGateway | packages/mswarm/src/runtime.ts:8461-8485 | stated on the answers of the gateway: the tries go up to the first of four requests that is accepted, or through all four, and the last outcome is that of this request |
| RelayJob.StreamIsInEights | packages/mswarm/src/runtime.ts:8426-8434 | every batch has eight chunks, the last one what is left |
| RelayJob.ExecuteRelayJobClaim | packages/mswarm/src/runtime.ts:8377-8496 | for every plan of the executor and every pattern of refusals: start before events before results, consecutive batches up to the first failure and none after it, exactly-once delivery of the stream, success exactly when the run succeeded and the final flush found its endpoint; one to four result requests, the last one accepted exactly when one of four is, and an exception exactly when none is and the fourth is refused |
| ExecutionTelemetry.NodeTelemetry.BeginExecutionTelemetry | packages/mswarm/src/runtime.ts:6381-6391 | one more active execution of the class |
| ExecutionTelemetry.NodeTelemetry.FinishExecutionTelemetry | packages/mswarm/src/runtime.ts:6408-6433 | one less active execution of its class, one more latency sample, and a failure noted if it was one |
| ExecutionTelemetry.NodeTelemetry.AddSample | packages/mswarm/src/runtime.ts:6421-6424 | keeps the last 50 samples |
| ExecutionTelemetry.NodeTelemetry.ReportFailure | packages/mswarm/src/runtime.ts:6399-6406 | puts a failure in front and keeps 20 |
| ExecutionTelemetry.StepKeepsInv | packages/mswarm/src/runtime.ts:6381-6433 | every report keeps the counters equal to the executions in flight plus those that ended without reporting it |
| ExecutionTelemetry.BalancedAccounting | packages/mswarm/src/runtime.ts:6381-6433 | in every run of the counters in which an execution begins once and finishes at most once, the chat and agentic counters are the executions in flight, and the generic counter is them and those that never finished |
| ExecutionTelemetry.ClampNeverActs | packages/mswarm/src/runtime.ts:6414-6420 | in such runs the clamps at zero never change a value |
| ExecutionInterleaving.RunRelay | packages/mswarm/src/runtime.ts:7769-8151 | every relay job tells the counters that it begins and then that it finishes, once each |
| ExecutionInterleaving.RunGeneric | packages/mswarm/src/runtime.ts:7584-7767 | a generic job does the same, except exactly when its promise rejects: then it only begins |
| ExecutionInterleaving.StepDescribes | packages/mswarm/src/runtime.ts:6381-6433 | whatever job comes next, the counters can take its call |
| ExecutionInterleaving.InterleavingIsRun | packages/mswarm/src/runtime.ts:6381-6433 | every interleaving of the calls of any jobs is a run of the counters, and the run knows which jobs are in flight and which have rejected |
| ExecutionInterleaving.BalancedInterleaving | packages/mswarm/src/runtime.ts:6381-6433 | over every interleaving of relay and generic jobs the chat and agentic counters are the jobs in flight; the generic counter is, if and only if no generic job has ended whose promise rejects |
| ExecutionInterleaving.AdvertisedRoom | packages/mswarm/src/runtime.ts:6502-6579 | at any point of an interleaving chat and agentic work each advertise their own jobs in flight, and as free slots the room that the jobs in flight and the queue leave in their pool |
| ExecutionInterleaving.FinishingJobIsCounted | packages/mswarm/src/runtime.ts:6414-6420 | a job that finishes is counted, so the clamp at zero does not act |
| ExecutionInterleaving.GenericExactIff | packages/mswarm/src/runtime.ts:7603-7639 | the generic counter is right over all interleavings of a list of jobs, if and only if none of them has a plan and an observer with which its promise rejects |
| ExecutionInterleaving.RejectedStaysCounted | packages/mswarm/src/runtime.ts:7603-7639 | a job that has such a plan and observer is still counted when nothing is in flight any more |
| ExecutionTelemetry.RecentHistory | packages/mswarm/src/runtime.ts:6421-6432 | in every reachable state, read off the events alone: the samples are the latencies of the last 50 executions that finished, oldest first; the failures are the last 20 of those that finished without success, under the class they began with, and of those reported otherwise, newest first |
| ExecutionTelemetry.LoadIsHonest | packages/mswarm/src/runtime.ts:6502-6579 | in every reachable state each class advertises the limit that the configuration gives it, its own executions in flight and the queue of its pool; the free slots of chat and agentic work are what all executions in flight leave of their shared pool; the counts and free slots of generic jobs and of the total are right, too, as long as no generic job has ended with an exception |
| GenericJobs.Job.EmitEvent | packages/mswarm/src/runtime.ts:7592-7602 | events are numbered 0, 1, 2 … in the order they are emitted |
| GenericJobs.Job.ReportFailed | packages/mswarm/src/runtime.ts:7603-7639 | the failure is reported first and counted only if the observer accepts the report |
| GenericJobs.Job.PlayScript | packages/mswarm/src/runtime.ts:7692-7724 | the started event, the runner's events and one event for each output, up to the first rejection or error |
| GenericJobs.Job.RunAndReport | packages/mswarm/src/runtime.ts:7691-7754 | after them one report that fits the status; it succeeds exactly when the runner does and no event of the job's own is rejected |
| GenericJobs.Job.Execute | packages/mswarm/src/runtime.ts:7584-7767 | for every plan and observer: the exact list of events, the result that fits the last one, success exactly when the runner succeeds and no event of the job's own is rejected; the promise rejects exactly under the condition PromiseRejects on plan and observer, and then the execution is never counted as ended |
| GenericJobs.StopsAtOnce | packages/mswarm/src/runtime.ts:7684-7731 | there is exactly one point where the script can stop |
| GenericJobs.TranscriptEnds | packages/mswarm/src/runtime.ts:7732-7762 | after the script there is one report, and a second one exactly when the observer rejects the first of a completed run |
| GenericJobs.RefusedEscapes | packages/mswarm/src/runtime.ts:7603-7656 | a refused job whose one event is rejected is never counted as ended |
| GenericJobs.CompletedEscapes | packages/mswarm/src/runtime.ts:7732-7762 | a successful run survives one rejected report but not two in a row |
| PngChunks.ReadIffSerialized | packages/mswarm/scripts/stable-diffusion-cpp-openai-server.py:554-572 | a chunk is read exactly where a legal chunk with its checksum is serialised |
| PngValidator.AdvanceIffInPlace | packages/mswarm/scripts/stable-diffusion-cpp-openai-server.py:573-625 | the flags accept the next chunk exactly when the grammar does, given the chunks before it |
| PngValidator.MachineIffGrammar | packages/mswarm/scripts/stable-diffusion-cpp-openai-server.py:540-627 | the machine accepts a list of at most 4096 chunks exactly when it is well-formed: one header first, at most one palette and before the data, consecutive image data, no unknown critical chunk, one empty end chunk last |
| PngValidator.ReadAllIffEncodes | packages/mswarm/scripts/stable-diffusion-cpp-openai-server.py:553-572 | reading to the end finds exactly the chunk list that the bytes encode |
| PngValidator.WalkIffImage | packages/mswarm/scripts/stable-diffusion-cpp-openai-server.py:540-627 | on any bytes after the signature the loop succeeds exactly when they serialise a well-formed chunk list |
| PngValidator.TakeChunk | packages/mswarm/scripts/stable-diffusion-cpp-openai-server.py:554-572 | takes the chunk at the offset, or fails as the source does |
| PngValidator.CheckChunk | packages/mswarm/scripts/stable-diffusion-cpp-openai-server.py:573-624 | the flag updates, branch by branch |
| PngValidator.ReadChunks | packages/mswarm/scripts/stable-diffusion-cpp-openai-server.py:534-627 | accepts a byte string exactly when it is the signature and a well-formed chunk list, and collects header and image data |
| PngScanlines.OnePassPerPixel | packages/mswarm/scripts/stable-diffusion-cpp-openai-server.py:631-641 | each pixel lies in exactly one pass of the table |
| PngScanlines.PassSizeCountsPixels | packages/mswarm/scripts/stable-diffusion-cpp-openai-server.py:644-646 | width times height of a pass is the number of image pixels in it |
| PngScanlines.PassesCoverImage | packages/mswarm/scripts/stable-diffusion-cpp-openai-server.py:631-651 | the pass sizes add up to width times height |
| PngScanlines.RowStartsInRange | packages/mswarm/scripts/stable-diffusion-cpp-openai-server.py:642-672 | every row start lies inside the expected scanline bytes |
| PngImage.BuildLayout | packages/mswarm/scripts/stable-diffusion-cpp-openai-server.py:642-651 | the rows of the non-empty passes, and their total length |
| PngImage.CheckFilters | packages/mswarm/scripts/stable-diffusion-cpp-openai-server.py:667-672 | reads only inside the image and accepts exactly when every row starts with a known filter |
| PngImage.CheckScanlines | packages/mswarm/scripts/stable-diffusion-cpp-openai-server.py:629-672 | inflation and filter walk accept exactly the data that inflates to scanlines of the expected length with known filters |
| PngImage.ValidatePng | packages/mswarm/scripts/stable-diffusion-cpp-openai-server.py:534-672 | accepts exactly the images: a well-formed chunk list whose data inflates to scanlines of the expected length with known filters |
| PngReference.ModesOfTheStandard | packages/mswarm/scripts/stable-diffusion-cpp-openai-server.py:586-594 | the accepted color modes are those of the standard, stated by the three bits of the colour type: which depths go with palette, colour and alpha |
| PngReference.PalettesOfTheStandard | packages/mswarm/scripts/stable-diffusion-cpp-openai-server.py:604-610 | a palette has 1 to 256 entries of three bytes, in colour images only, and no more than an index can name |
| PngReference.TypesAreLetters | packages/mswarm/scripts/stable-diffusion-cpp-openai-server.py:559-564 | a chunk type is four ASCII letters, and a chunk may be skipped if and only if its type starts in lower case |
| PngReference.ChannelsAreSamples | packages/mswarm/scripts/stable-diffusion-cpp-openai-server.py:629 | the samples of a pixel follow from the bits of the colour type: one for a palette or grey, three for colour, one more for alpha |
| PngReference.PassesFollowPattern | packages/mswarm/scripts/stable-diffusion-cpp-openai-server.py:631-641 | the seven passes take the pixels that the eight by eight pattern of the standard gives them; without interlacing one pass takes all |
| PngReference.ImageRows | packages/mswarm/scripts/stable-diffusion-cpp-openai-server.py:642-651 | for each pass with pixels, in order: as many rows as the pass has, each the least number of bytes that holds the samples of its pixels |
| PngReference.RowsTile | packages/mswarm/scripts/stable-diffusion-cpp-openai-server.py:642-672 | each row, a filter byte and its samples, starts where the rows before it end, and the expected length is that of all rows |
| PngReference.PlainLength | packages/mswarm/scripts/stable-diffusion-cpp-openai-server.py:642-651 | without interlacing: as many rows as the image is high, each a filter byte and the least number of bytes that holds its samples |
| PngReference.EightBitLengths | packages/mswarm/scripts/stable-diffusion-cpp-openai-server.py:629-651 | the expected length of 8-bit images: a filter byte for each row and 1, 2, 3 or 4 bytes for each pixel, by colour type |
| InferenceSlot.StepKeepsInv | packages/mswarm/scripts/stable-diffusion-cpp-openai-server.py:181-227 | every step of a handler, worker or deadline keeps all slots accounted for |
| InferenceSlot.RunKeepsInv | packages/mswarm/scripts/stable-diffusion-cpp-openai-server.py:891-936 | so does every run |
| InferenceSlot.AtMostOneGeneration | packages/mswarm/scripts/stable-diffusion-cpp-openai-server.py:891-925 | in every run at most one native generation is in flight, both semaphores stay within their bounds, and the handler slots in use are the handler threads |
| InferenceSlot.SlotFreeIffUnowned | packages/mswarm/scripts/stable-diffusion-cpp-openai-server.py:891-925 | the inference slot is free exactly when no request owns it, if and only if no worker thread has failed to start |
| InferenceSlot.ReleasedExactlyOnce | packages/mswarm/scripts/stable-diffusion-cpp-openai-server.py:181-227 | every request frees its handler slot once and no more; a granted inference slot is given back at most once, and exactly when nobody owns it any more, unless its worker could not be started |
| InferenceSlot.DeadlineFreesNothing | packages/mswarm/scripts/stable-diffusion-cpp-openai-server.py:926-936 | a timeout to the client frees no slot: while the native request goes on every other request is told that the server is busy |
| InferenceSlot.AfterFailureAlwaysBusy | packages/mswarm/scripts/stable-diffusion-cpp-openai-server.py:921-925 | once a worker thread could not be started, no request is ever granted the slot again |
| InferenceSlot.SlotCanLeak | packages/mswarm/scripts/stable-diffusion-cpp-openai-server.py:891-925 | a run of one request after which everything is idle and the slot is gone |
| InferenceSlot.ImageServer.ProcessRequest | packages/mswarm/scripts/stable-diffusion-cpp-openai-server.py:181-189 | a full server refuses; a handler thread that does not start frees its slot |
| InferenceSlot.ImageServer.AcquireInference | packages/mswarm/scripts/stable-diffusion-cpp-openai-server.py:887-900 | a valid request takes the slot without waiting, or is answered that the server is busy |
| InferenceSlot.ImageServer.StartGeneration | packages/mswarm/scripts/stable-diffusion-cpp-openai-server.py:921-925 | the worker takes over the slot; a failed start gives nothing back |
| InferenceSlot.ImageServer.WorkerReleasesSlot | packages/mswarm/scripts/stable-diffusion-cpp-openai-server.py:914-918 | the slot is given back when the native request has ended |
| InferenceSlot.ImageServer.WorkerSetsCompleted | packages/mswarm/scripts/stable-diffusion-cpp-openai-server.py:919 | then the handler is told |
| InferenceSlot.ImageServer.WaitEnds | packages/mswarm/scripts/stable-diffusion-cpp-openai-server.py:926-936 | the handler answers with the outcome, or with a timeout |
| InferenceSlot.ImageServer.HandlerReturns | packages/mswarm/scripts/stable-diffusion-cpp-openai-server.py:221-227 | the handler slot is freed on every way out |
| InstallOrder.GreedyIsLeast | scripts/install-local-packages.js:66-90 | always taking the least ready package gives the lexicographically least install order |
| InstallOrder.CyclicHasNoOrder | scripts/install-local-packages.js:92-94 | with a dependency cycle, self-dependencies included, no install order exists |
| InstallOrder.StuckIsCyclic | scripts/install-local-packages.js:92-94 | if every remaining package needs a remaining one, there is a cycle |
| InstallOrder.UnnamedPackageHasOrder | scripts/install-local-packages.js:51-64 | the graph of a single package with the empty name has no cycle, and the package has an install order |
| InstallOrderMethod.RefuseUnnamedPackage | scripts/install-local-packages.js:74-76 | that package is refused all the same, because the loop skips its name |
| InstallOrderMethod.SortSorts | scripts/install-local-packages.js:66-69 | the queue is sorted and holds the same names |
| InstallOrderMethod.BuildGraph | scripts/install-local-packages.js:52-64 | edge lists and in-degrees count every dependency entry inside the workspace, repeated ones as often as they occur |
| InstallOrderMethod.ReleaseDependents | scripts/install-local-packages.js:82-89 | following the edges of an ordered package keeps the in-degrees current and the queue exactly the ready packages, in order |
| InstallOrderMethod.OrderWorkspacePackages | scripts/install-local-packages.js:51-97 | fails exactly when there is a cycle or a package with the empty name; otherwise a permutation of the packages, dependencies first, and the least of all such orders |
| PlanRecords.EnsuredEvolves | scripts/automate_codali_unified_plan.py:792-823 | a changed prompt moves the attempts to the superseded history and loses none |
| PlanRecords.PromptChangeRestarts | scripts/automate_codali_unified_plan.py:792-833 | an unfinished record under another prompt is pending again; its attempts, its old prompt and status become the newest entry of the history, once |
| PlanRecords.SamePromptContinues | scripts/automate_codali_unified_plan.py:792-833 | under the same prompt, or with none recorded, status and attempts stay; a complete task stays complete under any prompt |
| PlanRecords.RunsEvolve | scripts/automate_codali_unified_plan.py:792-845 | over any sequence of runs, each from the state file the last one left, complete records stay as they are, attempts are never lost and stay numbered 1..n, in new records too |
| PlanRunner.Runner.NormalizeStaleRunningTasks | scripts/automate_codali_unified_plan.py:836-845 | no task is left running, nothing else changes, and the file is the state |
| PlanRunner.Runner.CompleteGitPendingTask | scripts/automate_codali_unified_plan.py:1333-1364 | repeats the git sync only; the record becomes complete or stays git-pending |
| PlanRunner.Runner.RunTask | scripts/automate_codali_unified_plan.py:1367-1502 | one more attempt with the next number, written as running before the agent starts and with its outcome after it; killed in between, the file still shows the attempt |
| PlanRunner.Runner.TakeTurn | scripts/automate_codali_unified_plan.py:1636-1669 | a git-pending task is synced, which changes nothing but its status and adds no attempt; another one is run if the usage limits are clear, which adds exactly one attempt and records its outcome, and blocked only if they are not; under favourable answers it completes its task; no other record changes |
| PlanRunner.EndOfRun | scripts/automate_codali_unified_plan.py:1453-1484 | status by status, how an agent run ends: complete if and only if the agent ended by itself with exit code 0, nothing is invalid, and its work is synced where that is asked for; and what the attempt records |
| PlanRunner.Runner.LoggedTurn | scripts/automate_codali_unified_plan.py:1636-1669 | a turn is entered in the log with the question it asked and the state files before and after it, and counted by how it left its task |
| PlanRunner.Runner.WorkOnTask | scripts/automate_codali_unified_plan.py:1626-1713 | the turns on one task, chained from the state file before to the one after; the retry counters: without keep-going a task is left only when complete, at most agent-max + failure-max + 1 turns with both limits set, a positive turn limit never exceeded; the run gives up on a task only because the limits are not clear, a retry limit is exceeded, or the turn ended in a way that is not retried; under favourable answers the task is complete after one turn |
| PlanMain.AttemptsAreRuns | scripts/automate_codali_unified_plan.py:1367-1412 | the attempts a run puts on record for a task are its agent runs, one each |
| PlanMain.RunIsBounded | scripts/automate_codali_unified_plan.py:1632-1712 | the new attempts of a task are at most agent-max + failure-max + 1 when both limits are set, and those of all tasks together at most a positive max_runs |
| PlanMain.StartedInOrder | scripts/automate_codali_unified_plan.py:1625-1631 | without keep-going a task that got an attempt has all earlier tasks complete on disk |
| PlanMain.RunQueue | scripts/automate_codali_unified_plan.py:1615-1735 | a run from any state file, stated on the records before and after: no complete record touched, no attempt lost, new attempts bounded per task and in all and made in order unless keep-going, finished work only synced, no record left running unless killed, exit code 0 when all is complete; every turn is accounted for from the normalised file to the last one, and with both limits set the run ends by itself; if the limits are always clear, every agent run succeeds and every sync too, all tasks are complete and the exit code is 0; exit code 1 only at max_runs or when a task was given up for one of the stated reasons |
| PlanMain.CompleteForGood | scripts/automate_codali_unified_plan.py:1629-1631 | over any number of runs and crashes a task once complete keeps its record and is never run again |
| PlanMain.GitPendingOnlySyncs | scripts/automate_codali_unified_plan.py:1636-1649 | over a whole run the record of a git-pending task with an unchanged prompt stays as it is, but for the status, which may become complete; no agent run is spent on it |
| PlanMain.GitPendingTurn | scripts/automate_codali_unified_plan.py:1629-1669 | turn by turn: a git-pending task keeps its attempts exactly when its prompt is unchanged |
| TarWalker.SizeRoundTrip | scripts/pack-npm-tarballs.js:151-153 | the size text of eleven octal digits reads back as the size |
| TarWalker.SizeErrorIff | scripts/pack-npm-tarballs.js:153-159 | a size text is refused if and only if it has no octal digit at its start, behind a sign, or is below zero; otherwise its value is that of its leading digits, and an absent size is zero |
| TarWalker.TrimIs | scripts/pack-npm-tarballs.js:239-243 | trimming drops the white space at both ends, all of it and nothing else |
| TarWalker.HeaderRoundTrip | scripts/pack-npm-tarballs.js:149-153 | a header reads back as the path and the size of its entry |
| TarWalker.WalkAtEntry | scripts/pack-npm-tarballs.js:145-169 | at an entry the walk returns its content if it is the manifest, and else goes on right behind its padded content |
| TarWalker.WalkTakesFirst | scripts/pack-npm-tarballs.js:142-173 | over any list of entries, serialised with padding and closed by zero bytes, the walk returns the content of the first entry that it takes for the manifest, or finds none |
| TarWalker.TakesManifestIff | scripts/pack-npm-tarballs.js:239-243 | that is the first entry with a manifest's path, if and only if no entry before it becomes one by trimming |
| TarWalker.WalkFindsFirstManifest | scripts/pack-npm-tarballs.js:142-173 | if no name or prefix begins or ends with white space, the walk returns the content of the first entry named package/package.json or package.json, or finds none |
| TarWalker.BlankHidesManifest | scripts/pack-npm-tarballs.js:239-243 | an archive in which an entry with a blank after its name is taken for the manifest behind it |
| TarWalker.ReadPackedPackageJson | scripts/pack-npm-tarballs.js:142-173 | on any bytes the loop computes that walk; the headers it reads are whole blocks, each at least 512 bytes behind the one before, so it ends |
| Base64.RoundTrip | packages/mswarm/src/invocation-token.ts:66-74 | base64 decoding undoes encoding |
| Base64.AlphabetOfTheStandard | packages/mswarm/src/invocation-token.ts:66-74 | each value is written as the character at its place in the alphabet of RFC 4648 and read back from it |
| Base64.QuadSpellsBits | packages/mswarm/src/invocation-token.ts:72-74 | four characters of that alphabet spell the same 24 bits as the three bytes |
| Base64.ExamplesOfTheStandard | packages/mswarm/src/invocation-token.ts:72-74 | examples of section 10 of RFC 4648, with one, two and no padding signs |
| Base64.EncodedShape | packages/mswarm/src/invocation-token.ts:72-74 | encoded text: four characters for each started group of three bytes, padding only at the end |
| Base64.UrlRoundTrip | packages/mswarm/src/invocation-token.ts:66-74 | base64url decoding undoes encoding for every byte string, and encoded text holds none of the three characters that are not safe in a URL |
| Base64.DecodedLengthIsTrue | packages/mswarm/src/runtime.ts:2346-2356 | the computed length of every accepted text is the length of what it decodes to |
| Base64.AcceptedIff | packages/mswarm/src/runtime.ts:2347-2353 | a text is accepted exactly when it is not empty, of whole groups of four, and letters of the alphabet followed by at most two padding signs |
| Base64.EncodedLength | packages/mswarm/src/runtime.ts:2346-2356 | every non-empty encoding is accepted and its computed length is that of the bytes |
| Base64.PayloadFitsLimit | packages/mswarm/src/runtime.ts:2301-2307 | for every limit, a payload fits the response exactly when it is within the limit rounded up to a group of three bytes, and within what the largest safe integer leaves room for |
| Base64.LimitFitsIff | packages/mswarm/src/runtime.ts:2301-2307 | every payload within the limit fits, if and only if the computed response limit is not capped |
| Base64.LargestLimitFails | packages/mswarm/src/runtime.ts:2303-2306 | under the largest safe integer as limit, a payload of that size does not fit |
| AgentCatalog.SyncedSelfHostedSlug | packages/agent-setup/src/headless/catalog.ts:67-74 | the local slug of a remote agent carries the self-hosted prefix, the load-balanced one where it applies, and a local slug is kept |
| AgentCatalog.SyncedSlugEnds | packages/agent-setup/src/headless/catalog.ts:67-74 | behind the prefix stands the normalised remote slug, or "agent" if nothing is left of it; the load-balanced prefix is used exactly when the agent shows a sign of load balancing |
| AgentCatalog.SyncedSlugIsStable | packages/agent-setup/src/headless/catalog.ts:32-74 | a registered agent is self-hosted and maps to its own slug |
| AgentSync.Registry.UpsertRemotes | packages/agent-setup/src/server/inMemoryRuntime.ts:47-63 | each entry replaces the first with its slug or is appended |
| AgentSync.Registry.SyncRemote | packages/agent-setup/src/server/inMemoryRuntime.ts:33-65 | prunes the kind, registers the remotes, shows the kind |
| AgentSync.Registry.SyncSelfHostedRemote | packages/agent-setup/src/server/inMemoryRuntime.ts:67-112 | the same for both self-hosted kinds; load-balanced entries are spared on request |
| AgentSync.UpsertAllReconciles | packages/agent-setup/src/server/inMemoryRuntime.ts:47-63 | place by place: the first entry with a remote's slug is what the last such remote becomes, everything else is as before |
| AgentSync.SyncedSlugs | packages/agent-setup/src/server/inMemoryRuntime.ts:67-112 | the slugs shown after a synchronisation are the remotes' local slugs and those of the entries that were spared, both directions |
| AgentSync.RemoteSlugsShown | packages/agent-setup/src/server/inMemoryRuntime.ts:33-65 | for one kind, exactly the remotes' local slugs |
| AgentSync.SyncKeepsUnique | packages/agent-setup/src/server/inMemoryRuntime.ts:33-112 | slugs that were unique stay unique, whatever the catalog |
| AgentSync.BystandersUntouched | packages/agent-setup/src/server/inMemoryRuntime.ts:43-46 | of the entries that no remote maps to, exactly those of other kinds remain, unchanged and in order |
| AgentSync.RemotesRegistered | packages/agent-setup/src/server/inMemoryRuntime.ts:47-63 | every remote's slug names the entry of the last remote with that slug |
| AgentSync.LastIsRegistered | packages/agent-setup/src/server/inMemoryRuntime.ts:47-56 | the entry of a slug carries, of the last remote with it, the remote slug and everything it said about routing and server, as a synchronised local entry of its kind |
| AgentSync.SelfHostedRegistered | packages/agent-setup/src/server/inMemoryRuntime.ts:87-105 | after self-hosted agents are synchronised that entry stands in the registry, and its kind is load-balanced exactly when the remote shows a sign of it |
| AgentSync.SyncIsIdempotent | packages/agent-setup/src/server/inMemoryRuntime.ts:33-112 | synchronising the same remotes again changes nothing, even when slugs collide |
| ServerGrouping.NoRemoteLost | packages/agent-setup/src/headless/catalog.ts:191-201 | every remote is listed, itself or under its local slug |
| ServerGrouping.CombinedIff | packages/agent-setup/src/headless/catalog.ts:191-201 | what is combined, both directions: the self-hosted local entries, each merged with the last remote with its slug, and the remotes whose local slug no local entry has, marked as not synchronised |
| ServerGrouping.SummaryExtends | packages/agent-setup/src/headless/catalog.ts:206-222 | merging one more member keeps every field of the header what it is to say of all members |
| ServerGrouping.StatusExtends | packages/agent-setup/src/headless/catalog.ts:431-438 | healthy if a member is, else degraded if a member is, else the first status there is |
| ServerGrouping.GroupByServer | packages/agent-setup/src/headless/catalog.ts:203-228 | one group for each server id, in order of first mention, with all its agents in order, their number, and a true header |
| ServerGrouping.BuildSelfHostedServerOptions | packages/agent-setup/src/headless/catalog.ts:187-236 | distinct servers sorted by caption, each with all and only its agents in order, its count and a true header; every combined agent's server is listed |
| ServerGrouping.NothingLostInGroups | packages/agent-setup/src/headless/catalog.ts:203-236 | the servers together hold every combined agent exactly as often as it was combined, each under its own server, and the counts add up |

## Left out

- Transport, files, subprocesses and service managers: only their outcomes appear, as inputs.
- Cryptography, CRC and inflation, which are given functions; token verification around them.
- Configuration, environment and command-line parsing, except the capacity check of the node.
- The second native server, `packages/mswarm/scripts/wan22-openai-server.py`: its slot is held by one handler throughout and adds nothing to the hand-over proved here.
- The process lock of the automation script: stale locks are removed in separate read and unlink steps, so one runner at a time is assumed.
- Plan parsing, prompts, progress files, agent health checks and log scanning of the automation script; their results are answers of the world.
- Cloud and worker catalog options, which are the self-hosted case without grouping.
- Blender and CUDA jobs, and the capability probes before them, which catch their own errors.
- Threads and event loop of the real programs: `InferenceSlot.ImageServer` and `RelayDaemonClass.RelayDaemon` take one atomic step per method; the interleaving is that of the step machines.
- RelayDaemonModel.RetryDelayMonotone: delays are unbounded integers; the source's floating-point powers agree until both are capped at 60000 ms.
- RelayDaemonRuns.HeartbeatNeverLost: does not model the heartbeat interval, so a heartbeat timer may fire at any time once scheduled.
- RelayDaemonRuns.NoLostWakeUp: says that a timer is armed, not when the event loop gets to it.
- RelayJob.ExecuteRelayJobClaim: does not model response contents, usage and timing fields, or the waits between result attempts.
- PlanMain.RunQueue: does not model retry waits and the bookkeeping fields they write; the syncs of several repositories are one answer; a retry limit of zero means unbounded retries, and then only the other bounds are stated.
- TarWalker.ReadPackedPackageJson: stops before the JSON parser, and takes text decoding as given.
- Base64.RoundTrip: decoding of malformed text, where Node skips characters, is not modelled.
- Base64.PayloadFitsLimit: computes over the integers; the source's floating-point sums are exact up to the cap, and capped beyond it.
- ExecutionTelemetry.BalancedAccounting: takes for granted that an execution begins once and finishes at most once; `ExecutionInterleaving.InterleavingIsRun` derives it from the jobs.
- ExecutionTelemetry.ClampNeverActs: on the same terms; `ExecutionInterleaving.FinishingJobIsCounted` is the statement about jobs.
- ServerGrouping.BuildSelfHostedServerOptions: does not state that the sorts are stable, nor which fields a merge of local and remote entry keeps beyond the slug.
- AgentSync.Registry.SyncRemote: entries are values, so a caller that changes a returned entry in place is not modelled.
- ExecutionTelemetry.LoadIsHonest: limits are integers, and hardware pressure and catalog fingerprint are not part of it.
