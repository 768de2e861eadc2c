/**
 One relay job from claim to posted result: the start acknowledgement, the batched
 forwarding of stream chunks with its failure latch, the final flush, and a result
 that carries exactly the chunks that were not forwarded.

 The gateway is a function from the number of a request to its outcome, so every
 statement below is about every pattern of failures. A refused request delivers nothing.
 Chunks are emitted one at a time: each emission is awaited before the next.
 */
module RelayJob {
  import opened ExecutionTelemetry
  import opened Prelude

  const STREAM_EVENT_BATCH_SIZE: nat := 8
  const RESULT_POST_ATTEMPTS: nat := 4  // one, and one after each of three retry delays

  /** Where batch number `k` begins. */
  function Offset(k: nat): nat {
    8 * k
  }

  type Chunk = string

  /** NotFound is the 404 that marks a gateway without the endpoint. */
  datatype Outcome = Accepted | NotFound | Refused

  type Gateway = nat -> Outcome

  /** What the executor does after the start was acknowledged. */
  datatype Action =
    | Progress(event: string)
    | Emit(chunk: Chunk, rethrows: bool)  // does the executor pass on an error of the chunk observer?

  datatype Plan =
    | WrongNode
    | FailsBeforeStart
    | Runs(actions: seq<Action>, succeeds: bool)

  datatype Status = Success | Failed

  datatype Result = Result(
    status: Status,
    preStartFailure: bool,
    flushMismatch: bool,
    streamEvents: Option<seq<Chunk>>,
    progressEvents: Option<seq<string>>)

  // Requests to the gateway; `number` counts all requests of the job, from 0.
  datatype Start = Start(number: nat, outcome: Outcome)
  datatype Batch = Batch(number: nat, chunks: seq<Chunk>, outcome: Outcome)
  datatype Attempt = Attempt(number: nat, result: Result, outcome: Outcome)

  datatype Log = Log(starts: seq<Start>, events: seq<Batch>, results: seq<Attempt>)

  datatype Ending = Reported(status: Status) | Throws

  // ----- lists of actions

  function ChunksOf(actions: seq<Action>): seq<Chunk> {
    if actions == [] then []
    else
      var rest := ChunksOf(actions[..|actions| - 1]);
      var last := actions[|actions| - 1];
      if last.Emit? then rest + [last.chunk] else rest
  }

  function ProgressOf(actions: seq<Action>): seq<string> {
    if actions == [] then []
    else
      var rest := ProgressOf(actions[..|actions| - 1]);
      var last := actions[|actions| - 1];
      if last.Progress? then rest + [last.event] else rest
  }

  lemma {:induction false} ActionsNext(actions: seq<Action>, k: nat)
    requires k < |actions|
    ensures ChunksOf(actions[..k + 1]) ==
              ChunksOf(actions[..k]) + if actions[k].Emit? then [actions[k].chunk] else []
    ensures ProgressOf(actions[..k + 1]) ==
              ProgressOf(actions[..k]) + if actions[k].Progress? then [actions[k].event] else []
  {
    assert actions[..k + 1][..k] == actions[..k];
  }

  /** An empty list is left out of a result. */
  function Listed<T(==)>(items: seq<T>): Option<seq<T>> {
    if items == [] then None else Some(items)
  }

  /** JavaScript's `slice(from)` on a list that may be absent. */
  function SliceFrom(items: Option<seq<Chunk>>, from: nat): Option<seq<Chunk>> {
    if items.None? then None else Some(items.value[Min(from, |items.value|)..])
  }

  // ----- the log of requests

  /** Requests are numbered in the order start, events, results, with the gateway's outcomes. */
  ghost predicate InOrder(log: Log, gateway: Gateway) {
    && |log.starts| <= 1
    && (forall s | s in log.starts :: s == Start(0, gateway(0)))
    && (forall k | 0 <= k < |log.events| ::
          log.events[k].number == |log.starts| + k && log.events[k].outcome == gateway(log.events[k].number))
    && (forall k | 0 <= k < |log.results| ::
          log.results[k].number == |log.starts| + |log.events| + k
          && log.results[k].outcome == gateway(log.results[k].number))
  }

  predicate Started(log: Log) {
    log.starts != [] && log.starts[0].outcome == Accepted
  }

  /** The chunks that reached the gateway in event requests. */
  function Delivered(events: seq<Batch>): seq<Chunk> {
    if events == [] then []
    else
      var last := events[|events| - 1];
      Delivered(events[..|events| - 1]) + if last.outcome == Accepted then last.chunks else []
  }

  function SliceEnd(chunks: seq<Chunk>, k: nat): nat {
    Min(Offset(k), |chunks|)
  }

  function Slice(chunks: seq<Chunk>, k: nat): seq<Chunk> {
    chunks[SliceEnd(chunks, k)..SliceEnd(chunks, k + 1)]
  }

  /** The event requests are the successive slices of the chunks, up to the first failure. */
  ghost predicate Sliced(events: seq<Batch>, chunks: seq<Chunk>) {
    && (forall k | 0 <= k < |events| :: Offset(k) < |chunks| && events[k].chunks == Slice(chunks, k))
    && (forall k | 0 <= k < |events| - 1 :: events[k].outcome == Accepted)
  }

  predicate LatchTripped(events: seq<Batch>) {
    events != [] && events[|events| - 1].outcome != Accepted
  }

  predicate LastNotFound(events: seq<Batch>) {
    events != [] && events[|events| - 1].outcome == NotFound
  }

  lemma {:induction false} SlicedInit(events: seq<Batch>, chunks: seq<Chunk>)
    requires Sliced(events, chunks) && events != []
    ensures var init := events[..|events| - 1];
            Sliced(init, chunks) && !LatchTripped(init)
  {
    var init := events[..|events| - 1];
    assert forall k | 0 <= k < |init| :: init[k] == events[k];
  }

  lemma {:induction false} SliceJoins(chunks: seq<Chunk>, k: nat)
    ensures chunks[..SliceEnd(chunks, k)] + Slice(chunks, k) == chunks[..SliceEnd(chunks, k + 1)]
  {
  }

  lemma {:induction false} DeliveredOfSliced(events: seq<Batch>, chunks: seq<Chunk>)
    requires Sliced(events, chunks)
    ensures var full := if LatchTripped(events) then |events| - 1 else |events|;
            Delivered(events) == chunks[..SliceEnd(chunks, full)]
  {
    if events == [] {
    } else {
      SlicedInit(events, chunks);
      DeliveredOfSliced(events[..|events| - 1], chunks);
      SliceJoins(chunks, |events| - 1);
    }
  }

  lemma {:induction false} SlicedExtend(events: seq<Batch>, chunks: seq<Chunk>, chunk: Chunk)
    requires Sliced(events, chunks) && Offset(|events|) <= |chunks|
    ensures Sliced(events, chunks + [chunk])
  {
    forall k | 0 <= k < |events| ensures Slice(chunks + [chunk], k) == Slice(chunks, k) {}
  }

  lemma {:induction false} SlicedAppend(events: seq<Batch>, chunks: seq<Chunk>, batch: Batch)
    requires Sliced(events, chunks) && !LatchTripped(events)
    requires Offset(|events|) < |chunks| <= Offset(|events| + 1)
    requires batch.chunks == chunks[Offset(|events|)..]
    ensures Sliced(events + [batch], chunks)
  {
    assert batch.chunks == Slice(chunks, |events|);
  }

  /**
   Exactly-once delivery: what was accepted in event requests, followed by what the
   result carries, is the emitted stream.
   */
  lemma {:induction false} ForwardedOnce(events: seq<Batch>, emitted: seq<Chunk>, chatStreaming: bool,
                                         carried: Option<seq<Chunk>>)
    requires StreamedInBatches(events, emitted, chatStreaming)
    requires carried == if !chatStreaming then Listed(emitted)
                        else if LatchTripped(events) then SliceFrom(Listed(emitted), Offset(|events| - 1))
                        else None
    ensures Delivered(events) + carried.GetOr([]) == emitted
  {
    DeliveredOfSliced(events, emitted);
    if LatchTripped(events) {
      var k := Offset(|events| - 1);
      assert events[|events| - 1].chunks == Slice(emitted, |events| - 1);
      assert k < |emitted|;
      assert emitted[..k] + emitted[k..] == emitted;
    } else if chatStreaming {
      assert emitted[..|emitted|] == emitted;
    } else {
      assert Delivered(events) == [];
    }
  }

  // ----- what a finished job promises

  /** The executor was stopped by an error of the chunk observer that it passed on. */
  ghost predicate ObserverStopped(actions: seq<Action>, performed: nat, events: seq<Batch>) {
    && 0 < performed <= |actions|
    && actions[performed - 1].Emit? && actions[performed - 1].rethrows
    && LastNotFound(events)
    && |ChunksOf(actions[..performed])| == Offset(|events|)
  }

  ghost predicate Stopped(plan: Plan, performed: nat, events: seq<Batch>) {
    plan.Runs? && ObserverStopped(plan.actions, performed, events)
  }

  /** The executor itself came to a good end. */
  ghost predicate Succeeded(plan: Plan, performed: nat, log: Log) {
    Started(log) && plan.Runs? && plan.succeeds && !Stopped(plan, performed, log.events)
  }

  /** The chunks the executor emitted in the actions it performed. */
  function Emitted(plan: Plan, performed: nat): seq<Chunk> {
    if plan.Runs? && performed <= |plan.actions| then ChunksOf(plan.actions[..performed]) else []
  }

  /** The progress events the executor recorded in the actions it performed. */
  function Recorded(plan: Plan, performed: nat): seq<string> {
    if plan.Runs? && performed <= |plan.actions| then ProgressOf(plan.actions[..performed]) else []
  }

  /** The last event request was the final flush, and found no endpoint. */
  predicate FlushFailed(events: seq<Batch>, emitted: seq<Chunk>) {
    LastNotFound(events) && |emitted| < Offset(|events|)
  }

  /** The start is acknowledged before anything is streamed; only then does the executor run. */
  ghost predicate StartedFirst(log: Log, gateway: Gateway, plan: Plan, chatStreaming: bool, performed: nat) {
    && InOrder(log, gateway)
    && (log.starts != [] <==> plan.Runs?)
    && (log.events != [] ==> chatStreaming && Started(log))
    && (if Started(log) then
          && performed <= |plan.actions|
          && (performed < |plan.actions| ==> Stopped(plan, performed, log.events))
        else performed == 0)
  }

  /** Successive batches up to the first failure, and all of them if none fails. */
  ghost predicate StreamedInBatches(events: seq<Batch>, emitted: seq<Chunk>, chatStreaming: bool) {
    && Sliced(events, emitted)
    && (if !chatStreaming then events == []
        else !LatchTripped(events) ==> |emitted| <= Offset(|events|))
  }

  /** What the result says about the run, and that it carries exactly what was not forwarded. */
  ghost predicate ReportsRun(posted: Result, plan: Plan, performed: nat, log: Log) {
    && Delivered(log.events) + posted.streamEvents.GetOr([]) == Emitted(plan, performed)
    && posted.progressEvents == Listed(Recorded(plan, performed))
    && posted.preStartFailure == !Started(log)
    && posted.flushMismatch == FlushFailed(log.events, Emitted(plan, performed))
    && (posted.status == Success <==> Succeeded(plan, performed, log) && !posted.flushMismatch)
  }

  /** The same result each time, until one is accepted or four were tried. */
  ghost predicate ResultTried(results: seq<Attempt>, result: Result) {
    && 1 <= |results| <= 4
    && (forall a | a in results :: a.result == result)
    && (forall k | 0 <= k < |results| - 1 :: results[k].outcome != Accepted)
    && (|results| < 4 ==> results[|results| - 1].outcome == Accepted)
  }

  function LastOutcome(results: seq<Attempt>): Outcome {
    if results == [] then Accepted else results[|results| - 1].outcome
  }

  // ----- the job

  class StreamForwarder {
    const gateway: Gateway
    const chatStreaming: bool

    var requests: nat
    var log: Log
    var pendingStreamEvents: seq<Chunk>
    var streamEventForwardingFailed: bool
    var forwardedStreamEventCount: nat
    var protocolDegraded: bool

    constructor (gateway: Gateway, chatStreaming: bool)
      ensures this.gateway == gateway && this.chatStreaming == chatStreaming && Unused()
    {
      this.gateway, this.chatStreaming := gateway, chatStreaming;
      requests, log, pendingStreamEvents := 0, Log([], [], []), [];
      streamEventForwardingFailed, forwardedStreamEventCount, protocolDegraded := false, 0, false;
    }

    ghost predicate Unused()
      reads this
    {
      && requests == 0 && log == Log([], [], []) && pendingStreamEvents == []
      && !streamEventForwardingFailed && forwardedStreamEventCount == 0 && !protocolDegraded
    }

    /** The log after an acknowledged start, with the latch and the 404 mark set from it. */
    ghost predicate Streaming()
      reads this
    {
      && InOrder(log, gateway) && Started(log) && log.results == []
      && requests == 1 + |log.events|
      && streamEventForwardingFailed == LatchTripped(log.events)
      && protocolDegraded == LastNotFound(log.events)
    }

    /** The unsent tail of `emitted` is pending, or the latch has tripped. */
    ghost predicate Tracks(emitted: seq<Chunk>)
      reads this
    {
      && Streaming()
      && Sliced(log.events, emitted)
      && (chatStreaming || log.events == [])
      && (if streamEventForwardingFailed then
            pendingStreamEvents == [] && forwardedStreamEventCount == Offset(|log.events| - 1)
          else if chatStreaming then
            && forwardedStreamEventCount == SliceEnd(emitted, |log.events|)
            && pendingStreamEvents == emitted[forwardedStreamEventCount..]
          else
            pendingStreamEvents == [])
    }

    /** Between two emissions every batch sent is full and less than one batch is pending. */
    ghost predicate Forwarding(emitted: seq<Chunk>)
      reads this
    {
      Tracks(emitted) && Offset(|log.events|) <= |emitted| && |pendingStreamEvents| < STREAM_EVENT_BATCH_SIZE
    }

    method PostJobStart() returns (outcome: Outcome)
      requires Unused()
      modifies this`log, this`requests, this`protocolDegraded
      ensures log == Log([Start(0, outcome)], [], []) && outcome == gateway(0) && requests == 1
      ensures protocolDegraded == (outcome == NotFound)
    {
      outcome := gateway(requests);
      log := log.(starts := log.starts + [Start(requests, outcome)]);
      requests := requests + 1;
      if outcome == NotFound {
        protocolDegraded := true;
      }
    }

    /** Sends what is pending; true means that the 404 error is thrown to the caller. */
    method FlushStreamEvents(ghost emitted: seq<Chunk>) returns (mismatch: bool)
      requires pendingStreamEvents != [] ==>
                 Tracks(emitted) && |pendingStreamEvents| <= STREAM_EVENT_BATCH_SIZE && Offset(|log.events|) <= |emitted|
      modifies this
      ensures if old(pendingStreamEvents) == [] then unchanged(this) && !mismatch
              else && Tracks(emitted) && pendingStreamEvents == []
                   && |log.events| == |old(log.events)| + 1
                   && mismatch == LastNotFound(log.events)
    {
      mismatch := false;
      if |pendingStreamEvents| == 0 || streamEventForwardingFailed {
        return;
      }
      var stream_events := pendingStreamEvents;
      pendingStreamEvents := [];
      var sent := Batch(requests, stream_events, gateway(requests));
      SlicedAppend(log.events, emitted, sent);
      log := log.(events := log.events + [sent]);
      requests := requests + 1;
      match sent.outcome
      case Accepted =>
        forwardedStreamEventCount := forwardedStreamEventCount + |stream_events|;
      case NotFound =>
        streamEventForwardingFailed := true;
        protocolDegraded := true;
        mismatch := true;
      case Refused =>
        streamEventForwardingFailed := true;
    }

    /** The chunk observer; true means that it throws. */
    method OnOpenAIChunk(chunk: Chunk, ghost emitted: seq<Chunk>) returns (mismatch: bool)
      requires Forwarding(emitted)
      modifies this
      ensures Forwarding(emitted + [chunk])
      ensures if log.events == old(log.events) then !mismatch
              else && |log.events| == |old(log.events)| + 1
                   && |emitted| + 1 == Offset(|log.events|)
                   && mismatch == LastNotFound(log.events)
    {
      ghost var more := emitted + [chunk];
      SlicedExtend(log.events, emitted, chunk);
      if !chatStreaming || streamEventForwardingFailed {
        return false;
      }
      assert more[forwardedStreamEventCount..] == emitted[forwardedStreamEventCount..] + [chunk];
      pendingStreamEvents := pendingStreamEvents + [chunk];
      mismatch := false;
      if |pendingStreamEvents| >= STREAM_EVENT_BATCH_SIZE {
        mismatch := FlushStreamEvents(more);
      }
    }
  }

  /** The executor's run: every chunk goes to the observer, and an error it passes on ends the run. */
  method Perform(actions: seq<Action>, forwarder: StreamForwarder)
    returns (streamEvents: seq<Chunk>, progressEvents: seq<string>, performed: nat, thrown: bool)
    requires forwarder.Forwarding([])
    modifies forwarder
    ensures performed <= |actions| && (performed < |actions| ==> thrown)
    ensures streamEvents == ChunksOf(actions[..performed])
    ensures progressEvents == ProgressOf(actions[..performed])
    ensures forwarder.Forwarding(streamEvents)
    ensures thrown == ObserverStopped(actions, performed, forwarder.log.events)
  {
    streamEvents, progressEvents, performed, thrown := [], [], 0, false;
    while performed < |actions| && !thrown
      invariant performed <= |actions|
      invariant streamEvents == ChunksOf(actions[..performed])
      invariant progressEvents == ProgressOf(actions[..performed])
      invariant forwarder.Forwarding(streamEvents)
      invariant thrown == ObserverStopped(actions, performed, forwarder.log.events)
      decreases |actions| - performed
    {
      ActionsNext(actions, performed);
      var action := actions[performed];
      performed := performed + 1;
      match action
      case Progress(event) =>
        progressEvents := progressEvents + [event];
      case Emit(chunk, rethrows) =>
        var mismatch := forwarder.OnOpenAIChunk(chunk, streamEvents);
        streamEvents := streamEvents + [chunk];
        thrown := mismatch && rethrows;
    }
  }

  const REJECTED: Result := Result(Failed, true, false, None, None)

  /**
   The job from acceptance to result. Everything after the start acknowledgement is
   awaited in turn, and any error ends in a failed result instead of escaping.
   */
  method ExecuteJob(plan: Plan, forwarder: StreamForwarder)
    returns (result: Result, performed: nat, telemetry: seq<TelemetryCall>)
    requires forwarder.Unused()
    modifies forwarder
    ensures telemetry == [Begin, Finish(result.status == Success)]
    ensures if plan.Runs? && forwarder.gateway(0) == Accepted then
              && performed <= |plan.actions|
              && (performed < |plan.actions| ==> Stopped(plan, performed, forwarder.log.events))
              && forwarder.Forwarding(Emitted(plan, performed))
              && result == Result(
                   if plan.succeeds && !Stopped(plan, performed, forwarder.log.events) then Success else Failed,
                   false, false, Listed(Emitted(plan, performed)), Listed(Recorded(plan, performed)))
            else
              && performed == 0 && result == REJECTED && forwarder.pendingStreamEvents == []
              && forwarder.log == Log(if plan.Runs? then [Start(0, forwarder.gateway(0))] else [], [], [])
              && forwarder.requests == |forwarder.log.starts|
              && !forwarder.streamEventForwardingFailed
              && forwarder.protocolDegraded == (plan.Runs? && forwarder.gateway(0) == NotFound)
  {
    telemetry := [Begin];
    performed := 0;
    if !plan.Runs? {
      result := REJECTED;
      telemetry := telemetry + [Finish(false)];
      return;
    }
    var start := forwarder.PostJobStart();
    if start != Accepted {
      result := REJECTED;
      telemetry := telemetry + [Finish(false)];
      return;
    }
    var streamEvents, progressEvents, thrown;
    streamEvents, progressEvents, performed, thrown := Perform(plan.actions, forwarder);
    result := Result(if plan.succeeds && !thrown then Success else Failed, false, false,
                     Listed(streamEvents), Listed(progressEvents));
    telemetry := telemetry + [Finish(result.status == Success)];
  }

  /** The final flush, which sends less than a batch, does not change whether the observer stopped the run. */
  lemma {:induction false} FlushKeepsStopped(plan: Plan, performed: nat, before: seq<Batch>, after: seq<Batch>)
    requires after == before
             || (!LatchTripped(before) && |after| == |before| + 1 && |Emitted(plan, performed)| < Offset(|after|))
    ensures Stopped(plan, performed, before) == Stopped(plan, performed, after)
    ensures after != before ==> !Stopped(plan, performed, after)
  {
  }

  /** The result as posted: without the chunks that were already forwarded. */
  function Posted(result: Result, chatStreaming: bool, failed: bool, forwarded: nat): Result {
    if !chatStreaming then result
    else result.(streamEvents := if failed then SliceFrom(result.streamEvents, forwarded) else None)
  }

  function Rewritten(result: Result, mismatch: bool): Result {
    if mismatch then Result(Failed, false, true, result.streamEvents, result.progressEvents) else result
  }

  /** The state after an acknowledged start, execution and final flush. */
  ghost predicate Flushed(log: Log, gateway: Gateway, plan: Plan, chatStreaming: bool, performed: nat, before: seq<Batch>) {
    && plan.Runs? && performed <= |plan.actions|
    && InOrder(log, gateway) && Started(log) && log.results == []
    && StreamedInBatches(log.events, Emitted(plan, performed), chatStreaming)
    && (performed < |plan.actions| ==> Stopped(plan, performed, before))
    && (|| log.events == before
        || (!LatchTripped(before) && |log.events| == |before| + 1
            && |Emitted(plan, performed)| < Offset(|log.events|)))
    && (LastNotFound(before) ==> Offset(|before|) <= |Emitted(plan, performed)|)
  }

  function ExecutedResult(succeeds: bool, stopped: bool, emitted: seq<Chunk>, recorded: seq<string>): Result {
    Result(if succeeds && !stopped then Success else Failed, false, false, Listed(emitted), Listed(recorded))
  }

  lemma {:induction false} ConcludeRun(log: Log, gateway: Gateway, plan: Plan, chatStreaming: bool,
                                       performed: nat, before: seq<Batch>, mismatch: bool, posted: Result)
    requires Flushed(log, gateway, plan, chatStreaming, performed, before)
    requires mismatch == (log.events != before && LastNotFound(log.events))
    requires posted == Posted(
               Rewritten(ExecutedResult(plan.succeeds, Stopped(plan, performed, before),
                                        Emitted(plan, performed), Recorded(plan, performed)), mismatch),
               chatStreaming, LatchTripped(log.events), if LatchTripped(log.events) then Offset(|log.events| - 1) else 0)
    ensures StartedFirst(log, gateway, plan, chatStreaming, performed)
    ensures StreamedInBatches(log.events, Emitted(plan, performed), chatStreaming) && log.results == []
    ensures ReportsRun(posted, plan, performed, log)
    ensures Succeeded(plan, performed, log) == (plan.succeeds && !Stopped(plan, performed, before))
  {
    FlushKeepsStopped(plan, performed, before, log.events);
    ForwardedOnce(log.events, Emitted(plan, performed), chatStreaming, posted.streamEvents);
  }

  /** Nothing was started: at most a refused start request, and a pre-start failure. */
  ghost predicate NotStarted(log: Log, gateway: Gateway, plan: Plan, performed: nat, result: Result) {
    && (plan.Runs? ==> gateway(0) != Accepted)
    && log == Log(if plan.Runs? then [Start(0, gateway(0))] else [], [], [])
    && performed == 0 && result == REJECTED
  }

  lemma ConcludeNothing(log: Log, gateway: Gateway, plan: Plan, chatStreaming: bool, performed: nat,
                        result: Result, posted: Result)
    requires NotStarted(log, gateway, plan, performed, result)
    requires posted == Posted(Rewritten(result, false), chatStreaming, false, 0)
    ensures StartedFirst(log, gateway, plan, chatStreaming, performed)
    ensures StreamedInBatches(log.events, Emitted(plan, performed), chatStreaming) && log.results == []
    ensures ReportsRun(posted, plan, performed, log)
    ensures !Succeeded(plan, performed, log) && result.status == Failed
  {
    assert Emitted(plan, performed) == [] && Recorded(plan, performed) == [];
  }

  /** Execution, then the final flush. */
  method RunAndFlush(plan: Plan, forwarder: StreamForwarder)
    returns (result: Result, ghost before: seq<Batch>, mismatch: bool, performed: nat, telemetry: seq<TelemetryCall>)
    requires forwarder.Unused()
    modifies forwarder
    ensures if plan.Runs? && forwarder.gateway(0) == Accepted then
              && Flushed(forwarder.log, forwarder.gateway, plan, forwarder.chatStreaming, performed, before)
              && mismatch == (forwarder.log.events != before && LastNotFound(forwarder.log.events))
              && result == ExecutedResult(plan.succeeds, Stopped(plan, performed, before),
                                          Emitted(plan, performed), Recorded(plan, performed))
              && (LatchTripped(forwarder.log.events) ==>
                    forwarder.forwardedStreamEventCount == Offset(|forwarder.log.events| - 1))
            else NotStarted(forwarder.log, forwarder.gateway, plan, performed, result) && !mismatch
    ensures forwarder.streamEventForwardingFailed == LatchTripped(forwarder.log.events)
    ensures forwarder.requests == |forwarder.log.starts| + |forwarder.log.events|
    ensures forwarder.protocolDegraded ==
              (forwarder.log.starts == [Start(0, NotFound)] || LastNotFound(forwarder.log.events))
    ensures telemetry == [Begin, Finish(result.status == Success)]
  {
    result, performed, telemetry := ExecuteJob(plan, forwarder);
    before := forwarder.log.events;
    mismatch := forwarder.FlushStreamEvents(Emitted(plan, performed));
  }

  /** Execution, the final flush, and the result as it will be posted. */
  method ExecuteAndFlush(plan: Plan, forwarder: StreamForwarder)
    returns (posted: Result, performed: nat, telemetry: seq<TelemetryCall>)
    requires forwarder.Unused()
    modifies forwarder
    ensures forwarder.log.results == []
    ensures forwarder.requests == |forwarder.log.starts| + |forwarder.log.events|
    ensures StartedFirst(forwarder.log, forwarder.gateway, plan, forwarder.chatStreaming, performed)
    ensures StreamedInBatches(forwarder.log.events, Emitted(plan, performed), forwarder.chatStreaming)
    ensures ReportsRun(posted, plan, performed, forwarder.log)
    ensures forwarder.protocolDegraded ==
              (forwarder.log.starts == [Start(0, NotFound)] || LastNotFound(forwarder.log.events))
    ensures telemetry == [Begin, Finish(Succeeded(plan, performed, forwarder.log))]
  {
    var result, mismatch;
    ghost var before;
    result, before, mismatch, performed, telemetry := RunAndFlush(plan, forwarder);
    posted := Posted(Rewritten(result, mismatch), forwarder.chatStreaming, forwarder.streamEventForwardingFailed,
                     if forwarder.streamEventForwardingFailed then forwarder.forwardedStreamEventCount else 0);
    hide Stopped, Emitted, Recorded, StreamedInBatches, StartedFirst, ReportsRun, Succeeded, Flushed, Posted, Rewritten;
    if plan.Runs? && forwarder.gateway(0) == Accepted {
      ConcludeRun(forwarder.log, forwarder.gateway, plan, forwarder.chatStreaming, performed, before, mismatch, posted);
    } else {
      assert forwarder.log.events == [];
      ConcludeNothing(forwarder.log, forwarder.gateway, plan, forwarder.chatStreaming, performed, result, posted);
    }
  }

  /** Up to four tries; the outcome of the last one decides. */
  method PostJobResult(forwarder: StreamForwarder, posted: Result) returns (last: Outcome)
    requires forwarder.log.results == []
    requires forwarder.requests == |forwarder.log.starts| + |forwarder.log.events|
    requires InOrder(forwarder.log, forwarder.gateway)
    modifies forwarder`log, forwarder`requests
    ensures InOrder(forwarder.log, forwarder.gateway)
    ensures forwarder.log == old(forwarder.log).(results := forwarder.log.results)
    ensures ResultTried(forwarder.log.results, posted)
    ensures last == LastOutcome(forwarder.log.results)
  {
    var attempt := 0;
    last := NotFound;
    while attempt < RESULT_POST_ATTEMPTS
      invariant 0 <= attempt <= RESULT_POST_ATTEMPTS && |forwarder.log.results| == attempt
      invariant forwarder.log == old(forwarder.log).(results := forwarder.log.results)
      invariant forwarder.requests == |forwarder.log.starts| + |forwarder.log.events| + attempt
      invariant InOrder(forwarder.log, forwarder.gateway)
      invariant forall a | a in forwarder.log.results :: a.result == posted && a.outcome != Accepted
      invariant attempt > 0 ==> last == LastOutcome(forwarder.log.results)
    {
      var tried := Attempt(forwarder.requests, posted, forwarder.gateway(forwarder.requests));
      forwarder.log := forwarder.log.(results := forwarder.log.results + [tried]);
      forwarder.requests := forwarder.requests + 1;
      last := tried.outcome;
      if last == Accepted {
        return;
      }
      attempt := attempt + 1;
    }
  }

  /** Does the gateway accept one of four requests, from number `r` on? */
  predicate AcceptedOfFour(gateway: Gateway, r: nat) {
    gateway(r) == Accepted || gateway(r + 1) == Accepted || gateway(r + 2) == Accepted || gateway(r + 3) == Accepted
  }

  /** The first of the four requests that is accepted, or the last. */
  function DecidingRequest(gateway: Gateway, r: nat): nat {
    if gateway(r) == Accepted then r
    else if gateway(r + 1) == Accepted then r + 1
    else if gateway(r + 2) == Accepted then r + 2
    else r + 3
  }

  /** The tries, on the gateway: up to and with the first acceptance, and four without one. */
  lemma TriesReachGateway(log: Log, gateway: Gateway, result: Result)
    requires InOrder(log, gateway) && ResultTried(log.results, result)
    ensures var r := |log.starts| + |log.events|;
            && r + |log.results| == DecidingRequest(gateway, r) + 1
            && LastOutcome(log.results) == gateway(DecidingRequest(gateway, r))
            && (LastOutcome(log.results) == Accepted <==> AcceptedOfFour(gateway, r))
  {
    var r, results := |log.starts| + |log.events|, log.results;
    forall k | 0 <= k < |results| ensures results[k].outcome == gateway(r + k) {
      assert results[k].number == r + k;
    }
    var last := |results| - 1;
    assert results[last].outcome == gateway(r + last);
    if last >= 1 {
      assert results[0].outcome == gateway(r);
    }
    if last >= 2 {
      assert results[1].outcome == gateway(r + 1);
    }
    if last >= 3 {
      assert results[2].outcome == gateway(r + 2);
    }
  }

  /** Batches of eight chunks each, the last one what is left. */
  predicate InEights(events: seq<Batch>, emitted: seq<Chunk>) {
    forall k | 0 <= k < |events| ::
      8 * k < |emitted| && events[k].chunks == emitted[8 * k..Min(8 * k + 8, |emitted|)]
  }

  lemma StreamIsInEights(events: seq<Batch>, emitted: seq<Chunk>, chatStreaming: bool)
    requires StreamedInBatches(events, emitted, chatStreaming)
    ensures InEights(events, emitted)
  {
  }

  lemma OrderOf(log: Log, gateway: Gateway, plan: Plan, chatStreaming: bool, performed: nat)
    requires StartedFirst(log, gateway, plan, chatStreaming, performed)
    ensures InOrder(log, gateway)
  {
  }

  /** Posting the result changes nothing that was said about the run. */
  lemma ResultsKeep(before: Log, log: Log, gateway: Gateway, plan: Plan, chatStreaming: bool, performed: nat, posted: Result)
    requires StartedFirst(before, gateway, plan, chatStreaming, performed) && ReportsRun(posted, plan, performed, before)
    requires log == before.(results := log.results) && InOrder(log, gateway)
    ensures StartedFirst(log, gateway, plan, chatStreaming, performed) && ReportsRun(posted, plan, performed, log)
    ensures Succeeded(plan, performed, log) == Succeeded(plan, performed, before)
  {
  }

  /**
   A claimed job: executed, streamed, flushed and reported. Whatever the gateway refuses,
   every chunk arrives exactly once if the result does, and no event follows a failure.
   */
  method ExecuteRelayJobClaim(plan: Plan, chatStreaming: bool, gateway: Gateway)
    returns (log: Log, posted: Result, ending: Ending, degraded: bool,
             performed: nat, telemetry: seq<TelemetryCall>)
    ensures StartedFirst(log, gateway, plan, chatStreaming, performed)
    ensures StreamedInBatches(log.events, Emitted(plan, performed), chatStreaming)
    ensures ReportsRun(posted, plan, performed, log)
    ensures ResultTried(log.results, posted)
    ensures ending == match LastOutcome(log.results)
                      case Accepted => Reported(posted.status)
                      case NotFound => Reported(Failed)
                      case Refused => Throws
    ensures 1 <= |log.results| <= 4
    ensures var r := |log.starts| + |log.events|;
            && (log.results[|log.results| - 1].outcome == Accepted <==> AcceptedOfFour(gateway, r))
            && (ending == Throws <==> !AcceptedOfFour(gateway, r) && gateway(r + 3) == Refused)
            && (AcceptedOfFour(gateway, r) ==> ending == Reported(posted.status))
    ensures InEights(log.events, Emitted(plan, performed))
    ensures degraded <==> log.starts == [Start(0, NotFound)] || LastNotFound(log.events)
                          || LastOutcome(log.results) == NotFound
    ensures telemetry == [Begin, Finish(Succeeded(plan, performed, log))]
  {
    hide StartedFirst, StreamedInBatches, ReportsRun, AcceptedOfFour, InEights, Succeeded, Emitted, InOrder, DecidingRequest;
    var forwarder := new StreamForwarder(gateway, chatStreaming);
    posted, performed, telemetry := ExecuteAndFlush(plan, forwarder);
    OrderOf(forwarder.log, gateway, plan, chatStreaming, performed);
    StreamIsInEights(forwarder.log.events, Emitted(plan, performed), chatStreaming);
    ghost var before := forwarder.log;
    var last := PostJobResult(forwarder, posted);
    log := forwarder.log;
    ResultsKeep(before, log, gateway, plan, chatStreaming, performed, posted);
    TriesReachGateway(log, gateway, posted);
    degraded := forwarder.protocolDegraded || last == NotFound;
    ending := match last
      case Accepted => Reported(posted.status)
      case NotFound => Reported(Failed)
      case Refused => Throws;
  }
}
