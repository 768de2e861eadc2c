/**
 Relay jobs and generic jobs running side by side: whatever the order in which their calls
 reach the counters of active executions, the counters are the executions in flight.
 */
module ExecutionInterleaving {
  import opened ExecutionTelemetry
  import GenericJobs
  import RelayJob

  /** One execution: of `executeJob`, in the class that was resolved for it, or of `executeGenericJob`. */
  datatype JobRun =
    | Relay(class_: Class, ok: bool)
    | Generic(plan: GenericJobs.Plan, observer: GenericJobs.Observer)

  function ClassOf(job: JobRun): Class {
    if job.Relay? then job.class_ else GenericJob
  }

  /** The promise of a generic job rejects: the condition on its plan and its observer. */
  predicate Rejecting(job: JobRun) {
    job.Generic? && GenericJobs.PromiseRejects(job.plan, job.observer)
  }

  /** What an execution tells the counters, from its start to its end. */
  function CallsOf(job: JobRun): seq<TelemetryCall> {
    match job
    case Relay(_, ok) => [Begin, Finish(ok)]
    case Generic(plan, observer) => GenericJobs.Telemetry(plan, observer)
  }

  /** A relay job makes these calls, whatever its executor and the gateway do. */
  method RunRelay(class_: Class, plan: RelayJob.Plan, chatStreaming: bool, gateway: RelayJob.Gateway)
    returns (job: JobRun, telemetry: seq<TelemetryCall>)
    ensures job.Relay? && ClassOf(job) == class_ && telemetry == CallsOf(job)
  {
    var log, posted, ending, degraded, performed, calls := RelayJob.ExecuteRelayJobClaim(plan, chatStreaming, gateway);
    job, telemetry := Relay(class_, calls[1].ok), calls;
  }

  /** So does a generic job, whatever its runner and its observer do. */
  method RunGeneric(plan: GenericJobs.Plan, observer: GenericJobs.Observer, codeOf: GenericJobs.CodeOf)
    returns (job: JobRun, telemetry: seq<TelemetryCall>, rejects: bool)
    ensures job == Generic(plan, observer) && telemetry == CallsOf(job)
    ensures rejects <==> Rejecting(job)
  {
    var running := new GenericJobs.Job(observer, codeOf);
    var status;
    status, rejects, telemetry := running.Execute(plan);
    job := Generic(plan, observer);
  }

  // ----- interleavings

  /** An execution takes two steps that matter here: it begins, and it ends, by its second call or
      by rejecting without one. Other failures may be reported in between. */
  datatype Move =
    | Next(id: nat, code: string, latency: int)
    | Report(failure: Failure)

  function Times(moves: seq<Move>, id: nat): nat {
    if moves == [] then 0
    else
      var last := moves[|moves| - 1];
      Times(moves[..|moves| - 1], id) + if last.Next? && last.id == id then 1 else 0
  }

  /** Any order of the steps of all jobs, each job's own in order; jobs may still be under way. */
  ghost predicate Interleaves(jobs: seq<JobRun>, moves: seq<Move>) {
    forall k | 0 <= k < |moves| && moves[k].Next? ::
      moves[k].id < |jobs| && Times(moves[..k], moves[k].id) < 2
  }

  function EventOf(jobs: seq<JobRun>, before: seq<Move>, move: Move): Event
    requires move.Next? ==> move.id < |jobs|
  {
    match move
    case Report(failure) => Reports(failure)
    case Next(id, code, latency) =>
      if Times(before, id) == 0 then Begins(id, ClassOf(jobs[id]))
      else if |CallsOf(jobs[id])| == 2 then Finishes(id, CallsOf(jobs[id])[1].ok, code, latency)
      else Escapes(id)
  }

  ghost function EventsOf(jobs: seq<JobRun>, moves: seq<Move>): (events: seq<Event>)
    requires Interleaves(jobs, moves)
    ensures |events| == |moves|
  {
    if moves == [] then []
    else
      var init, last := moves[..|moves| - 1], moves[|moves| - 1];
      assert forall k | 0 <= k < |init| :: init[..k] == moves[..k];
      EventsOf(jobs, init) + [EventOf(jobs, init, last)]
  }

  /** An execution has two calls and ends with the second, or one and ends by rejecting. */
  lemma CallsAre(job: JobRun)
    ensures if Rejecting(job) then CallsOf(job) == [Begin]
            else exists ok :: CallsOf(job) == [Begin, Finish(ok)]
  {
    if !Rejecting(job) {
      assert CallsOf(job) == [Begin, Finish(CallsOf(job)[1].ok)];
    }
  }

  /** The state says which jobs have begun and not ended, and which have rejected. */
  ghost predicate Describes(jobs: seq<JobRun>, moves: seq<Move>, s: State) {
    && (forall id: nat :: id in s.running <==> id < |jobs| && Times(moves, id) == 1)
    && (forall id | id in s.running :: s.running[id] == ClassOf(jobs[id]))
    && (forall id: nat :: id in s.escaped <==> id < |jobs| && Times(moves, id) == 2 && Rejecting(jobs[id]))
    && (forall id: nat :: Times(moves, id) <= 2)
  }

  lemma TimesNext(moves: seq<Move>, move: Move, id: nat)
    ensures Times(moves + [move], id) == Times(moves, id) + if move.Next? && move.id == id then 1 else 0
  {
    assert (moves + [move])[..|moves|] == moves;
  }

  /** The next call of any job is one the counters can take, and leaves the state right. */
  lemma StepDescribes(jobs: seq<JobRun>, moves: seq<Move>, move: Move, s: State)
    requires Describes(jobs, moves, s)
    requires move.Next? ==> move.id < |jobs| && Times(moves, move.id) < 2
    ensures Enabled(s, EventOf(jobs, moves, move))
    ensures Describes(jobs, moves + [move], Step(s, EventOf(jobs, moves, move)))
  {
    hide CallsOf, Rejecting, ClassOf, Times, LastOf, FirstOf;
    if move.Next? {
      CallsAre(jobs[move.id]);
      RejectingIsGeneric(jobs[move.id]);
    }
    forall id: nat
      ensures Times(moves + [move], id) == Times(moves, id) + if move.Next? && move.id == id then 1 else 0
    {
      TimesNext(moves, move, id);
    }
  }

  lemma RejectingIsGeneric(job: JobRun)
    ensures Rejecting(job) ==> ClassOf(job) == GenericJob
  {
  }

  lemma InterleavesInit(jobs: seq<JobRun>, moves: seq<Move>, k: nat)
    requires Interleaves(jobs, moves) && k <= |moves|
    ensures Interleaves(jobs, moves[..k])
    ensures EventsOf(jobs, moves)[..k] == EventsOf(jobs, moves[..k])
    decreases |moves|
  {
    forall i | 0 <= i < k ensures moves[..k][..i] == moves[..i] {}
    if k < |moves| {
      var init := moves[..|moves| - 1];
      forall i | 0 <= i < |init| ensures init[..i] == moves[..i] {}
      InterleavesInit(jobs, init, k);
      assert init[..k] == moves[..k];
    } else {
      assert moves[..k] == moves;
    }
  }

  lemma {:induction false} StatesOf(jobs: seq<JobRun>, moves: seq<Move>) returns (states: seq<State>)
    requires Interleaves(jobs, moves)
    ensures IsRun(EventsOf(jobs, moves), states) && Describes(jobs, moves, states[|moves|])
  {
    if moves == [] {
      states := [Initial()];
    } else {
      hide Describes, Step, Enabled;
      var init, last := moves[..|moves| - 1], moves[|moves| - 1];
      assert moves == init + [last];
      InterleavesInit(jobs, moves, |init|);
      var before := StatesOf(jobs, init);
      StepDescribes(jobs, init, last, before[|init|]);
      states := before + [Step(before[|init|], EventOf(jobs, init, last))];
    }
  }

  lemma {:induction false} RunIsUnique(events: seq<Event>, a: seq<State>, b: seq<State>, k: nat)
    requires IsRun(events, a) && IsRun(events, b) && k <= |events|
    ensures a[k] == b[k]
  {
    hide Step, Enabled;
    if k > 0 {
      RunIsUnique(events, a, b, k - 1);
    }
  }

  /** Every interleaving is a run of the counters, and only one. */
  lemma InterleavingIsRun(jobs: seq<JobRun>, moves: seq<Move>)
    requires Interleaves(jobs, moves)
    ensures exists states :: IsRun(EventsOf(jobs, moves), states)
    ensures forall states | IsRun(EventsOf(jobs, moves), states) :: Describes(jobs, moves, states[|moves|])
  {
    var states := StatesOf(jobs, moves);
    forall other | IsRun(EventsOf(jobs, moves), other) ensures Describes(jobs, moves, other[|moves|]) {
      RunIsUnique(EventsOf(jobs, moves), states, other, |moves|);
    }
  }

  // ----- balance

  /** The executions of a class that have begun and not ended. */
  function InFlight(jobs: seq<JobRun>, moves: seq<Move>, c: Class): set<nat> {
    set id | 0 <= id < |jobs| && Times(moves, id) == 1 && ClassOf(jobs[id]) == c
  }

  ghost predicate SomeRejected(jobs: seq<JobRun>, moves: seq<Move>) {
    exists id: nat :: id < |jobs| && Times(moves, id) == 2 && Rejecting(jobs[id])
  }

  /**
   Balanced accounting: over every interleaving of relay and generic jobs the chat and agentic
   counters are the executions in flight, and the generic counter is, if and only if no generic job
   has ended whose observer rejected its failure.
   */
  lemma BalancedInterleaving(jobs: seq<JobRun>, moves: seq<Move>, states: seq<State>)
    requires Interleaves(jobs, moves) && IsRun(EventsOf(jobs, moves), states)
    ensures var s := states[|moves|];
            && s.activeChat == |InFlight(jobs, moves, Chat)|
            && s.activeAgentic == |InFlight(jobs, moves, Agentic)|
            && (s.activeGeneric == |InFlight(jobs, moves, GenericJob)| <==> !SomeRejected(jobs, moves))
  {
    hide EscapedBefore;
    var events := EventsOf(jobs, moves);
    var s := states[|moves|];
    InterleavingIsRun(jobs, moves);
    BalancedAccounting(events, states, |moves|);
    EscapedMeansEvent(events, states, |moves|);
    InFlightIsRunning(jobs, moves, s);
    assert SomeRejected(jobs, moves) <==> s.escaped.Keys != {} by {
      if id :| id in s.escaped {
        assert Times(moves, id) == 2;
      }
    }
  }

  lemma InFlightIsRunning(jobs: seq<JobRun>, moves: seq<Move>, s: State)
    requires Describes(jobs, moves, s)
    ensures forall c :: OfClass(s.running, c) == InFlight(jobs, moves, c)
  {
  }

  /** What is advertised over an interleaving: the room that the jobs in flight leave. */
  lemma AdvertisedRoom(c: Config, jobs: seq<JobRun>, moves: seq<Move>, states: seq<State>,
                       queuedLlm: nat, queuedGeneric: nat)
    requires Interleaves(jobs, moves) && IsRun(EventsOf(jobs, moves), states)
    ensures var load := BuildLoadTelemetry(c, states[|moves|], queuedLlm, queuedGeneric);
            var llm := |InFlight(jobs, moves, Chat) + InFlight(jobs, moves, Agentic)|;
            && load.chat.activeJobs == |InFlight(jobs, moves, Chat)|
            && load.agentic.activeJobs == |InFlight(jobs, moves, Agentic)|
            && Honest(load.chat, llm, queuedLlm, c.drainMode)
            && Honest(load.agentic, llm, queuedLlm, c.drainMode)
            && (!SomeRejected(jobs, moves) ==>
                  Honest(load.genericJob, |InFlight(jobs, moves, GenericJob)|, queuedGeneric,
                         c.drainMode || !c.genericJobsEnabled))
  {
    hide EscapedBefore, BuildLoadTelemetry, Honest, LimitsAreConfigured;
    var events := EventsOf(jobs, moves);
    InterleavingIsRun(jobs, moves);
    LoadIsHonest(c, events, states, |moves|, queuedLlm, queuedGeneric);
    EscapedMeansEvent(events, states, |moves|);
    InFlightIsRunning(jobs, moves, states[|moves|]);
    if id :| id in states[|moves|].escaped {
      assert Times(moves, id) == 2;
    }
    assert events[..|moves|] == events;
  }

  /** The clamp at zero never acts: a job that finishes is counted. */
  lemma FinishingJobIsCounted(jobs: seq<JobRun>, moves: seq<Move>, states: seq<State>, k: nat)
    requires Interleaves(jobs, moves) && IsRun(EventsOf(jobs, moves), states) && k < |moves|
    requires moves[k].Next? && Times(moves[..k], moves[k].id) == 1 && !Rejecting(jobs[moves[k].id])
    ensures Active(states[k], ClassOf(jobs[moves[k].id])) >= 1
  {
    var events := EventsOf(jobs, moves);
    InterleavesInit(jobs, moves, k + 1);
    assert moves[..k + 1][..k] == moves[..k];
    assert events[k] == events[..k + 1][k] == EventOf(jobs, moves[..k], moves[k]);
    CallsAre(jobs[moves[k].id]);
    ClampNeverActs(events, states, k);
    InterleavesInit(jobs, moves, k);
    assert IsRun(EventsOf(jobs, moves[..k]), states[..k + 1]) by {
      assert forall i | 0 <= i < k :: EventsOf(jobs, moves[..k])[i] == events[i];
    }
    InterleavingIsRun(jobs, moves[..k]);
    assert Describes(jobs, moves[..k], states[..k + 1][k]);
  }

  ghost predicate GenericExact(jobs: seq<JobRun>, moves: seq<Move>, states: seq<State>)
    requires Interleaves(jobs, moves) && IsRun(EventsOf(jobs, moves), states)
  {
    states[|moves|].activeGeneric == |InFlight(jobs, moves, GenericJob)|
  }

  /** A job that rejects stays counted when it has ended. */
  lemma RejectedStaysCounted(jobs: seq<JobRun>, id: nat) returns (moves: seq<Move>, states: seq<State>)
    requires id < |jobs| && Rejecting(jobs[id])
    ensures Interleaves(jobs, moves) && IsRun(EventsOf(jobs, moves), states) && !GenericExact(jobs, moves, states)
    ensures InFlight(jobs, moves, GenericJob) == {}
  {
    hide Rejecting, IsRun;
    var move := Next(id, "", 0);
    moves := [move, move];
    assert moves == [move] + [move] && [move] == [] + [move];
    assert moves[..0] == [] && moves[..1] == [move];
    TimesNext([], move, id);
    TimesNext([move], move, id);
    assert Times(moves[..0], id) == 0 && Times(moves[..1], id) == 1 && Times(moves, id) == 2;
    assert Interleaves(jobs, moves);
    forall other: nat | other != id ensures Times(moves, other) == 0 {
      TimesNext([], move, other);
      TimesNext([move], move, other);
    }
    states := StatesOf(jobs, moves);
    BalancedInterleaving(jobs, moves, states);
    assert SomeRejected(jobs, moves);
  }

  /**
   The condition, on the jobs alone: the generic counter is right over all interleavings, if and only
   if no generic job has a plan and an observer with which its promise rejects.
   */
  lemma GenericExactIff(jobs: seq<JobRun>)
    ensures (forall moves, states | Interleaves(jobs, moves) && IsRun(EventsOf(jobs, moves), states) ::
               GenericExact(jobs, moves, states))
            <==> forall id | 0 <= id < |jobs| :: !Rejecting(jobs[id])
  {
    hide Rejecting, IsRun, Interleaves;
    if id :| 0 <= id < |jobs| && Rejecting(jobs[id]) {
      var moves, states := RejectedStaysCounted(jobs, id);
    } else {
      forall moves, states | Interleaves(jobs, moves) && IsRun(EventsOf(jobs, moves), states)
        ensures GenericExact(jobs, moves, states)
      {
        BalancedInterleaving(jobs, moves, states);
      }
    }
  }
}
