/**
 One owner-local generic job: its numbered events, its result, and what it tells the
 counters of active executions, whatever its event observer does.
 */
module GenericJobs {
  import opened ExecutionTelemetry

  /** `Runner` stands for an event of any type that the runner itself emits. */
  datatype Kind = Started | Runner(note: string) | Artifact | Completed | Failed | Cancelled

  datatype JobEvent = JobEvent(sequence: nat, kind: Kind)

  datatype Status = Succeeded | JobFailed | JobCancelled

  /** `refusal` is the failure found before a runner is started, if any; the runner then either throws
      or returns a status, and the outputs are collected or not. */
  datatype Refusal = Accepted | Refused(code: string)
  datatype Outcome = RunnerThrows | RunnerReturns(status: Status, collects: bool, artifacts: nat)
  datatype Plan = Plan(refusal: Refusal, runnerEvents: seq<string>, outcome: Outcome)

  /** Does the observer accept the event with this number, or reject it? */
  type Observer = nat -> bool

  /** The code under which an error is reported that was thrown after so many events. */
  type CodeOf = nat -> string

  predicate Numbered(events: seq<JobEvent>) {
    forall i | 0 <= i < |events| :: events[i].sequence == i
  }

  predicate IsReport(kind: Kind) {
    kind.Completed? || kind.Failed? || kind.Cancelled?
  }

  /** A report that is not the last event was rejected by the observer. */
  predicate OneReport(events: seq<JobEvent>, observer: Observer) {
    forall i | 0 <= i < |events| - 1 && IsReport(events[i].kind) :: !observer(i)
  }

  /** The result that goes with the last event. */
  predicate Fits(kind: Kind, status: Status) {
    match kind
    case Completed => status == Succeeded
    case Failed => status != Succeeded
    case Cancelled => status == JobCancelled
    case _ => false
  }

  /** The events of an undisturbed run, before its report. */
  function Script(plan: Plan): seq<Kind> {
    [Started] + seq(|plan.runnerEvents|, i requires 0 <= i < |plan.runnerEvents| => Runner(plan.runnerEvents[i]))
    + if plan.outcome.RunnerReturns? then seq(plan.outcome.artifacts, _ => Artifact) else []
  }

  /** How far the script is played: a rejected event of the job's own, or an error, ends it. */
  predicate StopsAt(plan: Plan, observer: Observer, n: nat) {
    var ran := 1 + |plan.runnerEvents|;
    if plan.refusal.Refused? then n == 0
    else if !observer(0) then n == 1
    else if plan.outcome.RunnerThrows? || !plan.outcome.collects then n == ran
    else
      && ran <= n <= ran + plan.outcome.artifacts
      && (forall i | ran <= i < n - 1 :: observer(i))
      && (n < ran + plan.outcome.artifacts ==> ran < n && !observer(n - 1))
  }

  /** The whole script is played: no error, and none of the job's own events is rejected. */
  predicate Completes(plan: Plan, observer: Observer) {
    var ran := 1 + |plan.runnerEvents|;
    && plan.refusal.Accepted? && plan.outcome.RunnerReturns? && plan.outcome.collects
    && observer(0) && forall i | ran <= i < ran + plan.outcome.artifacts :: observer(i)
  }

  predicate Succeeds(plan: Plan, observer: Observer) {
    && Completes(plan, observer) && plan.outcome.status == Succeeded
    && observer(1 + |plan.runnerEvents| + plan.outcome.artifacts)
  }

  /** The script as far as it was played, then nothing but reports. */
  predicate Plays(plan: Plan, observer: Observer, events: seq<JobEvent>, n: nat) {
    && StopsAt(plan, observer, n) && n <= |events| && n <= |Script(plan)|
    && (forall i | 0 <= i < n :: events[i].kind == Script(plan)[i])
    && (forall i | n <= i < |events| :: IsReport(events[i].kind))
  }

  // ----- the whole outcome, from the plan and the observer alone

  /** The number of output events until one is rejected, which is the last. */
  function ArtifactsPlayed(observer: Observer, at: nat, artifacts: nat): (n: nat)
    ensures n <= artifacts
    ensures forall i | at <= i < at + n - 1 :: observer(i)
    ensures n < artifacts ==> n > 0 && !observer(at + n - 1)
    decreases artifacts
  {
    if artifacts == 0 then 0
    else if !observer(at) then 1
    else
      1 + ArtifactsPlayed(observer, at + 1, artifacts - 1)
  }

  /** Where the script stops. */
  function StopPoint(plan: Plan, observer: Observer): nat {
    var ran := 1 + |plan.runnerEvents|;
    if plan.refusal.Refused? then 0
    else if !observer(0) then 1
    else if plan.outcome.RunnerThrows? || !plan.outcome.collects then ran
    else ran + ArtifactsPlayed(observer, ran, plan.outcome.artifacts)
  }

  /** There is exactly one point where the script can stop. */
  lemma StopsAtOnce(plan: Plan, observer: Observer, n: nat)
    ensures StopsAt(plan, observer, n) <==> n == StopPoint(plan, observer)
    ensures StopPoint(plan, observer) <= |Script(plan)|
  {
  }

  function FailureKind(code: string): Kind {
    if code == "cancelled" then Cancelled else Failed
  }

  function FailureStatus(code: string): Status {
    if code == "cancelled" then JobCancelled else JobFailed
  }

  /** The reports after the script: one, or a second one when the observer rejects the first of a
      completed run. */
  function FinalReports(plan: Plan, observer: Observer, codeOf: CodeOf): seq<Kind> {
    var n := StopPoint(plan, observer);
    if plan.refusal.Refused? then [FailureKind(plan.refusal.code)]
    else if !Completes(plan, observer) then [FailureKind(codeOf(n))]
    else
      [if plan.outcome.status == Succeeded then Completed else Failed]
      + if observer(n) then [] else [FailureKind(codeOf(n + 1))]
  }

  /** The events of the job, all of them. */
  predicate Transcribed(plan: Plan, observer: Observer, codeOf: CodeOf, events: seq<JobEvent>) {
    var n := StopPoint(plan, observer);
    var reports := FinalReports(plan, observer, codeOf);
    && n <= |Script(plan)| && |events| == n + |reports|
    && (forall i | 0 <= i < n :: events[i].kind == Script(plan)[i])
    && (forall i | 0 <= i < |reports| :: events[n + i].kind == reports[i])
  }

  /**
   The promise rejects: the observer rejects the report of a failure. After a completed run that is
   the second report, so the observer must reject two events in a row; otherwise it is the only one.
   */
  predicate PromiseRejects(plan: Plan, observer: Observer) {
    var n := StopPoint(plan, observer);
    !observer(n) && (Completes(plan, observer) ==> !observer(n + 1))
  }

  /** What the job tells the counters of active executions. */
  function Telemetry(plan: Plan, observer: Observer): seq<TelemetryCall> {
    if PromiseRejects(plan, observer) then [Begin] else [Begin, Finish(Succeeds(plan, observer))]
  }

  /** A job that is refused escapes an observer that rejects its only event, and no other. */
  lemma RefusedEscapes(code: string, runnerEvents: seq<string>, outcome: Outcome, observer: Observer)
    ensures PromiseRejects(Plan(Refused(code), runnerEvents, outcome), observer) <==> !observer(0)
    ensures Telemetry(Plan(Refused(code), runnerEvents, outcome), n => n != 0) == [Begin]
  {
  }

  /** A successful run of a silent runner escapes an observer that rejects its report and the
      failure report after it; one rejection alone is survived. */
  lemma CompletedEscapes(artifacts: nat)
    ensures var plan := Plan(Accepted, [], RunnerReturns(Succeeded, true, artifacts));
            var n := 1 + artifacts;
            PromiseRejects(plan, i => i < n) && !PromiseRejects(plan, i => i != n) && !PromiseRejects(plan, i => i != n + 1)
  {
    var plan := Plan(Accepted, [], RunnerReturns(Succeeded, true, artifacts));
    var n := 1 + artifacts;
    StopsAtOnce(plan, i => i < n, n);
    StopsAtOnce(plan, i => i != n, n);
    StopsAtOnce(plan, i => i != n + 1, n);
  }

  lemma PlaysOn(plan: Plan, observer: Observer, events: seq<JobEvent>, report: JobEvent, n: nat)
    requires Plays(plan, observer, events, n) && IsReport(report.kind)
    ensures Plays(plan, observer, events + [report], n)
  {
    hide StopsAt, Script;
  }

  lemma ScriptHasNoReports(plan: Plan, observer: Observer, events: seq<JobEvent>)
    requires Plays(plan, observer, events, |events|)
    ensures forall i | 0 <= i < |events| :: !IsReport(events[i].kind)
  {
    hide StopsAt;
    assert forall i | 0 <= i < |Script(plan)| :: !IsReport(Script(plan)[i]);
  }

  lemma TranscriptEnds(plan: Plan, observer: Observer, codeOf: CodeOf, before: seq<JobEvent>, events: seq<JobEvent>, n: nat)
    requires plan.refusal.Accepted? && Plays(plan, observer, before, n)
    requires |before| == if Completes(plan, observer) then n + 1 else n
    requires Completes(plan, observer) ==>
               before[n].kind == if plan.outcome.status == Succeeded then Completed else Failed
    requires events == if Completes(plan, observer) && observer(n) then before
                       else before + [JobEvent(|before|, FailureKind(codeOf(|before|)))]
    ensures Transcribed(plan, observer, codeOf, events) && n == StopPoint(plan, observer)
  {
    StopsAtOnce(plan, observer, n);
    hide StopsAt, StopPoint, Completes, Script;
  }

  class Job {
    const observer: Observer
    const codeOf: CodeOf
    var events: seq<JobEvent>
    var sequence: nat

    constructor (observer: Observer, codeOf: CodeOf)
      ensures this.observer == observer && this.codeOf == codeOf
      ensures events == [] && sequence == 0
    {
      this.observer, this.codeOf := observer, codeOf;
      events, sequence := [], 0;
    }

    ghost predicate Valid()
      reads this
    {
      sequence == |events| && Numbered(events)
    }

    /** `emitEvent`: the number is taken before the observer is awaited. */
    method EmitEvent(kind: Kind) returns (rejected: bool)
      requires Valid()
      modifies this
      ensures Valid() && events == old(events) + [JobEvent(old(sequence), kind)]
      ensures rejected <==> !observer(old(sequence))
    {
      var next := JobEvent(sequence, kind);
      sequence := sequence + 1;
      events := events + [next];
      rejected := !observer(next.sequence);
    }

    /** `failed`: reports the failure, and only then counts the execution as finished. */
    method ReportFailed(code: string) returns (status: Status, escapes: bool, telemetry: seq<TelemetryCall>)
      requires Valid()
      modifies this
      ensures Valid()
      ensures events == old(events) + [JobEvent(old(sequence), if code == "cancelled" then Cancelled else Failed)]
      ensures status == if code == "cancelled" then JobCancelled else JobFailed
      ensures escapes <==> !observer(old(sequence))
      ensures telemetry == if escapes then [] else [Finish(false)]
    {
      status := if code == "cancelled" then JobCancelled else JobFailed;
      escapes := EmitEvent(if code == "cancelled" then Cancelled else Failed);
      telemetry := [];
      if !escapes {
        telemetry := [Finish(false)];
      }
    }

    method PlayRunner(plan: Plan)
      requires Valid() && |events| == 1 && events[0].kind == Started
      modifies this
      ensures Valid() && |events| == 1 + |plan.runnerEvents|
      ensures forall j | 0 <= j < |events| :: events[j].kind == Script(plan)[j]
    {
      for i := 0 to |plan.runnerEvents|
        invariant Valid() && |events| == 1 + i
        invariant forall j | 0 <= j < |events| :: events[j].kind == Script(plan)[j]
      {
        // whether the runner survives a rejected event is part of its outcome
        var _ := EmitEvent(Runner(plan.runnerEvents[i]));
      }
    }

    method PlayArtifacts(artifacts: nat) returns (thrown: bool)
      requires Valid()
      modifies this
      ensures Valid() && |old(events)| <= |events| <= |old(events)| + artifacts
      ensures events[..|old(events)|] == old(events)
      ensures forall j | |old(events)| <= j < |events| :: events[j].kind == Artifact
      ensures forall j | |old(events)| <= j < |events| - 1 :: observer(j)
      ensures if thrown then |old(events)| < |events| && !observer(|events| - 1)
              else |events| == |old(events)| + artifacts && (artifacts > 0 ==> observer(|events| - 1))
    {
      thrown := false;
      for i := 0 to artifacts
        invariant Valid() && |events| == |old(events)| + i && events[..|old(events)|] == old(events)
        invariant forall j | |old(events)| <= j < |events| :: events[j].kind == Artifact && observer(j)
      {
        thrown := EmitEvent(Artifact);
        if thrown {
          return;
        }
      }
    }

    /** The started event, the runner's events and the outputs. */
    method PlayScript(plan: Plan) returns (thrown: bool)
      requires Valid() && events == [] && plan.refusal.Accepted?
      modifies this
      ensures Valid() && events != [] && Plays(plan, observer, events, |events|)
      ensures !thrown ==> plan.outcome.RunnerReturns? && |events| == 1 + |plan.runnerEvents| + plan.outcome.artifacts
      ensures thrown <==> !Completes(plan, observer)
    {
      thrown := EmitEvent(Started);
      if thrown {
        return;
      }
      PlayRunner(plan);
      if plan.outcome.RunnerThrows? || !plan.outcome.collects {
        thrown := true;
        return;
      }
      thrown := PlayArtifacts(plan.outcome.artifacts);
    }

    /** The body of the `try`: the script, then the final event. */
    method RunAndReport(plan: Plan) returns (thrown: bool, status: Status, ghost played: nat)
      requires Valid() && events == [] && plan.refusal.Accepted?
      modifies this
      ensures Valid() && OneReport(events, observer)
      ensures Plays(plan, observer, events, played)
      ensures !thrown && status == Succeeded <==> Succeeds(plan, observer)
      ensures |events| == if Completes(plan, observer) then played + 1 else played
      ensures Completes(plan, observer) ==>
                events[played].kind == if plan.outcome.status == Succeeded then Completed else Failed
      ensures thrown <==> !(Completes(plan, observer) && observer(played))
      ensures thrown ==> events != [] && (IsReport(events[|events| - 1].kind) ==> !observer(|events| - 1))
      ensures !thrown ==> events != [] && Fits(events[|events| - 1].kind, status) && observer(|events| - 1)
    {
      status := JobFailed;
      thrown := PlayScript(plan);
      played := |events|;
      ScriptHasNoReports(plan, observer, events);
      if thrown {
        return;
      }
      hide Plays, Completes;
      status := plan.outcome.status;
      ghost var before := events;
      thrown := EmitEvent(if status == Succeeded then Completed else Failed);
      PlaysOn(plan, observer, before, events[|before|], played);
    }

    /** `executeGenericJob`: its events, its result and what it tells the counters, for every observer.
        If the promise rejects, the execution is never counted as finished. */
    method Execute(plan: Plan) returns (status: Status, escapes: bool, telemetry: seq<TelemetryCall>)
      requires Valid() && events == []
      modifies this
      ensures Numbered(events) && events != [] && OneReport(events, observer)
      ensures Transcribed(plan, observer, codeOf, events)
      ensures Fits(events[|events| - 1].kind, status)
      ensures status == Succeeded <==> Succeeds(plan, observer)
      ensures escapes <==> PromiseRejects(plan, observer)
      ensures telemetry == Telemetry(plan, observer)
    {
      telemetry := [Begin];
      if plan.refusal.Refused? {
        var more;
        status, escapes, more := ReportFailed(plan.refusal.code);
        telemetry := telemetry + more;
        return;
      }
      hide Plays, Transcribed, FinalReports, StopPoint, Completes;
      var thrown;
      ghost var played;
      thrown, status, played := RunAndReport(plan);
      ghost var before := events;
      if thrown {
        var more;
        status, escapes, more := ReportFailed(codeOf(sequence));
        telemetry := telemetry + more;
        TranscriptEnds(plan, observer, codeOf, before, events, played);
        return;
      }
      TranscriptEnds(plan, observer, codeOf, before, events, played);
      escapes := false;
      telemetry := telemetry + [Finish(status == Succeeded)];
    }
  }
}
