/**
 The node's counters of active executions, and the load that it advertises to the scheduler.
 */
module ExecutionTelemetry {
  import opened Prelude

  /** What one execution tells the counters; see the modules of the two kinds of job. */
  datatype TelemetryCall = Begin | Finish(ok: bool)

  datatype Class = Chat | Agentic | GenericJob

  datatype Failure = Failure(class_: Class, code: string)

  const MAX_TELEMETRY_LATENCY_SAMPLES := 50
  const MAX_TELEMETRY_FAILURES := 20

  /** `running` and `escaped` are the truth that the counters are measured against: the executions
      in flight, and those that ended with an exception before they reported their end. */
  datatype State = State(
    activeChat: int,
    activeAgentic: int,
    activeGeneric: int,
    latencies: seq<int>,
    failures: seq<Failure>,
    running: map<nat, Class>,
    escaped: map<nat, Class>,
    allLatencies: seq<int>,
    allFailures: seq<Failure>)

  function Initial(): State {
    State(0, 0, 0, [], [], map[], map[], [], [])
  }

  datatype Event =
    | Begins(id: nat, class_: Class)
    | Finishes(id: nat, ok: bool, code: string, latency: int)
    | Reports(failure: Failure)  // a class or a protocol that the node does not know
    | Escapes(id: nat)

  /** An execution begins once and finishes at most once, and only a generic job can end without
      reporting it. `ExecutionInterleaving.InterleavingIsRun` derives this from the jobs. */
  predicate Enabled(s: State, e: Event) {
    match e
    case Begins(id, _) => id !in s.running && id !in s.escaped
    case Finishes(id, _, _, _) => id in s.running
    case Reports(_) => true
    case Escapes(id) => id in s.running && s.running[id] == GenericJob
  }

  function Active(s: State, c: Class): int {
    match c
    case Chat => s.activeChat
    case Agentic => s.activeAgentic
    case GenericJob => s.activeGeneric
  }

  function WithActive(s: State, c: Class, n: int): State {
    match c
    case Chat => s.(activeChat := n)
    case Agentic => s.(activeAgentic := n)
    case GenericJob => s.(activeGeneric := n)
  }

  function LastOf<T>(xs: seq<T>, n: nat): seq<T> {
    if |xs| <= n then xs else xs[|xs| - n..]
  }

  function FirstOf<T>(xs: seq<T>, n: nat): seq<T> {
    if |xs| <= n then xs else xs[..n]
  }

  function Noted(s: State, f: Failure): State {
    s.(failures := FirstOf([f] + s.failures, MAX_TELEMETRY_FAILURES), allFailures := [f] + s.allFailures)
  }

  function Step(s: State, e: Event): State
    requires Enabled(s, e)
  {
    match e
    case Begins(id, c) => WithActive(s, c, Active(s, c) + 1).(running := s.running[id := c])
    case Finishes(id, ok, code, latency) =>
      var c := s.running[id];
      var t := WithActive(s, c, Max(0, Active(s, c) - 1)).(
        running := s.running - {id},
        latencies := LastOf(s.latencies + [Max(0, latency)], MAX_TELEMETRY_LATENCY_SAMPLES),
        allLatencies := s.allLatencies + [Max(0, latency)]);
      if ok then t else Noted(t, Failure(c, if code == "" then "upstream_error" else code))
    case Reports(failure) => Noted(s, failure)
    case Escapes(id) => s.(running := s.running - {id}, escaped := s.escaped[id := GenericJob])
  }

  // ----- the class that keeps the counters

  class NodeTelemetry {
    var activeChatJobs: int
    var activeAgenticJobs: int
    var activeGenericJobs: int
    var latencySamplesMs: seq<int>
    var recentFailures: seq<Failure>
    ghost var running: map<nat, Class>
    ghost var escaped: map<nat, Class>
    ghost var allLatencies: seq<int>
    ghost var allFailures: seq<Failure>

    ghost function View(): State
      reads this
    {
      State(activeChatJobs, activeAgenticJobs, activeGenericJobs, latencySamplesMs, recentFailures,
            running, escaped, allLatencies, allFailures)
    }

    constructor ()
      ensures View() == Initial()
    {
      activeChatJobs, activeAgenticJobs, activeGenericJobs := 0, 0, 0;
      latencySamplesMs, recentFailures, running, escaped := [], [], map[], map[];
      allLatencies, allFailures := [], [];
    }

    method BeginExecutionTelemetry(ghost id: nat, class_: Class)
      requires Enabled(View(), Begins(id, class_))
      modifies this
      ensures View() == Step(old(View()), Begins(id, class_))
    {
      running := running[id := class_];
      if class_ == GenericJob {
        activeGenericJobs := activeGenericJobs + 1;
        return;
      }
      if class_ == Agentic {
        activeAgenticJobs := activeAgenticJobs + 1;
        return;
      }
      activeChatJobs := activeChatJobs + 1;
    }

    method FinishExecutionTelemetry(ghost id: nat, class_: Class, latency: int, ok: bool, code: string)
      requires Enabled(View(), Finishes(id, ok, code, latency)) && class_ == running[id]
      modifies this
      ensures View() == Step(old(View()), Finishes(id, ok, code, latency))
    {
      running := running - {id};
      if class_ == GenericJob {
        activeGenericJobs := Max(0, activeGenericJobs - 1);
      } else if class_ == Agentic {
        activeAgenticJobs := Max(0, activeAgenticJobs - 1);
      } else {
        activeChatJobs := Max(0, activeChatJobs - 1);
      }
      AddSample(Max(0, latency));
      allLatencies := allLatencies + [Max(0, latency)];
      if !ok {
        ReportFailure(Failure(class_, if code == "" then "upstream_error" else code));
      }
    }

    method AddSample(latency: int)
      modifies `latencySamplesMs
      ensures latencySamplesMs == LastOf(old(latencySamplesMs) + [latency], MAX_TELEMETRY_LATENCY_SAMPLES)
    {
      ghost var samples := latencySamplesMs + [latency];
      latencySamplesMs := latencySamplesMs + [latency];
      while |latencySamplesMs| > MAX_TELEMETRY_LATENCY_SAMPLES
        invariant |latencySamplesMs| <= |samples| && latencySamplesMs == samples[|samples| - |latencySamplesMs|..]
        invariant |samples| > MAX_TELEMETRY_LATENCY_SAMPLES ==> |latencySamplesMs| >= MAX_TELEMETRY_LATENCY_SAMPLES
        invariant |samples| <= MAX_TELEMETRY_LATENCY_SAMPLES ==> latencySamplesMs == samples
      {
        latencySamplesMs := latencySamplesMs[1..];
      }
    }

    method ReportFailure(failure: Failure)
      modifies `recentFailures, `allFailures
      ensures View() == Step(old(View()), Reports(failure))
    {
      recentFailures := FirstOf([failure] + recentFailures, MAX_TELEMETRY_FAILURES);
      allFailures := [failure] + allFailures;
    }
  }

  // ----- balanced accounting, over every interleaving

  function OfClass(executions: map<nat, Class>, c: Class): set<nat> {
    set id | id in executions && executions[id] == c
  }

  ghost predicate Counted(s: State, c: Class) {
    Active(s, c) == |OfClass(s.running, c)| + |OfClass(s.escaped, c)|
  }

  ghost predicate Inv(s: State) {
    && (forall c :: Counted(s, c))
    && OfClass(s.escaped, Chat) == OfClass(s.escaped, Agentic) == {}
    && s.running.Keys !! s.escaped.Keys
    && s.latencies == LastOf(s.allLatencies, MAX_TELEMETRY_LATENCY_SAMPLES)
    && s.failures == FirstOf(s.allFailures, MAX_TELEMETRY_FAILURES)
  }

  lemma OfClassAdd(executions: map<nat, Class>, id: nat, c: Class, d: Class)
    requires id !in executions
    ensures OfClass(executions[id := c], d) == if c == d then OfClass(executions, d) + {id} else OfClass(executions, d)
  {
  }

  lemma OfClassRemove(executions: map<nat, Class>, id: nat, d: Class)
    requires id in executions
    ensures OfClass(executions - {id}, d) == OfClass(executions, d) - {id}
    ensures id in OfClass(executions, d) <==> executions[id] == d
  {
  }

  lemma FinishKeepsCount(s: State, e: Event, c: Class)
    requires Enabled(s, e) && e.Finishes? && Counted(s, c) && Counted(s, s.running[e.id])
    ensures Counted(Step(s, e), c)
    ensures Active(s, s.running[e.id]) >= 1
  {
    hide LastOf, FirstOf, OfClass;
    OfClassRemove(s.running, e.id, c);
    OfClassRemove(s.running, e.id, s.running[e.id]);
  }

  lemma EscapeKeepsCount(s: State, e: Event, c: Class)
    requires Enabled(s, e) && e.Escapes? && Counted(s, c) && e.id !in s.escaped
    ensures Counted(Step(s, e), c)
  {
    hide LastOf, FirstOf;
    OfClassRemove(s.running, e.id, c);
    OfClassAdd(s.escaped, e.id, GenericJob, c);
  }

  lemma BeginKeepsCount(s: State, e: Event, c: Class)
    requires Enabled(s, e) && e.Begins? && Counted(s, c)
    ensures Counted(Step(s, e), c)
  {
    hide LastOf, FirstOf;
    OfClassAdd(s.running, e.id, e.class_, c);
  }

  lemma ReportKeepsCount(s: State, e: Event, c: Class)
    requires e.Reports? && Counted(s, c)
    ensures Counted(Step(s, e), c)
  {
  }

  lemma StepKeepsCount(s: State, e: Event, c: Class)
    requires Inv(s) && Enabled(s, e)
    ensures Counted(Step(s, e), c)
  {
    hide Counted;
    match e
    case Begins(_, _) => BeginKeepsCount(s, e, c);
    case Finishes(_, _, _, _) => FinishKeepsCount(s, e, c);
    case Reports(_) => ReportKeepsCount(s, e, c);
    case Escapes(_) => EscapeKeepsCount(s, e, c);
  }

  lemma StepKeepsInv(s: State, e: Event)
    requires Inv(s) && Enabled(s, e)
    ensures Inv(Step(s, e))
  {
    hide Counted;
    forall c ensures Counted(Step(s, e), c) {
      StepKeepsCount(s, e, c);
    }
    if e.Escapes? {
      OfClassAdd(s.escaped, e.id, GenericJob, Chat);
      OfClassAdd(s.escaped, e.id, GenericJob, Agentic);
    }
  }

  ghost predicate IsRun(events: seq<Event>, states: seq<State>) {
    && |states| == |events| + 1
    && states[0] == Initial()
    && forall i | 0 <= i < |events| :: Enabled(states[i], events[i]) && states[i + 1] == Step(states[i], events[i])
  }

  lemma {:induction false} RunKeepsInv(events: seq<Event>, states: seq<State>, k: nat)
    requires IsRun(events, states) && k <= |events|
    ensures Inv(states[k])
  {
    if k == 0 {
      assert forall c :: OfClass(states[0].running, c) == {} && OfClass(states[0].escaped, c) == {};
    } else {
      RunKeepsInv(events, states, k - 1);
      StepKeepsInv(states[k - 1], events[k - 1]);
    }
  }

  predicate EscapedBefore(events: seq<Event>) {
    exists i | 0 <= i < |events| :: events[i].Escapes?
  }

  lemma {:induction false} EscapedMeansEvent(events: seq<Event>, states: seq<State>, k: nat)
    requires IsRun(events, states) && k <= |events|
    ensures states[k].escaped.Keys != {} <==> EscapedBefore(events[..k])
  {
    if k > 0 {
      hide EscapedBefore;
      EscapedMeansEvent(events, states, k - 1);
      assert events[..k] == events[..k - 1] + [events[k - 1]];
      OneMoreEvent(events[..k - 1], events[k - 1]);
      StepEscapes(states[k - 1], events[k - 1]);
    } else {
      assert !EscapedBefore(events[..k]);
    }
  }

  lemma OneMoreEvent(before: seq<Event>, e: Event)
    ensures EscapedBefore(before + [e]) <==> EscapedBefore(before) || e.Escapes?
  {
    var now := before + [e];
    assert now[|before|] == e;
    assert forall i | 0 <= i < |before| :: now[i] == before[i];
  }

  lemma StepEscapes(s: State, e: Event)
    requires Enabled(s, e)
    ensures Step(s, e).escaped.Keys == if e.Escapes? then s.escaped.Keys + {e.id} else s.escaped.Keys
  {
  }

  /** The counters of chat and agentic work are always the executions in flight; the counter of
      generic jobs is, if and only if no generic job has ended with an exception. */
  lemma BalancedAccounting(events: seq<Event>, states: seq<State>, k: nat)
    requires IsRun(events, states) && k <= |events|
    ensures states[k].activeChat == |OfClass(states[k].running, Chat)|
    ensures states[k].activeAgentic == |OfClass(states[k].running, Agentic)|
    ensures states[k].activeGeneric == |OfClass(states[k].running, GenericJob)| <==> !EscapedBefore(events[..k])
    ensures states[k].activeGeneric >= |OfClass(states[k].running, GenericJob)|
  {
    RunKeepsInv(events, states, k);
    EscapedMeansEvent(events, states, k);
    var s := states[k];
    assert Counted(s, Chat) && Counted(s, Agentic) && Counted(s, GenericJob);
    if s.escaped.Keys != {} {
      var id :| id in s.escaped;
      assert s.escaped[id] == GenericJob by {
        assert id in OfClass(s.escaped, s.escaped[id]);
      }
      assert id in OfClass(s.escaped, GenericJob);
    } else {
      assert OfClass(s.escaped, GenericJob) == {};
    }
  }

  /** `Math.max(0, n - 1)` is `n - 1` whenever an execution finishes. */
  lemma ClampNeverActs(events: seq<Event>, states: seq<State>, k: nat)
    requires IsRun(events, states) && k < |events| && events[k].Finishes?
    ensures Active(states[k], states[k].running[events[k].id]) >= 1
  {
    RunKeepsInv(events, states, k);
    FinishKeepsCount(states[k], events[k], Chat);
  }

  // ----- the history of a run, told by its events alone

  function Before(events: seq<Event>): seq<Event>
    requires events != []
  {
    events[..|events| - 1]
  }

  /** The latencies of the executions that finished, never below zero, oldest first. */
  function Latencies(events: seq<Event>): seq<int> {
    if events == [] then []
    else match events[|events| - 1]
      case Finishes(_, _, _, latency) => Latencies(Before(events)) + [if latency < 0 then 0 else latency]
      case _ => Latencies(Before(events))
  }

  /** The class with which an execution began. */
  function BegunAs(events: seq<Event>, id: nat): Class {
    if events == [] then Chat
    else match events[|events| - 1]
      case Begins(begun, c) => if begun == id then c else BegunAs(Before(events), id)
      case _ => BegunAs(Before(events), id)
  }

  /** The failed executions and the failures reported without one, newest first. */
  function FailuresOf(events: seq<Event>): seq<Failure> {
    if events == [] then []
    else match events[|events| - 1]
      case Finishes(id, false, "", _) => [Failure(BegunAs(events, id), "upstream_error")] + FailuresOf(Before(events))
      case Finishes(id, false, code, _) => [Failure(BegunAs(events, id), code)] + FailuresOf(Before(events))
      case Reports(failure) => [failure] + FailuresOf(Before(events))
      case _ => FailuresOf(Before(events))
  }

  lemma {:induction false} RunningAsBegun(events: seq<Event>, states: seq<State>, k: nat, id: nat)
    requires IsRun(events, states) && k <= |events| && id in states[k].running
    ensures states[k].running[id] == BegunAs(events[..k], id)
  {
    hide LastOf, FirstOf;
    assert Before(events[..k]) == events[..k - 1];
    if id in states[k - 1].running && !(events[k - 1].Begins? && events[k - 1].id == id) {
      RunningAsBegun(events, states, k - 1, id);
    }
  }

  lemma {:induction false} HistoryIsTold(events: seq<Event>, states: seq<State>, k: nat)
    requires IsRun(events, states) && k <= |events|
    ensures states[k].allLatencies == Latencies(events[..k])
    ensures states[k].allFailures == FailuresOf(events[..k])
  {
    hide LastOf, FirstOf;
    if k > 0 {
      assert Before(events[..k]) == events[..k - 1];
      HistoryIsTold(events, states, k - 1);
      if events[k - 1].Finishes? {
        RunningAsBegun(events, states, k - 1, events[k - 1].id);
      }
    }
  }

  /** In every reachable state, the samples are the last 50 latencies, oldest first, and the
      failures the last 20, newest first. */
  lemma RecentHistory(events: seq<Event>, states: seq<State>, k: nat)
    requires IsRun(events, states) && k <= |events|
    ensures var all, kept := Latencies(events[..k]), states[k].latencies;
            |kept| == (if |all| < 50 then |all| else 50) && kept == all[|all| - |kept|..]
    ensures var all, kept := FailuresOf(events[..k]), states[k].failures;
            |kept| == (if |all| < 20 then |all| else 20) && kept == all[..|kept|]
  {
    RunKeepsInv(events, states, k);
    HistoryIsTold(events, states, k);
  }

  // ----- the advertised load

  datatype Config = Config(
    maxConcurrentJobs: Option<int>,
    maxConcurrentLlmJobs: Option<int>,
    genericJobMaxConcurrency: Option<int>,
    genericJobsEnabled: bool,
    drainMode: bool)

  datatype Capacity = Capacity(maxConcurrency: int, activeJobs: int, queuedJobs: int, freeSlots: int)

  datatype Load = Load(total: Capacity, chat: Capacity, agentic: Capacity, genericJob: Capacity)

  /** JavaScript's `||` on a number that may be missing. */
  function Or(n: Option<int>, other: int): int {
    if n.Some? && n.value != 0 then n.value else other
  }

  function ExecutionClassCapacity(maxConcurrency: int, activeJobs: int, poolActiveJobs: Option<int>,
                                  queuedJobs: int, drainMode: bool): Capacity {
    var limit := Max(1, maxConcurrency);
    var active := Max(0, activeJobs);
    var queued := Max(0, queuedJobs);
    Capacity(limit, active, queued,
             if drainMode then 0 else Max(0, limit - Max(0, poolActiveJobs.GetOr(activeJobs)) - queued))
  }

  function LlmMaxConcurrency(c: Config): int {
    Max(1, Or(c.maxConcurrentLlmJobs, Or(c.maxConcurrentJobs, 1)))
  }

  function GenericMaxConcurrency(c: Config): int {
    Max(1, Or(c.genericJobMaxConcurrency, 1))
  }

  function BuildLoadTelemetry(c: Config, s: State, queuedLlm: int, queuedGeneric: int): Load {
    var llmMax := LlmMaxConcurrency(c);
    var genericMax := GenericMaxConcurrency(c);
    var maxConcurrency := Max(Max(1, Or(c.maxConcurrentJobs, 1)), Max(llmMax, if c.genericJobsEnabled then genericMax else 1));
    var activeChat, activeAgentic := Max(0, s.activeChat), Max(0, s.activeAgentic);
    var activeLlm := activeChat + activeAgentic;
    var activeGeneric := Max(0, s.activeGeneric);
    var qLlm, qGeneric := Max(0, queuedLlm), Max(0, queuedGeneric);
    var active, queued := activeLlm + activeGeneric, qLlm + qGeneric;
    Load(
      Capacity(maxConcurrency, active, queued,
               if c.drainMode then 0 else Max(0, maxConcurrency - active - queued)),
      ExecutionClassCapacity(llmMax, activeChat, Some(activeLlm), qLlm, c.drainMode),
      ExecutionClassCapacity(llmMax, activeAgentic, Some(activeLlm), qLlm, c.drainMode),
      ExecutionClassCapacity(genericMax, activeGeneric, None, qGeneric, c.drainMode || !c.genericJobsEnabled))
  }

  /** Free slots promised for a pool are room that its running and queued jobs really leave. */
  predicate Honest(p: Capacity, inFlight: nat, queued: nat, closed: bool) {
    p.freeSlots == if closed || p.maxConcurrency <= inFlight + queued then 0 else p.maxConcurrency - inFlight - queued
  }

  /** The first of some settings that is present and not zero, but at least 1; and 1 if there is none. */
  predicate FirstSet(settings: seq<Option<int>>, r: int) {
    if settings == [] then r == 1
    else if settings[0] == None || settings[0] == Some(0) then FirstSet(settings[1..], r)
    else r >= 1 && r >= settings[0].value && (r == 1 || r == settings[0].value)
  }

  predicate IsGreatest(r: int, values: set<int>) {
    r in values && forall v | v in values :: v <= r
  }

  /** What each class may run at once, read off the configuration. */
  ghost predicate LimitsAreConfigured(c: Config, load: Load) {
    && FirstSet([c.maxConcurrentLlmJobs, c.maxConcurrentJobs], load.chat.maxConcurrency)
    && load.agentic.maxConcurrency == load.chat.maxConcurrency
    && FirstSet([c.genericJobMaxConcurrency], load.genericJob.maxConcurrency)
    && exists jobs :: FirstSet([c.maxConcurrentJobs], jobs) &&
         IsGreatest(load.total.maxConcurrency,
                    {jobs, load.chat.maxConcurrency} + if c.genericJobsEnabled then {load.genericJob.maxConcurrency} else {})
  }

  lemma BuiltFromConfig(c: Config, s: State, queuedLlm: int, queuedGeneric: int)
    ensures LimitsAreConfigured(c, BuildLoadTelemetry(c, s, queuedLlm, queuedGeneric))
  {
    var load := BuildLoadTelemetry(c, s, queuedLlm, queuedGeneric);
    var ofJobs := [c.maxConcurrentJobs];
    assert ofJobs[1..] == [];
    var ofLlm := [c.maxConcurrentLlmJobs, c.maxConcurrentJobs];
    assert ofLlm[1..] == ofJobs;
    var ofGeneric := [c.genericJobMaxConcurrency];
    assert ofGeneric[1..] == [];
    assert FirstSet(ofJobs, Max(1, Or(c.maxConcurrentJobs, 1)));
  }

  /** In every reachable state, each class advertises its configured limit, the executions of that
      class in flight and the queue of its pool. Chat and agentic work share a pool, and
      advertise the same room: what all executions in flight leave of it. The counts of
      generic jobs and of all jobs are right, too, as long as no generic job has ended with an exception. */
  lemma LoadIsHonest(c: Config, events: seq<Event>, states: seq<State>, k: nat, queuedLlm: nat, queuedGeneric: nat)
    requires IsRun(events, states) && k <= |events|
    ensures var load := BuildLoadTelemetry(c, states[k], queuedLlm, queuedGeneric);
            var running := states[k].running;
            var llm := |OfClass(running, Chat) + OfClass(running, Agentic)|;
            && LimitsAreConfigured(c, load)
            && load.chat.activeJobs == |OfClass(running, Chat)|
            && load.agentic.activeJobs == |OfClass(running, Agentic)|
            && load.chat.queuedJobs == load.agentic.queuedJobs == queuedLlm
            && load.genericJob.queuedJobs == queuedGeneric
            && load.total.queuedJobs == queuedLlm + queuedGeneric
            && Honest(load.chat, llm, queuedLlm, c.drainMode)
            && Honest(load.agentic, llm, queuedLlm, c.drainMode)
            && (!EscapedBefore(events[..k]) ==>
                  && load.genericJob.activeJobs == |OfClass(running, GenericJob)|
                  && load.total.activeJobs == |running.Keys|
                  && Honest(load.total, |running.Keys|, queuedLlm + queuedGeneric, c.drainMode)
                  && Honest(load.genericJob, |OfClass(running, GenericJob)|, queuedGeneric,
                            c.drainMode || !c.genericJobsEnabled))
  {
    hide EscapedBefore, LimitsAreConfigured;
    BalancedAccounting(events, states, k);
    CountClasses(states[k].running);
    BuiltFromConfig(c, states[k], queuedLlm, queuedGeneric);
  }

  lemma CountClasses(running: map<nat, Class>)
    ensures |OfClass(running, Chat) + OfClass(running, Agentic)| == |OfClass(running, Chat)| + |OfClass(running, Agentic)|
    ensures |running.Keys| == |OfClass(running, Chat)| + |OfClass(running, Agentic)| + |OfClass(running, GenericJob)|
  {
    assert OfClass(running, Chat) !! OfClass(running, Agentic);
    assert (OfClass(running, Chat) + OfClass(running, Agentic)) !! OfClass(running, GenericJob);
    assert running.Keys == OfClass(running, Chat) + OfClass(running, Agentic) + OfClass(running, GenericJob);
  }
}
