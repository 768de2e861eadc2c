/**
 What the relay daemon does when it may: which lane a poll is for, when the next poll is due,
 what the failure streaks count, and what ends polling. Every statement is about whole runs,
 and about the executions themselves rather than the counters kept about them.
 */
module RelayDaemonPolicy {
  import opened Prelude
  import opened RelayDaemonModel
  import opened RelayDaemonRuns

  // ----- limits and delays

  /** A number rounded down, but at least 1. */
  ghost predicate RoundsTo(x: real, r: nat) {
    if x < 1.0 then r == 1 else r as real <= x < r as real + 1.0
  }

  predicate IsNumber(n: nat, x: real) {
    n as real == x
  }

  /** The limits, number by number: a missing or zero setting falls back to the next one. */
  lemma LimitsAreConfigured(c: Config)
    ensures match c.maxConcurrentJobs
            case Some(x) => if x != 0.0 then RoundsTo(x, JobLimit(c)) else JobLimit(c) == 1
            case None => JobLimit(c) == 1
    ensures match c.maxConcurrentLlmJobs
            case Some(x) => if x != 0.0 then RoundsTo(x, RegularLimit(c)) else RegularLimit(c) == JobLimit(c)
            case None => RegularLimit(c) == JobLimit(c)
    ensures match c.reservedLlmJobs
            case Some(x) => (ReservedLimit(c).Some? <==> exists n: nat :: IsNumber(n, x))
                            && (ReservedLimit(c).Some? ==> IsNumber(ReservedLimit(c).value, x))
            case None => ReservedLimit(c) == Some(0)
    ensures ConstructorAccepts(c) ==>
              LimitsOf(c) == Limits(RegularLimit(c), ReservedLimit(c).value, c.direct)
              && RegularLimit(c) + ReservedLimit(c).value <= JobLimit(c)
  {
    if c.reservedLlmJobs.Some? {
      var x := c.reservedLlmJobs.value;
      if n: nat :| IsNumber(n, x) {
        assert x.Floor == n;
      }
      if ReservedLimit(c).Some? {
        assert IsNumber(x.Floor, x);
      }
    }
  }

  /** The delays of the streaks, in milliseconds. */
  lemma RetryDelays()
    ensures PollRetryDelayMs(0) == 0
    ensures PollRetryDelayMs(1) == 1000 && PollRetryDelayMs(2) == 2000 && PollRetryDelayMs(3) == 4000
    ensures PollRetryDelayMs(4) == 8000 && PollRetryDelayMs(5) == 16000 && PollRetryDelayMs(6) == 32000
    ensures forall n | n >= 7 :: PollRetryDelayMs(n) == 60000
  {
    assert Pow2(2) == 4 && Pow2(4) == 4 * Pow2(2) && Pow2(6) == 4 * Pow2(4);
    forall n | n >= 7 ensures PollRetryDelayMs(n) == 60000 {
      RetryDelayMonotone(7, n);
    }
  }

  // ----- polls

  /** Nothing forbids a poll: the flags are down and an execution slot is free. */
  predicate MayPoll(l: Limits, s: State) {
    && !s.stopped && !s.revoked && !s.pollingDisabled && !l.direct
    && |s.books.running.Keys| < l.regular + l.reserved
  }

  lemma MayPollIsUnblocked(l: Limits, s: State)
    requires Inv(l, s)
    ensures MayPoll(l, s) && s.poll == NoPoll <==> !Blocked(l, s)
  {
  }

  /** The lane of a poll, on the executions in flight: it is for reserved work exactly when there
      is a reserve and the regular lane is full. */
  lemma PollLane(l: Limits, run: seq<Timed>, states: seq<State>, k: nat)
    requires IsRun(l, run, states) && k < |run| && StartsPoll(states[k], states[k + 1])
    ensures states[k + 1].poll ==
              InFlight(l.reserved > 0 && |InLane(states[k].books.running, Regular)| == l.regular)
  {
    RunKeepsInv(l, run, states, k);
    StepStartsPoll(l, states[k], run[k].now, run[k].event);
  }

  /** A timer that fires starts a poll whenever the daemon may poll, and otherwise none. */
  lemma TimerStartsPoll(l: Limits, run: seq<Timed>, states: seq<State>, k: nat)
    requires IsRun(l, run, states) && k < |run| && run[k].event == PollTimerFires
    ensures StartsPoll(states[k], states[k + 1]) <==> MayPoll(l, states[k])
    ensures states[k].poll == NoPoll && states[k + 1].timer.None?
  {
    RunKeepsInv(l, run, states, k);
    MayPollIsUnblocked(l, states[k]);
  }

  /** The longer of the delays of the two streaks. */
  function Backoff(s: State): int {
    Max(PollRetryDelayMs(s.pollStreak), PollRetryDelayMs(s.execStreak))
  }

  /** The timer is due then, or was armed for later already. */
  predicate DueAt(before: Option<int>, after: Option<int>, at: int) {
    after == if before.Some? && before.value >= at then before else Some(at)
  }

  lemma ScheduleArms(l: Limits, s: State, now: int, delay: nat)
    ensures !Blocked(l, SchedulePoll(l, s, now, delay)) ==>
              DueAt(s.timer, SchedulePoll(l, s, now, delay).timer, now + delay)
  {
  }

  lemma PollFinallyArms(l: Limits, s: State, now: int)
    requires Control(l, s) && Enabled(s, now, PollFinally) && !Blocked(l, Step(l, s, now, PollFinally))
    ensures Step(l, s, now, PollFinally).timer == Some(now + Backoff(s))
  {
    hide PollRetryDelayMs;
    ScheduleArms(l, s.(poll := NoPoll), now, RetryDelay(s));
  }

  lemma ExecutionFinallyArms(l: Limits, s: State, now: int, id: nat)
    requires Enabled(s, now, ExecutionFinally(id)) && !Blocked(l, Step(l, s, now, ExecutionFinally(id)))
    ensures DueAt(s.timer, Step(l, s, now, ExecutionFinally(id)).timer, now + Backoff(s))
  {
    hide PollRetryDelayMs;
    ScheduleArms(l, s.(books := s.books.Release(id)), now, RetryDelay(s));
  }

  lemma HeartbeatFinallyArms(l: Limits, s: State, now: int)
    requires Control(l, s) && Enabled(s, now, HeartbeatFinally) && !s.booted
    requires !Blocked(l, Step(l, s, now, HeartbeatFinally))
    ensures Step(l, s, now, HeartbeatFinally).timer == Some(now)
  {
    ScheduleArms(l, ScheduleHeartbeat(s).(booted := true), now, 0);
  }

  lemma RunStep(l: Limits, run: seq<Timed>, states: seq<State>, k: nat)
    requires IsRun(l, run, states) && k < |run|
    ensures Enabled(states[k], run[k].now, run[k].event)
    ensures states[k + 1] == Step(l, states[k], run[k].now, run[k].event)
    ensures Control(l, states[k]) && Inv(l, states[k + 1])
  {
    RunKeepsInv(l, run, states, k);
    RunKeepsInv(l, run, states, k + 1);
  }

  /** When the next poll is due: after a poll, after an execution, after the first heartbeat. */
  lemma NextPollDue(l: Limits, run: seq<Timed>, states: seq<State>, k: nat)
    requires IsRun(l, run, states) && k < |run| && MayPoll(l, states[k + 1]) && states[k + 1].poll == NoPoll
    ensures run[k].event == PollFinally ==> states[k + 1].timer == Some(run[k].now + Backoff(states[k]))
    ensures run[k].event.ExecutionFinally? ==>
              DueAt(states[k].timer, states[k + 1].timer, run[k].now + Backoff(states[k]))
    ensures run[k].event == HeartbeatFinally && !states[k].booted ==> states[k + 1].timer == Some(run[k].now)
  {
    RunStep(l, run, states, k);
    MayPollIsUnblocked(l, states[k + 1]);
    hide IsRun, Inv, Control, Step, Enabled, MayPoll, Blocked, Backoff, DueAt;
    var s, now, e := states[k], run[k].now, run[k].event;
    if e == PollFinally {
      PollFinallyArms(l, s, now);
    } else if e.ExecutionFinally? {
      ExecutionFinallyArms(l, s, now, e.id);
    } else if e == HeartbeatFinally && !s.booted {
      HeartbeatFinallyArms(l, s, now);
    }
  }

  /** There is something to resume: the node was revoked, or backs off while no poll is in flight. */
  predicate HasToResume(s: State) {
    s.revoked || (s.poll == NoPoll && (s.pollStreak > 0 || s.execStreak > 0))
  }

  /** A successful heartbeat ends revocation and backoff, and a poll is due at once; without
      anything to resume it changes nothing of this. */
  lemma HeartbeatResumes(l: Limits, run: seq<Timed>, states: seq<State>, k: nat)
    requires IsRun(l, run, states) && k < |run| && run[k].event == HeartbeatResolves
    ensures var s := states[k];
            var t := states[k + 1];
            if HasToResume(s) then
              && !t.revoked && t.pollStreak == 0 && t.execStreak == 0
              && t.timer == if MayPoll(l, t) && t.poll == NoPoll then Some(run[k].now) else None
            else
              !t.revoked && t.pollStreak == s.pollStreak && t.execStreak == s.execStreak && t.timer == s.timer
  {
    RunKeepsInv(l, run, states, k);
    RunKeepsInv(l, run, states, k + 1);
    MayPollIsUnblocked(l, states[k + 1]);
  }

  /** An armed timer is never more than a minute ahead of the last callback. */
  lemma {:induction false} TimerIsNear(l: Limits, run: seq<Timed>, states: seq<State>, k: nat)
    requires IsRun(l, run, states) && 0 < k <= |run|
    ensures states[k].timer.Some? ==> states[k].timer.value <= run[k - 1].now + 60000
  {
    RetryDelays();
    StepArmsNear(l, states[k - 1], run[k - 1].now, run[k - 1].event);
    if k > 1 {
      TimerIsNear(l, run, states, k - 1);
    }
  }

  lemma StepArmsNear(l: Limits, s: State, now: int, e: Event)
    requires Enabled(s, now, e)
    ensures var t := Step(l, s, now, e).timer;
            t.Some? ==> t == s.timer || t.value <= now + 60000
  {
  }

  // ----- the streaks

  /** How many failures of a kind there were since the last reset. */
  ghost function FailuresSince(run: seq<Timed>, states: seq<State>, kind: FailureKind, k: nat): nat
    requires k <= |run| && |states| == |run| + 1
  {
    if k == 0 || ClearedBy(states[k - 1], run[k - 1].event, kind) then 0
    else FailuresSince(run, states, kind, k - 1) + if FailedBy(run[k - 1].event, kind) then 1 else 0
  }

  /** A success of the kind, or a heartbeat with something to resume. */
  predicate ClearedBy(s: State, e: Event, kind: FailureKind) {
    match e
    case PollResolves(_) => kind == PollFailure
    case ExecutionResolves(_) => kind == ExecutionFailure
    case HeartbeatResolves => HasToResume(s)
    case _ => false
  }

  /** A failure other than the 410 that retires the node. */
  predicate FailedBy(e: Event, kind: FailureKind) {
    match e
    case PollRejects(gone) => kind == PollFailure && !gone
    case ExecutionRejects(_, gone) => kind == ExecutionFailure && !gone
    case _ => false
  }

  /** The streaks are what they are meant to be. */
  lemma {:induction false} StreaksCount(l: Limits, run: seq<Timed>, states: seq<State>, kind: FailureKind, k: nat)
    requires IsRun(l, run, states) && k <= |run|
    ensures Streak(states[k], kind) == FailuresSince(run, states, kind, k)
  {
    if k > 0 {
      StreaksCount(l, run, states, kind, k - 1);
      StepCounts(l, states[k - 1], run[k - 1].now, run[k - 1].event, kind);
    }
  }

  lemma StepCounts(l: Limits, s: State, now: int, e: Event, kind: FailureKind)
    requires Enabled(s, now, e)
    ensures Streak(Step(l, s, now, e), kind) ==
              if ClearedBy(s, e, kind) then 0 else Streak(s, kind) + if FailedBy(e, kind) then 1 else 0
  {
  }

  // ----- what ends polling

  predicate Retires(e: Event) {
    match e
    case PollRejects(gone) => gone
    case ExecutionRejects(_, gone) => gone
    case HeartbeatRejects(gone) => gone
    case _ => false
  }

  lemma StepRetires(l: Limits, s: State, now: int, e: Event)
    requires Enabled(s, now, e)
    ensures Retires(e) ==> Step(l, s, now, e).revoked
    ensures s.revoked && !e.HeartbeatResolves? ==> Step(l, s, now, e).revoked
    ensures s.pollingDisabled || e == PollingDisabled ==> Step(l, s, now, e).pollingDisabled
  {
  }

  /** After a 410 no poll starts until a heartbeat succeeds. */
  lemma {:induction false} RetiredUntilHeartbeat(l: Limits, run: seq<Timed>, states: seq<State>, i: nat, k: nat)
    requires IsRun(l, run, states) && i < k <= |run| && Retires(run[i].event)
    requires forall m | i < m < k :: !run[m].event.HeartbeatResolves?
    ensures states[k].revoked && states[k].timer.None?
    ensures k < |run| ==> !StartsPoll(states[k], states[k + 1])
  {
    hide Inv, Step, Enabled, StartsPoll;
    if k > i + 1 {
      RetiredUntilHeartbeat(l, run, states, i, k - 1);
    }
    StepRetires(l, states[k - 1], run[k - 1].now, run[k - 1].event);
    RunKeepsInv(l, run, states, k);
    RevokedIsSilent(l, states[k]);
    if k < |run| && StartsPoll(states[k], states[k + 1]) {
      PollStartsOnlyFromTimer(l, run, states, k);
    }
  }

  lemma RevokedIsSilent(l: Limits, s: State)
    requires Inv(l, s)
    ensures s.revoked ==> s.timer.None?
  {
  }

  /** Once polling is disabled, no poll ever starts again. */
  lemma {:induction false} DisabledForGood(l: Limits, run: seq<Timed>, states: seq<State>, i: nat, k: nat)
    requires IsRun(l, run, states) && i < k <= |run| && run[i].event == PollingDisabled
    ensures states[k].pollingDisabled
    ensures k < |run| ==> !StartsPoll(states[k], states[k + 1])
  {
    hide Inv, Step, Enabled, StartsPoll;
    if k > i + 1 {
      DisabledForGood(l, run, states, i, k - 1);
    }
    StepRetires(l, states[k - 1], run[k - 1].now, run[k - 1].event);
    if k < |run| && StartsPoll(states[k], states[k + 1]) {
      PollStartsOnlyFromTimer(l, run, states, k);
    }
  }
}
