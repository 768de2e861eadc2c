/**
 The daemon as the object the source builds: captured variables that callbacks update
 in place. Each callback is proved to take exactly the step `RelayDaemonModel.Step`
 of its event, and `Play` drives the object over any run, so what `RelayDaemonRuns`
 proves of all runs holds of it.
 */
module RelayDaemonClass {
  import opened Prelude
  import opened RelayDaemonModel
  import Runs = RelayDaemonRuns

  const DEFAULT_JOB_POLL_WAIT_MS: nat := 2000
  const RESERVED_JOB_POLL_WAIT_MS: nat := 250
  const MAX_POLL_EXCLUDED_AGENT_SLUGS: nat := 64

  function Concat(groups: seq<seq<string>>): seq<string> {
    if groups == [] then [] else groups[0] + Concat(groups[1..])
  }

  /** The list without the later repetitions of an element. */
  function FirstOccurrences(names: seq<string>): seq<string> {
    if names == [] then []
    else
      var init := FirstOccurrences(names[..|names| - 1]);
      var last := names[|names| - 1];
      if last in init then init else init + [last]
  }

  lemma {:induction false} FirstOccurrencesOfConcat(names: seq<string>)
    ensures forall x :: x in FirstOccurrences(names) <==> x in names
    ensures forall i, j | 0 <= i < j < |FirstOccurrences(names)| ::
              FirstOccurrences(names)[i] != FirstOccurrences(names)[j]
  {
    if names == [] {
    } else {
      var init := names[..|names| - 1];
      FirstOccurrencesOfConcat(init);
      assert names == init + [names[|names| - 1]];
    }
  }

  lemma {:induction false} FirstOccurrencesGrow(names: seq<string>, more: seq<string>)
    ensures FirstOccurrences(names) <= FirstOccurrences(names + more)
  {
    if more == [] {
      assert names + more == names;
    } else {
      FirstOccurrencesGrow(names, more[..|more| - 1]);
      assert (names + more)[..|names + more| - 1] == names + more[..|more| - 1];
    }
  }

  lemma {:induction false} ConcatSplit(groups: seq<seq<string>>, i: nat)
    requires i <= |groups|
    ensures Concat(groups) == Concat(groups[..i]) + Concat(groups[i..])
  {
    if i == 0 {
      assert groups[..0] == [] && groups[0..] == groups;
    } else {
      ConcatSplit(groups[1..], i - 1);
      assert groups[..i][1..] == groups[1..][..i - 1];
      assert groups[1..][i - 1..] == groups[i..];
    }
  }

  /** Everything before element `k` of group `i`, in reading order. */
  function Before(groups: seq<seq<string>>, i: nat, k: nat): seq<string>
    requires i < |groups| && k <= |groups[i]|
  {
    Concat(groups[..i]) + groups[i][..k]
  }

  lemma BeforeNext(groups: seq<seq<string>>, i: nat, k: nat)
    requires i < |groups| && k < |groups[i]|
    ensures var names := Before(groups, i, k + 1);
            names != [] && names[..|names| - 1] == Before(groups, i, k) && names[|names| - 1] == groups[i][k]
  {
    assert groups[i][..k + 1] == groups[i][..k] + [groups[i][k]];
  }

  lemma BeforeEnds(groups: seq<seq<string>>, i: nat)
    requires i < |groups|
    ensures Before(groups, i, |groups[i]|) == Concat(groups[..i + 1])
    ensures Before(groups, i, 0) == Concat(groups[..i])
  {
    ConcatSplit(groups[..i + 1], i);
    assert groups[..i + 1][..i] == groups[..i];
    assert groups[..i + 1][i..] == [groups[i]];
    assert Concat([groups[i]]) == groups[i] + [];
    assert groups[i][..|groups[i]|] == groups[i];
  }

  lemma BeforeIsPrefix(groups: seq<seq<string>>, i: nat, k: nat)
    requires i < |groups| && k <= |groups[i]|
    ensures FirstOccurrences(Before(groups, i, k)) <= FirstOccurrences(Concat(groups))
  {
    ConcatSplit(groups, i);
    var more := groups[i][k..] + Concat(groups[i + 1..]);
    assert groups[i..][1..] == groups[i + 1..];
    assert groups[i] == groups[i][..k] + groups[i][k..];
    assert Concat(groups) == Before(groups, i, k) + more;
    FirstOccurrencesGrow(Before(groups, i, k), more);
  }

  /** The aliases a poll asks the gateway to leave out: distinct, in order, at most 64. */
  method BoundedRelayAgentAliases(activeAliases: seq<seq<string>>) returns (aliases: seq<string>)
    ensures var all := FirstOccurrences(Concat(activeAliases));
            aliases == all[..Min(64, |all|)]
  {
    aliases := [];
    var i := 0;
    while i < |activeAliases|
      invariant 0 <= i <= |activeAliases|
      invariant aliases == FirstOccurrences(Concat(activeAliases[..i]))
      invariant |aliases| < MAX_POLL_EXCLUDED_AGENT_SLUGS
    {
      var k := 0;
      BeforeEnds(activeAliases, i);
      while k < |activeAliases[i]|
        invariant 0 <= k <= |activeAliases[i]|
        invariant aliases == FirstOccurrences(Before(activeAliases, i, k))
        invariant |aliases| < MAX_POLL_EXCLUDED_AGENT_SLUGS
      {
        BeforeNext(activeAliases, i, k);
        var alias := activeAliases[i][k];
        k := k + 1;
        if alias in aliases {
          continue;
        }
        aliases := aliases + [alias];
        if |aliases| >= MAX_POLL_EXCLUDED_AGENT_SLUGS {
          BeforeIsPrefix(activeAliases, i, k);
          return;
        }
      }
      i := i + 1;
    }
    assert activeAliases[..i] == activeAliases;
  }

  function NamesOf(entries: seq<AliasEntry>): (r: seq<seq<string>>) {
    seq(|entries|, i requires 0 <= i < |entries| => entries[i].names)
  }

  /** The names under which busy agents are known: all of them, and no others. */
  lemma BusyNames(entries: seq<AliasEntry>, name: string)
    ensures name in FirstOccurrences(Concat(NamesOf(entries))) <==> exists e | e in entries :: name in e.names
  {
    var groups := NamesOf(entries);
    FirstOccurrencesOfConcat(Concat(groups));
    InSomeGroup(groups, name);
    if i :| 0 <= i < |groups| && name in groups[i] {
      assert entries[i] in entries && name in entries[i].names;
    }
    if e :| e in entries && name in e.names {
      var i :| 0 <= i < |entries| && entries[i] == e;
      assert name in groups[i];
    }
  }

  lemma {:induction false} InSomeGroup(groups: seq<seq<string>>, name: string)
    ensures name in Concat(groups) <==> exists i :: 0 <= i < |groups| && name in groups[i]
  {
    if groups != [] {
      InSomeGroup(groups[1..], name);
      if i :| 0 <= i < |groups| && name in groups[i] {
        assert i > 0 ==> name in groups[1..][i - 1];
      }
      if i :| 0 <= i < |groups[1..]| && name in groups[1..][i] {
        assert name in groups[i + 1];
      }
    }
  }

  /** What a poll sends: a reserved poll asks only for work of at most the reserved priority. */
  datatype PollRequest = PollRequest(
    waitMs: nat,
    excludedAgentSlugs: Option<seq<string>>,
    maxRequestedPriority: Option<int>)

  class RelayDaemon {
    const limits: Limits
    const reservedPriorityMax: int

    var stopped: bool
    var revoked: bool
    var lifecyclePollingDisabled: bool
    var booted: bool
    var poll: Poll
    var pollTimer: Option<int>
    var relayPollFailureStreak: nat
    var relayExecutionFailureStreak: nat
    var heartbeat: Heartbeat
    var activeRelayExecutions: int
    var activeRegularRelayExecutions: int
    var relayExecutionSequence: nat
    var activeRelayAgentAliases: seq<AliasEntry>
    var running: map<nat, Execution>

    ghost function BooksView(): Books
      reads this
    {
      Books(activeRelayExecutions, activeRegularRelayExecutions, relayExecutionSequence,
            activeRelayAgentAliases, running)
    }

    ghost function View(): State
      reads this
    {
      State(stopped, revoked, lifecyclePollingDisabled, booted, poll, pollTimer,
            relayPollFailureStreak, relayExecutionFailureStreak, heartbeat, BooksView())
    }

    /** `startDaemon` begins with the first heartbeat under way. */
    constructor (config: Config, reservedPriorityMax: int)
      requires ConstructorAccepts(config)
      ensures limits == LimitsOf(config) && this.reservedPriorityMax == reservedPriorityMax
      ensures View() == Initial
    {
      limits := LimitsOf(config);
      this.reservedPriorityMax := reservedPriorityMax;
      stopped, revoked, lifecyclePollingDisabled, booted := false, false, false, false;
      poll, pollTimer, heartbeat := NoPoll, None, Beating;
      relayPollFailureStreak, relayExecutionFailureStreak := 0, 0;
      activeRelayExecutions, activeRegularRelayExecutions, relayExecutionSequence := 0, 0, 0;
      activeRelayAgentAliases, running := [], map[];
    }

    method ClearPollTimer()
      modifies this`pollTimer
      ensures View() == old(View()).(timer := None)
    {
      pollTimer := None;
    }

    method SchedulePoll(now: int, delayMs: int)
      modifies this`pollTimer
      ensures View() == RelayDaemonModel.SchedulePoll(limits, old(View()), now, delayMs)
    {
      if stopped || poll != NoPoll || revoked || lifecyclePollingDisabled || limits.direct
         || activeRelayExecutions >= limits.regular + limits.reserved
      {
        return;
      }
      var dueAt := now + Max(0, delayMs);
      if pollTimer.Some? && pollTimer.value >= dueAt {
        return;
      }
      ClearPollTimer();
      pollTimer := Some(dueAt);
    }

    method NoteRevoked(gone: bool) returns (isGone: bool)
      modifies this`pollTimer, this`revoked
      ensures View() == RelayDaemonModel.NoteRevoked(old(View()), gone) && isGone == gone
    {
      if !gone {
        return false;
      }
      ClearPollTimer();
      if !revoked {
        revoked := true;
      }
      return true;
    }

    method NoteAlive(now: int)
      modifies this`pollTimer, this`revoked, this`relayPollFailureStreak, this`relayExecutionFailureStreak
      ensures View() == RelayDaemonModel.NoteAlive(limits, old(View()), now)
    {
      var recoveredFromRevocation := revoked;
      var relayPollingIsBackedOff :=
        (relayPollFailureStreak > 0 || relayExecutionFailureStreak > 0) && poll == NoPoll;
      if !recoveredFromRevocation && !relayPollingIsBackedOff {
        return;
      }
      if recoveredFromRevocation {
        revoked := false;
      }
      ClearPollTimer();
      relayPollFailureStreak := 0;
      relayExecutionFailureStreak := 0;
      SchedulePoll(now, 0);
    }

    method PollTimerFires(now: int) returns (request: Option<PollRequest>)
      requires Enabled(View(), now, Event.PollTimerFires)
      modifies this
      ensures View() == Step(limits, old(View()), now, Event.PollTimerFires)
      ensures request.Some? <==> old(poll).NoPoll? && poll.InFlight?
      ensures request.Some? ==>
                var slugs := FirstOccurrences(Concat(NamesOf(activeRelayAgentAliases)));
                && request.value.waitMs == (if poll.reservedOnly then 250 else 2000)
                && request.value.maxRequestedPriority ==
                     (if poll.reservedOnly then Some(reservedPriorityMax) else None)
                && request.value.excludedAgentSlugs ==
                     (if limits.reserved > 0
                      then Some(slugs[..Min(64, |slugs|)]) else None)
      ensures request.Some? && Runs.Inv(limits, old(View())) ==>
                request.value.maxRequestedPriority ==
                if limits.reserved > 0 && |Runs.InLane(running, Regular)| == limits.regular
                then Some(reservedPriorityMax) else None
    {
      pollTimer := None;
      if stopped || poll != NoPoll || revoked || lifecyclePollingDisabled || limits.direct
         || activeRelayExecutions >= limits.regular + limits.reserved
      {
        return None;
      }
      var reservedOnly := limits.reserved > 0 && activeRegularRelayExecutions >= limits.regular
                          && activeRelayExecutions < limits.regular + limits.reserved;
      poll := InFlight(reservedOnly);
      var excludedAgentSlugs := BoundedRelayAgentAliases(NamesOf(activeRelayAgentAliases));
      request := Some(PollRequest(
                        if reservedOnly then RESERVED_JOB_POLL_WAIT_MS else DEFAULT_JOB_POLL_WAIT_MS,
                        if limits.reserved > 0 then Some(excludedAgentSlugs) else None,
                        if reservedOnly then Some(reservedPriorityMax) else None));
    }

    method PollResolves(now: int, claim: Option<seq<string>>)
      requires Enabled(View(), now, Event.PollResolves(claim))
      modifies this
      ensures View() == Step(limits, old(View()), now, Event.PollResolves(claim))
    {
      relayPollFailureStreak := 0;
      if claim.Some? {
        var regularLane := !poll.reservedOnly;
        relayExecutionSequence := relayExecutionSequence + 1;
        var executionId := relayExecutionSequence;
        activeRelayExecutions := activeRelayExecutions + 1;
        if regularLane {
          activeRegularRelayExecutions := activeRegularRelayExecutions + 1;
        }
        activeRelayAgentAliases := activeRelayAgentAliases + [AliasEntry(executionId, claim.value)];
        running := running[executionId := Execution(if regularLane then Regular else Reserved, false)];
      }
      poll := Settled;
    }

    method PollRejects(now: int, gone: bool)
      requires Enabled(View(), now, Event.PollRejects(gone))
      modifies this
      ensures View() == Step(limits, old(View()), now, Event.PollRejects(gone))
    {
      poll := Settled;
      var isGone := NoteRevoked(gone);
      if isGone {
        return;
      }
      relayPollFailureStreak := relayPollFailureStreak + 1;
    }

    method CurrentRelayRetryDelayMs() returns (delay: int)
      ensures delay == RetryDelay(View())
    {
      delay := Max(PollRetryDelayMs(relayPollFailureStreak), PollRetryDelayMs(relayExecutionFailureStreak));
    }

    method PollFinally(now: int)
      requires Enabled(View(), now, Event.PollFinally)
      modifies this
      ensures View() == Step(limits, old(View()), now, Event.PollFinally)
    {
      poll := NoPoll;
      if stopped || revoked || lifecyclePollingDisabled
         || activeRelayExecutions >= limits.regular + limits.reserved
      {
        return;
      }
      var delay := CurrentRelayRetryDelayMs();
      SchedulePoll(now, delay);
    }

    method ExecutionResolves(now: int, id: nat)
      requires Enabled(View(), now, Event.ExecutionResolves(id))
      modifies this
      ensures View() == Step(limits, old(View()), now, Event.ExecutionResolves(id))
    {
      running := running[id := running[id].(settled := true)];
      relayExecutionFailureStreak := 0;
    }

    method ExecutionRejects(now: int, id: nat, gone: bool)
      requires Enabled(View(), now, Event.ExecutionRejects(id, gone))
      modifies this
      ensures View() == Step(limits, old(View()), now, Event.ExecutionRejects(id, gone))
    {
      running := running[id := running[id].(settled := true)];
      var isGone := NoteRevoked(gone);
      if isGone {
        return;
      }
      relayExecutionFailureStreak := relayExecutionFailureStreak + 1;
    }

    method ExecutionFinally(now: int, id: nat)
      requires Enabled(View(), now, Event.ExecutionFinally(id))
      modifies this
      ensures View() == Step(limits, old(View()), now, Event.ExecutionFinally(id))
    {
      activeRelayExecutions := Max(0, activeRelayExecutions - 1);
      if running[id].lane == Regular {
        activeRegularRelayExecutions := Max(0, activeRegularRelayExecutions - 1);
      }
      activeRelayAgentAliases := Without(activeRelayAgentAliases, id);
      running := running - {id};
      var delay := CurrentRelayRetryDelayMs();
      SchedulePoll(now, delay);
    }

    method HeartbeatTimerFires(now: int)
      requires Enabled(View(), now, Event.HeartbeatTimerFires)
      modifies this`heartbeat
      ensures View() == Step(limits, old(View()), now, Event.HeartbeatTimerFires)
    {
      heartbeat := Beating;
    }

    method HeartbeatResolves(now: int)
      requires Enabled(View(), now, Event.HeartbeatResolves)
      modifies this
      ensures View() == Step(limits, old(View()), now, Event.HeartbeatResolves)
    {
      heartbeat := BeatSettled;
      NoteAlive(now);
    }

    method HeartbeatRejects(now: int, gone: bool)
      requires Enabled(View(), now, Event.HeartbeatRejects(gone))
      modifies this
      ensures View() == Step(limits, old(View()), now, Event.HeartbeatRejects(gone))
    {
      heartbeat := BeatSettled;
      var _ := NoteRevoked(gone);
    }

    /** Only the first heartbeat also schedules the first poll. */
    method HeartbeatFinally(now: int)
      requires Enabled(View(), now, Event.HeartbeatFinally)
      modifies this
      ensures View() == Step(limits, old(View()), now, Event.HeartbeatFinally)
    {
      var first := !booted;
      heartbeat := if stopped then Off else Waiting;
      booted := true;
      if first {
        SchedulePoll(now, 0);
      }
    }

    method Halt(now: int)
      modifies this
      ensures View() == Step(limits, old(View()), now, Event.Halt)
    {
      stopped := true;
      if heartbeat.Waiting? {
        heartbeat := Off;
      }
      ClearPollTimer();
    }

    /** A 404 on a lifecycle request, or a state file that records one, latches the flag. */
    method DisablePolling(now: int)
      modifies this`lifecyclePollingDisabled
      ensures View() == Step(limits, old(View()), now, Event.PollingDisabled)
    {
      lifecyclePollingDisabled := true;
    }

    /** The event loop runs one callback. */
    method Take(now: int, e: Event)
      requires Enabled(View(), now, e)
      modifies this
      ensures View() == Step(limits, old(View()), now, e)
    {
      hide Step, Enabled;
      match e
      case PollTimerFires =>
        var _ := PollTimerFires(now);
      case PollResolves(claim) => PollResolves(now, claim);
      case PollRejects(gone) => PollRejects(now, gone);
      case PollFinally => PollFinally(now);
      case ExecutionResolves(id) => ExecutionResolves(now, id);
      case ExecutionRejects(id, gone) => ExecutionRejects(now, id, gone);
      case ExecutionFinally(id) => ExecutionFinally(now, id);
      case HeartbeatTimerFires => HeartbeatTimerFires(now);
      case HeartbeatResolves => HeartbeatResolves(now);
      case HeartbeatRejects(gone) => HeartbeatRejects(now, gone);
      case HeartbeatFinally => HeartbeatFinally(now);
      case PollingDisabled => DisablePolling(now);
      case Halt => Halt(now);
    }

    /** The object over a whole run: it goes through the states of the run, and keeps the invariant. */
    method Play(run: seq<Runs.Timed>, ghost states: seq<State>)
      requires Runs.IsRun(limits, run, states) && View() == Initial
      modifies this
      ensures View() == states[|run|] && Runs.Inv(limits, View())
    {
      hide Step, Enabled, Runs.Inv;
      for i := 0 to |run|
        invariant View() == states[i]
      {
        Take(run[i].now, run[i].event);
      }
      Runs.RunKeepsInv(limits, run, states, |run|);
    }
  }
}
