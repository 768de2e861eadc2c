/**
 What holds in every run of the relay daemon, whatever the order of its callbacks.
 */
module RelayDaemonRuns {
  import opened Prelude
  import opened RelayDaemonModel

  // ----- the invariant of one state

  function InLane(running: map<nat, Execution>, lane: Lane): set<nat> {
    set id | id in running && running[id].lane == lane
  }

  function Ids(entries: seq<AliasEntry>): set<nat> {
    set e | e in entries :: e.id
  }

  ghost predicate Ascending(entries: seq<AliasEntry>) {
    forall i, j | 0 <= i < j < |entries| :: entries[i].id < entries[j].id
  }

  ghost predicate Counted(running: map<nat, Execution>, active: int, activeRegular: int) {
    && active == |running.Keys|
    && activeRegular == |InLane(running, Regular)|
    && active - activeRegular == |InLane(running, Reserved)|
  }

  ghost predicate Tabled(aliases: seq<AliasEntry>, ids: set<nat>) {
    Ids(aliases) == ids && Ascending(aliases)
  }

  ghost predicate Numbered(ids: set<nat>, sequence: nat) {
    forall id | id in ids :: 0 < id <= sequence
  }

  /** The counters and the alias table describe the executions in flight, exactly. */
  ghost predicate Balanced(b: Books) {
    && Counted(b.running, b.active, b.activeRegular)
    && Tabled(b.aliases, b.running.Keys)
    && Numbered(b.running.Keys, b.sequence)
  }

  /** Both lanes are within their limits, also after the claim a pending poll may bring. */
  ghost predicate LanesBounded(l: Limits, s: State) {
    && 0 <= s.books.activeRegular <= s.books.active
    && s.books.activeRegular + (if s.poll == InFlight(false) then 1 else 0) <= l.regular
    && s.books.active - s.books.activeRegular + (if s.poll == InFlight(true) then 1 else 0) <= l.reserved
  }

  /** A wake-up is pending whenever the daemon may poll, and never two. */
  ghost predicate WakeUpPending(l: Limits, s: State) {
    && !(s.poll != NoPoll && s.timer.Some?)
    && (s.booted && !s.stopped && !s.revoked && !s.pollingDisabled && !l.direct && s.books.active < l.Total()
        ==> s.poll != NoPoll || s.timer.Some?)
  }

  ghost predicate Silent(l: Limits, s: State) {
    && (s.stopped || s.revoked || l.direct ==> s.timer.None?)
    && (l.direct ==> s.poll.NoPoll?)
    && (s.stopped ==> !s.heartbeat.Waiting?)
    && (s.heartbeat.Off? ==> s.stopped)
  }

  /** Before the first heartbeat has settled, nothing has been polled. */
  ghost predicate Booting(s: State) {
    && s.poll.NoPoll? && s.timer.None? && s.pollStreak == 0 && s.execStreak == 0 && s.books.active == 0
    && (s.heartbeat.BeatSettled? || (s.heartbeat.Beating? && !s.revoked))
  }

  ghost predicate Control(l: Limits, s: State) {
    LanesBounded(l, s) && WakeUpPending(l, s) && Silent(l, s) && (!s.booted ==> Booting(s))
  }

  ghost predicate Inv(l: Limits, s: State) {
    Balanced(s.books) && Control(l, s)
  }

  predicate HoldsSlot(b: Books, id: nat)
    requires id in b.running
  {
    b.active > 0 && if b.running[id].lane == Regular then b.activeRegular > 0 else b.active - b.activeRegular > 0
  }

  /** The control part of the invariant, step by step. */
  lemma StepKeepsControl(l: Limits, s: State, now: int, e: Event)
    requires Control(l, s) && Enabled(s, now, e)
    requires e.ExecutionFinally? ==> HoldsSlot(s.books, e.id)
    requires e.ExecutionRejects? ==> s.books.active > 0
    ensures Control(l, Step(l, s, now, e))
  {
  }

  lemma PrependIds(e: AliasEntry, rest: seq<AliasEntry>)
    ensures Ids([e] + rest) == {e.id} + Ids(rest)
  {
    assert forall x :: x in [e] + rest <==> x == e || x in rest;
  }

  lemma {:induction false} WithoutIds(entries: seq<AliasEntry>, id: nat)
    requires Ascending(entries)
    ensures Ids(Without(entries, id)) == Ids(entries) - {id}
    ensures Ascending(Without(entries, id))
  {
    if entries == [] {
    } else {
      hide Ids;
      var tail := entries[1..];
      assert entries == [entries[0]] + tail;
      WithoutIds(tail, id);
      PrependIds(entries[0], tail);
      PrependIds(entries[0], Without(tail, id));
      PrependAscending(entries[0], tail, tail);
      PrependAscending(entries[0], tail, Without(tail, id));
    }
  }

  lemma PrependAscending(e: AliasEntry, tail: seq<AliasEntry>, rest: seq<AliasEntry>)
    requires Ascending([e] + tail) && Ascending(rest) && Ids(rest) <= Ids(tail)
    ensures Ascending([e] + rest) && e.id !in Ids(rest)
  {
    forall j | 0 <= j < |rest| ensures e.id < rest[j].id {
      assert rest[j].id in Ids(tail);
      var i :| 0 <= i < |tail| && tail[i].id == rest[j].id;
      assert ([e] + tail)[0] == e && ([e] + tail)[i + 1] == tail[i];
    }
  }

  lemma AppendIds(entries: seq<AliasEntry>, e: AliasEntry)
    requires Ascending(entries) && forall id | id in Ids(entries) :: id < e.id
    ensures Ids(entries + [e]) == Ids(entries) + {e.id}
    ensures Ascending(entries + [e])
  {
    var longer := entries + [e];
    forall i, j | 0 <= i < j < |longer| ensures longer[i].id < longer[j].id {
      assert longer[i] == entries[i] && entries[i].id in Ids(entries);
    }
  }

  lemma InLaneAdd(running: map<nat, Execution>, id: nat, e: Execution, lane: Lane)
    requires id !in running
    ensures InLane(running[id := e], lane) ==
              if e.lane == lane then InLane(running, lane) + {id} else InLane(running, lane)
  {
  }

  lemma InLaneRemove(running: map<nat, Execution>, id: nat, lane: Lane)
    requires id in running
    ensures InLane(running, lane) ==
              if running[id].lane == lane then InLane(running - {id}, lane) + {id} else InLane(running - {id}, lane)
    ensures id !in InLane(running - {id}, lane)
  {
  }

  lemma KeysAdd(running: map<nat, Execution>, id: nat, e: Execution)
    ensures running[id := e].Keys == running.Keys + {id}
  {
  }

  lemma CountedAdd(running: map<nat, Execution>, active: int, activeRegular: int, id: nat, lane: Lane)
    requires Counted(running, active, activeRegular) && id !in running
    ensures Counted(running[id := Execution(lane, false)], active + 1,
                    if lane == Regular then activeRegular + 1 else activeRegular)
  {
    InLaneAdd(running, id, Execution(lane, false), Regular);
    InLaneAdd(running, id, Execution(lane, false), Reserved);
    KeysAdd(running, id, Execution(lane, false));
    assert id !in InLane(running, Regular) && id !in InLane(running, Reserved);
  }

  lemma CountedRemove(running: map<nat, Execution>, active: int, activeRegular: int, id: nat)
    requires Counted(running, active, activeRegular) && id in running
    ensures Counted(running - {id}, active - 1,
                    if running[id].lane == Regular then activeRegular - 1 else activeRegular)
    ensures if running[id].lane == Regular then activeRegular > 0 else active - activeRegular > 0
    ensures active > 0
  {
    InLaneRemove(running, id, Regular);
    InLaneRemove(running, id, Reserved);
    assert running.Keys == (running - {id}).Keys + {id};
  }

  lemma CountedSettle(running: map<nat, Execution>, active: int, activeRegular: int, id: nat)
    requires Counted(running, active, activeRegular) && id in running
    ensures Counted(running[id := running[id].(settled := true)], active, activeRegular)
  {
    var settled := running[id := running[id].(settled := true)];
    assert settled.Keys == running.Keys;
    assert InLane(settled, Regular) == InLane(running, Regular);
    assert InLane(settled, Reserved) == InLane(running, Reserved);
  }

  lemma TabledAdd(aliases: seq<AliasEntry>, ids: set<nat>, more: set<nat>, e: AliasEntry)
    requires Tabled(aliases, ids) && more == ids + {e.id} && forall id | id in ids :: id < e.id
    ensures Tabled(aliases + [e], more)
  {
    AppendIds(aliases, e);
  }

  lemma ClaimTabled(b: Books, lane: Lane, names: seq<string>)
    requires Tabled(b.aliases, b.running.Keys) && Numbered(b.running.Keys, b.sequence)
    ensures var c := b.Claim(lane, names);
            Tabled(c.aliases, c.running.Keys) && Numbered(c.running.Keys, c.sequence)
  {
    var c := b.Claim(lane, names);
    KeysAdd(b.running, c.sequence, Execution(lane, false));
    TabledAdd(b.aliases, b.running.Keys, c.running.Keys, AliasEntry(c.sequence, names));
  }

  lemma ClaimCounted(b: Books, lane: Lane, names: seq<string>)
    requires Counted(b.running, b.active, b.activeRegular) && Numbered(b.running.Keys, b.sequence)
    ensures var c := b.Claim(lane, names); Counted(c.running, c.active, c.activeRegular)
    ensures b.sequence + 1 !in b.running
  {
    CountedAdd(b.running, b.active, b.activeRegular, b.sequence + 1, lane);
  }

  lemma ClaimKeepsBalance(b: Books, lane: Lane, names: seq<string>)
    requires Balanced(b)
    ensures Balanced(b.Claim(lane, names)) && b.sequence + 1 !in b.running
  {
    ClaimCounted(b, lane, names);
    ClaimTabled(b, lane, names);
  }

  lemma ReleaseKeepsBalance(b: Books, id: nat)
    requires Balanced(b) && id in b.running
    ensures Balanced(b.Release(id)) && HoldsSlot(b, id)
  {
    CountedRemove(b.running, b.active, b.activeRegular, id);
    WithoutIds(b.aliases, id);
    assert b.Release(id).running.Keys == b.running.Keys - {id};
  }

  lemma SettleKeepsBalance(b: Books, id: nat)
    requires Balanced(b) && id in b.running
    ensures Balanced(b.Settle(id)) && b.active > 0
  {
    CountedSettle(b.running, b.active, b.activeRegular, id);
    assert b.Settle(id).running.Keys == b.running.Keys;
    CountedRemove(b.running, b.active, b.activeRegular, id);
  }

  lemma InitialInv(l: Limits)
    ensures Inv(l, Initial)
  {
  }

  /** The books change in one of four ways. */
  function BooksAfter(s: State, e: Event): Books {
    match e
    case PollResolves(Some(names)) =>
      s.books.Claim(if s.poll == InFlight(true) then Reserved else Regular, names)
    case ExecutionResolves(id) => if id in s.books.running then s.books.Settle(id) else s.books
    case ExecutionRejects(id, _) => if id in s.books.running then s.books.Settle(id) else s.books
    case ExecutionFinally(id) => if id in s.books.running then s.books.Release(id) else s.books
    case _ => s.books
  }

  lemma StepBooks(l: Limits, s: State, now: int, e: Event)
    requires Enabled(s, now, e)
    ensures Step(l, s, now, e).books == BooksAfter(s, e)
  {
  }

  lemma BooksStayBalanced(s: State, now: int, e: Event)
    requires Balanced(s.books) && Enabled(s, now, e)
    ensures Balanced(BooksAfter(s, e))
    ensures e.ExecutionFinally? ==> HoldsSlot(s.books, e.id)
    ensures e.ExecutionRejects? ==> s.books.active > 0
  {
    match e
    case PollResolves(Some(names)) =>
      ClaimKeepsBalance(s.books, if s.poll == InFlight(true) then Reserved else Regular, names);
    case ExecutionResolves(id) => SettleKeepsBalance(s.books, id);
    case ExecutionRejects(id, _) => SettleKeepsBalance(s.books, id);
    case ExecutionFinally(id) => ReleaseKeepsBalance(s.books, id);
    case _ =>
  }

  /** Every callback keeps the invariant. */
  lemma StepKeepsInv(l: Limits, s: State, now: int, e: Event)
    requires Inv(l, s) && Enabled(s, now, e)
    ensures Inv(l, Step(l, s, now, e))
  {
    BooksStayBalanced(s, now, e);
    StepBooks(l, s, now, e);
    StepKeepsControl(l, s, now, e);
  }

  // ----- runs

  datatype Timed = Timed(now: int, event: Event)

  /** The states of a run: callbacks happen when enabled, and the clock does not go back. */
  ghost predicate IsRun(l: Limits, run: seq<Timed>, states: seq<State>) {
    && |states| == |run| + 1
    && states[0] == Initial
    && (forall i | 0 <= i < |run| ::
          Enabled(states[i], run[i].now, run[i].event)
          && states[i + 1] == Step(l, states[i], run[i].now, run[i].event))
    && forall i, j | 0 <= i < j < |run| :: run[i].now <= run[j].now
  }

  lemma {:induction false} RunKeepsInv(l: Limits, run: seq<Timed>, states: seq<State>, k: nat)
    requires IsRun(l, run, states) && k <= |run|
    ensures Inv(l, states[k])
  {
    if k == 0 {
      InitialInv(l);
    } else {
      RunKeepsInv(l, run, states, k - 1);
      StepKeepsInv(l, states[k - 1], run[k - 1].now, run[k - 1].event);
    }
  }

  /**
   Lane safety: once the constructor has accepted the configuration, no interleaving
   of completions with a poll whose lane was fixed earlier exceeds a lane or the cap.
   */
  lemma LaneSafety(c: Config, run: seq<Timed>, states: seq<State>, k: nat)
    requires ConstructorAccepts(c) && IsRun(LimitsOf(c), run, states) && k <= |run|
    ensures var b := states[k].books;
            && |InLane(b.running, Regular)| <= RegularLimit(c)
            && |InLane(b.running, Reserved)| <= ReservedLimit(c).value
            && |b.running.Keys| <= JobLimit(c)
            && b.active == |b.running.Keys|
            && b.activeRegular == |InLane(b.running, Regular)|
  {
    RunKeepsInv(LimitsOf(c), run, states, k);
  }

  /** No lost wake-up, no second poll: one poll or one timer, exactly. */
  lemma NoLostWakeUp(l: Limits, run: seq<Timed>, states: seq<State>, k: nat)
    requires IsRun(l, run, states) && k <= |run|
    requires states[k].booted && !states[k].stopped && !states[k].revoked
    requires !states[k].pollingDisabled && !l.direct && states[k].books.active < l.Total()
    ensures (states[k].poll != NoPoll) != states[k].timer.Some?
  {
    RunKeepsInv(l, run, states, k);
  }

  predicate StartsPoll(before: State, after: State) {
    !before.poll.InFlight? && after.poll.InFlight?
  }

  lemma StepStartsPoll(l: Limits, s: State, now: int, e: Event)
    requires Inv(l, s) && Enabled(s, now, e) && StartsPoll(s, Step(l, s, now, e))
    ensures e == PollTimerFires && s.poll == NoPoll && s.books.active < l.Total()
    ensures !s.stopped && !s.revoked && !s.pollingDisabled && !l.direct
  {
  }

  /** A poll starts only from the timer, never beside another poll, and only while it may. */
  lemma PollStartsOnlyFromTimer(l: Limits, run: seq<Timed>, states: seq<State>, k: nat)
    requires IsRun(l, run, states) && k < |run| && StartsPoll(states[k], states[k + 1])
    ensures run[k].event == PollTimerFires && states[k].poll == NoPoll
    ensures !states[k].stopped && !states[k].revoked && !states[k].pollingDisabled && !l.direct
    ensures states[k].books.active < l.Total()
  {
    RunKeepsInv(l, run, states, k);
    StepStartsPoll(l, states[k], run[k].now, run[k].event);
  }

  lemma StepKeepsStopped(l: Limits, s: State, now: int, e: Event)
    requires Enabled(s, now, e) && s.stopped
    ensures Step(l, s, now, e).stopped
    ensures Step(l, s, now, e).heartbeat.Beating? ==> s.heartbeat.Beating? || s.heartbeat.Waiting?
  {
  }

  lemma {:induction false} StoppedStays(l: Limits, run: seq<Timed>, states: seq<State>, i: nat, k: nat)
    requires IsRun(l, run, states) && i <= k <= |run| && states[i].stopped
    ensures states[k].stopped
  {
    if i < k {
      StoppedStays(l, run, states, i, k - 1);
      StepKeepsStopped(l, states[k - 1], run[k - 1].now, run[k - 1].event);
    }
  }

  /**
   After `halt` nothing is armed and no poll or heartbeat starts again, but a claim
   that a pending poll brings back is still executed.
   */
  lemma HaltIsFinal(l: Limits, run: seq<Timed>, states: seq<State>, i: nat, k: nat)
    requires IsRun(l, run, states) && i <= k < |run| && states[i].stopped
    ensures states[k].timer.None? && !states[k].heartbeat.Waiting?
    ensures !StartsPoll(states[k], states[k + 1])
    ensures states[k + 1].heartbeat.Beating? ==> states[k].heartbeat.Beating?
    ensures forall names | run[k].event == PollResolves(Some(names)) ::
              ClaimIsRunning(states[k], states[k + 1], names)
  {
    StoppedStays(l, run, states, i, k);
    RunKeepsInv(l, run, states, k);
    StepKeepsStopped(l, states[k], run[k].now, run[k].event);
    if StartsPoll(states[k], states[k + 1]) {
      StepStartsPoll(l, states[k], run[k].now, run[k].event);
    }
    forall names | run[k].event == PollResolves(Some(names))
      ensures ClaimIsRunning(states[k], states[k + 1], names)
    {
      ClaimedIsExecuted(l, states[k], run[k].now, names);
    }
  }

  /** A new execution under a fresh number, in the lane the poll was started for. */
  predicate ClaimIsRunning(s: State, t: State, names: seq<string>) {
    var id := s.books.sequence + 1;
    && id !in s.books.running
    && t.books.running == s.books.running[id := Execution(if s.poll == InFlight(true) then Reserved else Regular, false)]
    && t.books.aliases == s.books.aliases + [AliasEntry(id, names)]
  }

  lemma ClaimedIsExecuted(l: Limits, s: State, now: int, names: seq<string>)
    requires Inv(l, s) && s.poll.InFlight?
    ensures ClaimIsRunning(s, Step(l, s, now, PollResolves(Some(names))), names)
  {
    StepBooks(l, s, now, PollResolves(Some(names)));
    ClaimCounted(s.books, if s.poll == InFlight(true) then Reserved else Regular, names);
  }

  /** Unless stopped, the heartbeat is always either under way or scheduled. */
  lemma HeartbeatNeverLost(l: Limits, run: seq<Timed>, states: seq<State>, k: nat)
    requires IsRun(l, run, states) && k <= |run|
    ensures states[k].heartbeat.Off? ==> states[k].stopped
  {
    RunKeepsInv(l, run, states, k);
  }

  /** A completion frees exactly its own slot and alias entry; the clamps at zero never act. */
  lemma ClampsNeverAct(l: Limits, run: seq<Timed>, states: seq<State>, k: nat, id: nat)
    requires IsRun(l, run, states) && k < |run| && run[k].event == ExecutionFinally(id)
    ensures var b := states[k].books;
            var b' := states[k + 1].books;
            && b'.active == b.active - 1 >= 0
            && b'.activeRegular == b.activeRegular - (if b.running[id].lane == Regular then 1 else 0) >= 0
            && Ids(b'.aliases) == Ids(b.aliases) - {id}
            && b'.running == b.running - {id}
  {
    RunKeepsInv(l, run, states, k);
    StepBooks(l, states[k], run[k].now, run[k].event);
    ReleaseKeepsBalance(states[k].books, id);
    WithoutIds(states[k].books.aliases, id);
  }

  lemma {:induction false} OneIdEach(entries: seq<AliasEntry>)
    requires Ascending(entries)
    ensures |Ids(entries)| == |entries|
  {
    if entries != [] {
      hide Ids, Ascending;
      var init, last := entries[..|entries| - 1], entries[|entries| - 1];
      assert entries == init + [last];
      LastIsGreatest(init, last);
      OneIdEach(init);
      AppendIds(init, last);
    } else {
      assert Ids(entries) == {};
    }
  }

  lemma LastIsGreatest(init: seq<AliasEntry>, last: AliasEntry)
    requires Ascending(init + [last])
    ensures Ascending(init) && forall id | id in Ids(init) :: id < last.id
  {
    var entries := init + [last];
    assert forall i | 0 <= i < |init| :: entries[i] == init[i];
    forall id | id in Ids(init) ensures id < last.id {
      var i :| 0 <= i < |init| && init[i].id == id;
      assert entries[i].id < entries[|init|].id;
    }
  }

  /** The alias table has one entry for each execution in flight, in the order they were claimed. */
  lemma AliasesTrackExecutions(l: Limits, run: seq<Timed>, states: seq<State>, k: nat)
    requires IsRun(l, run, states) && k <= |run|
    ensures var b := states[k].books;
            && Ids(b.aliases) == b.running.Keys && |b.aliases| == b.active
            && Ascending(b.aliases)
  {
    RunKeepsInv(l, run, states, k);
    OneIdEach(states[k].books.aliases);
  }

  // ----- backoff

  datatype FailureKind = PollFailure | ExecutionFailure

  function Streak(s: State, kind: FailureKind): nat {
    if kind.PollFailure? then s.pollStreak else s.execStreak
  }

  predicate Fails(e: Event, kind: FailureKind) {
    match kind
    case PollFailure => e == PollRejects(false)
    case ExecutionFailure => e.ExecutionRejects? && !e.gone
  }

  /** A success of the same kind, or a heartbeat that lets the daemon resume. */
  predicate Resets(s: State, e: Event, kind: FailureKind) {
    || (e.HeartbeatResolves? && ResumesOnHeartbeat(s))
    || (kind.PollFailure? && e.PollResolves?)
    || (kind.ExecutionFailure? && e.ExecutionResolves?)
  }

  ghost predicate Unsettled(b: Books) {
    forall id | id in b.running :: !b.running[id].settled
  }

  ghost predicate HeldBack(s: State, kind: FailureKind, streak: nat, until: int) {
    && Streak(s, kind) >= streak
    && (s.timer.Some? && !s.pollingDisabled && (kind.ExecutionFailure? ==> Unsettled(s.books))
        ==> s.timer.value >= until)
  }

  /** A settled execution stays in the books until its own `finally`. */
  lemma SettledRemains(s: State, now: int, e: Event)
    requires Balanced(s.books) && Enabled(s, now, e) && !e.ExecutionFinally?
    ensures Unsettled(BooksAfter(s, e)) ==> Unsettled(s.books)
    ensures e.ExecutionRejects? || e.ExecutionResolves? ==> !Unsettled(BooksAfter(s, e))
  {
    if id :| id in s.books.running && s.books.running[id].settled {
      assert id != s.books.sequence + 1;
      assert id in BooksAfter(s, e).running && BooksAfter(s, e).running[id].settled;
    }
    if e.ExecutionRejects? || e.ExecutionResolves? {
      assert BooksAfter(s, e).running[e.id].settled;
    }
  }

  /** Apart from the `finally` of an execution, a step leaves the timer or re-arms it late enough. */
  lemma StepRearms(l: Limits, s: State, now: int, e: Event, kind: FailureKind)
    requires Control(l, s) && Enabled(s, now, e) && Streak(s, kind) > 0 && !Resets(s, e, kind)
    requires e.ExecutionFinally? ==> HoldsSlot(s.books, e.id)
    ensures var t := Step(l, s, now, e);
            && Streak(t, kind) >= Streak(s, kind)
            && (s.pollingDisabled ==> t.pollingDisabled)
            && (t.timer.Some? ==> t.timer == s.timer || t.timer.value >= now + PollRetryDelayMs(Streak(s, kind)))
            && (e.ExecutionFinally? && t.timer.Some? && !t.pollingDisabled ==>
                  t.timer.value >= now + PollRetryDelayMs(Streak(s, kind)))
  {
  }

  lemma StepKeepsHeldBack(l: Limits, s: State, now: int, e: Event, kind: FailureKind, streak: nat, at: int)
    requires Inv(l, s) && Enabled(s, now, e) && at <= now
    requires streak > 0 && HeldBack(s, kind, streak, at + PollRetryDelayMs(streak))
    requires !Resets(s, e, kind)
    ensures HeldBack(Step(l, s, now, e), kind, streak, at + PollRetryDelayMs(streak))
  {
    RetryDelayMonotone(streak, Streak(s, kind));
    StepBooks(l, s, now, e);
    BooksStayBalanced(s, now, e);
    StepRearms(l, s, now, e, kind);
    if !e.ExecutionFinally? {
      SettledRemains(s, now, e);
    }
  }

  lemma FailureHoldsBack(l: Limits, s: State, now: int, e: Event, kind: FailureKind)
    requires Inv(l, s) && Enabled(s, now, e) && Fails(e, kind)
    ensures var t := Step(l, s, now, e);
            Streak(t, kind) == Streak(s, kind) + 1
            && HeldBack(t, kind, Streak(t, kind), now + PollRetryDelayMs(Streak(t, kind)))
  {
    StepBooks(l, s, now, e);
    if e.ExecutionRejects? {
      SettledRemains(s, now, e);
    }
  }

  lemma {:induction false} HeldBackUntil(l: Limits, run: seq<Timed>, states: seq<State>,
                                         kind: FailureKind, i: nat, k: nat)
    requires IsRun(l, run, states) && i < k <= |run|
    requires Fails(run[i].event, kind)
    requires forall m | i < m < k :: !Resets(states[m], run[m].event, kind)
    ensures var streak := Streak(states[i + 1], kind);
            streak == Streak(states[i], kind) + 1
            && HeldBack(states[k], kind, streak, run[i].now + PollRetryDelayMs(streak))
  {
    hide Inv, Enabled, Step, Resets, HeldBack, Fails;
    RunKeepsInv(l, run, states, k - 1);
    if k == i + 1 {
      FailureHoldsBack(l, states[i], run[i].now, run[i].event, kind);
    } else {
      HeldBackUntil(l, run, states, kind, i, k - 1);
      StepKeepsHeldBack(l, states[k - 1], run[k - 1].now, run[k - 1].event, kind,
                        Streak(states[i + 1], kind), run[i].now);
    }
  }

  /**
   Backoff: after a failed poll or execution no poll starts earlier than the delay of
   the streak it reached, unless a reset came between. Rescheduling never shortens it.
   */
  lemma BackoffHolds(l: Limits, run: seq<Timed>, states: seq<State>, kind: FailureKind, i: nat, k: nat)
    requires IsRun(l, run, states) && i < k < |run|
    requires Fails(run[i].event, kind) && StartsPoll(states[k], states[k + 1])
    requires forall m | i < m < k :: !Resets(states[m], run[m].event, kind)
    ensures run[k].now >= run[i].now + PollRetryDelayMs(Streak(states[i], kind) + 1)
  {
    HeldBackUntil(l, run, states, kind, i, k);
    PollStartsOnlyFromTimer(l, run, states, k);
  }
}
