/**
 The relay daemon of a self-hosted node: one long poll in flight at a time, one
 re-armable poll timer, two execution lanes, and a heartbeat.

 A step is one callback of the JavaScript event loop. A settled promise first runs
 its `then` or `catch` callback and only later its `finally` callback, and other
 callbacks may run in between; a timer callback runs only when no settled promise
 still waits for its `finally`.
 */
module RelayDaemonModel {
  import opened Prelude

  const POLL_RETRY_BASE_MS: nat := 1000
  const POLL_RETRY_MAX_MS: nat := 60000

  // ----- configuration

  datatype Config = Config(
    maxConcurrentJobs: Option<real>,
    maxConcurrentLlmJobs: Option<real>,
    reservedLlmJobs: Option<real>,
    direct: bool)

  predicate Truthy(x: Option<real>) {
    x.Some? && x.value != 0.0
  }

  function AtLeastOne(x: real): (r: nat)
    ensures r >= 1
  {
    Max(1, x.Floor)
  }

  /** The cap on all jobs, as the constructor reads it. */
  function JobLimit(c: Config): nat {
    AtLeastOne(if Truthy(c.maxConcurrentJobs) then c.maxConcurrentJobs.value else 1.0)
  }

  function RegularLimit(c: Config): nat {
    AtLeastOne(
      if Truthy(c.maxConcurrentLlmJobs) then c.maxConcurrentLlmJobs.value
      else if Truthy(c.maxConcurrentJobs) then c.maxConcurrentJobs.value
      else 1.0)
  }

  /** None stands for the exception on a fractional or negative number. */
  function ReservedLimit(c: Config): Option<nat> {
    var parsed := c.reservedLlmJobs.GetOr(0.0);
    if parsed < 0.0 || parsed.Floor as real != parsed then None else Some(parsed.Floor)
  }

  /** The constructor's capacity check. */
  predicate ConstructorAccepts(c: Config) {
    ReservedLimit(c).Some? && RegularLimit(c) + ReservedLimit(c).value <= JobLimit(c)
  }

  datatype Limits = Limits(regular: nat, reserved: nat, direct: bool) {
    function Total(): nat {
      regular + reserved
    }
  }

  function LimitsOf(c: Config): Limits
    requires ConstructorAccepts(c)
  {
    Limits(RegularLimit(c), ReservedLimit(c).value, c.direct)
  }

  // ----- backoff

  function Pow2(n: nat): (r: nat)
    ensures r >= 1
  {
    if n == 0 then 1 else 2 * Pow2(n - 1)
  }

  function PollRetryDelayMs(failureStreak: nat): (r: nat) {
    if failureStreak == 0 then 0 else Min(POLL_RETRY_BASE_MS * Pow2(failureStreak - 1), POLL_RETRY_MAX_MS)
  }

  lemma {:induction false} RetryDelayMonotone(m: nat, n: nat)
    requires m <= n
    ensures PollRetryDelayMs(m) <= PollRetryDelayMs(n)
  {
    if m < n {
      RetryDelayMonotone(m, n - 1);
    }
  }

  // ----- state

  /** The lane is decided when the poll starts and used when it resolves. */
  datatype Poll = NoPoll | InFlight(reservedOnly: bool) | Settled

  datatype Lane = Regular | Reserved

  /** An execution whose promise has settled still counts until its `finally` ran. */
  datatype Execution = Execution(lane: Lane, settled: bool)

  datatype Heartbeat = Waiting | Beating | BeatSettled | Off

  datatype AliasEntry = AliasEntry(id: nat, names: seq<string>)

  /** The executions in flight, and the counters and aliases kept about them. */
  datatype Books = Books(
    active: int,
    activeRegular: int,
    sequence: nat,
    aliases: seq<AliasEntry>,
    running: map<nat, Execution>)
  {
    function Claim(lane: Lane, names: seq<string>): Books {
      var id := sequence + 1;
      Books(active + 1, if lane == Regular then activeRegular + 1 else activeRegular, id,
            aliases + [AliasEntry(id, names)], running[id := Execution(lane, false)])
    }

    function Settle(id: nat): Books
      requires id in running
    {
      this.(running := running[id := running[id].(settled := true)])
    }

    function Release(id: nat): Books
      requires id in running
    {
      Books(Max(0, active - 1),
            if running[id].lane == Regular then Max(0, activeRegular - 1) else activeRegular,
            sequence, Without(aliases, id), running - {id})
    }
  }

  datatype State = State(
    stopped: bool,
    revoked: bool,
    pollingDisabled: bool,
    booted: bool,
    poll: Poll,
    timer: Option<int>,
    pollStreak: nat,
    execStreak: nat,
    heartbeat: Heartbeat,
    books: Books)

  const Initial := State(
    false, false, false, false, NoPoll, None, 0, 0, Beating, Books(0, 0, 0, [], map[]))

  datatype Event =
    | PollTimerFires
    | PollResolves(claim: Option<seq<string>>)
    | PollRejects(gone: bool)
    | PollFinally
    | ExecutionResolves(id: nat)
    | ExecutionRejects(id: nat, gone: bool)
    | ExecutionFinally(id: nat)
    | HeartbeatTimerFires
    | HeartbeatResolves
    | HeartbeatRejects(gone: bool)
    | HeartbeatFinally
    | PollingDisabled
    | Halt

  // ----- the daemon's closures as functions on its state

  predicate Blocked(l: Limits, s: State) {
    s.stopped || s.poll != NoPoll || s.revoked || s.pollingDisabled || l.direct || s.books.active >= l.Total()
  }

  function SchedulePoll(l: Limits, s: State, now: int, delayMs: int): State {
    var dueAt := now + Max(0, delayMs);
    if Blocked(l, s) || (s.timer.Some? && s.timer.value >= dueAt) then s else s.(timer := Some(dueAt))
  }

  function RetryDelay(s: State): int {
    Max(PollRetryDelayMs(s.pollStreak), PollRetryDelayMs(s.execStreak))
  }

  function StartPoll(l: Limits, s: State): State {
    if Blocked(l, s) then s
    else s.(poll := InFlight(l.reserved > 0 && s.books.activeRegular >= l.regular && s.books.active < l.Total()))
  }

  function NoteRevoked(s: State, gone: bool): State {
    if gone then s.(timer := None, revoked := true) else s
  }

  predicate ResumesOnHeartbeat(s: State) {
    s.revoked || ((s.pollStreak > 0 || s.execStreak > 0) && s.poll == NoPoll)
  }

  function NoteAlive(l: Limits, s: State, now: int): State {
    if ResumesOnHeartbeat(s) then
      SchedulePoll(l, s.(revoked := false, timer := None, pollStreak := 0, execStreak := 0), now, 0)
    else s
  }

  function Without(entries: seq<AliasEntry>, id: nat): seq<AliasEntry> {
    if entries == [] then []
    else if entries[0].id == id then Without(entries[1..], id)
    else [entries[0]] + Without(entries[1..], id)
  }

  function ScheduleHeartbeat(s: State): State {
    s.(heartbeat := if s.stopped then Off else Waiting)
  }

  // ----- steps

  /** Every settled promise has run its `finally`: the event loop may run a timer. */
  predicate Quiescent(s: State) {
    && s.poll != Settled
    && s.heartbeat != BeatSettled
    && forall id | id in s.books.running :: !s.books.running[id].settled
  }

  predicate Enabled(s: State, now: int, e: Event) {
    match e
    case PollTimerFires => s.timer.Some? && s.timer.value <= now && Quiescent(s)
    case PollResolves(_) => s.poll.InFlight?
    case PollRejects(_) => s.poll.InFlight?
    case PollFinally => s.poll.Settled?
    case ExecutionResolves(id) => id in s.books.running && !s.books.running[id].settled
    case ExecutionRejects(id, _) => id in s.books.running && !s.books.running[id].settled
    case ExecutionFinally(id) => id in s.books.running && s.books.running[id].settled
    case HeartbeatTimerFires => s.heartbeat.Waiting? && Quiescent(s)
    case HeartbeatResolves => s.heartbeat.Beating?
    case HeartbeatRejects(_) => s.heartbeat.Beating?
    case HeartbeatFinally => s.heartbeat.BeatSettled?
    case PollingDisabled => true
    case Halt => true
  }

  function Step(l: Limits, s: State, now: int, e: Event): State
    requires Enabled(s, now, e)
  {
    match e
    case PollTimerFires => StartPoll(l, s.(timer := None))
    case PollResolves(claim) =>
      var lane := if s.poll.reservedOnly then Reserved else Regular;
      s.(pollStreak := 0, poll := Settled,
         books := if claim.None? then s.books else s.books.Claim(lane, claim.value))
    case PollRejects(gone) =>
      var t := NoteRevoked(s, gone).(poll := Settled);
      if gone then t else t.(pollStreak := s.pollStreak + 1)
    case PollFinally => SchedulePoll(l, s.(poll := NoPoll), now, RetryDelay(s))
    case ExecutionResolves(id) => s.(books := s.books.Settle(id), execStreak := 0)
    case ExecutionRejects(id, gone) =>
      var t := NoteRevoked(s.(books := s.books.Settle(id)), gone);
      if gone then t else t.(execStreak := s.execStreak + 1)
    case ExecutionFinally(id) => SchedulePoll(l, s.(books := s.books.Release(id)), now, RetryDelay(s))
    case HeartbeatTimerFires => s.(heartbeat := Beating)
    case HeartbeatResolves => NoteAlive(l, s.(heartbeat := BeatSettled), now)
    case HeartbeatRejects(gone) => NoteRevoked(s.(heartbeat := BeatSettled), gone)
    case HeartbeatFinally =>
      var t := ScheduleHeartbeat(s).(booted := true);
      if s.booted then t else SchedulePoll(l, t, now, 0)
    case PollingDisabled => s.(pollingDisabled := true)
    case Halt =>
      s.(stopped := true, timer := None,
         heartbeat := if s.heartbeat.Waiting? then Off else s.heartbeat)
  }
}
