/**
 The queue runner: the task loop with its retry counters, and the state file it writes.
 What the outside world answers is a function of the number of the question, and the
 process may be killed at any question; then only the state file remains.
 */
module PlanRunner {
  import opened Prelude
  import opened PlanRecords

  datatype AgentRun = AgentRun(
    interrupted: bool,
    exitCode: int,
    timedOut: bool,
    validationErrors: seq<string>,
    usageLimitInLog: bool,
    unavailableInLog: bool)

  datatype World = World(
    now: nat -> string,
    usageClear: nat -> bool,
    agentRun: nat -> AgentRun,
    gitSync: nat -> bool,
    killedAt: nat)

  datatype Args = Args(
    maxRuns: int,
    keepGoing: bool,
    gitSync: bool,
    agentUnavailableMaxRetries: int,
    taskFailureMaxRetries: int)

  datatype Outcome = Exit(code: int) | KeyboardInterrupt | Killed

  /** One turn of the loop: an agent run or a repeated git sync, the number of the first
      question it asks, and the state file before and after it. */
  datatype Turn = Turn(index: nat, isSync: bool, asked: nat, before: State, after: State)

  function RunStatus(run: AgentRun, args: Args): Status {
    if run.interrupted then Interrupted
    else if run.exitCode == 0 then
      if run.validationErrors != [] then ValidationFailed
      else if args.gitSync then GitPending
      else Complete
    else if run.usageLimitInLog then UsageLimited
    else if run.unavailableInLog then AgentUnavailable
    else if run.exitCode < 0 then Terminated
    else Failed
  }

  /** The limits are always clear, every agent run succeeds, every sync too, and turns are unlimited. */
  ghost predicate Favourable(world: World, args: Args) {
    && args.maxRuns <= 0
    && forall q: nat ::
         && world.usageClear(q) && world.gitSync(q)
         && !world.agentRun(q).interrupted && world.agentRun(q).exitCode == 0 && world.agentRun(q).validationErrors == []
  }

  predicate RetryableFailure(status: Status) {
    status.Failed? || status.ValidationFailed? || status.Terminated?
  }

  ghost predicate DistinctIds(tasks: seq<Task>) {
    forall i, j | 0 <= i < j < |tasks| :: tasks[i].id != tasks[j].id
  }

  predicate AllComplete(state: State, tasks: seq<Task>) {
    forall i | 0 <= i < |tasks| :: TaskStatus(state, tasks[i]) == Complete
  }

  /** No task is recorded as running, except possibly one. */
  ghost predicate NoneRunningBut(state: State, tasks: seq<Task>, id: Option<string>) {
    forall i | 0 <= i < |tasks| && tasks[i].id in state && state[tasks[i].id].status == Some(Running) ::
      id == Some(tasks[i].id)
  }

  class Runner {
    const world: World
    const args: Args

    var questions: nat
    var state: State
    var disk: State

    constructor (world: World, args: Args, disk: State)
      ensures this.world == world && this.args == args
      ensures this.disk == disk && this.state == disk && questions == 0
    {
      this.world, this.args := world, args;
      this.disk, this.state, this.questions := disk, disk, 0;
    }

    method WriteState()
      modifies this`disk
      ensures disk == state
    {
      disk := state;
    }

    /** Tasks left running by a crash become interrupted; nothing else changes. */
    method NormalizeStaleRunningTasks(tasks: seq<Task>)
      requires state == disk
      modifies this`state, this`disk
      ensures state == disk && Normalized(old(disk), disk)
      ensures NoneRunningBut(state, tasks, None)
    {
      hide Normalized, NoneRunningBut;
      var changed := false;
      NothingNormalized(disk, tasks);
      for i := 0 to |tasks|
        invariant disk == old(disk) && Normalized(disk, state)
        invariant NoneRunningBut(state, tasks[..i], None)
        invariant !changed ==> state == disk
      {
        var id := tasks[i].id;
        NormalizeOne(disk, state, tasks, i);
        if id in state && state[id].status == Some(Running) {
          state := state[id := state[id].(status := Some(Interrupted))];
          changed := true;
        }
      }
      assert tasks[..|tasks|] == tasks;
      if changed {
        WriteState();
      }
    }

    /** Asks the world a question; false means that the process was killed instead. */
    method Ask() returns (alive: bool)
      modifies this`questions
      ensures alive == (old(questions) < world.killedAt)
      ensures questions == old(questions) + if alive then 1 else 0
    {
      alive := questions < world.killedAt;
      if alive {
        questions := questions + 1;
      }
    }

    /** Repeats the git sync of a finished task. */
    method CompleteGitPendingTask(task: Task) returns (ok: Option<bool>)
      requires state == disk && task.id in state && state[task.id].status == Some(GitPending)
      modifies this`questions, this`state, this`disk
      ensures ok.Some? ==> ok.value == world.gitSync(old(questions))
      ensures ok.Some? ==> state == disk == old(disk)[task.id := Synced(old(disk)[task.id], ok.value)]
      ensures ok.None? ==> disk == old(disk) && questions == old(questions) >= world.killedAt
      ensures old(questions) <= questions <= old(questions) + 1
      ensures ok.Some? ==> questions == old(questions) + 1 <= world.killedAt
    {
      var alive := Ask();
      if !alive {
        return None;
      }
      var synced := world.gitSync(questions - 1);
      state := state[task.id := state[task.id].(status := Some(if synced then Complete else GitPending))];
      WriteState();
      ok := Some(synced);
    }

    /** One agent run: started, recorded as running, and recorded again when it ends. */
    method RunTask(task: Task) returns (result: RunResult)
      requires state == disk && RecordOf(state, task).status != Some(Complete)
      modifies this`questions, this`state, this`disk
      ensures task.id in disk && disk == old(disk)[task.id := disk[task.id]]
      ensures OneMoreAttempt(RecordOf(old(disk), task), task, world.now(old(questions)), disk[task.id])
      ensures old(questions) <= questions <= old(questions) + 2
      ensures match result
              case RunKilled => world.killedAt <= questions <= old(questions) + 1
              case RunInterrupted =>
                && state == disk && disk[task.id].status == Some(Interrupted)
                && disk[task.id] == RecordAfterRun(RecordOf(old(disk), task), task, world, args, old(questions))
              case Ran(ok) =>
                && state == disk && old(questions) < questions <= world.killedAt
                && disk[task.id] == RecordAfterRun(RecordOf(old(disk), task), task, world, args, old(questions))
                && !Outdated(disk[task.id], task)
                && disk[task.id].status.Some?
                && !disk[task.id].status.value.Running? && !disk[task.id].status.value.Interrupted?
                && (ok <==> disk[task.id].status == Some(Complete))
    {
      hide Ensured, Started, Finished, Synced, OneMoreAttempt;
      var record := Ensured(RecordOf(state, task), task);
      ghost var before := RecordOf(state, task);
      var now := world.now(questions);
      RunEvolves(before, task, now);
      state := state[task.id := Started(record, now)];
      WriteState();
      var alive := Ask();
      if !alive {
        return RunKilled;
      }
      var run := world.agentRun(questions - 1);
      var status := RunStatus(run, args);
      var completion := Completion(run.exitCode, run.timedOut, run.validationErrors);
      FinishEvolves(before, task, now, status, completion);
      state := state[task.id := Finished(state[task.id], status, completion)];
      WriteState();
      if run.interrupted {
        return RunInterrupted;
      }
      if status == Complete {
        return Ran(true);
      }
      if status == GitPending {
        SyncEvolves(before, task, now, status, completion);
        var synced := CompleteGitPendingTask(task);
        return if synced.None? then RunKilled else Ran(synced.value);
      }
      result := Ran(false);
    }

    /** One turn: a git sync, or an agent run if the usage limits are clear. */
    method TakeTurn(task: Task, status: Status) returns (result: TurnResult)
      requires state == disk && status == TaskStatus(state, task) && status != Complete
      modifies this`questions, this`state, this`disk
      ensures Evolves(old(disk), disk) && OnlyTouched(old(disk), disk, task.id)
      ensures old(questions) <= questions <= old(questions) + 3
      ensures result.Blocked? || result == TurnKilled || task.id in disk
      ensures result == Blocked(true) ==> questions == old(questions) + 1 && !world.usageClear(old(questions))
      ensures Favourable(world, args) && world.killedAt > old(questions) + 2 ==> result == Done(true)
      ensures !result.Blocked? ==>
                TurnEffect(task, status == GitPending, old(questions), old(disk), disk, world, args, result.TurnKilled?)
      ensures match result
              case Blocked(alive) =>
                && disk == old(disk) && status != GitPending && questions <= old(questions) + 1
                && (if alive then state == disk else questions >= world.killedAt)
              case TurnKilled => questions >= world.killedAt
              case TurnInterrupted => state == disk && task.id in disk && disk[task.id].status == Some(Interrupted)
              case Done(ok) =>
                && state == disk && old(questions) < questions <= world.killedAt
                && disk[task.id].status != Some(Running) && disk[task.id].status == Some(TaskStatus(state, task))
                && (ok <==> TaskStatus(state, task) == Complete)
    {
      hide Evolves, OneMoreAttempt, RecordAfterRun;
      ghost var before := disk;
      EvolvesReflexive(disk);
      if status == GitPending {
        SyncOnlyEvolves(disk, task);
        var ok := CompleteGitPendingTask(task);
        return if ok.None? then TurnKilled else Done(ok.value);
      }
      var alive := Ask();
      if !alive || !world.usageClear(questions - 1) {
        return Blocked(alive);
      }
      ghost var asked := questions;
      GoodRunCompletes(RecordOf(before, task), task, world, args, asked);
      var run := RunTask(task);
      TurnEvolves(before, before, disk, task, world.now(asked));
      match run
      case RunKilled =>
        return TurnKilled;
      case RunInterrupted =>
        return TurnInterrupted;
      case Ran(ok) =>
        return Done(ok);
    }

    /** One more turn on a task, entered in the log. */
    method LoggedTurn(tasks: seq<Task>, i: nat, status: Status, ghost trace0: seq<Turn>, ghost trace: seq<Turn>,
                      ghost disk0: State, ghost first: State, ghost start: State)
      returns (result: TurnResult, ghost more: seq<Turn>)
      requires i < |tasks| && DistinctIds(tasks) && state == disk
      requires status == TaskStatus(state, tasks[i]) && status != Complete
      requires args.keepGoing || forall j | 0 <= j < i :: TaskStatus(start, tasks[j]) == Complete
      requires Working(trace0, trace, tasks, i, world, args, disk0, first, start, disk, false)
      modifies this`questions, this`state, this`disk
      ensures Working(trace0, more, tasks, i, world, args, disk0, first, start, disk,
                      result == TurnKilled || result == Blocked(false))
      ensures |trace0| <= |trace|
      ensures old(questions) <= questions <= old(questions) + 3
      ensures Favourable(world, args) && world.killedAt > old(questions) + 2 ==> result == Done(true)
      ensures match result
              case Blocked(alive) =>
                && more == trace && disk == old(disk) && questions <= old(questions) + 1
                && (if alive then state == disk && questions == old(questions) + 1 && !world.usageClear(old(questions))
                    else questions >= world.killedAt)
              case TurnKilled => |more| == |trace| + 1 && questions >= world.killedAt
              case TurnInterrupted =>
                && |more| == |trace| + 1 && state == disk
                && tasks[i].id in disk && disk[tasks[i].id].status == Some(Interrupted)
              case Done(ok) =>
                && |more| == |trace| + 1 && state == disk && old(questions) < questions <= world.killedAt
                && tasks[i].id in disk && disk[tasks[i].id].status != Some(Running)
                && (ok <==> TaskStatus(state, tasks[i]) == Complete)
                && Unavailable(more, |trace0|, tasks[i].id) == Unavailable(trace, |trace0|, tasks[i].id)
                     + (if TaskStatus(state, tasks[i]) == AgentUnavailable then 1 else 0)
                && Failures(more, |trace0|, tasks[i].id) == Failures(trace, |trace0|, tasks[i].id)
                     + if TaskStatus(state, tasks[i]) in {Failed, ValidationFailed, Terminated} then 1 else 0
    {
      hide Evolves, OnlyTouched, TaskStatus, TurnEffect, Favourable, Logged, TurnsOn, Ended;
      ghost var before, asked := disk, questions;
      result := TakeTurn(tasks[i], status);
      more := trace;
      TurnsOnLength(trace0, trace, i);
      EvolvesTransitive(start, before, disk);
      TouchedTransitive(start, before, disk, tasks[i].id);
      if result.Blocked? {
        LoggedCut(trace, tasks, world, args, disk0, first, disk);
        return;
      }
      ghost var turn := Turn(i, status == GitPending, asked, before, disk);
      LoggedNext(trace, turn, tasks, i, world, args, disk0, first, start, result.TurnKilled?);
      TurnsOnNext(trace0, trace, turn, i);
      more := trace + [turn];
      if result.Done? {
        EndedNext(trace, turn, |trace0|, tasks[i].id, {AgentUnavailable});
        EndedNext(trace, turn, |trace0|, tasks[i].id, {Failed, ValidationFailed, Terminated});
      }
    }

    /** The loop over one task: repeat until it is done, hopeless, or the run must stop. */
    method WorkOnTask(tasks: seq<Task>, i: nat, attempted0: nat,
                      ghost trace0: seq<Turn>, ghost disk0: State, ghost first: State)
      returns (attempted: nat, step: LoopStep, ghost trace: seq<Turn>)
      requires i < |tasks| && DistinctIds(tasks) && state == disk && attempted0 == |trace0|
      requires args.keepGoing || forall j | 0 <= j < i :: TaskStatus(state, tasks[j]) == Complete
      requires Evolves(disk0, disk) && Logged(trace0, tasks, world, args, disk0, first, disk, false)
      requires args.maxRuns > 0 ==> attempted0 <= args.maxRuns
      modifies this`questions, this`state, this`disk
      ensures attempted == |trace|
      ensures Working(trace0, trace, tasks, i, world, args, disk0, first, old(disk), disk, step == Stop(Killed))
      ensures Limited(args) ==> attempted - attempted0 <= TurnsPerTask(args)
      ensures Favourable(world, args) && world.killedAt > old(questions) + 2 ==>
                step == NextTask && TaskStatus(state, tasks[i]) == Complete && attempted <= attempted0 + 1
      ensures step == Stop(Exit(1)) ==> GivesUp(tasks[i], trace, |trace0|, state, world, args, questions)
      ensures args.maxRuns > 0 ==> attempted <= args.maxRuns
      ensures questions - old(questions) <= 3 * (attempted - attempted0) + 1
      ensures step == Stop(Killed) ==> questions >= world.killedAt
      ensures step != Stop(Killed) ==> state == disk
      ensures step != Stop(Killed) ==> tasks[i].id in disk && disk[tasks[i].id].status == Some(Running) ==>
                tasks[i].id in old(disk) && old(disk)[tasks[i].id].status == Some(Running)
      ensures step.NextTask? && !args.keepGoing ==> TaskStatus(state, tasks[i]) == Complete
      ensures step.NextTask? ==> questions - old(questions) <= 3 * (attempted - attempted0)
      ensures step.ReachedMaxRuns? ==>
                0 < args.maxRuns == attempted && questions - old(questions) <= 3 * (attempted - attempted0)
      ensures step.Stop? && step.outcome.Exit? ==> step.outcome.code == 1 && TaskStatus(state, tasks[i]) != Complete
    {
      hide TaskStatus, Working, Unavailable, Failures, GivesUp, Favourable, Evolves, Logged, DistinctIds;
      var task := tasks[i];
      var consecutiveAgentUnavailable, consecutiveTaskFailure := 0, 0;
      attempted, trace := attempted0, trace0;
      WorkStarts(trace0, tasks, i, world, args, disk0, first, disk);
      FavourableIsUnlimited(world, args);
      while true
        invariant attempted == |trace| && state == disk
        invariant Working(trace0, trace, tasks, i, world, args, disk0, first, old(disk), disk, false)
        invariant 0 <= consecutiveAgentUnavailable && 0 <= consecutiveTaskFailure
        invariant attempted - attempted0 == consecutiveAgentUnavailable + consecutiveTaskFailure
        invariant consecutiveAgentUnavailable == Unavailable(trace, |trace0|, task.id)
        invariant consecutiveTaskFailure == Failures(trace, |trace0|, task.id)
        invariant Favourable(world, args) && world.killedAt > old(questions) + 2 ==> attempted == attempted0
        invariant args.keepGoing ==> attempted == attempted0
        invariant args.agentUnavailableMaxRetries > 0 ==> consecutiveAgentUnavailable <= args.agentUnavailableMaxRetries
        invariant args.taskFailureMaxRetries > 0 ==> consecutiveTaskFailure <= args.taskFailureMaxRetries
        invariant args.maxRuns > 0 ==> attempted <= args.maxRuns
        invariant questions - old(questions) <= 3 * (attempted - attempted0) && old(questions) <= questions
        invariant attempted > attempted0 ==> task.id in disk && disk[task.id].status != Some(Running)
        invariant attempted == attempted0 ==> disk == old(disk)
        decreases world.killedAt - questions
      {
        var status := TaskStatus(state, task);
        if status == Complete {
          return attempted, NextTask, trace;
        }
        if args.maxRuns > 0 && attempted >= args.maxRuns {
          return attempted, ReachedMaxRuns, trace;
        }
        var result;
        result, trace := LoggedTurn(tasks, i, status, trace0, trace, disk0, first, old(disk));
        if result.Blocked? {
          LimitsGiveUp(task, trace, |trace0|, state, world, args, questions);
          return attempted, Stop(if result.alive then Exit(1) else Killed), trace;
        }
        attempted := attempted + 1;
        if result.TurnKilled? {
          return attempted, Stop(Killed), trace;
        }
        if result.TurnInterrupted? {
          return attempted, Stop(KeyboardInterrupt), trace;
        }
        if result.ok {
          return attempted, NextTask, trace;
        }
        var stoppedStatus := TaskStatus(state, task);
        if stoppedStatus == AgentUnavailable && !args.keepGoing {
          consecutiveAgentUnavailable := consecutiveAgentUnavailable + 1;
          if args.agentUnavailableMaxRetries > 0 && consecutiveAgentUnavailable > args.agentUnavailableMaxRetries {
            TurnGivesUp(task, trace, |trace0|, state, world, args, questions);
            return attempted, Stop(Exit(1)), trace;
          }
          continue;
        }
        if RetryableFailure(stoppedStatus) && !args.keepGoing {
          consecutiveTaskFailure := consecutiveTaskFailure + 1;
          if args.taskFailureMaxRetries > 0 && consecutiveTaskFailure > args.taskFailureMaxRetries {
            TurnGivesUp(task, trace, |trace0|, state, world, args, questions);
            return attempted, Stop(Exit(1)), trace;
          }
          continue;
        }
        if !args.keepGoing {
          TurnGivesUp(task, trace, |trace0|, state, world, args, questions);
          return attempted, Stop(Exit(1)), trace;
        }
        return attempted, NextTask, trace;
      }
    }
  }

  /** The log of the turns on task `i`, from the state file `start` to the state file `disk`. */
  ghost predicate Working(trace0: seq<Turn>, trace: seq<Turn>, tasks: seq<Task>, i: nat, world: World, args: Args,
                          disk0: State, first: State, start: State, disk: State, cut: bool)
    requires i < |tasks|
  {
    && Logged(trace, tasks, world, args, disk0, first, disk, cut) && TurnsOn(trace0, trace, i)
    && Evolves(disk0, start) && Evolves(start, disk) && OnlyTouched(start, disk, tasks[i].id)
  }

  lemma WorkStarts(trace0: seq<Turn>, tasks: seq<Task>, i: nat, world: World, args: Args,
                   disk0: State, first: State, disk: State)
    requires i < |tasks| && Evolves(disk0, disk) && Logged(trace0, tasks, world, args, disk0, first, disk, false)
    ensures Working(trace0, trace0, tasks, i, world, args, disk0, first, disk, disk, false)
    ensures Unavailable(trace0, |trace0|, tasks[i].id) == Failures(trace0, |trace0|, tasks[i].id) == 0
  {
    hide Logged;
    EvolvesReflexive(disk);
  }

  lemma FavourableIsUnlimited(world: World, args: Args)
    ensures Favourable(world, args) ==> args.maxRuns <= 0
  {
  }

  /** How many turns, from number `n` on, left a task in one of some statuses. */
  function Ended(trace: seq<Turn>, n: nat, id: string, statuses: set<Status>): nat {
    if |trace| <= n then 0
    else
      var after := trace[|trace| - 1].after;
      Ended(trace[..|trace| - 1], n, id, statuses)
      + if id in after && after[id].status.Some? && after[id].status.value in statuses then 1 else 0
  }

  lemma EndedNext(trace: seq<Turn>, turn: Turn, n: nat, id: string, statuses: set<Status>)
    requires n <= |trace| && id in turn.after
    ensures Ended(trace + [turn], n, id, statuses) == Ended(trace, n, id, statuses)
              + if turn.after[id].status.Some? && turn.after[id].status.value in statuses then 1 else 0
  {
    assert (trace + [turn])[..|trace|] == trace;
  }

  lemma LimitsGiveUp(task: Task, trace: seq<Turn>, n: nat, last: State, world: World, args: Args, questions: nat)
    ensures questions > 0 && !world.usageClear(questions - 1) ==> GivesUp(task, trace, n, last, world, args, questions)
  {
  }

  lemma TurnGivesUp(task: Task, trace: seq<Turn>, n: nat, last: State, world: World, args: Args, questions: nat)
    requires !args.keepGoing && |trace| > n
    requires TaskStatus(last, task) == AgentUnavailable ==>
               0 < args.agentUnavailableMaxRetries == Unavailable(trace, n, task.id) - 1
    requires TaskStatus(last, task) in {Failed, ValidationFailed, Terminated} ==>
               0 < args.taskFailureMaxRetries == Failures(trace, n, task.id) - 1
    ensures GivesUp(task, trace, n, last, world, args, questions)
  {
    hide Unavailable, Failures;
  }

  lemma TurnsOnLength(trace0: seq<Turn>, trace: seq<Turn>, i: nat)
    requires TurnsOn(trace0, trace, i)
    ensures |trace0| <= |trace|
  {
  }

  lemma TurnsOnNext(trace0: seq<Turn>, trace: seq<Turn>, turn: Turn, i: nat)
    requires TurnsOn(trace0, trace, i) && turn.index == i
    ensures TurnsOn(trace0, trace + [turn], i) && |trace0| <= |trace|
  {
  }

  function Unavailable(trace: seq<Turn>, n: nat, id: string): nat {
    Ended(trace, n, id, {AgentUnavailable})
  }

  function Failures(trace: seq<Turn>, n: nat, id: string): nat {
    Ended(trace, n, id, {Failed, ValidationFailed, Terminated})
  }

  /** Why a run ends without success on a task: the last question was for the usage limits, and they
      are not clear; or, unless it keeps
      going, the agent was unavailable or the task failed once more than may be retried, or the turn
      ended in a way that is never retried. */
  ghost predicate GivesUp(task: Task, trace: seq<Turn>, n: nat, last: State, world: World, args: Args, questions: nat) {
    || (questions > 0 && !world.usageClear(questions - 1))
    || (!args.keepGoing && |trace| > n &&
        match TaskStatus(last, task)
        case AgentUnavailable => 0 < args.agentUnavailableMaxRetries == Unavailable(trace, n, task.id) - 1
        case Failed => 0 < args.taskFailureMaxRetries == Failures(trace, n, task.id) - 1
        case ValidationFailed => 0 < args.taskFailureMaxRetries == Failures(trace, n, task.id) - 1
        case Terminated => 0 < args.taskFailureMaxRetries == Failures(trace, n, task.id) - 1
        case _ => true)
  }

  datatype TurnResult = Blocked(alive: bool) | TurnKilled | TurnInterrupted | Done(ok: bool)

  datatype LoopStep = NextTask | ReachedMaxRuns | Stop(outcome: Outcome)

  /** Both retry limits are set, or a task is tried only once. */
  predicate Limited(args: Args) {
    args.keepGoing || (args.agentUnavailableMaxRetries > 0 && args.taskFailureMaxRetries > 0)
  }

  function TurnsPerTask(args: Args): int {
    if args.keepGoing then 1 else args.agentUnavailableMaxRetries + args.taskFailureMaxRetries + 1
  }

  /** A turn is never spent on a complete task, and only syncs a git-pending one. */
  ghost predicate OrderlyTurn(turn: Turn, tasks: seq<Task>, args: Args) {
    && turn.index < |tasks|
    && TaskStatus(turn.before, tasks[turn.index]) != Complete
    && (turn.isSync <==> TaskStatus(turn.before, tasks[turn.index]) == GitPending)
    && (args.keepGoing || forall j | 0 <= j < turn.index :: TaskStatus(turn.before, tasks[j]) == Complete)
  }

  /**
   What a turn does to the state file. A sync leaves everything but the status of its task; any
   other turn needs clear usage limits and starts the agent once, which is one attempt more, and records how it ended.
   A turn that is cut off by a crash has perhaps not synced, or not recorded the end.
   */
  ghost predicate TurnEffect(task: Task, isSync: bool, asked: nat, before: State, after: State,
                             world: World, args: Args, cut: bool) {
    if isSync then
      && task.id in before
      && (after == before[task.id := Synced(before[task.id], world.gitSync(asked))] || (cut && after == before))
    else
      && world.usageClear(asked)
      && task.id in after && after == before[task.id := after[task.id]]
      && OneMoreAttempt(RecordOf(before, task), task, world.now(asked + 1), after[task.id])
      && (cut || after[task.id] == RecordAfterRun(RecordOf(before, task), task, world, args, asked + 1))
  }

  /** Every turn has its effect; only the last one may have been cut off. */
  ghost predicate Effects(trace: seq<Turn>, tasks: seq<Task>, world: World, args: Args, cut: bool) {
    forall k | 0 <= k < |trace| ::
      && trace[k].index < |tasks|
      && TurnEffect(tasks[trace[k].index], trace[k].isSync, trace[k].asked, trace[k].before, trace[k].after,
                    world, args, cut && k == |trace| - 1)
  }

  lemma EffectsCut(trace: seq<Turn>, tasks: seq<Task>, world: World, args: Args)
    requires Effects(trace, tasks, world, args, false)
    ensures Effects(trace, tasks, world, args, true)
  {
    hide OneMoreAttempt, RecordAfterRun;
  }

  lemma EffectsNext(trace: seq<Turn>, turn: Turn, tasks: seq<Task>, world: World, args: Args, cut: bool)
    requires Effects(trace, tasks, world, args, false) && turn.index < |tasks|
    requires TurnEffect(tasks[turn.index], turn.isSync, turn.asked, turn.before, turn.after, world, args, cut)
    ensures Effects(trace + [turn], tasks, world, args, cut)
  {
    hide TurnEffect;
  }

  /** The turns lead from one state file to another: nothing else changes it. */
  ghost predicate Chained(trace: seq<Turn>, first: State, last: State) {
    if trace == [] then last == first
    else trace[|trace| - 1].after == last && Chained(trace[..|trace| - 1], first, trace[|trace| - 1].before)
  }

  lemma ChainedNext(trace: seq<Turn>, first: State, turn: Turn)
    requires Chained(trace, first, turn.before)
    ensures Chained(trace + [turn], first, turn.after)
  {
    assert (trace + [turn])[..|trace|] == trace;
  }

  ghost predicate Orderly(trace: seq<Turn>, tasks: seq<Task>, args: Args) {
    forall turn | turn in trace :: OrderlyTurn(turn, tasks, args)
  }

  /** Every turn of a run started from a state that evolved from the first one. */
  ghost predicate Later(trace: seq<Turn>, start: State) {
    forall turn | turn in trace :: Evolves(start, turn.before)
  }

  /** The turns of a run so far, from the state file `first` to the state file `last`. */
  ghost predicate Logged(trace: seq<Turn>, tasks: seq<Task>, world: World, args: Args,
                         disk0: State, first: State, last: State, cut: bool) {
    && Orderly(trace, tasks, args) && Later(trace, disk0)
    && Chained(trace, first, last) && Effects(trace, tasks, world, args, cut)
  }

  lemma LoggedCut(trace: seq<Turn>, tasks: seq<Task>, world: World, args: Args, disk0: State, first: State, last: State)
    requires Logged(trace, tasks, world, args, disk0, first, last, false)
    ensures Logged(trace, tasks, world, args, disk0, first, last, true)
  {
    hide Orderly, Later, Chained;
    EffectsCut(trace, tasks, world, args);
  }

  lemma LoggedNext(trace: seq<Turn>, turn: Turn, tasks: seq<Task>, i: nat, world: World, args: Args,
                   disk0: State, first: State, start: State, cut: bool)
    requires Logged(trace, tasks, world, args, disk0, first, turn.before, false)
    requires i < |tasks| && DistinctIds(tasks) && turn.index == i
    requires Evolves(disk0, start) && Evolves(start, turn.before) && OnlyTouched(start, turn.before, tasks[i].id)
    requires args.keepGoing || forall j | 0 <= j < i :: TaskStatus(start, tasks[j]) == Complete
    requires TaskStatus(turn.before, tasks[i]) != Complete
    requires turn.isSync <==> TaskStatus(turn.before, tasks[i]) == GitPending
    requires TurnEffect(tasks[i], turn.isSync, turn.asked, turn.before, turn.after, world, args, cut)
    ensures Logged(trace + [turn], tasks, world, args, disk0, first, turn.after, cut)
  {
    hide Orderly, Later, Chained, Effects, TurnEffect, Evolves, OnlyTouched, TaskStatus;
    OrderlyNext(trace, tasks, args, i, start, turn);
    LaterNext(trace, disk0, start, turn);
    ChainedNext(trace, first, turn);
    EffectsNext(trace, turn, tasks, world, args, cut);
  }

  lemma LaterNext(trace: seq<Turn>, start: State, middle: State, turn: Turn)
    requires Later(trace, start) && Evolves(start, middle) && Evolves(middle, turn.before)
    ensures Later(trace + [turn], start)
  {
    hide Evolves;
    EvolvesTransitive(start, middle, turn.before);
  }

  ghost predicate TurnsOn(trace0: seq<Turn>, trace: seq<Turn>, i: nat) {
    trace0 <= trace && forall k | |trace0| <= k < |trace| :: trace[k].index == i
  }

  ghost predicate OnlyTouched(before: State, after: State, id: string) {
    forall other | other != id :: (other in before <==> other in after) && (other in before ==> after[other] == before[other])
  }

  lemma TouchedNothing(state: State, id: string)
    ensures OnlyTouched(state, state, id)
  {
  }

  lemma TouchedTransitive(a: State, b: State, c: State, id: string)
    requires OnlyTouched(a, b, id) && OnlyTouched(b, c, id)
    ensures OnlyTouched(a, c, id)
  {
  }

  lemma OrderlyNext(trace: seq<Turn>, tasks: seq<Task>, args: Args, i: nat, start: State, turn: Turn)
    requires Orderly(trace, tasks, args) && i < |tasks| && DistinctIds(tasks) && turn.index == i
    requires OnlyTouched(start, turn.before, tasks[i].id)
    requires args.keepGoing || forall j | 0 <= j < i :: TaskStatus(start, tasks[j]) == Complete
    requires TaskStatus(turn.before, tasks[i]) != Complete
    requires turn.isSync <==> TaskStatus(turn.before, tasks[i]) == GitPending
    ensures Orderly(trace + [turn], tasks, args)
  {
    forall j | 0 <= j < i ensures TaskStatus(turn.before, tasks[j]) == TaskStatus(start, tasks[j]) {}
  }

  lemma SyncOnlyEvolves(state: State, task: Task)
    requires task.id in state && state[task.id].status == Some(GitPending)
    ensures forall ok :: Evolves(state, state[task.id := Synced(state[task.id], ok)])
  {
  }

  lemma TurnEvolves(start: State, before: State, after: State, task: Task, now: string)
    requires Evolves(start, before) && task.id in after && after == before[task.id := after[task.id]]
    requires OneMoreAttempt(RecordOf(before, task), task, now, after[task.id])
    ensures Evolves(start, after)
  {
    PutEvolves(before, task.id, after[task.id]);
    EvolvesTransitive(start, before, after);
  }

  datatype RunResult = Ran(ok: bool) | RunInterrupted | RunKilled

  function RecordOf(state: State, task: Task): Record {
    if task.id in state then state[task.id] else NoRecord
  }

  function Synced(r: Record, ok: bool): Record {
    r.(status := Some(if ok then Complete else GitPending))
  }

  function RunRecord(r: Record, task: Task, now: string): (started: Record)
    ensures started.attempts != []
  {
    Started(Ensured(r, task), now)
  }

  /** The record a run leaves when its first question has number `q`. */
  function RecordAfterRun(r: Record, task: Task, world: World, args: Args, q: nat): Record {
    var run := world.agentRun(q);
    var started := RunRecord(r, task, world.now(q));
    var finished := Finished(started, RunStatus(run, args),
                             Completion(run.exitCode, run.timedOut, run.validationErrors));
    if RunStatus(run, args) == GitPending then Synced(finished, world.gitSync(q + 1)) else finished
  }

  lemma GoodRunCompletes(r: Record, task: Task, world: World, args: Args, q: nat)
    ensures Favourable(world, args) ==> RecordAfterRun(r, task, world, args, q).status == Some(Complete)
  {
  }

  /** How a run ends, status by status: complete only if the agent ended by itself with exit code 0,
      left nothing invalid, and its work is synced if syncing is asked for. */
  lemma EndOfRun(r: Record, task: Task, world: World, args: Args, q: nat)
    ensures var run := world.agentRun(q);
            var after := RecordAfterRun(r, task, world, args, q);
            var ended := !run.interrupted && run.exitCode != 0;
            && (after.status == Some(Complete) <==>
                  !run.interrupted && run.exitCode == 0 && run.validationErrors == [] && (args.gitSync ==> world.gitSync(q + 1)))
            && (after.status == Some(GitPending) <==>
                  !run.interrupted && run.exitCode == 0 && run.validationErrors == [] && args.gitSync && !world.gitSync(q + 1))
            && (after.status == Some(ValidationFailed) <==>
                  !run.interrupted && run.exitCode == 0 && run.validationErrors != [])
            && (after.status == Some(Interrupted) <==> run.interrupted)
            && (after.status == Some(UsageLimited) <==> ended && run.usageLimitInLog)
            && (after.status == Some(AgentUnavailable) <==> ended && !run.usageLimitInLog && run.unavailableInLog)
            && (after.status == Some(Terminated) <==>
                  ended && !run.usageLimitInLog && !run.unavailableInLog && run.exitCode < 0)
            && (after.status == Some(Failed) <==>
                  ended && !run.usageLimitInLog && !run.unavailableInLog && run.exitCode > 0)
    ensures var run := world.agentRun(q);
            var attempts := RecordAfterRun(r, task, world, args, q).attempts;
            attempts != [] && attempts[|attempts| - 1].startedAt == world.now(q)
            && attempts[|attempts| - 1].completion == Some(Completion(run.exitCode, run.timedOut, run.validationErrors))
  {
  }

  /** A started run: one attempt more, numbered after the current ones. */
  ghost predicate OneMoreAttempt(before: Record, task: Task, now: string, after: Record) {
    && RecordEvolves(before, after)
    && EveryAttempt(after) == EveryAttempt(before) + [(|Ensured(before, task).attempts| + 1, now)]
  }

  lemma RunEvolves(before: Record, task: Task, now: string)
    requires before.status != Some(Complete)
    ensures OneMoreAttempt(before, task, now, RunRecord(before, task, now))
  {
    var record := Ensured(before, task);
    EnsuredEvolves(before, task);
    EnsuredKeepsAttempts(before, task);
    StartedEvolves(record, now);
    RecordEvolvesTransitive(before, record, Started(record, now));
    KeysOfExtended(record.attempts, Attempt(|record.attempts| + 1, now, None));
  }

  lemma EnsuredKeepsAttempts(r: Record, task: Task)
    requires r.status != Some(Complete)
    ensures EveryAttempt(Ensured(r, task)) == EveryAttempt(r)
  {
    if Outdated(r, task) {
      var s := Superseded(r.promptHash.value, r.status.GetOr(Pending), r.attempts);
      assert (r.superseded + [s])[..|r.superseded + [s]| - 1] == r.superseded;
    }
  }

  lemma FinishEvolves(before: Record, task: Task, now: string, status: Status, completion: Completion)
    requires before.status != Some(Complete)
    ensures RunRecord(before, task, now).attempts != []
    ensures var after := Finished(RunRecord(before, task, now), status, completion);
            OneMoreAttempt(before, task, now, after) && !Outdated(after, task) && after.status == Some(status)
  {
    EnsuredEvolves(before, task);
    var started := RunRecord(before, task, now);
    RunEvolves(before, task, now);
    FinishedEvolves(started, status, completion);
    RecordEvolvesTransitive(before, started, Finished(started, status, completion));
    var last := started.attempts[|started.attempts| - 1];
    KeysOfCompleted(started.attempts, last.(completion := Some(completion)));
  }

  lemma SyncEvolves(before: Record, task: Task, now: string, status: Status, completion: Completion)
    requires before.status != Some(Complete)
    ensures RunRecord(before, task, now).attempts != []
    ensures forall ok ::
              var after := Synced(Finished(RunRecord(before, task, now), status, completion), ok);
              && OneMoreAttempt(before, task, now, after) && !Outdated(after, task)
              && after.status == Some(if ok then Complete else GitPending)
  {
    forall ok ensures
      var after := Synced(Finished(RunRecord(before, task, now), status, completion), ok);
      && OneMoreAttempt(before, task, now, after) && !Outdated(after, task)
      && after.status == Some(if ok then Complete else GitPending)
    {
      FinishEvolves(before, task, now, if ok then Complete else GitPending, completion);
    }
  }

  /** Records differ only in that running became interrupted. */
  ghost predicate Normalized(before: State, after: State) {
    && before.Keys == after.Keys
    && forall id | id in before ::
         after[id] == before[id]
         || (before[id].status == Some(Running) && after[id] == before[id].(status := Some(Interrupted)))
  }

  lemma NothingNormalized(state: State, tasks: seq<Task>)
    ensures Normalized(state, state) && NoneRunningBut(state, tasks[..0], None)
  {
  }

  lemma NormalizeOne(before: State, state: State, tasks: seq<Task>, i: nat)
    requires i < |tasks| && Normalized(before, state) && NoneRunningBut(state, tasks[..i], None)
    ensures var id := tasks[i].id;
            var next := if id in state && state[id].status == Some(Running)
                        then state[id := state[id].(status := Some(Interrupted))] else state;
            Normalized(before, next) && NoneRunningBut(next, tasks[..i + 1], None)
  {
  }

  lemma NormalizedEvolves(before: State, after: State)
    requires Normalized(before, after)
    ensures Evolves(before, after)
  {
  }
}
