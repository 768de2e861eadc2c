/** A whole run of the queue, and what it promises about the state file and its own length. */
module PlanMain {
  import opened Prelude
  import opened PlanRecords
  import opened PlanRunner

  /** How many turns a task got. */
  function TurnCount(trace: seq<Turn>, i: nat): nat {
    if trace == [] then 0
    else TurnCount(trace[..|trace| - 1], i) + if trace[|trace| - 1].index == i then 1 else 0
  }

  lemma {:induction false} TurnCountGrows(trace0: seq<Turn>, trace: seq<Turn>, i: nat, j: nat)
    requires TurnsOn(trace0, trace, i)
    ensures TurnCount(trace, j) == TurnCount(trace0, j) + if j == i then |trace| - |trace0| else 0
  {
    if |trace| > |trace0| {
      var init := trace[..|trace| - 1];
      assert TurnsOn(trace0, init, i);
      TurnCountGrows(trace0, init, i, j);
    } else {
      assert trace == trace0;
    }
  }

  /** No task gets more turns than its retry limits allow, and tasks after the first `n` none. */
  ghost predicate TurnsLimited(trace: seq<Turn>, args: Args, n: nat) {
    && (forall j | j >= n :: TurnCount(trace, j) == 0)
    && (Limited(args) ==> forall j :: TurnCount(trace, j) <= TurnsPerTask(args))
    && (Limited(args) ==> |trace| <= n * TurnsPerTask(args))
  }

  lemma TurnsLimitedNext(trace0: seq<Turn>, trace: seq<Turn>, args: Args, i: nat)
    requires TurnsLimited(trace0, args, i) && TurnsOn(trace0, trace, i)
    requires Limited(args) ==> |trace| - |trace0| <= TurnsPerTask(args)
    ensures TurnsLimited(trace, args, i + 1)
  {
    forall j: nat ensures TurnCount(trace, j) == TurnCount(trace0, j) + if j == i then |trace| - |trace0| else 0 {
      TurnCountGrows(trace0, trace, i, j);
    }
    assert (i + 1) * TurnsPerTask(args) == i * TurnsPerTask(args) + TurnsPerTask(args);
  }

  lemma TurnsLimitedLater(trace: seq<Turn>, args: Args, i: nat, n: nat)
    requires TurnsLimited(trace, args, i) && i <= n && (Limited(args) ==> TurnsPerTask(args) >= 0)
    ensures TurnsLimited(trace, args, n)
  {
    if Limited(args) {
      assert n * TurnsPerTask(args) == i * TurnsPerTask(args) + (n - i) * TurnsPerTask(args);
      Product(n - i, TurnsPerTask(args));
    }
  }

  lemma Product(a: nat, b: nat)
    ensures a * b >= 0
  {
  }

  // ----- attempts on record

  function AttemptCount(state: State, task: Task): nat {
    |EveryAttempt(RecordOf(state, task))|
  }

  function TotalAttempts(state: State, tasks: seq<Task>): nat {
    if tasks == [] then 0
    else TotalAttempts(state, tasks[..|tasks| - 1]) + AttemptCount(state, tasks[|tasks| - 1])
  }

  predicate IsRunOn(turn: Turn, i: nat) {
    turn.index == i && !turn.isSync
  }

  /** How many turns on a task were agent runs. */
  function RunCount(trace: seq<Turn>, i: nat): nat {
    if trace == [] then 0
    else RunCount(trace[..|trace| - 1], i) + if IsRunOn(trace[|trace| - 1], i) then 1 else 0
  }

  lemma {:induction false} RunsAreTurns(trace: seq<Turn>, i: nat)
    ensures RunCount(trace, i) <= TurnCount(trace, i)
  {
    if trace != [] {
      RunsAreTurns(trace[..|trace| - 1], i);
    }
  }

  /** A turn adds one attempt to its task if it is an agent run, and none anywhere else. */
  lemma TurnAttempts(turn: Turn, tasks: seq<Task>, world: World, args: Args, cut: bool, j: nat)
    requires DistinctIds(tasks) && j < |tasks| && turn.index < |tasks|
    requires TurnEffect(tasks[turn.index], turn.isSync, turn.asked, turn.before, turn.after, world, args, cut)
    ensures AttemptCount(turn.after, tasks[j]) == AttemptCount(turn.before, tasks[j]) + if IsRunOn(turn, j) then 1 else 0
  {
    hide RecordAfterRun, RecordEvolves, Ensured;
    if turn.index != j {
      assert tasks[j].id != tasks[turn.index].id by {
        assert forall k, m | 0 <= k < m < |tasks| :: tasks[k].id != tasks[m].id;
        if j < turn.index {
          assert tasks[j].id != tasks[turn.index].id;
        }
      }
    }
  }

  lemma EffectsInit(trace: seq<Turn>, tasks: seq<Task>, world: World, args: Args, cut: bool)
    requires trace != [] && Effects(trace, tasks, world, args, cut)
    ensures Effects(trace[..|trace| - 1], tasks, world, args, false)
    ensures var turn := trace[|trace| - 1];
            turn.index < |tasks|
            && TurnEffect(tasks[turn.index], turn.isSync, turn.asked, turn.before, turn.after, world, args, cut)
  {
    hide TurnEffect;
  }

  /** The attempts a run puts on record are its agent runs, task by task. */
  lemma {:induction false} AttemptsAreRuns(trace: seq<Turn>, tasks: seq<Task>, world: World, args: Args, cut: bool,
                                           first: State, last: State, j: nat)
    requires DistinctIds(tasks) && j < |tasks|
    requires Chained(trace, first, last) && Effects(trace, tasks, world, args, cut)
    ensures AttemptCount(last, tasks[j]) == AttemptCount(first, tasks[j]) + RunCount(trace, j)
  {
    hide AttemptCount, TurnEffect, Effects;
    if trace != [] {
      var turn := trace[|trace| - 1];
      EffectsInit(trace, tasks, world, args, cut);
      AttemptsAreRuns(trace[..|trace| - 1], tasks, world, args, false, first, turn.before, j);
      TurnAttempts(turn, tasks, world, args, cut, j);
    }
  }

  function RunsOf(trace: seq<Turn>, n: nat): nat {
    if n == 0 then 0 else RunsOf(trace, n - 1) + RunCount(trace, n - 1)
  }

  /** Agent runs on different tasks are different turns. */
  lemma {:induction false} RunsOfAreTurns(trace: seq<Turn>, n: nat)
    ensures RunsOf(trace, n) <= |trace|
  {
    if trace == [] {
      NoRuns(n);
    } else {
      RunsOfAreTurns(trace[..|trace| - 1], n);
      RunsOfNext(trace, n);
    }
  }

  lemma {:induction false} NoRuns(n: nat)
    ensures RunsOf([], n) == 0
  {
    if n > 0 {
      NoRuns(n - 1);
    }
  }

  lemma {:induction false} RunsOfNext(trace: seq<Turn>, n: nat)
    requires trace != []
    ensures RunsOf(trace, n) ==
              RunsOf(trace[..|trace| - 1], n) + if trace[|trace| - 1].index < n && !trace[|trace| - 1].isSync then 1 else 0
  {
    if n > 0 {
      RunsOfNext(trace, n - 1);
    }
  }

  lemma {:induction false} TotalIsRuns(trace: seq<Turn>, tasks: seq<Task>, first: State, last: State, n: nat)
    requires n <= |tasks|
    requires forall j | 0 <= j < |tasks| ::
               AttemptCount(last, tasks[j]) == AttemptCount(first, tasks[j]) + RunCount(trace, j)
    ensures TotalAttempts(last, tasks[..n]) == TotalAttempts(first, tasks[..n]) + RunsOf(trace, n)
  {
    if n > 0 {
      TotalIsRuns(trace, tasks, first, last, n - 1);
      assert tasks[..n][..n - 1] == tasks[..n - 1];
    }
  }

  lemma NormalizedKeepsAttempts(before: State, after: State, task: Task)
    requires Normalized(before, after)
    ensures AttemptCount(after, task) == AttemptCount(before, task)
    ensures task.id in before && before[task.id].status != Some(Running) ==>
              task.id in after && after[task.id] == before[task.id]
  {
  }

  /**
   The bounds of a run, on the records: the new attempts of a task are its agent runs, at most
   as many as the retry limits allow, and all new attempts together at most the turn limit.
   */
  ghost predicate AttemptsBounded(before: State, after: State, tasks: seq<Task>, args: Args, trace: seq<Turn>) {
    && (forall j | 0 <= j < |tasks| :: AttemptCount(after, tasks[j]) == AttemptCount(before, tasks[j]) + RunCount(trace, j))
    && (Limited(args) ==> forall j | 0 <= j < |tasks| ::
          AttemptCount(after, tasks[j]) <= AttemptCount(before, tasks[j]) + TurnsPerTask(args))
    && (args.maxRuns > 0 ==> TotalAttempts(after, tasks) <= TotalAttempts(before, tasks) + args.maxRuns)
  }

  lemma RunIsBounded(disk0: State, first: State, last: State, tasks: seq<Task>, world: World, args: Args,
                     trace: seq<Turn>, cut: bool)
    requires DistinctIds(tasks) && Normalized(disk0, first)
    requires Chained(trace, first, last) && Effects(trace, tasks, world, args, cut)
    requires TurnsLimited(trace, args, |tasks|) && (args.maxRuns > 0 ==> |trace| <= args.maxRuns)
    ensures AttemptsBounded(disk0, last, tasks, args, trace)
  {
    hide AttemptCount, Effects, Chained, Normalized;
    forall j | 0 <= j < |tasks|
      ensures AttemptCount(last, tasks[j]) == AttemptCount(disk0, tasks[j]) + RunCount(trace, j)
      ensures RunCount(trace, j) <= TurnCount(trace, j)
    {
      AttemptsAreRuns(trace, tasks, world, args, cut, first, last, j);
      NormalizedKeepsAttempts(disk0, first, tasks[j]);
      RunsAreTurns(trace, j);
    }
    TotalIsRuns(trace, tasks, disk0, last, |tasks|);
    assert tasks[..|tasks|] == tasks;
    RunsOfAreTurns(trace, |tasks|);
  }

  // ----- finished work is only synced, and tasks are started in order

  /** A record before and after nothing but git syncs. */
  predicate OnlySynced(before: Record, after: Record) {
    after == before || after == before.(status := Some(Complete))
  }

  predicate AwaitsSync(state: State, task: Task) {
    task.id in state && state[task.id].status == Some(GitPending) && !Outdated(state[task.id], task)
  }

  lemma TurnOnlySyncs(turn: Turn, tasks: seq<Task>, world: World, args: Args, cut: bool, j: nat, r: Record)
    requires DistinctIds(tasks) && j < |tasks| && OrderlyTurn(turn, tasks, args)
    requires TurnEffect(tasks[turn.index], turn.isSync, turn.asked, turn.before, turn.after, world, args, cut)
    requires r.status == Some(GitPending) && !Outdated(r, tasks[j])
    requires tasks[j].id in turn.before && OnlySynced(r, turn.before[tasks[j].id])
    ensures tasks[j].id in turn.after && OnlySynced(r, turn.after[tasks[j].id]) && !IsRunOn(turn, j)
  {
    hide OneMoreAttempt, RecordAfterRun;
    if turn.index != j {
      assert tasks[j].id != tasks[turn.index].id by {
        if j < turn.index {
          assert tasks[j].id != tasks[turn.index].id;
        }
      }
    }
  }

  /**
   A git-pending task whose prompt did not change is only synced: whatever a run does, its record
   stays as it is, but for the status, which may become complete, and no agent run is spent on it.
   */
  lemma {:induction false} GitPendingOnlySyncs(trace: seq<Turn>, tasks: seq<Task>, world: World, args: Args, cut: bool,
                                               first: State, last: State, j: nat)
    requires DistinctIds(tasks) && j < |tasks| && AwaitsSync(first, tasks[j])
    requires Orderly(trace, tasks, args) && Chained(trace, first, last) && Effects(trace, tasks, world, args, cut)
    ensures tasks[j].id in last && OnlySynced(first[tasks[j].id], last[tasks[j].id])
    ensures RunCount(trace, j) == 0
  {
    hide TurnEffect, Effects, OrderlyTurn;
    if trace != [] {
      var init, turn := trace[..|trace| - 1], trace[|trace| - 1];
      EffectsInit(trace, tasks, world, args, cut);
      assert Orderly(init, tasks, args) && OrderlyTurn(turn, tasks, args);
      GitPendingOnlySyncs(init, tasks, world, args, false, first, turn.before, j);
      TurnOnlySyncs(turn, tasks, world, args, cut, j, first[tasks[j].id]);
    }
  }

  /** The converse, turn by turn: a git-pending task is synced, and keeps its attempts, exactly when
      its prompt is unchanged; otherwise the agent runs once more. */
  lemma GitPendingTurn(turn: Turn, tasks: seq<Task>, world: World, args: Args, cut: bool)
    requires DistinctIds(tasks) && OrderlyTurn(turn, tasks, args)
    requires TurnEffect(tasks[turn.index], turn.isSync, turn.asked, turn.before, turn.after, world, args, cut)
    requires tasks[turn.index].id in turn.before && turn.before[tasks[turn.index].id].status == Some(GitPending)
    ensures AttemptCount(turn.after, tasks[turn.index]) == AttemptCount(turn.before, tasks[turn.index])
            <==> !Outdated(turn.before[tasks[turn.index].id], tasks[turn.index])
  {
    TurnAttempts(turn, tasks, world, args, cut, turn.index);
  }

  lemma TurnEffectEvolves(turn: Turn, tasks: seq<Task>, world: World, args: Args, cut: bool)
    requires OrderlyTurn(turn, tasks, args)
    requires TurnEffect(tasks[turn.index], turn.isSync, turn.asked, turn.before, turn.after, world, args, cut)
    ensures Evolves(turn.before, turn.after)
  {
    hide OneMoreAttempt, RecordAfterRun, Evolves;
    EvolvesReflexive(turn.before);
    if turn.isSync {
      SyncOnlyEvolves(turn.before, tasks[turn.index]);
    } else {
      TurnEvolves(turn.before, turn.before, turn.after, tasks[turn.index], world.now(turn.asked + 1));
    }
  }

  lemma {:induction false} EvolvesToEnd(trace: seq<Turn>, tasks: seq<Task>, world: World, args: Args, cut: bool,
                                        first: State, last: State, k: nat)
    requires k < |trace| && Orderly(trace, tasks, args)
    requires Chained(trace, first, last) && Effects(trace, tasks, world, args, cut)
    ensures Evolves(trace[k].before, last)
  {
    hide TurnEffect, Effects, OrderlyTurn, Evolves;
    var init, turn := trace[..|trace| - 1], trace[|trace| - 1];
    EffectsInit(trace, tasks, world, args, cut);
    assert Orderly(init, tasks, args) && OrderlyTurn(turn, tasks, args);
    TurnEffectEvolves(turn, tasks, world, args, cut);
    if k < |init| {
      EvolvesToEnd(init, tasks, world, args, false, first, turn.before, k);
      EvolvesTransitive(init[k].before, turn.before, last);
    }
  }

  lemma {:induction false} RunHappened(trace: seq<Turn>, j: nat) returns (k: nat)
    requires RunCount(trace, j) > 0
    ensures k < |trace| && IsRunOn(trace[k], j)
  {
    if IsRunOn(trace[|trace| - 1], j) {
      k := |trace| - 1;
    } else {
      k := RunHappened(trace[..|trace| - 1], j);
    }
  }

  /** Without keep-going, a task that got an attempt has all earlier tasks complete on disk. */
  lemma StartedInOrder(trace: seq<Turn>, tasks: seq<Task>, world: World, args: Args, cut: bool,
                       first: State, last: State, i: nat, j: nat)
    requires !args.keepGoing && i < j < |tasks| && RunCount(trace, j) > 0
    requires Orderly(trace, tasks, args) && Chained(trace, first, last) && Effects(trace, tasks, world, args, cut)
    ensures TaskStatus(last, tasks[i]) == Complete
  {
    hide Effects, Chained;
    var k := RunHappened(trace, j);
    EvolvesToEnd(trace, tasks, world, args, cut, first, last, k);
    assert OrderlyTurn(trace[k], tasks, args);
    assert TaskStatus(trace[k].before, tasks[i]) == Complete;
    assert RecordEvolves(trace[k].before[tasks[i].id], last[tasks[i].id]);
  }

  /** The statuses that make a run stopped by its turn limit report a failure. */
  predicate Blocker(status: Status) {
    status in {Failed, ValidationFailed, GitPending, UsageLimited, AgentUnavailable, Interrupted, Terminated}
  }

  predicate AnyBlocker(state: State, tasks: seq<Task>) {
    exists i :: 0 <= i < |tasks| && Blocker(TaskStatus(state, tasks[i]))
  }

  /** Earlier tasks keep their status while one task is worked on. */
  lemma OthersKeepStatus(before: State, after: State, tasks: seq<Task>, i: nat)
    requires i < |tasks| && DistinctIds(tasks) && OnlyTouched(before, after, tasks[i].id)
    ensures forall j | 0 <= j < |tasks| && j != i :: TaskStatus(after, tasks[j]) == TaskStatus(before, tasks[j])
    ensures NoneRunningBut(before, tasks, None) ==> NoneRunningBut(after, tasks, Some(tasks[i].id))
    ensures NoneRunningBut(before, tasks, None)
            && (tasks[i].id in after && after[tasks[i].id].status == Some(Running) ==>
                  tasks[i].id in before && before[tasks[i].id].status == Some(Running)) ==>
              NoneRunningBut(after, tasks, None)
  {
    forall j | 0 <= j < |tasks| && j != i ensures tasks[j].id != tasks[i].id {
      if j < i {
        assert tasks[j].id != tasks[i].id;
      }
    }
  }

  /** Git-pending tasks with an unchanged prompt were only synced. */
  ghost predicate PendingOnlySynced(before: State, after: State, tasks: seq<Task>) {
    forall j | 0 <= j < |tasks| && AwaitsSync(before, tasks[j]) ::
      tasks[j].id in after && OnlySynced(before[tasks[j].id], after[tasks[j].id])
  }

  /** A task that got an attempt has all earlier tasks complete. */
  ghost predicate AttemptedInOrder(before: State, after: State, tasks: seq<Task>) {
    forall i, j | 0 <= i < j < |tasks| && AttemptCount(after, tasks[j]) > AttemptCount(before, tasks[j]) ::
      TaskStatus(after, tasks[i]) == Complete
  }

  /** The reason why a run ended without success, on one of its tasks. */
  ghost predicate SomeGaveUp(last: State, tasks: seq<Task>, world: World, args: Args, trace: seq<Turn>, questions: nat) {
    exists i, n :: 0 <= i < |tasks| && 0 <= n <= |trace| && GivesUp(tasks[i], trace, n, last, world, args, questions)
  }

  /** Between two tasks: the first `i` are dealt with. */
  ghost predicate QueueAt(trace: seq<Turn>, tasks: seq<Task>, i: nat, world: World, args: Args,
                          disk0: State, first: State, disk: State, cut: bool) {
    Evolves(disk0, disk) && Logged(trace, tasks, world, args, disk0, first, disk, cut) && TurnsLimited(trace, args, i)
  }

  predicate FirstComplete(state: State, tasks: seq<Task>, i: nat) {
    i <= |tasks| && forall j | 0 <= j < i :: TaskStatus(state, tasks[j]) == Complete
  }

  lemma QueueNext(trace0: seq<Turn>, trace: seq<Turn>, tasks: seq<Task>, i: nat, world: World, args: Args,
                  disk0: State, first: State, before: State, disk: State, cut: bool)
    requires i < |tasks| && DistinctIds(tasks)
    requires QueueAt(trace0, tasks, i, world, args, disk0, first, before, false)
    requires Working(trace0, trace, tasks, i, world, args, disk0, first, before, disk, cut)
    requires Limited(args) ==> |trace| - |trace0| <= TurnsPerTask(args)
    ensures QueueAt(trace, tasks, i + 1, world, args, disk0, first, disk, cut)
    ensures |trace0| <= |trace|
    ensures forall j | 0 <= j < |tasks| && j != i :: TaskStatus(disk, tasks[j]) == TaskStatus(before, tasks[j])
    ensures FirstComplete(before, tasks, i) && TaskStatus(disk, tasks[i]) == Complete ==> FirstComplete(disk, tasks, i + 1)
    ensures NoneRunningBut(before, tasks, None) ==> NoneRunningBut(disk, tasks, Some(tasks[i].id))
    ensures NoneRunningBut(before, tasks, None)
            && (tasks[i].id in disk && disk[tasks[i].id].status == Some(Running) ==>
                  tasks[i].id in before && before[tasks[i].id].status == Some(Running)) ==>
              NoneRunningBut(disk, tasks, None)
  {
    hide Evolves, Logged, TurnsLimited, NoneRunningBut, OnlyTouched, TurnsOn, TaskStatus;
    EvolvesTransitive(disk0, before, disk);
    OthersKeepStatus(before, disk, tasks, i);
    TurnsLimitedNext(trace0, trace, args, i);
    TurnsOnLength(trace0, trace, i);
  }

  /** What is said of a run that ends, from its log. */
  lemma QueueEnds(trace: seq<Turn>, tasks: seq<Task>, i: nat, world: World, args: Args,
                  disk0: State, first: State, disk: State, cut: bool)
    requires DistinctIds(tasks) && i <= |tasks| && Normalized(disk0, first)
    requires QueueAt(trace, tasks, i, world, args, disk0, first, disk, cut)
    requires args.maxRuns > 0 ==> |trace| <= args.maxRuns
    ensures Evolves(disk0, disk) && TurnsLimited(trace, args, |tasks|)
    ensures Chained(trace, first, disk) && Effects(trace, tasks, world, args, cut)
    ensures Orderly(trace, tasks, args) && Later(trace, disk0)
    ensures AttemptsBounded(disk0, disk, tasks, args, trace) && PendingOnlySynced(disk0, disk, tasks)
    ensures !args.keepGoing ==> AttemptedInOrder(disk0, disk, tasks)
    ensures Limited(args) ==> |trace| <= |tasks| * TurnsPerTask(args)
  {
    hide Evolves, Logged, TurnsLimited, Normalized, AttemptsBounded, PendingOnlySynced, AttemptedInOrder;
    TurnsLimitedLater(trace, args, i, |tasks|);
    LimitedLength(trace, args, |tasks|);
    LoggedParts(trace, tasks, world, args, disk0, first, disk, cut);
    RunOnRecords(disk0, first, disk, tasks, world, args, trace, cut);
  }

  /** What the turns of a finished run come to on the records. */
  lemma RunOnRecords(disk0: State, first: State, last: State, tasks: seq<Task>, world: World, args: Args,
                     trace: seq<Turn>, cut: bool)
    requires DistinctIds(tasks) && Normalized(disk0, first)
    requires Logged(trace, tasks, world, args, disk0, first, last, cut)
    requires TurnsLimited(trace, args, |tasks|) && (args.maxRuns > 0 ==> |trace| <= args.maxRuns)
    ensures AttemptsBounded(disk0, last, tasks, args, trace)
    ensures PendingOnlySynced(disk0, last, tasks)
    ensures !args.keepGoing ==> AttemptedInOrder(disk0, last, tasks)
  {
    hide Orderly, Effects, Chained, Normalized, AttemptCount, TurnsLimited;
    RunIsBounded(disk0, first, last, tasks, world, args, trace, cut);
    forall j | 0 <= j < |tasks| && AwaitsSync(disk0, tasks[j])
      ensures tasks[j].id in last && OnlySynced(disk0[tasks[j].id], last[tasks[j].id])
    {
      NormalizedKeepsAttempts(disk0, first, tasks[j]);
      GitPendingOnlySyncs(trace, tasks, world, args, cut, first, last, j);
    }
    forall i, j | !args.keepGoing && 0 <= i < j < |tasks| && AttemptCount(last, tasks[j]) > AttemptCount(disk0, tasks[j])
      ensures TaskStatus(last, tasks[i]) == Complete
    {
      StartedInOrder(trace, tasks, world, args, cut, first, last, i, j);
    }
  }

  /**
   A run of the queue from the state file `disk0`. Complete tasks are never touched, no
   attempt is lost, new attempts are bounded and made in order, finished work is only synced,
   and with both retry limits set the run ends by itself after a bounded number of turns and
   questions to the outside world. The turns lead from the normalised file to the last one.
   */
  method RunQueue(tasks: seq<Task>, args: Args, world: World, disk0: State)
    returns (outcome: Outcome, disk: State, questions: nat, ghost first: State, ghost trace: seq<Turn>)
    requires DistinctIds(tasks)
    ensures Evolves(disk0, disk)
    ensures Normalized(disk0, first) && NoneRunningBut(first, tasks, None)
    ensures Chained(trace, first, disk) && Effects(trace, tasks, world, args, outcome == Killed)
    ensures Orderly(trace, tasks, args) && Later(trace, disk0)
    ensures AttemptsBounded(disk0, disk, tasks, args, trace)
    ensures PendingOnlySynced(disk0, disk, tasks)
    ensures !args.keepGoing ==> AttemptedInOrder(disk0, disk, tasks)
    ensures TurnsLimited(trace, args, |tasks|)
    ensures args.maxRuns > 0 ==> |trace| <= args.maxRuns
    ensures Limited(args) && world.killedAt > 3 * (|tasks| * TurnsPerTask(args)) + 1 ==> outcome != Killed
    ensures outcome != Killed ==> NoneRunningBut(disk, tasks, None)
    ensures outcome == Killed ==> exists id :: NoneRunningBut(disk, tasks, id)
    ensures outcome.Exit? ==> outcome.code in {0, 1}
    ensures outcome.Exit? && AllComplete(disk, tasks) ==> outcome.code == 0
    ensures Favourable(world, args) && world.killedAt > 3 * |tasks| ==> outcome == Exit(0) && AllComplete(disk, tasks)
    ensures outcome == Exit(1) ==> (0 < args.maxRuns == |trace|) || SomeGaveUp(disk, tasks, world, args, trace, questions)
    ensures outcome == Exit(0) && !args.keepGoing ==>
              AllComplete(disk, tasks) || (0 < args.maxRuns == |trace| && !AnyBlocker(disk, tasks))
  {
    hide Evolves, Logged, Normalized, TurnsLimited, NoneRunningBut, Favourable, GivesUp, QueueAt, Working, FirstComplete;
    hide AttemptsBounded, PendingOnlySynced, AttemptedInOrder, Orderly, Later, Chained, Effects, TaskStatus;
    var attempted: nat := 0;
    trace := [];
    var runner := new Runner(world, args, disk0);
    runner.NormalizeStaleRunningTasks(tasks);
    first := runner.disk;
    QueueStarts(tasks, world, args, disk0, first);
    var reachedMaxRuns := false;
    var i := 0;
    while i < |tasks| && !reachedMaxRuns
      invariant 0 <= i <= |tasks| && attempted == |trace| && runner.state == runner.disk
      invariant QueueAt(trace, tasks, i, world, args, disk0, first, runner.disk, false)
      invariant NoneRunningBut(runner.disk, tasks, None)
      invariant args.keepGoing || reachedMaxRuns || FirstComplete(runner.state, tasks, i)
      invariant args.maxRuns > 0 ==> attempted <= args.maxRuns
      invariant runner.questions <= 3 * attempted
      invariant reachedMaxRuns ==> 0 < args.maxRuns == attempted
      invariant Favourable(world, args) && world.killedAt > 3 * |tasks| ==>
                  !reachedMaxRuns && attempted <= i && FirstComplete(runner.state, tasks, i)
    {
      ghost var before, trace0 := runner.disk, trace;
      EachComplete(runner.state, tasks, i);
      QueueAtParts(trace, tasks, i, world, args, disk0, first, before);
      var step;
      attempted, step, trace := runner.WorkOnTask(tasks, i, attempted, trace, disk0, first);
      QueueNext(trace0, trace, tasks, i, world, args, disk0, first, before, runner.disk, step == Stop(Killed));
      if step.Stop? {
        QueueEnds(trace, tasks, i + 1, world, args, disk0, first, runner.disk, step == Stop(Killed));
        return step.outcome, runner.disk, runner.questions, first, trace;
      }
      if step.ReachedMaxRuns? {
        reachedMaxRuns := true;
      }
      i := i + 1;
    }
    disk, questions := runner.disk, runner.questions;
    EachComplete(disk, tasks, i);
    QueueEnds(trace, tasks, i, world, args, disk0, first, disk, false);
    if AllComplete(disk, tasks) {
      return Exit(0), disk, questions, first, trace;
    }
    if reachedMaxRuns && !AnyBlocker(disk, tasks) {
      return Exit(0), disk, questions, first, trace;
    }
    outcome := Exit(if args.keepGoing then 0 else 1);
  }

  lemma EachComplete(state: State, tasks: seq<Task>, i: nat)
    ensures FirstComplete(state, tasks, i) ==> forall j | 0 <= j < i :: TaskStatus(state, tasks[j]) == Complete
    ensures FirstComplete(state, tasks, |tasks|) ==> AllComplete(state, tasks)
    ensures FirstComplete(state, tasks, 0)
  {
  }

  lemma QueueStarts(tasks: seq<Task>, world: World, args: Args, disk0: State, first: State)
    requires Normalized(disk0, first)
    ensures QueueAt([], tasks, 0, world, args, disk0, first, first, false)
    ensures FirstComplete(first, tasks, 0)
  {
    hide Logged, TurnsLimited, Evolves, Normalized;
    NormalizedEvolves(disk0, first);
    NoTurns(tasks, world, args, disk0, first);
  }

  lemma QueueAtParts(trace: seq<Turn>, tasks: seq<Task>, i: nat, world: World, args: Args,
                     disk0: State, first: State, disk: State)
    requires QueueAt(trace, tasks, i, world, args, disk0, first, disk, false)
    ensures Evolves(disk0, disk) && Logged(trace, tasks, world, args, disk0, first, disk, false)
  {
    hide Logged, Evolves;
  }

  lemma NoTurns(tasks: seq<Task>, world: World, args: Args, disk0: State, first: State)
    ensures Logged([], tasks, world, args, disk0, first, first, false) && TurnsLimited([], args, 0)
  {
  }

  lemma LoggedParts(trace: seq<Turn>, tasks: seq<Task>, world: World, args: Args,
                    disk0: State, first: State, last: State, cut: bool)
    requires Logged(trace, tasks, world, args, disk0, first, last, cut)
    ensures Chained(trace, first, last) && Effects(trace, tasks, world, args, cut)
    ensures Orderly(trace, tasks, args) && Later(trace, disk0)
  {
  }

  lemma LimitedLength(trace: seq<Turn>, args: Args, n: nat)
    requires TurnsLimited(trace, args, n)
    ensures Limited(args) ==> |trace| <= n * TurnsPerTask(args)
  {
  }

  /**
   Over any number of runs, whatever their queues and however they ended: once a task is
   complete on disk its record stays as it is, and no later run spends a turn on it.
   */
  lemma {:induction false} CompleteForGood(disks: seq<State>, i: nat, k: nat, task: Task,
                                           tasks: seq<Task>, args: Args, trace: seq<Turn>)
    requires i <= k < |disks|
    requires forall m | 0 <= m < |disks| - 1 :: Evolves(disks[m], disks[m + 1])
    requires TaskStatus(disks[i], task) == Complete
    requires Orderly(trace, tasks, args) && Later(trace, disks[k])
    ensures task.id in disks[k] && disks[k][task.id] == disks[i][task.id]
    ensures forall turn | turn in trace :: tasks[turn.index].id != task.id
  {
    var part := disks[i..k + 1];
    forall m | 0 <= m < |part| - 1 ensures Evolves(part[m], part[m + 1]) {
      assert part[m] == disks[i + m] && part[m + 1] == disks[i + m + 1];
    }
    RunsEvolve(part);
    assert RecordEvolves(disks[i][task.id], disks[k][task.id]);
    forall turn | turn in trace ensures tasks[turn.index].id != task.id {
      assert OrderlyTurn(turn, tasks, args) && Evolves(disks[k], turn.before);
      assert RecordEvolves(disks[k][task.id], turn.before[task.id]);
    }
  }
}
