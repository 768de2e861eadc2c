/**
 Task records of the plan queue: their status, their attempts, and what survives any
 sequence of runs and crashes.
 */
module PlanRecords {
  import opened Prelude

  datatype Status =
    | Pending | Running | Complete | Failed | Interrupted | Terminated
    | UsageLimited | AgentUnavailable | ValidationFailed | GitPending

  datatype Completion = Completion(exitCode: int, timedOut: bool, validationErrors: seq<string>)

  datatype Attempt = Attempt(number: nat, startedAt: string, completion: Option<Completion>)

  datatype Superseded = Superseded(oldPromptHash: string, oldStatus: Status, oldAttempts: seq<Attempt>)

  /** A record as stored; a status or hash may be missing. */
  datatype Record = Record(
    promptHash: Option<string>,
    status: Option<Status>,
    attempts: seq<Attempt>,
    superseded: seq<Superseded>)

  type State = map<string, Record>

  datatype Task = Task(id: string, promptHash: string)

  const NoRecord := Record(None, None, [], [])

  predicate Outdated(r: Record, task: Task) {
    r.promptHash.Some? && r.promptHash.value != "" && r.promptHash.value != task.promptHash
  }

  function TaskStatus(state: State, task: Task): Status {
    if task.id !in state then Pending
    else
      var r := state[task.id];
      var status := r.status.GetOr(Pending);
      if Outdated(r, task) && status != Complete then Pending else status
  }

  function Ensured(r: Record, task: Task): Record {
    var r1 :=
      if !Outdated(r, task) then r
      else
        var r0 := r.(superseded := r.superseded
                       + [Superseded(r.promptHash.value, r.status.GetOr(Pending), r.attempts)]);
        if r.status == Some(Complete) then r0 else r0.(status := Some(Pending), attempts := []);
    r1.(promptHash := Some(task.promptHash))
  }

  function Started(r: Record, now: string): Record {
    r.(status := Some(Running), attempts := r.attempts + [Attempt(|r.attempts| + 1, now, None)])
  }

  function Finished(r: Record, status: Status, completion: Completion): Record
    requires r.attempts != []
  {
    var last := |r.attempts| - 1;
    r.(status := Some(status), attempts := r.attempts[last := r.attempts[last].(completion := Some(completion))])
  }

  // ----- what a record keeps

  /** When an attempt was started and under which number; its completion is filled in later. */
  function Key(a: Attempt): (nat, string) {
    (a.number, a.startedAt)
  }

  function Keys(attempts: seq<Attempt>): seq<(nat, string)> {
    if attempts == [] then [] else Keys(attempts[..|attempts| - 1]) + [Key(attempts[|attempts| - 1])]
  }

  function History(superseded: seq<Superseded>): seq<(nat, string)> {
    if superseded == [] then []
    else History(superseded[..|superseded| - 1]) + Keys(superseded[|superseded| - 1].oldAttempts)
  }

  /** Every attempt ever started, the superseded ones first. */
  function EveryAttempt(r: Record): seq<(nat, string)> {
    History(r.superseded) + Keys(r.attempts)
  }

  /** Attempts are numbered 1..n, in the current set and in every superseded one. */
  ghost predicate Numbered(r: Record) {
    && NumberedFrom1(r.attempts)
    && forall s | s in r.superseded :: NumberedFrom1(s.oldAttempts)
  }

  ghost predicate NumberedFrom1(attempts: seq<Attempt>) {
    forall i | 0 <= i < |attempts| :: attempts[i].number == i + 1
  }

  /** A complete record is never touched again; others never lose an attempt. */
  ghost predicate RecordEvolves(before: Record, after: Record) {
    && (before.status == Some(Complete) ==> after == before)
    && EveryAttempt(before) <= EveryAttempt(after)
    && before.superseded <= after.superseded
    && (Numbered(before) ==> Numbered(after))
  }

  /** Records evolve, and new ones are numbered from 1. */
  ghost predicate Evolves(before: State, after: State) {
    && (forall id | id in before :: id in after && RecordEvolves(before[id], after[id]))
    && (forall id | id in after && id !in before :: Numbered(after[id]))
  }

  ghost predicate AllNumbered(state: State) {
    forall id | id in state :: Numbered(state[id])
  }

  lemma RecordEvolvesTransitive(a: Record, b: Record, c: Record)
    requires RecordEvolves(a, b) && RecordEvolves(b, c)
    ensures RecordEvolves(a, c)
  {
  }

  lemma NumberedEvolves(before: Record, after: Record)
    requires RecordEvolves(before, after) && Numbered(before)
    ensures Numbered(after)
  {
  }

  lemma EvolvesTransitive(a: State, b: State, c: State)
    requires Evolves(a, b) && Evolves(b, c)
    ensures Evolves(a, c)
  {
    hide RecordEvolves;
    forall id | id in a ensures id in c && RecordEvolves(a[id], c[id]) {
      RecordEvolvesTransitive(a[id], b[id], c[id]);
    }
    forall id | id in c && id !in a ensures Numbered(c[id]) {
      if id in b {
        NumberedEvolves(b[id], c[id]);
      }
    }
  }

  /** Resume safety over any number of runs, each from the state file the last one left. */
  lemma {:induction false} RunsEvolve(disks: seq<State>)
    requires disks != []
    requires forall i | 0 <= i < |disks| - 1 :: Evolves(disks[i], disks[i + 1])
    ensures Evolves(disks[0], disks[|disks| - 1])
    ensures AllNumbered(disks[0]) ==> AllNumbered(disks[|disks| - 1])
  {
    if |disks| == 1 {
      EvolvesReflexive(disks[0]);
    } else {
      RunsEvolve(disks[..|disks| - 1]);
      EvolvesTransitive(disks[0], disks[|disks| - 2], disks[|disks| - 1]);
    }
  }

  lemma EvolvesReflexive(state: State)
    ensures Evolves(state, state)
  {
  }

  /** Putting one evolved record into a state. */
  lemma PutEvolves(state: State, id: string, r: Record)
    requires if id in state then RecordEvolves(state[id], r) else Numbered(r)
    ensures Evolves(state, state[id := r])
  {
  }

  lemma {:induction false} KeysOfExtended(attempts: seq<Attempt>, a: Attempt)
    ensures Keys(attempts + [a]) == Keys(attempts) + [Key(a)]
  {
    assert (attempts + [a])[..|attempts + [a]| - 1] == attempts;
  }

  lemma {:induction false} KeysOfCompleted(attempts: seq<Attempt>, a: Attempt)
    requires attempts != [] && Key(a) == Key(attempts[|attempts| - 1])
    ensures Keys(attempts[|attempts| - 1 := a]) == Keys(attempts)
  {
    assert attempts[|attempts| - 1 := a][..|attempts| - 1] == attempts[..|attempts| - 1];
  }

  /** Bringing a record up to date moves its attempts to the history and loses none. */
  lemma EnsuredEvolves(r: Record, task: Task)
    requires r.status != Some(Complete)
    ensures RecordEvolves(r, Ensured(r, task)) && Ensured(r, task).status != Some(Complete)
    ensures !Outdated(Ensured(r, task), task)
  {
    if Outdated(r, task) {
      var s := Superseded(r.promptHash.value, r.status.GetOr(Pending), r.attempts);
      assert (r.superseded + [s])[..|r.superseded + [s]| - 1] == r.superseded;
      assert EveryAttempt(Ensured(r, task)) == EveryAttempt(r);
    }
  }

  /** What another prompt does to an unfinished record: it is pending again, and its attempts, under
      the old prompt and with the old status, become the newest entry of the history. */
  lemma PromptChangeRestarts(r: Record, task: Task, state: State, oldHash: string)
    requires r.promptHash == Some(oldHash) && oldHash != "" && oldHash != task.promptHash && r.status != Some(Complete)
    requires task.id in state && state[task.id] == r
    ensures TaskStatus(state, task) == Pending
    ensures Ensured(r, task) ==
              Record(Some(task.promptHash), Some(Pending), [],
                     r.superseded + [Superseded(oldHash, if r.status.Some? then r.status.value else Pending, r.attempts)])
    ensures Ensured(Ensured(r, task), task) == Ensured(r, task)
  {
  }

  /** The same prompt, or none recorded, changes nothing but the recorded prompt; a complete task
      stays complete under any prompt. */
  lemma SamePromptContinues(r: Record, task: Task, state: State)
    requires task.id in state && state[task.id] == r
    ensures r.promptHash in {None, Some(""), Some(task.promptHash)} ==>
              Ensured(r, task) == r.(promptHash := Some(task.promptHash))
              && TaskStatus(state, task) == if r.status.Some? then r.status.value else Pending
    ensures r.status == Some(Complete) ==> TaskStatus(state, task) == Complete
  {
  }

  lemma StartedEvolves(r: Record, now: string)
    requires r.status != Some(Complete)
    ensures RecordEvolves(r, Started(r, now))
  {
    KeysOfExtended(r.attempts, Attempt(|r.attempts| + 1, now, None));
  }

  lemma FinishedEvolves(r: Record, status: Status, completion: Completion)
    requires r.status != Some(Complete) && r.attempts != []
    ensures RecordEvolves(r, Finished(r, status, completion))
  {
    var last := r.attempts[|r.attempts| - 1];
    KeysOfCompleted(r.attempts, last.(completion := Some(completion)));
  }
}
