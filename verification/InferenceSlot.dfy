/**
 Who owns the image server's slots: handler threads, the one inference slot that a handler
 takes and its worker thread gives back, and client deadlines, over all interleavings.
 */
module InferenceSlot {

  /** A handler thread, from accepting its request to answering it. */
  datatype Handler =
    | Reading    // the request is being read and checked
    | Holding    // it took the inference slot and is about to start its worker
    | Waiting    // it waits for its worker, up to the client's deadline
    | Answered   // it has sent its answer; only its own slot is still held

  /** A worker thread: the native request is under way, or its slot has been given back. */
  datatype Worker = Generating | Releasing

  /** Requests are numbered as they arrive. `freed`, `granted` and `released` are the history
      of the two semaphores; `lost` holds the requests whose worker could not be started. */
  datatype State = State(
    handlerSlots: int,
    inferenceSlots: int,
    arrived: nat,
    handlers: map<nat, Handler>,
    workers: map<nat, Worker>,
    completed: set<nat>,
    freed: multiset<nat>,
    granted: multiset<nat>,
    released: multiset<nat>,
    lost: set<nat>)

  function Initial(maxHandlers: nat): State {
    State(maxHandlers, 1, 0, map[], map[], {}, multiset{}, multiset{}, multiset{}, {})
  }

  datatype Event =
    | Arrives                    // refused when no handler slot is free
    | ArrivesUnserved            // the handler's own thread cannot be started
    | Finishes(id: nat)          // answered without native work: malformed, or shutting down
    | TriesInference(id: nat)    // takes the inference slot, or answers that it is busy
    | StartsWorker(id: nat)
    | StartWorkerFails(id: nat)  // the operating system refuses a further thread
    | WorkerReleases(id: nat)    // the worker's `finally`: the native request has ended
    | WorkerSignals(id: nat)
    | DeadlinePasses(id: nat)    // the client gets a timeout, the native request goes on
    | AnswersOutcome(id: nat)
    | Returns(id: nat)           // the handler's `finally`

  predicate At(s: State, id: nat, phase: Handler) {
    id in s.handlers && s.handlers[id] == phase
  }

  predicate Does(s: State, id: nat, work: Worker) {
    id in s.workers && s.workers[id] == work
  }

  predicate Enabled(s: State, e: Event) {
    match e
    case Arrives => true
    case ArrivesUnserved => true
    case Finishes(id) => At(s, id, Reading)
    case TriesInference(id) => At(s, id, Reading)
    case StartsWorker(id) => At(s, id, Holding)
    case StartWorkerFails(id) => At(s, id, Holding)
    case WorkerReleases(id) => Does(s, id, Generating)
    case WorkerSignals(id) => Does(s, id, Releasing)
    case DeadlinePasses(id) => At(s, id, Waiting) && id !in s.completed
    case AnswersOutcome(id) => At(s, id, Waiting) && id in s.completed
    case Returns(id) => At(s, id, Answered)
  }

  function Move(s: State, id: nat, phase: Handler): State {
    s.(handlers := s.handlers[id := phase])
  }

  function Step(s: State, e: Event): State
    requires Enabled(s, e)
  {
    match e
    case Arrives =>
      if s.handlerSlots > 0
      then Move(s, s.arrived, Reading).(arrived := s.arrived + 1, handlerSlots := s.handlerSlots - 1)
      else s
    case ArrivesUnserved =>
      if s.handlerSlots > 0
      then s.(arrived := s.arrived + 1, freed := s.freed + multiset{s.arrived})
      else s
    case Finishes(id) => Move(s, id, Answered)
    case TriesInference(id) =>
      if s.inferenceSlots > 0
      then Move(s, id, Holding).(inferenceSlots := s.inferenceSlots - 1, granted := s.granted + multiset{id})
      else Move(s, id, Answered)
    case StartsWorker(id) => Move(s, id, Waiting).(workers := s.workers[id := Generating])
    case StartWorkerFails(id) => Move(s, id, Answered).(lost := s.lost + {id})
    case WorkerReleases(id) =>
      s.(workers := s.workers[id := Releasing], inferenceSlots := s.inferenceSlots + 1,
         released := s.released + multiset{id})
    case WorkerSignals(id) => s.(workers := s.workers - {id}, completed := s.completed + {id})
    case DeadlinePasses(id) => Move(s, id, Answered)
    case AnswersOutcome(id) => Move(s, id, Answered)
    case Returns(id) =>
      s.(handlers := s.handlers - {id}, handlerSlots := s.handlerSlots + 1, freed := s.freed + multiset{id})
  }

  // ----- ownership

  /** The requests that own the inference slot: about to start a worker, or generating. */
  function Owners(s: State): set<nat> {
    Holders(s.handlers) + Generators(s.workers)
  }

  function Holders(handlers: map<nat, Handler>): set<nat> {
    set id | id in handlers && handlers[id] == Holding
  }

  function Generators(workers: map<nat, Worker>): set<nat> {
    set id | id in workers && workers[id] == Generating
  }

  predicate Owns(s: State, id: nat) {
    At(s, id, Holding) || Does(s, id, Generating)
  }

  function Count(b: bool): nat { if b then 1 else 0 }

  /** What one request did with the two semaphores, and where it may be. */
  ghost predicate Accounted(s: State, id: nat) {
    && s.freed[id] + Count(id in s.handlers) == Count(id < s.arrived)
    && s.granted[id] == s.released[id] + Count(Owns(s, id)) + Count(id in s.lost)
    && s.granted[id] <= 1
    && (id >= s.arrived || At(s, id, Reading) ==> s.granted[id] == 0)
    && (id >= s.arrived || At(s, id, Reading) || At(s, id, Holding) || id in s.lost
        ==> id !in s.workers && id !in s.completed)
    && (id in s.workers ==> id !in s.completed)
    && (At(s, id, Waiting) ==> id in s.workers || id in s.completed)
  }

  /** Every slot is free, owned, or lost with a worker that could not be started. */
  ghost predicate Conserved(maxHandlers: nat, s: State) {
    && s.handlerSlots + |s.handlers.Keys| == maxHandlers
    && s.inferenceSlots + |Owners(s)| + |s.lost| == 1
    && 0 <= s.handlerSlots && 0 <= s.inferenceSlots
  }

  ghost predicate Inv(maxHandlers: nat, s: State) {
    Conserved(maxHandlers, s) && forall id: nat :: Accounted(s, id)
  }

  lemma StepKeepsAccounts(s: State, e: Event, id: nat)
    requires Enabled(s, e) && Accounted(s, id)
    requires e != Arrives && e != ArrivesUnserved ==> Accounted(s, e.id)
    ensures Accounted(Step(s, e), id)
  {
  }

  /** How the owners change: one joins, one leaves, or none. */
  function OwnersAfter(s: State, e: Event): set<nat> {
    match e
    case TriesInference(id) => if s.inferenceSlots > 0 then Owners(s) + {id} else Owners(s)
    case StartWorkerFails(id) => Owners(s) - {id}
    case WorkerReleases(id) => Owners(s) - {id}
    case _ => Owners(s)
  }

  lemma OwnersFollow(s: State, e: Event)
    requires Enabled(s, e) && s.arrived !in s.handlers
    requires e.StartWorkerFails? || e.WorkerReleases? ==> !(At(s, e.id, Holding) && e.id in s.workers)
    ensures Owners(Step(s, e)) == OwnersAfter(s, e)
  {
    var id := if e == Arrives || e == ArrivesUnserved then s.arrived else e.id;
    assert id in Holders(s.handlers) <==> At(s, id, Holding);
    assert id in Generators(s.workers) <==> Does(s, id, Generating);
  }

  lemma StepConserves(maxHandlers: nat, s: State, e: Event)
    requires Enabled(s, e) && Inv(maxHandlers, s)
    ensures Conserved(maxHandlers, Step(s, e))
  {
    assert Accounted(s, s.arrived);
    assert e != Arrives && e != ArrivesUnserved ==> Accounted(s, e.id);
    OwnersFollow(s, e);
  }

  lemma StepKeepsInv(maxHandlers: nat, s: State, e: Event)
    requires Enabled(s, e) && Inv(maxHandlers, s)
    ensures Inv(maxHandlers, Step(s, e))
  {
    StepConserves(maxHandlers, s, e);
    forall id: nat ensures Accounted(Step(s, e), id) {
      StepKeepsAccounts(s, e, id);
    }
  }

  // ----- whole runs

  ghost predicate IsRun(maxHandlers: nat, events: seq<Event>, states: seq<State>) {
    && |states| == |events| + 1
    && states[0] == Initial(maxHandlers)
    && forall i | 0 <= i < |events| :: Enabled(states[i], events[i]) && states[i + 1] == Step(states[i], events[i])
  }

  lemma {:induction false} RunKeepsInv(maxHandlers: nat, events: seq<Event>, states: seq<State>, k: nat)
    requires IsRun(maxHandlers, events, states) && k <= |events|
    ensures Inv(maxHandlers, states[k])
  {
    if k == 0 {
      assert Owners(states[0]) == {};
    } else {
      RunKeepsInv(maxHandlers, events, states, k - 1);
      StepKeepsInv(maxHandlers, states[k - 1], events[k - 1]);
    }
  }

  predicate FailsToStart(events: seq<Event>) {
    exists i | 0 <= i < |events| :: events[i].StartWorkerFails?
  }

  lemma {:induction false} LostMeansFailed(maxHandlers: nat, events: seq<Event>, states: seq<State>, k: nat)
    requires IsRun(maxHandlers, events, states) && k <= |events|
    ensures states[k].lost != {} <==> FailsToStart(events[..k])
  {
    if k == 0 {
      assert !FailsToStart(events[..k]);
    } else {
      hide FailsToStart;
      LostMeansFailed(maxHandlers, events, states, k - 1);
      assert events[..k] == events[..k - 1] + [events[k - 1]];
      OneMoreEvent(events[..k - 1], events[k - 1]);
      StepLoses(states[k - 1], events[k - 1]);
    }
  }

  lemma OneMoreEvent(before: seq<Event>, e: Event)
    ensures FailsToStart(before + [e]) <==> FailsToStart(before) || e.StartWorkerFails?
  {
    var now := before + [e];
    assert now[|before|] == e;
    assert forall i | 0 <= i < |before| :: now[i] == before[i];
  }

  lemma StepLoses(s: State, e: Event)
    requires Enabled(s, e)
    ensures Step(s, e).lost == if e.StartWorkerFails? then s.lost + {e.id} else s.lost
  {
  }

  /** At most one native generation is ever in flight, and the semaphores stay in their bounds. */
  lemma AtMostOneGeneration(maxHandlers: nat, events: seq<Event>, states: seq<State>, k: nat, i: nat, j: nat)
    requires IsRun(maxHandlers, events, states) && k <= |events|
    ensures Does(states[k], i, Generating) && Does(states[k], j, Generating) ==> i == j
    ensures 0 <= states[k].inferenceSlots <= 1
    ensures 0 <= states[k].handlerSlots <= maxHandlers
    ensures maxHandlers - states[k].handlerSlots == |states[k].handlers.Keys|
  {
    RunKeepsInv(maxHandlers, events, states, k);
    var s := states[k];
    if Does(s, i, Generating) {
      assert i in Owners(s) && |Owners(s) - {i}| == 0;
      assert Does(s, j, Generating) ==> j in Owners(s);
    }
  }

  /** The slot is free exactly when no request owns it, if and only if no worker failed to start. */
  lemma SlotFreeIffUnowned(maxHandlers: nat, events: seq<Event>, states: seq<State>, k: nat)
    requires IsRun(maxHandlers, events, states) && k <= |events|
    ensures (states[k].inferenceSlots == 1 <==> forall id: nat :: !Owns(states[k], id))
            <==> !FailsToStart(events[..k])
  {
    RunKeepsInv(maxHandlers, events, states, k);
    LostMeansFailed(maxHandlers, events, states, k);
    var s := states[k];
    assert (forall id: nat :: !Owns(s, id)) <==> Owners(s) == {} by {
      assert forall id: nat :: Owns(s, id) <==> id in Owners(s);
    }
  }

  /** Each request frees its handler slot once, and gives back the inference slot it was granted
      once: when its native work has ended. */
  lemma ReleasedExactlyOnce(maxHandlers: nat, events: seq<Event>, states: seq<State>, k: nat, id: nat)
    requires IsRun(maxHandlers, events, states) && k <= |events|
    ensures id < states[k].arrived ==> states[k].freed[id] == if id in states[k].handlers then 0 else 1
    ensures id >= states[k].arrived ==> states[k].freed[id] == 0
    ensures states[k].released[id] <= states[k].granted[id] <= 1
    ensures states[k].released[id] == states[k].granted[id] <==> !Owns(states[k], id) && id !in states[k].lost
  {
    RunKeepsInv(maxHandlers, events, states, k);
    assert Accounted(states[k], id);
  }

  /** A deadline answers the client but frees nothing: while the native request goes on,
      every other request is told that the server is busy. */
  lemma DeadlineFreesNothing(maxHandlers: nat, events: seq<Event>, states: seq<State>, k: nat, id: nat, other: nat)
    requires IsRun(maxHandlers, events, states) && k < |events|
    requires events[k] == DeadlinePasses(id)
    ensures states[k + 1].inferenceSlots == states[k].inferenceSlots
    ensures states[k + 1].workers == states[k].workers
    ensures Does(states[k], id, Generating) && Enabled(states[k + 1], TriesInference(other)) ==>
              At(Step(states[k + 1], TriesInference(other)), other, Answered)
  {
    RunKeepsInv(maxHandlers, events, states, k);
    if Does(states[k], id, Generating) {
      assert id in Owners(states[k]);
      assert states[k].inferenceSlots == 0;
    }
  }

  lemma {:induction false} LostStays(maxHandlers: nat, events: seq<Event>, states: seq<State>, i: nat, k: nat)
    requires IsRun(maxHandlers, events, states) && i <= k <= |events|
    ensures states[i].lost <= states[k].lost
  {
    if i < k {
      LostStays(maxHandlers, events, states, i, k - 1);
    }
  }

  /** Once a worker could not be started, no request is ever granted the slot again. */
  lemma AfterFailureAlwaysBusy(maxHandlers: nat, events: seq<Event>, states: seq<State>, i: nat, k: nat)
    requires IsRun(maxHandlers, events, states) && i < k < |events|
    requires events[i].StartWorkerFails? && events[k].TriesInference?
    ensures At(states[k + 1], events[k].id, Answered) && states[k + 1].granted == states[k].granted
    ensures Owners(states[k]) == {}
  {
    LostStays(maxHandlers, events, states, i + 1, k);
    assert events[i].id in states[k].lost;
    RunKeepsInv(maxHandlers, events, states, k);
    assert |states[k].lost| > 0;
  }

  lemma LeakingSteps() returns (s1: State, s2: State, s3: State, s4: State)
    ensures Enabled(Initial(1), Arrives) && s1 == Step(Initial(1), Arrives)
    ensures Enabled(s1, TriesInference(0)) && s2 == Step(s1, TriesInference(0))
    ensures Enabled(s2, StartWorkerFails(0)) && s3 == Step(s2, StartWorkerFails(0))
    ensures Enabled(s3, Returns(0)) && s4 == Step(s3, Returns(0))
    ensures s4.inferenceSlots == 0 && s4.handlers == map[] && s4.workers == map[]
  {
    s1 := Step(Initial(1), Arrives);
    s2 := Step(s1, TriesInference(0));
    s3 := Step(s2, StartWorkerFails(0));
    s4 := Step(s3, Returns(0));
  }

  /** A run that shows the slot leaking: one request, whose worker thread cannot be started. */
  lemma SlotCanLeak()
    ensures exists events: seq<Event>, states: seq<State> :: IsRun(1, events, states) && FailsToStart(events)
              && states[|events|].inferenceSlots == 0 && states[|events|].handlers == map[]
              && states[|events|].workers == map[]
  {
    hide Step, Enabled;
    var s1, s2, s3, s4 := LeakingSteps();
    var events := [Arrives, TriesInference(0), StartWorkerFails(0), Returns(0)];
    var states := [Initial(1), s1, s2, s3, s4];
    assert events[2].StartWorkerFails?;
    assert IsRun(1, events, states) && FailsToStart(events);
  }

  // ----- the server's own steps

  class ImageServer {
    var handlerSlots: int
    var inferenceSlots: int
    var arrived: nat
    var handlers: map<nat, Handler>
    var workers: map<nat, Worker>
    var completed: set<nat>
    ghost var freed: multiset<nat>
    ghost var granted: multiset<nat>
    ghost var released: multiset<nat>
    ghost var lost: set<nat>

    ghost function View(): State
      reads this
    {
      State(handlerSlots, inferenceSlots, arrived, handlers, workers, completed, freed, granted, released, lost)
    }

    constructor (maxHandlers: nat)
      ensures View() == Initial(maxHandlers)
    {
      handlerSlots, inferenceSlots, arrived := maxHandlers, 1, 0;
      handlers, workers, completed := map[], map[], {};
      freed, granted, released, lost := multiset{}, multiset{}, multiset{}, {};
    }

    /** `process_request`: a full server refuses; a handler thread that does not start frees its slot. */
    method ProcessRequest(threadStarts: bool) returns (served: bool)
      modifies this
      ensures View() == Step(old(View()), if threadStarts then Arrives else ArrivesUnserved)
      ensures served <==> threadStarts && old(handlerSlots) > 0
    {
      if handlerSlots <= 0 {
        return false;
      }
      handlerSlots := handlerSlots - 1;
      var id := arrived;
      arrived := arrived + 1;
      if !threadStarts {
        ReleaseHandlerSlot(id);
        return false;
      }
      handlers := handlers[id := Reading];
      return true;
    }

    method ReleaseHandlerSlot(id: nat)
      modifies `handlerSlots, `freed
      ensures handlerSlots == old(handlerSlots) + 1 && freed == old(freed) + multiset{id}
    {
      handlerSlots := handlerSlots + 1;
      freed := freed + multiset{id};
    }

    method Answer(id: nat)
      modifies `handlers
      ensures View() == Move(old(View()), id, Answered)
    {
      handlers := handlers[id := Answered];
    }

    /** `do_POST` up to the worker: a checked request takes the slot without waiting, or is told it is busy. */
    method AcquireInference(id: nat, valid: bool) returns (acquired: bool)
      requires At(View(), id, Reading)
      modifies this
      ensures View() == Step(old(View()), if valid then TriesInference(id) else Finishes(id))
      ensures acquired <==> valid && old(inferenceSlots) > 0
    {
      if !valid || inferenceSlots <= 0 {
        Answer(id);
        return false;
      }
      inferenceSlots := inferenceSlots - 1;
      granted := granted + multiset{id};
      handlers := handlers[id := Holding];
      return true;
    }

    /** Starting the worker hands it the slot; nothing gives the slot back when the start raises. */
    method StartGeneration(id: nat, threadStarts: bool)
      requires At(View(), id, Holding)
      modifies this
      ensures View() == Step(old(View()), if threadStarts then StartsWorker(id) else StartWorkerFails(id))
    {
      if !threadStarts {
        lost := lost + {id};
        Answer(id);
        return;
      }
      workers := workers[id := Generating];
      handlers := handlers[id := Waiting];
    }

    /** `run_generation`'s `finally`, first statement. */
    method WorkerReleasesSlot(id: nat)
      requires Does(View(), id, Generating)
      modifies this
      ensures View() == Step(old(View()), WorkerReleases(id))
    {
      inferenceSlots := inferenceSlots + 1;
      released := released + multiset{id};
      workers := workers[id := Releasing];
    }

    /** `run_generation`'s `finally`, second statement: the handler may go on. */
    method WorkerSetsCompleted(id: nat)
      requires Does(View(), id, Releasing)
      modifies this
      ensures View() == Step(old(View()), WorkerSignals(id))
    {
      completed := completed + {id};
      workers := workers - {id};
    }

    /** The wait returns with the outcome, or without one when the client's deadline has passed. */
    method WaitEnds(id: nat) returns (timedOut: bool)
      requires At(View(), id, Waiting)
      modifies this
      ensures timedOut <==> id !in old(completed)
      ensures View() == Step(old(View()), if timedOut then DeadlinePasses(id) else AnswersOutcome(id))
    {
      timedOut := id !in completed;
      Answer(id);
    }

    /** `process_request_thread`'s `finally`. */
    method HandlerReturns(id: nat)
      requires At(View(), id, Answered)
      modifies this
      ensures View() == Step(old(View()), Returns(id))
    {
      handlers := handlers - {id};
      ReleaseHandlerSlot(id);
    }
  }
}
