/** `connect` (api/client/client.go:277-411) as a transition system. The spawner, one
    worker per attempt, the closer, the caller itself and the drainer are goroutines with
    a program counter each; a send on an unbuffered channel is one step shared with its
    receiver. A dial is one step with an arbitrary outcome. Every statement below holds
    for every interleaving. */
module DialRace {
  import opened Counting
  import opened DialPlan

  datatype Outcome = Reported(error: Error) | HandedOver | Closed

  /** `Finishing` is the point between a worker's last statement and its deferred
      `wg.Done()`. The client a worker dials is named by the worker's index. */
  datatype Worker =
    | Dialing | Failing(error: Error) | Offering | Finishing(outcome: Outcome) | Exited(outcome: Outcome)

  datatype Spawner = Running(next: nat) | SpawnerFinishing | SpawnerExited

  datatype Closer = Waiting | Closing | CloserExited

  datatype Drainer = NotStarted | Draining | DrainerExited

  /** `NoMethods` carries whether the caller gave neither a dialer nor an address;
      `AllFailed` whether the context's own error was appended. */
  datatype Result = Connected(client: nat) | NoMethods(nothingGiven: bool) | AllFailed(errs: seq<Error>, ctxErr: bool)

  datatype Main =
    | Selecting(errs: seq<Error>) | Summing(errs: seq<Error>) | Returning(result: Result) | Returned(result: Result)

  datatype State = State(
    plan: seq<Action>,
    nothingGiven: bool,
    workers: seq<Worker>,
    spawner: Spawner,
    closer: Closer,
    main: Main,
    drainer: Drainer,
    wg: int,
    errChanClosed: bool,
    parentCancelled: bool)

  datatype SpawnerStep = StartWorker | ReportToMain | ReportToDrainer | EndLoop | SpawnerDone

  datatype WorkerStep =
    | DialOk | DialErr(error: Error) | FailToMain | FailToDrainer | HandOver | CloseOnCancel | WorkerDone

  /** The remaining goroutines have at most one thing to do next. `ParentCancels` is the
      only step taken by nobody here. */
  datatype Step =
    | OfSpawner(spawnerStep: SpawnerStep)
    | OfWorker(i: nat, workerStep: WorkerStep)
    | OfCloser | OfMain | OfDrainer | ParentCancels

  predicate NothingGiven(cfg: Config) { cfg.addrs == [] && !cfg.hasDialer }

  function Init(cfg: Config): State {
    State(Plan(cfg), NothingGiven(cfg), [], Running(0), Waiting, Selecting([]), NotStarted, 1, false, false)
  }

  /** `ctx.Done()`: the parent was cancelled, or `connect` returned and ran its deferred
      `cancel()`. */
  predicate CtxDone(s: State) {
    s.parentCancelled || s.main.Returned?
  }

  predicate SpawnerAt(s: State) {
    s.spawner.Running? && s.spawner.next < |s.plan|
  }

  predicate Reporting(s: State) {
    SpawnerAt(s) && s.plan[s.spawner.next].Report?
  }

  predicate SpawnerEnabled(s: State, step: SpawnerStep) {
    match step
    case StartWorker => SpawnerAt(s) && s.plan[s.spawner.next].Spawn?
    case ReportToMain => Reporting(s) && !s.errChanClosed && s.main.Selecting?
    case ReportToDrainer => Reporting(s) && !s.errChanClosed && s.drainer.Draining?
    case EndLoop => s.spawner == Running(|s.plan|)
    case SpawnerDone => s.spawner.SpawnerFinishing?
  }

  function SpawnerApply(s: State, step: SpawnerStep): State
    requires SpawnerEnabled(s, step)
  {
    match step
    case StartWorker =>
      s.(workers := s.workers + [Dialing], wg := s.wg + 1, spawner := Running(s.spawner.next + 1))
    case ReportToMain =>
      s.(main := Selecting(s.main.errs + [s.plan[s.spawner.next].error]), spawner := Running(s.spawner.next + 1))
    case ReportToDrainer => s.(spawner := Running(s.spawner.next + 1))
    case EndLoop => s.(spawner := SpawnerFinishing)
    case SpawnerDone => s.(spawner := SpawnerExited, wg := s.wg - 1)
  }

  predicate WorkerEnabled(s: State, i: nat, step: WorkerStep) {
    && i < |s.workers|
    && match step
       case DialOk => s.workers[i].Dialing?
       case DialErr(_) => s.workers[i].Dialing?
       case FailToMain => s.workers[i].Failing? && !s.errChanClosed && s.main.Selecting?
       case FailToDrainer => s.workers[i].Failing? && !s.errChanClosed && s.drainer.Draining?
       case HandOver => s.workers[i].Offering? && s.main.Selecting?
       case CloseOnCancel => s.workers[i].Offering? && CtxDone(s)
       case WorkerDone => s.workers[i].Finishing?
  }

  /** The worker's next program counter. */
  function WorkerNext(w: Worker, step: WorkerStep): Worker {
    match step
    case DialOk => Offering
    case DialErr(e) => Failing(e)
    case FailToMain => if w.Failing? then Finishing(Reported(w.error)) else w
    case FailToDrainer => if w.Failing? then Finishing(Reported(w.error)) else w
    case HandOver => Finishing(HandedOver)
    case CloseOnCancel => Finishing(Closed)
    case WorkerDone => if w.Finishing? then Exited(w.outcome) else w
  }

  function WorkerApply(s: State, i: nat, step: WorkerStep): State
    requires WorkerEnabled(s, i, step)
  {
    var moved := s.(workers := s.workers[i := WorkerNext(s.workers[i], step)]);
    match step
    case FailToMain => moved.(main := Selecting(s.main.errs + [s.workers[i].error]))
    case HandOver => moved.(main := Returning(Connected(i)), drainer := Draining)
    case WorkerDone => moved.(wg := s.wg - 1)
    case _ => moved
  }

  function Verdict(s: State): Result
    requires s.main.Summing?
  {
    if s.main.errs == [] then NoMethods(s.nothingGiven) else AllFailed(s.main.errs, s.parentCancelled)
  }

  predicate RestEnabled(s: State, step: Step) {
    match step
    case OfCloser => (s.closer.Waiting? && s.wg == 0) || s.closer.Closing?
    case OfMain => (s.main.Selecting? && s.errChanClosed) || s.main.Summing? || s.main.Returning?
    case OfDrainer => s.drainer.Draining? && s.errChanClosed
    case ParentCancels => !s.parentCancelled
    case _ => false
  }

  function RestApply(s: State, step: Step): State
    requires RestEnabled(s, step)
  {
    match step
    case OfCloser =>
      if s.closer.Waiting? then s.(closer := Closing) else s.(closer := CloserExited, errChanClosed := true)
    case OfMain =>
      (match s.main
       case Selecting(errs) => s.(main := Summing(errs))
       case Summing(_) => s.(main := Returning(Verdict(s)))
       case Returning(r) => s.(main := Returned(r)))
    case OfDrainer => s.(drainer := DrainerExited)
    case ParentCancels => s.(parentCancelled := true)
  }

  predicate Enabled(s: State, step: Step) {
    match step
    case OfSpawner(st) => SpawnerEnabled(s, st)
    case OfWorker(i, st) => WorkerEnabled(s, i, st)
    case _ => RestEnabled(s, step)
  }

  function Apply(s: State, step: Step): State
    requires Enabled(s, step)
  {
    match step
    case OfSpawner(st) => SpawnerApply(s, st)
    case OfWorker(i, st) => WorkerApply(s, i, st)
    case _ => RestApply(s, step)
  }

  predicate Valid(s: State, steps: seq<Step>)
    decreases |steps|
  {
    steps == [] || (Enabled(s, steps[0]) && Valid(Apply(s, steps[0]), steps[1..]))
  }

  function Exec(s: State, steps: seq<Step>): State
    requires Valid(s, steps)
    decreases |steps|
  {
    if steps == [] then s else Exec(Apply(s, steps[0]), steps[1..])
  }

  /** Every goroutine has returned. */
  predicate Quiescent(s: State) {
    && s.spawner.SpawnerExited?
    && (forall i :: 0 <= i < |s.workers| ==> s.workers[i].Exited?)
    && s.closer.CloserExited?
    && s.main.Returned?
    && !s.drainer.Draining?
  }

  // ---------- Counting ----------

  function Alive(w: Worker): nat { if w.Exited? then 0 else 1 }

  function IsSpawn(a: Action): nat { if a.Spawn? then 1 else 0 }

  predicate HasOutcome(w: Worker, o: Outcome) {
    (w.Finishing? || w.Exited?) && w.outcome == o
  }

  /** Whether the worker has put an error of kind `p` through `errChan`. */
  function Sent(p: Error -> bool): Worker -> nat {
    (w: Worker) => if (w.Finishing? || w.Exited?) && w.outcome.Reported? && p(w.outcome.error) then 1 else 0
  }

  function OfKind(p: Error -> bool): Error -> nat {
    (e: Error) => if p(e) then 1 else 0
  }

  // ---------- The invariant ----------

  /** The part of the plan the spawner has carried out. */
  function Progress(s: State): seq<Action> {
    if s.spawner.Running? && s.spawner.next <= |s.plan| then s.plan[..s.spawner.next] else s.plan
  }

  predicate HasResult(m: Main) { m.Returning? || m.Returned? }

  predicate Won(m: Main) { HasResult(m) && m.result.Connected? }

  /** The errors collected so far, when no client has been taken. */
  function Collected(m: Main): seq<Error> {
    if m.Selecting? || m.Summing? then m.errs
    else if m.result.AllFailed? then m.result.errs
    else []
  }

  /** The WaitGroup counts the live workers and the live spawner, nothing else. */
  predicate WaitGroupExact(s: State) {
    && s.wg == Sum(s.workers, Alive) + (if s.spawner.SpawnerExited? then 0 else 1)
    && (!s.closer.Waiting? ==> s.wg == 0)
    && (s.errChanClosed <==> s.closer.CloserExited?)
  }

  predicate SpawnerExact(s: State) {
    && (s.spawner.Running? ==> s.spawner.next <= |s.plan|)
    && |s.workers| == Sum(Progress(s), IsSpawn)
  }

  predicate MainExact(s: State) {
    && (s.main.Summing? || (HasResult(s.main) && !Won(s.main)) ==> s.errChanClosed)
    && (Won(s.main) <==> !s.drainer.NotStarted?)
    && (s.drainer.DrainerExited? ==> s.errChanClosed)
    && (HasResult(s.main) && s.main.result.NoMethods? ==> s.main.result.nothingGiven == s.nothingGiven)
    && (HasResult(s.main) && s.main.result.AllFailed? ==> s.main.result.errs != [])
    && (HasResult(s.main) && s.main.result.AllFailed? && s.main.result.ctxErr ==> s.parentCancelled)
  }

  predicate ClientExact(s: State, i: nat)
    requires i < |s.workers|
  {
    && (HasOutcome(s.workers[i], HandedOver) <==> Won(s.main) && s.main.result.client == i)
    && (HasOutcome(s.workers[i], Closed) ==> s.parentCancelled || (s.main.Returned? && Won(s.main)))
  }

  predicate ClientsExact(s: State) {
    && (Won(s.main) ==> s.main.result.client < |s.workers|)
    && forall i :: 0 <= i < |s.workers| ==> ClientExact(s, i)
  }

  predicate Inv(s: State) {
    WaitGroupExact(s) && SpawnerExact(s) && MainExact(s) && ClientsExact(s)
  }

  /** What does not change during a call. */
  predicate SameCall(s: State, t: State) { s.plan == t.plan && s.nothingGiven == t.nothingGiven }

  lemma InitInv(cfg: Config)
    ensures Inv(Init(cfg))
  {}

  /** No live worker or spawner once the closer has been woken. */
  lemma NobodyLeft(s: State)
    requires WaitGroupExact(s) && !s.closer.Waiting?
    ensures s.spawner.SpawnerExited?
    ensures forall i :: 0 <= i < |s.workers| ==> s.workers[i].Exited?
  {
    SumZero(s.workers, Alive);
    forall i | 0 <= i < |s.workers| ensures s.workers[i].Exited? {
      assert Alive(s.workers[i]) == 0;
    }
  }

  lemma StartWorkerInv(s: State)
    requires Inv(s) && SpawnerEnabled(s, StartWorker)
    ensures Inv(SpawnerApply(s, StartWorker))
  {
    if !s.closer.Waiting? {
      NobodyLeft(s);
    }
    SumAppend(s.workers, Alive, Dialing);
    SumPrefix(s.plan, IsSpawn, s.spawner.next);
    var s' := SpawnerApply(s, StartWorker);
    assert forall i :: 0 <= i < |s.workers| ==> ClientExact(s, i) ==> ClientExact(s', i);
  }

  lemma SpawnerStepInv(s: State, step: SpawnerStep)
    requires Inv(s) && SpawnerEnabled(s, step)
    ensures Inv(SpawnerApply(s, step)) && SameCall(s, SpawnerApply(s, step))
  {
    if step == StartWorker {
      StartWorkerInv(s);
    } else {
      if !s.closer.Waiting? {
        NobodyLeft(s);
      }
      if SpawnerAt(s) {
        SumPrefix(s.plan, IsSpawn, s.spawner.next);
      } else {
        assert s.plan[..|s.plan|] == s.plan;
      }
      var s' := SpawnerApply(s, step);
      assert forall i :: 0 <= i < |s.workers| ==> ClientExact(s, i) ==> ClientExact(s', i);
    }
  }

  lemma WorkerStepInv(s: State, i: nat, step: WorkerStep)
    requires Inv(s) && WorkerEnabled(s, i, step)
    ensures Inv(WorkerApply(s, i, step)) && SameCall(s, WorkerApply(s, i, step))
  {
    if !s.closer.Waiting? {
      NobodyLeft(s);
    }
    var s' := WorkerApply(s, i, step);
    SumUpdate(s.workers, Alive, i, s'.workers[i]);
    assert Progress(s') == Progress(s);
    WorkerStepClients(s, i, step);
  }

  lemma WorkerStepClients(s: State, i: nat, step: WorkerStep)
    requires MainExact(s) && ClientsExact(s) && WorkerEnabled(s, i, step) && !s.errChanClosed
    ensures ClientsExact(WorkerApply(s, i, step))
  {
    var s' := WorkerApply(s, i, step);
    forall j | 0 <= j < |s'.workers| ensures ClientExact(s', j) {
      assert ClientExact(s, j) && ClientExact(s, i);
    }
  }

  lemma RestStepInv(s: State, step: Step)
    requires Inv(s) && RestEnabled(s, step)
    ensures Inv(RestApply(s, step)) && SameCall(s, RestApply(s, step))
  {
    var s' := RestApply(s, step);
    assert Progress(s') == Progress(s);
    assert forall i :: 0 <= i < |s.workers| ==> ClientExact(s, i) ==> ClientExact(s', i);
  }

  lemma StepInv(s: State, step: Step)
    requires Inv(s) && Enabled(s, step)
    ensures Inv(Apply(s, step)) && SameCall(s, Apply(s, step))
  {
    match step
    case OfSpawner(st) => SpawnerStepInv(s, st);
    case OfWorker(i, st) => WorkerStepInv(s, i, st);
    case _ => RestStepInv(s, step);
  }

  lemma {:induction false} RunInv(s: State, steps: seq<Step>)
    requires Inv(s) && Valid(s, steps)
    ensures Inv(Exec(s, steps)) && SameCall(s, Exec(s, steps))
    decreases |steps|
  {
    if steps != [] {
      StepInv(s, steps[0]);
      RunInv(Apply(s, steps[0]), steps[1..]);
    }
  }

  // ---------- Error accounting ----------

  /** Until a client is taken, the errors of kind `p` that `connect` has collected are
      exactly those the spawner and the workers have sent. */
  predicate ErrorsExact(s: State, p: Error -> bool) {
    !Won(s.main) ==>
      Sum(Collected(s.main), OfKind(p)) == Sum(Progress(s), Reports(p)) + Sum(s.workers, Sent(p))
  }

  lemma SpawnerStepErrors(s: State, step: SpawnerStep, p: Error -> bool)
    requires Inv(s) && ErrorsExact(s, p) && SpawnerEnabled(s, step)
    ensures ErrorsExact(SpawnerApply(s, step), p)
  {
    SumAppend(s.workers, Sent(p), Dialing);
    if SpawnerAt(s) {
      SumPrefix(s.plan, Reports(p), s.spawner.next);
      if step.ReportToMain? {
        SumAppend(s.main.errs, OfKind(p), s.plan[s.spawner.next].error);
      }
    } else {
      assert s.plan[..|s.plan|] == s.plan;
    }
  }

  lemma WorkerStepErrors(s: State, i: nat, step: WorkerStep, p: Error -> bool)
    requires Inv(s) && ErrorsExact(s, p) && WorkerEnabled(s, i, step)
    ensures ErrorsExact(WorkerApply(s, i, step), p)
  {
    SumUpdate(s.workers, Sent(p), i, WorkerNext(s.workers[i], step));
    if step.FailToMain? {
      SumAppend(s.main.errs, OfKind(p), s.workers[i].error);
    }
  }

  lemma RestStepErrors(s: State, step: Step, p: Error -> bool)
    requires Inv(s) && ErrorsExact(s, p) && RestEnabled(s, step)
    ensures ErrorsExact(RestApply(s, step), p)
  {}

  lemma {:induction false} RunErrors(s: State, steps: seq<Step>, p: Error -> bool)
    requires Inv(s) && ErrorsExact(s, p) && Valid(s, steps)
    ensures ErrorsExact(Exec(s, steps), p)
    decreases |steps|
  {
    if steps != [] {
      match steps[0] {
        case OfSpawner(st) => SpawnerStepErrors(s, st, p);
        case OfWorker(i, st) => WorkerStepErrors(s, i, st, p);
        case _ => RestStepErrors(s, steps[0], p);
      }
      StepInv(s, steps[0]);
      RunErrors(Apply(s, steps[0]), steps[1..], p);
    }
  }

  // ---------- Main results ----------

  ghost predicate Reachable(cfg: Config, s: State) {
    exists steps :: Valid(Init(cfg), steps) && Exec(Init(cfg), steps) == s
  }

  lemma ReachableInv(cfg: Config, s: State)
    requires Reachable(cfg, s)
    ensures Inv(s) && SameCall(Init(cfg), s) && forall p :: ErrorsExact(s, p)
  {
    var steps :| Valid(Init(cfg), steps) && Exec(Init(cfg), steps) == s;
    InitInv(cfg);
    RunInv(Init(cfg), steps);
    assert Plan(cfg)[..0] == [];
    forall p ensures ErrorsExact(s, p) {
      RunErrors(Init(cfg), steps, p);
    }
  }

  /** In every reachable state the WaitGroup is exact, and once `errChan` is closed no
      worker and no spawner is at a send on it: a send on a closed channel cannot happen. */
  lemma NoSendOnClosedChannel(cfg: Config, s: State)
    requires Reachable(cfg, s)
    ensures s.wg == Sum(s.workers, Alive) + (if s.spawner.SpawnerExited? then 0 else 1)
    ensures s.errChanClosed ==> !Reporting(s) && forall i :: 0 <= i < |s.workers| ==> !s.workers[i].Failing?
  {
    ReachableInv(cfg, s);
    if s.errChanClosed {
      NobodyLeft(s);
    }
  }

  function WorkerRank(w: Worker): nat {
    match w
    case Dialing => 3
    case Failing(_) => 2
    case Offering => 2
    case Finishing(_) => 1
    case Exited(_) => 0
  }

  function SpawnerRank(s: State): nat {
    match s.spawner
    case Running(next) => (if next <= |s.plan| then 4 * (|s.plan| - next) else 0) + 2
    case SpawnerFinishing => 1
    case SpawnerExited => 0
  }

  function RestRank(s: State): nat {
    (match s.closer case Waiting => 2 case Closing => 1 case CloserExited => 0)
    + (match s.main case Selecting(_) => 3 case Summing(_) => 2 case Returning(_) => 1 case Returned(_) => 0)
    + (if s.drainer.Draining? then 1 else 0)
    + (if s.parentCancelled then 0 else 1)
  }

  /** A bound on the number of steps still to come. */
  function Rank(s: State): nat {
    Sum(s.workers, WorkerRank) + SpawnerRank(s) + RestRank(s)
  }

  lemma SpawnerStepRank(s: State, step: SpawnerStep)
    requires SpawnerExact(s) && SpawnerEnabled(s, step)
    ensures Rank(SpawnerApply(s, step)) < Rank(s)
  {
    if step.StartWorker? {
      SumAppend(s.workers, WorkerRank, Dialing);
    }
  }

  lemma WorkerStepRank(s: State, i: nat, step: WorkerStep)
    requires WorkerEnabled(s, i, step)
    ensures Rank(WorkerApply(s, i, step)) < Rank(s)
  {
    SumUpdate(s.workers, WorkerRank, i, WorkerNext(s.workers[i], step));
    assert SpawnerRank(WorkerApply(s, i, step)) == SpawnerRank(s);
    assert RestRank(WorkerApply(s, i, step)) <= RestRank(s);
  }

  lemma StepRank(s: State, step: Step)
    requires Inv(s) && Enabled(s, step)
    ensures Rank(Apply(s, step)) < Rank(s)
  {
    match step
    case OfSpawner(st) => SpawnerStepRank(s, st);
    case OfWorker(i, st) => WorkerStepRank(s, i, st);
    case _ =>
      assert RestRank(RestApply(s, step)) < RestRank(s);
      assert SpawnerRank(RestApply(s, step)) == SpawnerRank(s);
  }

  lemma {:induction false} RunRank(s: State, steps: seq<Step>)
    requires Inv(s) && Valid(s, steps)
    ensures |steps| + Rank(Exec(s, steps)) <= Rank(s)
    decreases |steps|
  {
    if steps != [] {
      StepRank(s, steps[0]);
      StepInv(s, steps[0]);
      RunRank(Apply(s, steps[0]), steps[1..]);
    }
  }

  /** Somebody can receive from `errChan` while anybody still has to send on it. */
  lemma ReceiverExists(s: State)
    requires Inv(s)
    requires Reporting(s) || exists i :: 0 <= i < |s.workers| && s.workers[i].Failing?
    ensures !s.errChanClosed && (s.main.Selecting? || s.drainer.Draining?)
  {
    if s.errChanClosed {
      NobodyLeft(s);
    }
  }

  /** A step that some goroutine can take on its own, without the parent being cancelled. */
  lemma Unstuck(s: State) returns (step: Step)
    requires Inv(s) && !Quiescent(s)
    ensures Enabled(s, step) && !step.ParentCancels?
  {
    if s.spawner.Running? {
      if !SpawnerAt(s) { return OfSpawner(EndLoop); }
      if s.plan[s.spawner.next].Spawn? { return OfSpawner(StartWorker); }
      ReceiverExists(s);
      return OfSpawner(if s.main.Selecting? then ReportToMain else ReportToDrainer);
    }
    if s.spawner.SpawnerFinishing? { return OfSpawner(SpawnerDone); }
    if i: nat :| i < |s.workers| && !s.workers[i].Exited? {
      match s.workers[i]
      case Dialing => return OfWorker(i, DialOk);
      case Failing(_) =>
        ReceiverExists(s);
        return OfWorker(i, if s.main.Selecting? then FailToMain else FailToDrainer);
      case Offering =>
        if s.errChanClosed { NobodyLeft(s); }
        return
          if s.main.Selecting? then OfWorker(i, HandOver)
          else if CtxDone(s) then OfWorker(i, CloseOnCancel)
          else OfMain;
      case Finishing(_) => return OfWorker(i, WorkerDone);
    }
    assert s.wg == 0 by { SumZero(s.workers, Alive); }
    return if !s.closer.CloserExited? then OfCloser else if !s.main.Returned? then OfMain else OfDrainer;
  }

  /** Nobody is left blocked. A run has at most `4 * |Plan| + 8` steps, and a run that no
      goroutine can continue has ended with every goroutine gone: whatever the scheduler
      does, `connect` returns and nothing leaks. */
  lemma NobodyStuck(cfg: Config, steps: seq<Step>)
    requires Valid(Init(cfg), steps)
    ensures |steps| <= 4 * |Plan(cfg)| + 8
    ensures var s := Exec(Init(cfg), steps);
      Quiescent(s) || exists step :: Enabled(s, step) && !step.ParentCancels?
  {
    InitInv(cfg);
    RunInv(Init(cfg), steps);
    RunRank(Init(cfg), steps);
    var s := Exec(Init(cfg), steps);
    if !Quiescent(s) {
      var step := Unstuck(s);
    }
  }

  /** The worker's dial succeeded. */
  predicate GotClient(w: Worker) {
    w.Offering? || HasOutcome(w, HandedOver) || HasOutcome(w, Closed)
  }

  /** When everything has finished, every client that was established is either the one
      `connect` returned or has been closed, never both; and a returned client is one
      that was established. */
  lemma NoLeakedClient(cfg: Config, s: State)
    requires Reachable(cfg, s) && Quiescent(s)
    ensures forall i :: 0 <= i < |s.workers| && GotClient(s.workers[i]) ==>
      (s.main.result == Connected(i)) != (s.workers[i].outcome == Closed)
    ensures s.main.result.Connected? ==>
      s.main.result.client < |s.workers| && s.workers[s.main.result.client] == Exited(HandedOver)
  {
    ReachableInv(cfg, s);
    forall i | 0 <= i < |s.workers| && GotClient(s.workers[i])
      ensures (s.main.result == Connected(i)) != (s.workers[i].outcome == Closed)
    {
      assert ClientExact(s, i);
    }
    if s.main.result.Connected? {
      assert ClientExact(s, s.main.result.client);
    }
  }

  /** If the parent is never cancelled, `connect` returns a client exactly when some attempt
      got one, and "no connection methods" exactly when there was nothing to try. */
  lemma ClientIffSuccess(cfg: Config, s: State)
    requires Reachable(cfg, s) && Quiescent(s) && !s.parentCancelled
    ensures s.main.result.Connected? <==> exists i :: 0 <= i < |s.workers| && GotClient(s.workers[i])
    ensures s.main.result.NoMethods? <==> Plan(cfg) == []
    ensures s.main.result.NoMethods? ==> s.main.result.nothingGiven == NothingGiven(cfg)
  {
    ReachableInv(cfg, s);
    if s.main.result.Connected? {
      assert ClientExact(s, s.main.result.client);
      assert GotClient(s.workers[s.main.result.client]);
    } else {
      forall i | 0 <= i < |s.workers| ensures !GotClient(s.workers[i]) {
        assert ClientExact(s, i);
      }
      OneErrorEach(cfg, s);
    }
  }

  lemma {:induction false} SumSplit(plan: seq<Action>, all: Error -> bool)
    requires forall e :: all(e)
    ensures Sum(plan, Reports(all)) + Sum(plan, IsSpawn) == |plan|
  {
    if plan != [] {
      SumSplit(plan[1..], all);
      assert Reports(all)(plan[0]) + IsSpawn(plan[0]) == 1;
    }
  }

  /** A failure carries exactly the errors of the broken credentials and of the failed
      attempts, kind by kind and none twice. Without a cancellation every attempt has
      failed, so there are as many errors as the plan has entries. */
  lemma OneErrorEach(cfg: Config, s: State)
    requires Reachable(cfg, s) && Quiescent(s) && !s.main.result.Connected?
    ensures forall p: Error -> bool ::
      Sum(Collected(s.main), OfKind(p)) == Sum(Plan(cfg), Reports(p)) + Sum(s.workers, Sent(p))
    ensures !s.parentCancelled ==> |Collected(s.main)| == |Plan(cfg)|
    ensures s.main.result.AllFailed? ==> (s.main.result.ctxErr ==> s.parentCancelled)
    ensures s.main.result.NoMethods? <==> Collected(s.main) == []
  {
    ReachableInv(cfg, s);
    forall p: Error -> bool
      ensures Sum(Collected(s.main), OfKind(p)) == Sum(Plan(cfg), Reports(p)) + Sum(s.workers, Sent(p))
    {
      assert ErrorsExact(s, p);
    }
    if !s.parentCancelled {
      var all: Error -> bool := e => true;
      assert ErrorsExact(s, all);
      ErrorCount(s, all);
    }
  }

  lemma ErrorCount(s: State, all: Error -> bool)
    requires forall e :: all(e)
    requires Inv(s) && ErrorsExact(s, all) && Quiescent(s) && !s.main.result.Connected? && !s.parentCancelled
    ensures |Collected(s.main)| == |s.plan|
  {
    SumSplit(s.plan, all);
    SumOnes(Collected(s.main), OfKind(all));
    forall i | 0 <= i < |s.workers| ensures Sent(all)(s.workers[i]) == 1 {
      assert ClientExact(s, i);
    }
    SumOnes(s.workers, Sent(all));
  }

  // ---------- Where the errors come from ----------

  /** A dial that fails in this step. */
  function FailedDial(p: Error -> bool): Step -> nat {
    (step: Step) =>
      if step.OfWorker? && step.workerStep.DialErr? && p(step.workerStep.error) then 1 else 0
  }

  /** A worker whose dial has failed, whether or not it has sent the error. */
  function HasFailed(p: Error -> bool): Worker -> nat {
    (w: Worker) =>
      if w.Failing? then (if p(w.error) then 1 else 0)
      else if (w.Finishing? || w.Exited?) && w.outcome.Reported? && p(w.outcome.error) then 1 else 0
  }

  lemma StepFailures(s: State, step: Step, p: Error -> bool)
    requires Enabled(s, step)
    ensures Sum(Apply(s, step).workers, HasFailed(p)) == Sum(s.workers, HasFailed(p)) + FailedDial(p)(step)
  {
    if step.OfSpawner? {
      SumAppend(s.workers, HasFailed(p), Dialing);
    } else if step.OfWorker? {
      SumUpdate(s.workers, HasFailed(p), step.i, WorkerNext(s.workers[step.i], step.workerStep));
    }
  }

  lemma {:induction false} RunFailures(s: State, steps: seq<Step>, p: Error -> bool)
    requires Valid(s, steps)
    ensures Sum(Exec(s, steps).workers, HasFailed(p)) == Sum(s.workers, HasFailed(p)) + Sum(steps, FailedDial(p))
    decreases |steps|
  {
    if steps != [] {
      StepFailures(s, steps[0], p);
      RunFailures(Apply(s, steps[0]), steps[1..], p);
    }
  }

  lemma {:induction false} AllSent(workers: seq<Worker>, p: Error -> bool)
    requires forall i :: 0 <= i < |workers| ==> workers[i].Exited?
    ensures Sum(workers, HasFailed(p)) == Sum(workers, Sent(p))
  {
    if workers != [] { AllSent(workers[1..], p); }
  }

  /** On every run that ends without a client, the errors returned are exactly those with which
      the credentials fail and those with which the dials of the run failed, each as often as
      it occurred. */
  lemma ErrorsOfRun(cfg: Config, steps: seq<Step>)
    requires Valid(Init(cfg), steps) && Quiescent(Exec(Init(cfg), steps))
    requires !Exec(Init(cfg), steps).main.result.Connected?
    ensures var errs := Collected(Exec(Init(cfg), steps).main);
      forall p: Error -> bool ::
        Sum(errs, OfKind(p)) == Sum(cfg.credentials, FailsIn(cfg, p)) + Sum(steps, FailedDial(p))
  {
    var s := Exec(Init(cfg), steps);
    OneErrorEach(cfg, s);
    forall p: Error -> bool
      ensures Sum(Collected(s.main), OfKind(p)) == Sum(cfg.credentials, FailsIn(cfg, p)) + Sum(steps, FailedDial(p))
    {
      ReportsAreFailures(cfg, p);
      RunFailures(Init(cfg), steps, p);
      AllSent(s.workers, p);
    }
  }

  /** The context's own error has been or is going to be added. */
  predicate SaysCancelled(s: State) {
    && s.parentCancelled
    && (s.main.Summing? || (HasResult(s.main) && (s.main.result.AllFailed? ==> s.main.result.ctxErr)))
  }

  /** If the parent is cancelled before the errors are added up, whatever happens afterwards a
      failure also carries the context's error. */
  lemma {:induction false} CancellationReported(s: State, steps: seq<Step>)
    requires SaysCancelled(s) && Valid(s, steps)
    ensures SaysCancelled(Exec(s, steps))
    decreases |steps|
  {
    if steps != [] {
      CancellationReported(Apply(s, steps[0]), steps[1..]);
    }
  }

  // ---------- "This case should never be reached" ----------

  /** The state after `k` attempts have each dialled, found the context cancelled and closed
      their client. */
  function Abandoned(cfg: Config, k: nat): State {
    Init(cfg).(parentCancelled := true, spawner := Running(k), workers := seq(k, i => Exited(Closed)))
  }

  lemma {:induction false} ExecAppend(s: State, a: seq<Step>, b: seq<Step>)
    requires Valid(s, a) && Valid(Exec(s, a), b)
    ensures Valid(s, a + b) && Exec(s, a + b) == Exec(Exec(s, a), b)
    decreases |a|
  {
    if a == [] {
      assert a + b == b;
    } else {
      assert (a + b)[1..] == a[1..] + b;
      ExecAppend(Apply(s, a[0]), a[1..], b);
    }
  }

  lemma Then(s: State, steps: seq<Step>, step: Step) returns (more: seq<Step>)
    requires Valid(s, steps) && Enabled(Exec(s, steps), step)
    ensures Valid(s, more) && Exec(s, more) == Apply(Exec(s, steps), step)
  {
    var one := [step];
    assert one[1..] == [];
    ExecAppend(s, steps, one);
    more := steps + one;
  }

  lemma {:induction false} AbandonRun(cfg: Config, k: nat) returns (steps: seq<Step>)
    requires NoReports(Plan(cfg)) && k <= |Plan(cfg)|
    ensures Valid(Init(cfg), steps) && Exec(Init(cfg), steps) == Abandoned(cfg, k)
  {
    if k == 0 {
      steps := Then(Init(cfg), [], ParentCancels);
    } else {
      steps := AbandonRun(cfg, k - 1);
      steps := Then(Init(cfg), steps, OfSpawner(StartWorker));
      steps := Then(Init(cfg), steps, OfWorker(k - 1, DialOk));
      steps := Then(Init(cfg), steps, OfWorker(k - 1, CloseOnCancel));
      steps := Then(Init(cfg), steps, OfWorker(k - 1, WorkerDone));
      assert Exec(Init(cfg), steps).workers == Abandoned(cfg, k).workers;
    }
  }

  lemma FinishRun(cfg: Config) returns (steps: seq<Step>)
    requires NoReports(Plan(cfg))
    ensures Valid(Init(cfg), steps) && Quiescent(Exec(Init(cfg), steps))
    ensures Exec(Init(cfg), steps).main.result == NoMethods(Init(cfg).nothingGiven)
  {
    steps := AbandonRun(cfg, |Plan(cfg)|);
    steps := Then(Init(cfg), steps, OfSpawner(EndLoop));
    steps := Then(Init(cfg), steps, OfSpawner(SpawnerDone));
    steps := Then(Init(cfg), steps, OfCloser);
    steps := Then(Init(cfg), steps, OfCloser);
    steps := Then(Init(cfg), steps, OfMain);
    steps := Then(Init(cfg), steps, OfMain);
    steps := Then(Init(cfg), steps, OfMain);
  }

  /** Some run of `connect` ends in "no connection methods found" exactly when no credential
      of the configuration is broken: if the parent is cancelled in time, every attempt may
      succeed, close its client and leave no error behind. The message is the one for a
      configuration with a dialer or an address whenever there is one, which the source says is
      never reached. */
  lemma NoMethodsReachable(cfg: Config)
    ensures (exists s :: Reachable(cfg, s) && Quiescent(s) && s.main.result == NoMethods(NothingGiven(cfg)))
       <==> forall c :: c in cfg.credentials ==> !Broken(cfg, c)
    ensures forall s :: Reachable(cfg, s) && Quiescent(s) && s.main.result.NoMethods? ==>
      s.main.result.nothingGiven == NothingGiven(cfg)
  {
    PlanFromReports(cfg, 0);
    if NoReports(Plan(cfg)) {
      var steps := FinishRun(cfg);
      assert Reachable(cfg, Exec(Init(cfg), steps));
    }
    forall s | Reachable(cfg, s) && Quiescent(s) && s.main.result.NoMethods?
      ensures NoReports(Plan(cfg)) && s.main.result.nothingGiven == NothingGiven(cfg)
    {
      ReachableInv(cfg, s);
      var all: Error -> bool := e => true;
      assert ErrorsExact(s, all);
      NothingReported(s, all);
    }
  }

  lemma NothingReported(s: State, all: Error -> bool)
    requires forall e :: all(e)
    requires ErrorsExact(s, all) && Quiescent(s) && s.main.result.NoMethods?
    ensures NoReports(s.plan)
  {
    SumZero(s.plan, Reports(all));
    forall i | 0 <= i < |s.plan| ensures s.plan[i].Spawn? {
      assert Reports(all)(s.plan[i]) == 0;
    }
  }
}
