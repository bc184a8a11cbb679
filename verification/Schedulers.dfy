/** Worker threads, cancellation and the two serialized executors, under every interleaving. */
module Schedulers {
  import opened Prelude
  import opened Snapshots
  import Lifecycle
  import Pools = ResourcePools
  import Executors
  import I = Inventory
  import O = Operations
  import Histories
  import Planning

  datatype Job = LifecycleJob(lifecycle: Lifecycle.LifecycleRequest) | PoolJob(pool: Pools.ResourcePoolRequest)

  /** The two executors sit behind two different locks. */
  datatype Lane = LifecycleLane | PoolLane

  datatype TaskResult = TaskResult(state: O.OperationState, observed: Option<U64>, error: Option<O.ApiError>)

  const CANCELLED := TaskResult(O.Cancelled, None, None)
  const PANICKED := TaskResult(O.Failed, None, Some(O.ApiError(O.InternalCode, false)))
  const SPAWN_FAILED := TaskResult(O.Failed, None, Some(O.ApiError(O.InternalCode, true)))

  function Rejected(error: O.ApiError): TaskResult {
    TaskResult(O.Failed, None, Some(error))
  }

  function OutcomeResult(state: O.OperationState, generation: U64): TaskResult {
    TaskResult(state, Some(generation),
               if state in {O.Succeeded, O.Cancelled} then None
               else Some(O.ApiError(O.BackendUnavailableCode, true)))
  }

  // ---------------------------------------------------------- what a job does

  function LaneOf(job: Job): Lane {
    if job.LifecycleJob? then LifecycleLane else PoolLane
  }

  function JobGeneration(job: Job): U64 {
    if job.LifecycleJob? then job.lifecycle.Generation() else job.pool.expectedGeneration
  }

  /** Preflight lets the job reach Kerf. */
  predicate Accepts(job: Job, before: HostSnapshot) {
    match job
    case LifecycleJob(r) => before.health == Healthy && Lifecycle.Plan(r, before).Ok?
    case PoolJob(r) => Pools.PlanPool(r, before).Ok?
  }

  lemma AcceptedIsCurrent(job: Job, before: HostSnapshot)
    requires Accepts(job, before)
    ensures before.health == Healthy && before.generation == JobGeneration(job)
  {
  }

  function JobOutcome(job: Job, before: HostSnapshot, process: Executors.Process, after: HostSnapshot):
    (state: O.OperationState)
    requires Accepts(job, before)
    ensures O.IsTerminal(state) && state != O.Cancelled
  {
    match job
    case LifecycleJob(r) => Executors.Reconciled(Lifecycle.Plan(r, before).value, process, after)
    case PoolJob(r) => Executors.ReconciledPool(r, before, after).0
  }

  // ------------------------------------------------------------------ workers

  datatype Phase =
    | Spawned                                                    // not yet past `registry.start`
    | Started                                                    // about to look at the token
    | Waiting                                                    // queued on the executor lock
    | Entered                                                    // holds the lock, about to look again
    | Executing                                                  // committed to the executor
    | Calling(before: HostSnapshot)                              // Kerf is about to be invoked
    | Called(called: HostSnapshot, process: Executors.Process)   // Kerf returned, postflight pending
    | Finishing(result: TaskResult)                              // lock released, result to record
    | Gone

  datatype Evidence = Evidence(before: HostSnapshot, process: Executors.Process, after: HostSnapshot)

  /** `calls`, `evidence` and `outcome` record what the worker did. */
  datatype Worker = Worker(
    id: U64, job: Job, phase: Phase, cancelled: bool, calls: nat, evidence: Option<Evidence>, outcome: Option<TaskResult>)

  predicate Critical(p: Phase) {
    p.Entered? || p.Executing? || p.Calling? || p.Called?
  }

  datatype System = System(
    registry: O.Registry, workers: seq<Worker>, lifecycleLock: Option<nat>, poolLock: Option<nat>)
  {
    function Holder(lane: Lane): Option<nat> {
      if lane == LifecycleLane then lifecycleLock else poolLock
    }

    function WithHolder(lane: Lane, holder: Option<nat>): System {
      if lane == LifecycleLane then this.(lifecycleLock := holder) else this.(poolLock := holder)
    }
  }

  datatype Label =
    | Submit(request: O.NewOperation, job: Job)
    | SpawnFails(request: O.NewOperation, at: string)
    | Begin(i: nat)
    | FirstCheck(i: nat)
    | Lock(i: nat)
    | SecondCheck(i: nat)
    | Preflight(i: nat, before: Option<HostSnapshot>, error: O.ApiError)
    | CallKerf(i: nat, process: Executors.Process)
    | Postflight(i: nat, after: Option<HostSnapshot>, error: O.ApiError)
    | Panic(i: nat)
    | Record(i: nat, at: string)
    | Cancel(i: nat)

  /** What a worker does at one of its boundaries; the registry is not involved. */
  function TaskStep(w: Worker, l: Label): Worker {
    match l
    case FirstCheck(_) =>
      if !w.phase.Started? then w
      else if w.cancelled then w.(phase := Finishing(CANCELLED)) else w.(phase := Waiting)
    case Lock(_) => if w.phase.Waiting? then w.(phase := Entered) else w
    case SecondCheck(_) =>
      if !w.phase.Entered? then w
      else if w.cancelled then w.(phase := Finishing(CANCELLED)) else w.(phase := Executing)
    case Preflight(_, before, error) =>
      if !w.phase.Executing? then w
      else if before.None? || !Accepts(w.job, before.value) then w.(phase := Finishing(Rejected(error)))
      else w.(phase := Calling(before.value))
    case CallKerf(_, process) =>
      if w.phase.Calling? then w.(phase := Called(w.phase.before, process), calls := w.calls + 1) else w
    case Postflight(_, after, error) =>
      if !w.phase.Called? || !Accepts(w.job, w.phase.called) then w
      else if after.None? then w.(phase := Finishing(Rejected(error)))
      else
        var state := JobOutcome(w.job, w.phase.called, w.phase.process, after.value);
        w.(evidence := Some(Evidence(w.phase.called, w.phase.process, after.value)),
           phase := Finishing(OutcomeResult(state, after.value.generation)))
    case Panic(_) =>
      if w.phase.Started? || w.phase.Waiting? || Critical(w.phase) then w.(phase := Finishing(PANICKED)) else w
    case Cancel(_) => w.(cancelled := true)
    case _ => w
  }

  /** Installs a worker, taking or giving back its lane's lock as its phase says. */
  function Install(s: System, i: nat, w: Worker): System
    requires i < |s.workers|
  {
    var lane := LaneOf(s.workers[i].job);
    var t := s.(workers := s.workers[i := w]);
    if Critical(w.phase) then t.WithHolder(lane, Some(i))
    else if Critical(s.workers[i].phase) then t.WithHolder(lane, None)
    else t
  }

  function FinishOf(r: TaskResult, at: string): O.Change {
    O.Finish(r.state, r.observed, r.error, at)
  }

  /** One atomic step; a label that is not enabled changes nothing. */
  function Step(s: System, l: Label): System {
    match l
    case Submit(request, job) =>
      s.(registry := O.Created(s.registry, request),
         workers := s.workers + [Worker(s.registry.nextOperation, job, Spawned, false, 0, None, None)])
    case SpawnFails(request, at) =>
      s.(registry := O.Changed(O.Created(s.registry, request), s.registry.nextOperation, FinishOf(SPAWN_FAILED, at)).0)
    case Begin(i) =>
      if i >= |s.workers| || !s.workers[i].phase.Spawned? then s
      else
        var w := s.workers[i];
        var (registry, result) := O.Changed(s.registry, w.id, O.Start);
        s.(registry := registry, workers := s.workers[i := w.(phase := if result.Ok? then Started else Gone)])
    case Record(i, at) =>
      if i >= |s.workers| || !s.workers[i].phase.Finishing? then s
      else
        var w := s.workers[i];
        s.(registry := O.Changed(s.registry, w.id, FinishOf(w.phase.result, at)).0,
           workers := s.workers[i := w.(phase := Gone, outcome := Some(w.phase.result))])
    case Lock(i) =>
      if i >= |s.workers| || s.Holder(LaneOf(s.workers[i].job)).Some? then s
      else Install(s, i, TaskStep(s.workers[i], l))
    case _ =>
      if l.i >= |s.workers| then s else Install(s, l.i, TaskStep(s.workers[l.i], l))
  }

  function After(s: System, labels: seq<Label>): System {
    if labels == [] then s else Step(After(s, labels[..|labels| - 1]), labels[|labels| - 1])
  }

  function Initial(operationCapacity: nat, eventCapacity: nat): System {
    System(O.Empty(operationCapacity, eventCapacity), [], None, None)
  }

  // ---------------------------------------------------------------- invariant

  /** A result never claims more than the worker did. */
  ghost predicate Truthful(w: Worker, r: TaskResult) {
    && O.IsTerminal(r.state)
    && w.calls <= 1
    && (r.state == O.Cancelled ==> w.calls == 0 && w.cancelled)
    && (w.evidence.None? ==>
          && r.state in {O.Cancelled, O.Failed} && r.observed.None? && (r.error.None? <==> r.state == O.Cancelled))
    && (w.evidence.Some? ==>
          && w.calls == 1 && Accepts(w.job, w.evidence.value.before)
          && r == OutcomeResult(JobOutcome(w.job, w.evidence.value.before, w.evidence.value.process, w.evidence.value.after),
                                w.evidence.value.after.generation))
  }

  ghost predicate PhaseOk(w: Worker) {
    match w.phase
    case Calling(before) => w.calls == 0 && w.evidence.None? && Accepts(w.job, before)
    case Called(before, _) => w.calls == 1 && w.evidence.None? && Accepts(w.job, before)
    case Finishing(result) => Truthful(w, result)
    case Gone => w.outcome.Some? ==> Truthful(w, w.outcome.value)
    case _ => w.calls == 0 && w.evidence.None? && w.outcome.None?
  }

  /** The operation shows the result. */
  predicate Recorded(r: TaskResult, operation: O.Operation) {
    operation.state == r.state && operation.observedGeneration == r.observed && operation.error == r.error
  }

  /** The registry's view of a retained operation agrees with where its worker is. */
  ghost predicate ViewOk(w: Worker, view: Option<O.Operation>) {
    view.Some? ==>
      match w.phase
      case Spawned => view.value.state == O.Queued
      case Gone => w.outcome.Some? && Recorded(w.outcome.value, view.value)
      case _ => view.value.state == O.Running
  }

  ghost predicate WorkerOk(s: System, k: nat) {
    k < |s.workers| ==>
      && 1 <= s.workers[k].id < s.registry.nextOperation
      && PhaseOk(s.workers[k])
      && ViewOk(s.workers[k], O.Get(s.registry, s.workers[k].id))
  }

  ghost predicate LockOk(s: System, k: nat) {
    k < |s.workers| ==> (Critical(s.workers[k].phase) <==> s.Holder(LaneOf(s.workers[k].job)) == Some(k))
  }

  ghost predicate IdsDiffer(s: System, i: nat, j: nat) {
    i < j < |s.workers| ==> s.workers[i].id != s.workers[j].id
  }

  ghost predicate Invariant(s: System) {
    && Histories.Retains(s.registry)
    && (forall k: nat {:trigger WorkerOk(s, k)} :: WorkerOk(s, k))
    && (forall k: nat {:trigger LockOk(s, k)} :: LockOk(s, k))
    && (forall i: nat, j: nat {:trigger IdsDiffer(s, i, j)} :: IdsDiffer(s, i, j))
    && HoldersExist(s)
  }

  predicate HoldersExist(s: System) {
    && (s.lifecycleLock.Some? ==> s.lifecycleLock.value < |s.workers|)
    && (s.poolLock.Some? ==> s.poolLock.value < |s.workers|)
  }

  // ---------------------------------------------- steps that leave the registry

  predicate TaskLabel(l: Label) {
    !l.Submit? && !l.SpawnFails? && !l.Begin? && !l.Record?
  }

  lemma TaskStepKeeps(w: Worker, l: Label, view: Option<O.Operation>)
    requires TaskLabel(l) && PhaseOk(w) && ViewOk(w, view)
    ensures var t := TaskStep(w, l);
      && t.id == w.id && t.job == w.job
      && PhaseOk(t) && ViewOk(t, view)
      && (Critical(t.phase) && !Critical(w.phase) ==> l.Lock?)
  {
    match l {
      case FirstCheck(_) =>
      case Lock(_) =>
      case SecondCheck(_) =>
      case Preflight(_, _, _) =>
      case CallKerf(_, _) =>
      case Postflight(_, _, _) =>
      case Panic(_) =>
      case Cancel(_) => CancelKeeps(w, view);
    }
  }

  /** Cancelling only sets the token. */
  lemma CancelKeeps(w: Worker, view: Option<O.Operation>)
    requires PhaseOk(w) && ViewOk(w, view)
    ensures PhaseOk(w.(cancelled := true)) && ViewOk(w.(cancelled := true), view)
  {
  }

  lemma InstallKeepsLocks(s: System, i: nat, w: Worker)
    requires Invariant(s) && i < |s.workers| && w.id == s.workers[i].id && w.job == s.workers[i].job
    requires Critical(w.phase) && !Critical(s.workers[i].phase) ==> s.Holder(LaneOf(w.job)).None?
    ensures forall k: nat {:trigger LockOk(Install(s, i, w), k)} :: LockOk(Install(s, i, w), k)
    ensures HoldersExist(Install(s, i, w))
  {
    var t := Install(s, i, w);
    forall k: nat ensures LockOk(t, k) {
      assert LockOk(s, k) && LockOk(s, i);
    }
  }

  lemma InstallKeeps(s: System, i: nat, w: Worker)
    requires Invariant(s) && i < |s.workers| && w.id == s.workers[i].id && w.job == s.workers[i].job
    requires PhaseOk(w) && ViewOk(w, O.Get(s.registry, w.id))
    requires Critical(w.phase) && !Critical(s.workers[i].phase) ==> s.Holder(LaneOf(w.job)).None?
    ensures Invariant(Install(s, i, w))
  {
    InstallKeepsLocks(s, i, w);
    InstallKeepsWorkers(s, i, w);
  }

  lemma InstallKeepsWorkers(s: System, i: nat, w: Worker)
    requires Invariant(s) && i < |s.workers| && w.id == s.workers[i].id
    requires PhaseOk(w) && ViewOk(w, O.Get(s.registry, w.id))
    ensures Install(s, i, w).registry == s.registry
    ensures forall k: nat {:trigger WorkerOk(Install(s, i, w), k)} :: WorkerOk(Install(s, i, w), k)
    ensures forall a: nat, b: nat {:trigger IdsDiffer(Install(s, i, w), a, b)} :: IdsDiffer(Install(s, i, w), a, b)
  {
    var t := Install(s, i, w);
    forall k: nat ensures WorkerOk(t, k) { assert WorkerOk(s, k); }
    forall a: nat, b: nat ensures IdsDiffer(t, a, b) { assert IdsDiffer(s, a, b); }
  }

  lemma TaskKeeps(s: System, l: Label)
    requires Invariant(s) && TaskLabel(l)
    ensures Invariant(Step(s, l))
  {
    if l.i < |s.workers| {
      assert WorkerOk(s, l.i);
      TaskStepKeeps(s.workers[l.i], l, O.Get(s.registry, s.workers[l.i].id));
      if !l.Lock? || s.Holder(LaneOf(s.workers[l.i].job)).None? { InstallKeeps(s, l.i, TaskStep(s.workers[l.i], l)); }
    }
  }

  /** The result that a worker records for an execution. */
  function ResultOf(result: Result<Executors.Outcome, Executors.ExecutionError>, error: O.ApiError): TaskResult {
    if result.Ok? then OutcomeResult(result.value.state, result.value.snapshot.generation) else Rejected(error)
  }

  /** Preflight, Kerf call and postflight of a worker, one after the other. */
  function ThreeSteps(w: Worker, i: nat, before: Option<HostSnapshot>, process: Executors.Process,
                      after: Option<HostSnapshot>, error: O.ApiError): Worker
  {
    TaskStep(TaskStep(TaskStep(w, Preflight(i, before, error)), CallKerf(i, process)), Postflight(i, after, error))
  }

  /** A job that preflight accepts is called and judged once; any other is rejected without a call. */
  lemma ThreeStepsJudge(w: Worker, i: nat, before: Option<HostSnapshot>, process: Executors.Process,
                        after: Option<HostSnapshot>, error: O.ApiError)
    requires w.phase.Executing?
    ensures var done := ThreeSteps(w, i, before, process, after, error);
      if before.Some? && Accepts(w.job, before.value) then
        && done.calls == w.calls + 1
        && (after.Some? ==>
              && done.evidence == Some(Evidence(before.value, process, after.value))
              && done.phase == Finishing(OutcomeResult(JobOutcome(w.job, before.value, process, after.value),
                                                       after.value.generation)))
      else done.calls == w.calls && done.phase == Finishing(TaskResult(O.Failed, None, Some(error)))
  {
  }

  /** The executor's `execute` is what a worker does between entering the executor and leaving it. */
  lemma ExecutionIsThreeSteps(w: Worker, i: nat, r: Lifecycle.LifecycleRequest, current: Option<HostSnapshot>,
                              pre: Option<I.HostObservations>, others: seq<Option<I.HostObservations>>,
                              process: Executors.Process, post: Option<I.HostObservations>, error: O.ApiError)
    returns (before: Option<HostSnapshot>, after: Option<HostSnapshot>)
    requires w.phase.Executing? && w.job == LifecycleJob(r)
    ensures before == I.Refreshed(current, pre).1
    ensures after == I.Refreshed(Executors.HeldAfter(I.Refreshed(current, pre).0, others), post).1
    ensures var e := Executors.Executed(current, r, pre, others, process, post);
      var done := ThreeSteps(w, i, before, process, after, error);
      && done.phase == Finishing(ResultOf(e.result, error))
      && done.calls == w.calls + (if e.call.Some? then 1 else 0)
  {
    before, after := Executors.ExecutedOn(current, r, pre, others, process, post);
    ThreeStepsJudge(w, i, before, process, after, error);
  }

  function PoolResultOf(result: Result<Executors.PoolOutcome, Executors.PoolExecutionError>, error: O.ApiError): TaskResult {
    if result.Ok? then OutcomeResult(result.value.state, result.value.snapshot.generation) else Rejected(error)
  }

  lemma PoolExecutionIsThreeSteps(w: Worker, i: nat, r: Pools.ResourcePoolRequest, current: Option<HostSnapshot>,
                                  pre: Option<I.HostObservations>, others: seq<Option<I.HostObservations>>,
                                  process: Executors.Process, post: Option<I.HostObservations>, error: O.ApiError)
    returns (before: Option<HostSnapshot>, after: Option<HostSnapshot>)
    requires w.phase.Executing? && w.job == PoolJob(r)
    ensures before == I.Refreshed(current, pre).1
    ensures after == I.Refreshed(Executors.HeldAfter(I.Refreshed(current, pre).0, others), post).1
    ensures var e := Executors.PoolExecuted(current, r, pre, others, post);
      var done := ThreeSteps(w, i, before, process, after, error);
      && done.phase == Finishing(PoolResultOf(e.result, error))
      && done.calls == w.calls + (if e.call.Some? then 1 else 0)
  {
    before, after := Executors.PoolExecutedOn(current, r, pre, others, post);
    ThreeStepsJudge(w, i, before, process, after, error);
  }

  // -------------------------------------------------- steps on the registry

  /** A change to one worker's operation leaves every other worker in order. */
  lemma ChangeKeeps(s: System, i: nat, c: O.Change, w: Worker)
    requires Invariant(s) && i < |s.workers| && w.id == s.workers[i].id && w.job == s.workers[i].job
    requires !Critical(s.workers[i].phase) && !Critical(w.phase) && PhaseOk(w)
    requires ViewOk(w, O.Get(O.Changed(s.registry, w.id, c).0, w.id))
    ensures Invariant(s.(registry := O.Changed(s.registry, w.id, c).0, workers := s.workers[i := w]))
  {
    var t := s.(registry := O.Changed(s.registry, w.id, c).0, workers := s.workers[i := w]);
    Histories.ChangedRetains(s.registry, w.id, c);
    forall k: nat ensures WorkerOk(t, k) {
      assert WorkerOk(s, k) && WorkerOk(s, i);
      if k < |s.workers| && k != i {
        assert if k < i then IdsDiffer(s, k, i) else IdsDiffer(s, i, k);
        Histories.ChangedOthers(s.registry, w.id, c, s.workers[k].id);
      }
    }
    forall k: nat ensures LockOk(t, k) { assert LockOk(s, k); }
    forall a: nat, b: nat ensures IdsDiffer(t, a, b) { assert IdsDiffer(s, a, b); }
  }

  lemma BeginKeeps(s: System, i: nat)
    requires Invariant(s)
    ensures Invariant(Step(s, Begin(i)))
  {
    if i < |s.workers| && s.workers[i].phase.Spawned? {
      var w := s.workers[i];
      assert WorkerOk(s, i);
      Histories.ChangedView(s.registry, w.id, O.Start);
      ChangeKeeps(s, i, O.Start, w.(phase := if O.Changed(s.registry, w.id, O.Start).1.Ok? then Started else Gone));
    }
  }

  /** While the operation is retained, `finish` accepts every result a worker produces. */
  lemma FinishIsAccepted(s: System, i: nat, at: string)
    requires Invariant(s) && i < |s.workers| && s.workers[i].phase.Finishing?
    requires O.Get(s.registry, s.workers[i].id).Some?
    ensures var w := s.workers[i];
      && O.Changed(s.registry, w.id, FinishOf(w.phase.result, at)).1.Ok?
      && O.Get(Step(s, Record(i, at)).registry, w.id).Some?
      && Recorded(w.phase.result, O.Get(Step(s, Record(i, at)).registry, w.id).value)
  {
    assert WorkerOk(s, i);
    Histories.ChangedView(s.registry, s.workers[i].id, FinishOf(s.workers[i].phase.result, at));
  }

  lemma RecordKeeps(s: System, i: nat, at: string)
    requires Invariant(s)
    ensures Invariant(Step(s, Record(i, at)))
  {
    if i < |s.workers| && s.workers[i].phase.Finishing? {
      var w := s.workers[i];
      assert WorkerOk(s, i);
      var c := FinishOf(w.phase.result, at);
      Histories.ChangedView(s.registry, w.id, c);
      var done := w.(phase := Gone, outcome := Some(w.phase.result));
      assert ViewOk(done, O.Get(O.Changed(s.registry, w.id, c).0, w.id)) by {
        if O.Get(s.registry, w.id).Some? { FinishIsAccepted(s, i, at); }
      }
      ChangeKeeps(s, i, c, done);
    }
  }

  lemma CreateKeeps(s: System, request: O.NewOperation)
    requires Invariant(s) && s.registry.nextOperation < U64_MAX
    ensures Invariant(s.(registry := O.Created(s.registry, request)))
  {
    var t := s.(registry := O.Created(s.registry, request));
    Histories.CreatedRetains(s.registry, request);
    forall k: nat ensures WorkerOk(t, k) {
      assert WorkerOk(s, k);
      if k < |s.workers| { Histories.CreatedOthers(s.registry, request, s.workers[k].id); }
    }
    forall k: nat ensures LockOk(t, k) { assert LockOk(s, k); }
    forall a: nat, b: nat ensures IdsDiffer(t, a, b) { assert IdsDiffer(s, a, b); }
  }

  /** The identifier just handed out belongs to no earlier worker, and its operation is queued. */
  lemma SubmitKeeps(s: System, request: O.NewOperation, job: Job)
    requires Invariant(s) && s.registry.nextOperation < U64_MAX
    ensures Invariant(Step(s, Submit(request, job)))
  {
    var t := Step(s, Submit(request, job));
    var m := s.(registry := t.registry);
    CreateKeeps(s, request);
    Histories.RetainedIff(t.registry, s.registry.nextOperation);
    forall k: nat ensures WorkerOk(t, k) { assert WorkerOk(m, k); }
    forall k: nat ensures LockOk(t, k) { assert LockOk(m, k); }
    forall a: nat, b: nat ensures IdsDiffer(t, a, b) { assert IdsDiffer(m, a, b) && WorkerOk(s, a); }
  }

  lemma SpawnFailsKeeps(s: System, request: O.NewOperation, at: string)
    requires Invariant(s) && s.registry.nextOperation < U64_MAX
    ensures Invariant(Step(s, SpawnFails(request, at)))
  {
    var m := s.(registry := O.Created(s.registry, request));
    var t := Step(s, SpawnFails(request, at));
    var id := s.registry.nextOperation;
    CreateKeeps(s, request);
    Histories.ChangedRetains(m.registry, id, FinishOf(SPAWN_FAILED, at));
    forall k: nat ensures WorkerOk(t, k) {
      assert WorkerOk(m, k) && WorkerOk(s, k);
      if k < |s.workers| { Histories.ChangedOthers(m.registry, id, FinishOf(SPAWN_FAILED, at), s.workers[k].id); }
    }
    forall k: nat ensures LockOk(t, k) { assert LockOk(m, k); }
    forall a: nat, b: nat ensures IdsDiffer(t, a, b) { assert IdsDiffer(m, a, b); }
  }

  // ---------------------------------------------------------------- all runs

  lemma StepKeeps(s: System, l: Label)
    requires Invariant(s) && s.registry.nextOperation < U64_MAX
    ensures Invariant(Step(s, l))
  {
    match l {
      case Submit(request, job) => SubmitKeeps(s, request, job);
      case SpawnFails(request, at) => SpawnFailsKeeps(s, request, at);
      case Begin(i) => BeginKeeps(s, i);
      case Record(i, at) => RecordKeeps(s, i, at);
      case _ => TaskKeeps(s, l);
    }
  }

  lemma StepCounts(s: System, l: Label)
    ensures s.registry.nextOperation <= Step(s, l).registry.nextOperation
  {
  }

  ghost predicate Countable(operationCapacity: nat, eventCapacity: nat, labels: seq<Label>) {
    operationCapacity > 0 && After(Initial(operationCapacity, eventCapacity), labels).registry.nextOperation < U64_MAX
  }

  lemma {:induction false} RunKeeps(operationCapacity: nat, eventCapacity: nat, labels: seq<Label>)
    requires Countable(operationCapacity, eventCapacity, labels)
    ensures Invariant(After(Initial(operationCapacity, eventCapacity), labels))
  {
    if labels != [] {
      var n := |labels| - 1;
      StepCounts(After(Initial(operationCapacity, eventCapacity), labels[..n]), labels[n]);
      RunKeeps(operationCapacity, eventCapacity, labels[..n]);
      StepKeeps(After(Initial(operationCapacity, eventCapacity), labels[..n]), labels[n]);
    }
  }

  ghost predicate Reachable(operationCapacity: nat, eventCapacity: nat, labels: seq<Label>, s: System) {
    operationCapacity > 0 && s == After(Initial(operationCapacity, eventCapacity), labels)
  }

  /** No two workers are ever inside the same executor. */
  lemma ExecutorsAreExclusive(operationCapacity: nat, eventCapacity: nat, labels: seq<Label>, s: System, i: nat, j: nat)
    requires Reachable(operationCapacity, eventCapacity, labels, s) && s.registry.nextOperation < U64_MAX
    requires i < |s.workers| && j < |s.workers| && LaneOf(s.workers[i].job) == LaneOf(s.workers[j].job)
    requires Critical(s.workers[i].phase) && Critical(s.workers[j].phase)
    ensures i == j
  {
    RunKeeps(operationCapacity, eventCapacity, labels);
    assert LockOk(s, i) && LockOk(s, j);
  }

  /** The postflight snapshot shows what the job was for; a dry run only has to exit well. */
  predicate JobShown(job: Job, process: Executors.Process, after: HostSnapshot) {
    match job
    case LifecycleJob(r) =>
      if r.Update? && r.dryRun then process == Some(Executors.Exited(0)) else Executors.Visible(r, after)
    case PoolJob(r) => Executors.Reached(r, after)
  }

  /** An outcome in terms of the postflight snapshot alone. */
  lemma JobOutcomeIff(job: Job, before: HostSnapshot, process: Executors.Process, after: HostSnapshot)
    requires Accepts(job, before)
    ensures var state := JobOutcome(job, before, process, after);
      && (state == O.Indeterminate <==> after.health != Healthy)
      && (state == O.Succeeded <==> after.health == Healthy && JobShown(job, process, after))
      && (state == O.Failed <==> after.health == Healthy && !JobShown(job, process, after))
  {
    match job {
      case LifecycleJob(r) =>
        var _ := Planning.PlannedCommand(r, before);
        Executors.ObservedIff(r, after);
      case PoolJob(r) => Executors.PoolOutcomeIff(r, before, after);
    }
  }

  /**
   In every reachable state, what the registry shows of a worker's operation is what happened: at most one Kerf call,
   planned on a healthy snapshot of the requested generation; and once the worker is done, an outcome that is
   indeterminate, succeeded or failed by its postflight snapshot and carries that snapshot's generation, or, without
   one, a cancellation that was asked for and came before any call, or a failure with its error.
   */
  lemma RegistryIsTruthful(operationCapacity: nat, eventCapacity: nat, labels: seq<Label>, s: System, i: nat)
    requires Reachable(operationCapacity, eventCapacity, labels, s) && s.registry.nextOperation < U64_MAX
    requires i < |s.workers| && O.Get(s.registry, s.workers[i].id).Some?
    ensures var w := s.workers[i];
      var shown := O.Get(s.registry, w.id).value;
      && w.calls <= 1
      && (O.IsTerminal(shown.state) <==> w.phase.Gone?)
      && (shown.state == O.Queued <==> w.phase.Spawned?)
      && (shown.state == O.Cancelled ==> w.calls == 0 && w.cancelled)
      && (w.phase.Gone? && w.evidence.None? ==>
            && shown.state in {O.Cancelled, O.Failed} && shown.observedGeneration.None?
            && (shown.error.None? <==> shown.state == O.Cancelled))
      && (w.phase.Gone? && w.evidence.Some? ==>
            var e := w.evidence.value;
            && w.calls == 1 && Accepts(w.job, e.before)
            && e.before.health == Healthy && e.before.generation == JobGeneration(w.job)
            && (shown.state == O.Indeterminate <==> e.after.health != Healthy)
            && (shown.state == O.Succeeded <==> e.after.health == Healthy && JobShown(w.job, e.process, e.after))
            && (shown.state == O.Failed <==> e.after.health == Healthy && !JobShown(w.job, e.process, e.after))
            && shown.observedGeneration == Some(e.after.generation)
            && shown.error == if shown.state == O.Succeeded then None else Some(O.ApiError(O.BackendUnavailableCode, true)))
  {
    RunKeeps(operationCapacity, eventCapacity, labels);
    assert WorkerOk(s, i);
    var w := s.workers[i];
    if w.phase.Gone? && w.evidence.Some? {
      var e := w.evidence.value;
      AcceptedIsCurrent(w.job, e.before);
      JobOutcomeIff(w.job, e.before, e.process, e.after);
    }
  }

  /** A worker that panics while it runs fails with an internal error and gives its lock back. */
  lemma PanicIsFailure(s: System, i: nat)
    requires Invariant(s) && i < |s.workers|
    requires s.workers[i].phase.Started? || s.workers[i].phase.Waiting? || Critical(s.workers[i].phase)
    ensures var t := Step(s, Panic(i));
      && t.registry == s.registry && |t.workers| == |s.workers|
      && t.workers[i].phase == Finishing(TaskResult(O.Failed, None, Some(O.ApiError(O.InternalCode, false))))
      && t.Holder(LaneOf(s.workers[i].job)) != Some(i)
  {
    assert LockOk(s, i);
  }

  /** An operation whose worker could not be started is shown as failed, with an internal error that may be retried. */
  lemma SpawnFailureIsShown(s: System, request: O.NewOperation, at: string)
    requires Invariant(s) && s.registry.nextOperation < U64_MAX
    ensures var t := Step(s, SpawnFails(request, at));
      && t.workers == s.workers
      && O.Get(t.registry, s.registry.nextOperation) ==
           Some(O.Operation(s.registry.nextOperation, request, O.Failed, None, None,
                            Some(O.ApiError(O.InternalCode, true)), Some(at)))
  {
    var r := O.Created(s.registry, request);
    Histories.CreatedRetains(s.registry, request);
    Histories.RetainedIff(r, s.registry.nextOperation);
    Histories.ChangedView(r, s.registry.nextOperation, FinishOf(SPAWN_FAILED, at));
  }

  // --------------------------------------------------------------- cancellation

  /** What a worker can still come to once it was cancelled before it entered the executor's work. */
  predicate Doomed(w: Worker) {
    && w.cancelled && w.calls == 0 && w.evidence.None?
    && match w.phase
       case Executing => false
       case Calling(_) => false
       case Called(_, _) => false
       case Finishing(result) => result in {CANCELLED, PANICKED}
       case Gone => w.outcome.Some? ==> w.outcome.value in {CANCELLED, PANICKED}
       case _ => true
  }

  lemma TaskStepDoomed(w: Worker, l: Label)
    requires Doomed(w)
    ensures Doomed(TaskStep(w, l))
  {
  }

  lemma StepDoomed(s: System, l: Label, k: nat)
    requires k < |s.workers| && Doomed(s.workers[k]) && PhaseOk(s.workers[k])
    ensures k < |Step(s, l).workers| && Doomed(Step(s, l).workers[k])
  {
    TaskStepDoomed(s.workers[k], l);
    match l {
      case Submit(_, _) =>
      case SpawnFails(_, _) =>
      case Begin(i) =>
      case Record(i, _) =>
      case Lock(i) =>
      case _ => if l.i < |s.workers| { InstallWorkers(s, l.i, TaskStep(s.workers[l.i], l)); }
    }
  }

  lemma InstallWorkers(s: System, i: nat, w: Worker)
    requires i < |s.workers|
    ensures Install(s, i, w).workers == s.workers[i := w]
  {
  }

  predicate DoomedAfter(operationCapacity: nat, eventCapacity: nat, labels: seq<Label>, k: nat) {
    var s := After(Initial(operationCapacity, eventCapacity), labels);
    k < |s.workers| && Doomed(s.workers[k])
  }

  /** The worker has been told to stop, and has not looked at the token for the last time. */
  predicate CancelledInTime(operationCapacity: nat, eventCapacity: nat, labels: seq<Label>, k: nat) {
    var s := After(Initial(operationCapacity, eventCapacity), labels);
    && k < |s.workers| && s.workers[k].cancelled
    && (s.workers[k].phase.Spawned? || s.workers[k].phase.Started? || s.workers[k].phase.Waiting? || s.workers[k].phase.Entered?)
  }

  lemma CancelDooms(operationCapacity: nat, eventCapacity: nat, labels: seq<Label>, k: nat)
    requires Countable(operationCapacity, eventCapacity, labels) && CancelledInTime(operationCapacity, eventCapacity, labels, k)
    ensures DoomedAfter(operationCapacity, eventCapacity, labels, k)
  {
    RunKeeps(operationCapacity, eventCapacity, labels);
    assert WorkerOk(After(Initial(operationCapacity, eventCapacity), labels), k);
  }

  lemma CountableEarlier(operationCapacity: nat, eventCapacity: nat, labels: seq<Label>, l: Label)
    requires Countable(operationCapacity, eventCapacity, labels + [l])
    ensures Countable(operationCapacity, eventCapacity, labels)
  {
    assert (labels + [l])[..|labels|] == labels;
    StepCounts(After(Initial(operationCapacity, eventCapacity), labels), l);
  }

  lemma StaysDoomed(operationCapacity: nat, eventCapacity: nat, labels: seq<Label>, l: Label, k: nat)
    requires Countable(operationCapacity, eventCapacity, labels) && DoomedAfter(operationCapacity, eventCapacity, labels, k)
    ensures DoomedAfter(operationCapacity, eventCapacity, labels + [l], k)
  {
    RunKeeps(operationCapacity, eventCapacity, labels);
    var s := After(Initial(operationCapacity, eventCapacity), labels);
    assert WorkerOk(s, k);
    StepDoomed(s, l, k);
    AfterOne(Initial(operationCapacity, eventCapacity), labels, l);
  }

  /**
   A worker that is cancelled before it starts executing never calls Kerf, whatever happens afterwards, and ends as
   cancelled unless it panics.
   */
  lemma {:induction false} CancelIsHonoured(operationCapacity: nat, eventCapacity: nat, past: seq<Label>, later: seq<Label>, k: nat)
    requires Countable(operationCapacity, eventCapacity, past + later) && CancelledInTime(operationCapacity, eventCapacity, past, k)
    ensures DoomedAfter(operationCapacity, eventCapacity, past + later, k)
  {
    if later == [] {
      assert past + later == past;
      CancelDooms(operationCapacity, eventCapacity, past, k);
    } else {
      var n := |later| - 1;
      assert past + later == past + later[..n] + [later[n]];
      CountableEarlier(operationCapacity, eventCapacity, past + later[..n], later[n]);
      CancelIsHonoured(operationCapacity, eventCapacity, past, later[..n], k);
      StaysDoomed(operationCapacity, eventCapacity, past + later[..n], later[n], k);
    }
  }

  // ----------------------------------------------------- the way to the Kerf call

  /** What takes a submitted worker to its Kerf call. */
  function Approach(i: nat, before: HostSnapshot, error: O.ApiError): seq<Label> {
    [Begin(i), FirstCheck(i), Lock(i), SecondCheck(i), Preflight(i, Some(before), error)]
  }

  lemma BeginStarts(s: System, i: nat)
    requires Invariant(s) && i < |s.workers| && s.workers[i].phase.Spawned? && O.Get(s.registry, s.workers[i].id).Some?
    ensures var t := Step(s, Begin(i));
      && t == s.(registry := t.registry, workers := s.workers[i := s.workers[i].(phase := Started)])
      && t.registry.nextOperation == s.registry.nextOperation && t.registry.operationCapacity == s.registry.operationCapacity
  {
    assert WorkerOk(s, i);
    Histories.ChangedView(s.registry, s.workers[i].id, O.Start);
  }

  lemma {:induction false} AfterAppend(s: System, a: seq<Label>, b: seq<Label>)
    ensures After(s, a + b) == After(After(s, a), b)
  {
    if b == [] {
      assert a + b == a;
    } else {
      AfterAppend(s, a, b[..|b| - 1]);
      InitAppend(a, b);
    }
  }

  lemma AfterOne(s: System, past: seq<Label>, l: Label)
    ensures After(s, past + [l]) == Step(After(s, past), l)
  {
    assert (past + [l])[..|past|] == past;
  }

  /** From `s`, one worker has come to a phase; the rest, with the lock of the other lane, is as it was. */
  predicate CameTo(s: System, i: nat, p: Phase, t: System) {
    && i < |s.workers|
    && t.workers == s.workers[i := s.workers[i].(phase := p)]
    && t.registry.nextOperation == s.registry.nextOperation && t.registry.operationCapacity == s.registry.operationCapacity
    && var lane := LaneOf(s.workers[i].job);
    && (lane.PoolLane? || t.poolLock == s.poolLock) && (lane.LifecycleLane? || t.lifecycleLock == s.lifecycleLock)
    && (!Critical(p) ==> t.Holder(lane) == s.Holder(lane))
  }

  lemma ComesTo(s: System, i: nat, p: Phase, t: System, l: Label, q: Phase)
    requires CameTo(s, i, p, t) && TaskLabel(l) && l.i == i && TaskStep(t.workers[i], l) == t.workers[i].(phase := q)
    requires if l.Lock? then s.Holder(LaneOf(s.workers[i].job)).None? && !Critical(p) else Critical(p) == Critical(q)
    ensures CameTo(s, i, q, Step(t, l))
  {
    assert t.workers[i := t.workers[i].(phase := q)] == s.workers[i := s.workers[i].(phase := q)];
  }

  /** Five labels one after the other. */
  lemma FiveSteps(s: System, a: Label, b: Label, c: Label, d: Label, e: Label)
    ensures After(s, [a, b, c, d, e]) == Step(Step(Step(Step(Step(s, a), b), c), d), e)
  {
    assert [] + [a] == [a] && [a] + [b] == [a, b] && [a, b] + [c] == [a, b, c] && [a, b, c] + [d] == [a, b, c, d]
           && [a, b, c, d] + [e] == [a, b, c, d, e];
    AfterOne(s, [], a);
    AfterOne(s, [a], b);
    AfterOne(s, [a, b], c);
    AfterOne(s, [a, b, c], d);
    AfterOne(s, [a, b, c, d], e);
  }

  /** A worker that nobody cancels, whose lock is free and whose operation is retained, reaches the call with its plan. */
  lemma ApproachReaches(s: System, i: nat, before: HostSnapshot, error: O.ApiError)
    requires Invariant(s) && i < |s.workers| && s.workers[i].phase.Spawned? && !s.workers[i].cancelled
    requires O.Get(s.registry, s.workers[i].id).Some? && Accepts(s.workers[i].job, before)
    requires s.Holder(LaneOf(s.workers[i].job)).None?
    ensures CameTo(s, i, Calling(before), After(s, Approach(i, before, error)))
  {
    BeginStarts(s, i);
    FiveSteps(s, Begin(i), FirstCheck(i), Lock(i), SecondCheck(i), Preflight(i, Some(before), error));
    var t := Step(s, Begin(i));
    assert CameTo(s, i, Started, t);
    ComesTo(s, i, Started, t, FirstCheck(i), Waiting);
    t := Step(t, FirstCheck(i));
    ComesTo(s, i, Waiting, t, Lock(i), Entered);
    t := Step(t, Lock(i));
    ComesTo(s, i, Entered, t, SecondCheck(i), Executing);
    t := Step(t, SecondCheck(i));
    ComesTo(s, i, Executing, t, Preflight(i, Some(before), error), Calling(before));
  }
}
