/** Workers and the host together: what interleaved executions keep of the host that they all change. */
module Concurrency {
  import opened Prelude
  import opened Snapshots
  import opened Lifecycle
  import opened Kerf
  import Hosts
  import Pools = ResourcePools
  import S = Schedulers
  import StalePlans

  /** The scheduler's state, and the host as it really is. */
  datatype World = World(system: S.System, host: HostSnapshot)

  /** What a job hands to Kerf, planned on the snapshot of its preflight. */
  function Arguments(job: S.Job, before: HostSnapshot): seq<Argument>
    requires S.Accepts(job, before)
  {
    match job
    case LifecycleJob(r) => Plan(r, before).value.arguments
    case PoolJob(r) => Pools.PlanPool(r, before).value.arguments
  }

  predicate Calling(s: S.System, k: nat) {
    k < |s.workers| && s.workers[k].phase.Calling?
  }

  /**
   One step. A healthy preflight sees the host as it is at that moment. A Kerf call carries out what was planned, on the
   host as it is by then, or does nothing. Nothing else changes the host.
   */
  ghost predicate Step(w: World, l: S.Label, v: World) {
    && v.system == S.Step(w.system, l)
    && match l
       case Preflight(_, before, _) =>
         v.host == w.host && (before.Some? && before.value.health == Healthy ==> Hosts.QuietStep(w.host, before.value))
       case CallKerf(i, _) =>
         if Calling(w.system, i) then
           var worker := w.system.workers[i];
           || Hosts.QuietStep(w.host, v.host)
           || (S.Accepts(worker.job, worker.phase.before)
               && Kerf.Runs(Arguments(worker.job, worker.phase.before), w.host, v.host))
         else v.host == w.host
       case _ => v.host == w.host
  }

  /** While one worker calls Kerf, no worker of the other executor has a plan in hand. */
  ghost predicate LanesApart(s: S.System, l: S.Label) {
    l.CallKerf? && Calling(s, l.i) ==>
      forall k: nat {:trigger Calling(s, k)} :: Calling(s, k) ==> S.LaneOf(s.workers[k].job) == S.LaneOf(s.workers[l.i].job)
  }

  /** A plan in hand is a plan for the host as it is. */
  ghost predicate Current(w: World, k: nat) {
    Calling(w.system, k) ==> Hosts.QuietStep(w.host, w.system.workers[k].phase.before)
  }

  ghost predicate Invariant(w: World) {
    && S.Invariant(w.system) && Hosts.Invariant(w.host)
    && forall k: nat {:trigger Current(w, k)} :: Current(w, k)
  }

  // ------------------------------------------------- running on an equal snapshot

  lemma UnmovedTwice(s: HostSnapshot, b: HostSnapshot, t: HostSnapshot)
    requires Unmoved(s, b) && Unmoved(s, t)
    ensures Unmoved(b, t)
  {
    forall k | 0 <= k < |b.instances| ensures Same(b.instances[k], t.instances[k]) {
      assert Same(s.instances[k], b.instances[k]) && Same(s.instances[k], t.instances[k]);
    }
  }

  lemma CreateOnEqual(arguments: seq<Argument>, s: HostSnapshot, b: HostSnapshot, t: HostSnapshot)
    requires Hosts.QuietStep(s, b) && CreateEffect(arguments, s, t)
    ensures CreateEffect(arguments, b, t)
  {
    var new' := t.instances[|s.instances|];
    forall k | 0 <= k < |b.instances| ensures Same(b.instances[k], t.instances[k]) && Apart(b.instances[k], new') {
      assert Same(s.instances[k], b.instances[k]) && Same(s.instances[k], t.instances[k]);
      assert Apart(s.instances[k], new');
    }
  }

  lemma UpdateOnEqual(arguments: seq<Argument>, s: HostSnapshot, b: HostSnapshot, t: HostSnapshot)
    requires Hosts.QuietStep(s, b) && UpdateEffect(arguments, s, t)
    ensures UpdateEffect(arguments, b, t)
  {
    forall k | 0 <= k < |b.instances| ensures UpdateOf(b.instances[k], arguments, t.instances[k]) {
      assert Same(s.instances[k], b.instances[k]) && UpdateOf(s.instances[k], arguments, t.instances[k]);
    }
  }

  lemma StateOnEqual(arguments: seq<Argument>, to: InstanceState, s: HostSnapshot, b: HostSnapshot, t: HostSnapshot)
    requires Hosts.QuietStep(s, b) && StateEffect(arguments, to, s, t)
    ensures StateEffect(arguments, to, b, t)
  {
    forall k | 0 <= k < |b.instances| ensures StateOf(b.instances[k], arguments[1].id, to, t.instances[k]) {
      assert Same(s.instances[k], b.instances[k]) && StateOf(s.instances[k], arguments[1].id, to, t.instances[k]);
    }
  }

  lemma DeleteOnEqual(arguments: seq<Argument>, s: HostSnapshot, b: HostSnapshot, t: HostSnapshot)
    requires Hosts.QuietStep(s, b) && DeleteEffect(arguments, s, t)
    ensures DeleteEffect(arguments, b, t)
  {
    var e :| RemainsAfterDelete(e, arguments[1].id, s, t);
    forall j | 0 <= j < |e|
      ensures e[j] < |b.instances| && Kept(b.instances[e[j]], t.instances[j]) && t.instances[j].state == b.instances[e[j]].state
    {
      assert Same(s.instances[e[j]], b.instances[e[j]]);
    }
    forall k | 0 <= k < |b.instances| ensures k in e <==> b.instances[k].id != arguments[1].id {
      assert Same(s.instances[k], b.instances[k]);
    }
    assert RemainsAfterDelete(e, arguments[1].id, b, t);
  }

  /** A command runs on the host just as it would run on a snapshot that shows the host. */
  lemma RunsOnEqual(arguments: seq<Argument>, s: HostSnapshot, b: HostSnapshot, t: HostSnapshot)
    requires Hosts.QuietStep(s, b) && Kerf.Runs(arguments, s, t)
    ensures Kerf.Runs(arguments, b, t)
  {
    match arguments[0].command {
      case CreateCmd => CreateOnEqual(arguments, s, b, t);
      case UpdateCmd => UpdateOnEqual(arguments, s, b, t);
      case LoadCmd => StateOnEqual(arguments, Loaded, s, b, t);
      case ExecCmd => StateOnEqual(arguments, Active, s, b, t);
      case KillCmd => StateOnEqual(arguments, Loaded, s, b, t);
      case UnloadCmd => StateOnEqual(arguments, Ready, s, b, t);
      case DeleteCmd => DeleteOnEqual(arguments, s, b, t);
      case InitCmd => UnmovedTwice(s, b, t);
    }
  }

  // ------------------------------------------------------------------ every step

  /** A current plan that is carried out keeps the host's invariant. */
  lemma CallKeepsHost(job: S.Job, before: HostSnapshot, host: HostSnapshot, next: HostSnapshot)
    requires Hosts.Invariant(host) && Hosts.QuietStep(host, before) && S.Accepts(job, before)
    requires Kerf.Runs(Arguments(job, before), host, next)
    ensures Hosts.Invariant(next)
  {
    assert Hosts.Step(host, before);
    Hosts.StepKeeps(host, before);
    RunsOnEqual(Arguments(job, before), host, before, next);
    match job {
      case LifecycleJob(r) =>
        assert Hosts.LifecycleStep(r, before, next);
        Hosts.LifecycleKeeps(r, before, next);
      case PoolJob(r) =>
        assert Hosts.PoolStep(r, before, next);
        Hosts.ResizeKeeps(r, before, next);
    }
  }

  lemma TaskKeepsPlan(w: S.Worker, l: S.Label)
    ensures S.TaskStep(w, l).job == w.job
    ensures S.TaskStep(w, l).phase.Calling? && !l.Preflight? ==> w.phase == S.TaskStep(w, l).phase && !l.CallKerf?
  {
  }

  /** What became of one worker: nothing, a task step of its own, or a phase without a plan. */
  predicate Moves(a: S.Worker, l: S.Label, k: nat, b: S.Worker) {
    || b == a
    || (S.TaskLabel(l) && l.i == k && b == S.TaskStep(a, l))
    || (b.job == a.job && !b.phase.Calling?)
  }

  lemma RegistryMoves(s: S.System, l: S.Label, k: nat)
    requires !S.TaskLabel(l) && k < |s.workers|
    ensures k < |S.Step(s, l).workers| && Moves(s.workers[k], l, k, S.Step(s, l).workers[k])
  {
    match l {
      case Submit(_, _) =>
      case SpawnFails(_, _) =>
      case Begin(i) =>
      case Record(i, at) =>
    }
  }

  lemma TaskMoves(s: S.System, l: S.Label, k: nat)
    requires S.TaskLabel(l) && k < |s.workers|
    ensures k < |S.Step(s, l).workers| == |s.workers| && Moves(s.workers[k], l, k, S.Step(s, l).workers[k])
  {
    if l.i < |s.workers| {
      var t := S.Install(s, l.i, S.TaskStep(s.workers[l.i], l));
      assert t.workers == s.workers[l.i := S.TaskStep(s.workers[l.i], l)];
      assert S.Step(s, l) == s || S.Step(s, l) == t;
    }
  }

  lemma NewWorker(s: S.System, l: S.Label, k: nat)
    requires |s.workers| <= k < |S.Step(s, l).workers|
    ensures l.Submit? && S.Step(s, l).workers[k].job == l.job && S.Step(s, l).workers[k].phase.Spawned?
  {
    if S.TaskLabel(l) && l.i < |s.workers| { TaskMoves(s, l, l.i); }
  }

  /** What a step makes of one worker. */
  lemma WorkerStep(s: S.System, l: S.Label, k: nat)
    requires k < |S.Step(s, l).workers|
    ensures if k < |s.workers| then Moves(s.workers[k], l, k, S.Step(s, l).workers[k])
            else l.Submit? && S.Step(s, l).workers[k].job == l.job && S.Step(s, l).workers[k].phase.Spawned?
  {
    if k >= |s.workers| {
      NewWorker(s, l, k);
    } else if S.TaskLabel(l) {
      TaskMoves(s, l, k);
    } else {
      RegistryMoves(s, l, k);
    }
  }

  /** Only a preflight puts a plan into a worker's hand, and a call takes it away. */
  lemma PlansAreOld(s: S.System, l: S.Label, k: nat)
    requires Calling(S.Step(s, l), k) && !(l.Preflight? && l.i == k)
    ensures Calling(s, k) && s.workers[k].phase == S.Step(s, l).workers[k].phase
  {
    WorkerStep(s, l, k);
    if k < |s.workers| { TaskKeepsPlan(s.workers[k], l); }
  }

  /** The caller's plan is used up. */
  lemma CallUsesPlan(s: S.System, l: S.Label)
    requires l.CallKerf? && Calling(s, l.i)
    ensures !Calling(S.Step(s, l), l.i)
  {
  }

  lemma NewPlan(s: S.System, l: S.Label)
    requires l.Preflight? && Calling(S.Step(s, l), l.i)
    ensures
      || (Calling(s, l.i) && s.workers[l.i].phase == S.Step(s, l).workers[l.i].phase)
      || (l.i < |s.workers| && l.before.Some? && S.Step(s, l).workers[l.i].phase == S.Calling(l.before.value)
          && S.Accepts(s.workers[l.i].job, l.before.value))
  {
  }

  /** While a worker calls Kerf nobody else has a plan: the lock sees to its own lane. */
  lemma CallerIsAlone(s: S.System, l: S.Label, k: nat)
    requires S.Invariant(s) && l.CallKerf? && Calling(s, l.i) && LanesApart(s, l) && Calling(s, k)
    ensures k == l.i
  {
    assert S.LockOk(s, k) && S.LockOk(s, l.i);
  }

  lemma StepKeeps(w: World, l: S.Label, v: World)
    requires Invariant(w) && Step(w, l, v) && LanesApart(w.system, l) && w.system.registry.nextOperation < U64_MAX
    ensures Invariant(v)
  {
    S.StepKeeps(w.system, l);
    if l.CallKerf? && Calling(w.system, l.i) {
      CallKeeps(w, l, v);
    } else {
      forall k: nat ensures Current(v, k) {
        OthersKeep(w, l, v, k);
      }
    }
  }

  lemma CallKeeps(w: World, l: S.Label, v: World)
    requires Invariant(w) && Step(w, l, v) && LanesApart(w.system, l) && l.CallKerf? && Calling(w.system, l.i)
    ensures Hosts.Invariant(v.host) && forall k: nat {:trigger Current(v, k)} :: Current(v, k)
  {
    var worker := w.system.workers[l.i];
    assert Current(w, l.i);
    if Hosts.QuietStep(w.host, v.host) {
      StalePlans.QuietKeeps(w.host, v.host);
    } else {
      CallKeepsHost(worker.job, worker.phase.before, w.host, v.host);
    }
    forall k: nat ensures Current(v, k) {
      if Calling(v.system, k) {
        PlansAreOld(w.system, l, k);
        CallerIsAlone(w.system, l, k);
        CallUsesPlan(w.system, l);
      }
    }
  }

  lemma OthersKeep(w: World, l: S.Label, v: World, k: nat)
    requires Invariant(w) && Step(w, l, v) && !(l.CallKerf? && Calling(w.system, l.i))
    ensures Current(v, k)
  {
    assert Current(w, k);
    if Calling(v.system, k) {
      if l.Preflight? && l.i == k {
        NewPlan(w.system, l);
        if !Calling(w.system, k) { S.AcceptedIsCurrent(w.system.workers[k].job, l.before.value); }
      } else {
        PlansAreOld(w.system, l, k);
      }
    }
  }

  // -------------------------------------------------------------------- all runs

  ghost predicate StepAt(worlds: seq<World>, labels: seq<S.Label>, n: nat) {
    n < |labels| && n + 1 < |worlds| ==> Step(worlds[n], labels[n], worlds[n + 1])
  }

  ghost predicate ApartAt(worlds: seq<World>, labels: seq<S.Label>, n: nat) {
    n < |labels| && n < |worlds| ==> LanesApart(worlds[n].system, labels[n])
  }

  /** Any interleaving of submissions, workers, cancellations and Kerf calls, from an idle scheduler. */
  ghost predicate Run(worlds: seq<World>, labels: seq<S.Label>, operationCapacity: nat, eventCapacity: nat) {
    && operationCapacity > 0 && |worlds| == |labels| + 1
    && worlds[0].system == S.Initial(operationCapacity, eventCapacity)
    && forall n: nat {:trigger StepAt(worlds, labels, n)} :: StepAt(worlds, labels, n)
  }

  lemma {:induction false} RunCounts(worlds: seq<World>, labels: seq<S.Label>, operationCapacity: nat, eventCapacity: nat,
                                     n: nat, m: nat)
    requires Run(worlds, labels, operationCapacity, eventCapacity) && n <= m < |worlds|
    ensures worlds[n].system.registry.nextOperation <= worlds[m].system.registry.nextOperation
    decreases m
  {
    if n < m {
      RunCounts(worlds, labels, operationCapacity, eventCapacity, n, m - 1);
      assert StepAt(worlds, labels, m - 1);
      S.StepCounts(worlds[m - 1].system, labels[m - 1]);
    }
  }

  lemma IdleIsSound(w: World, operationCapacity: nat, eventCapacity: nat)
    requires operationCapacity > 0 && w.system == S.Initial(operationCapacity, eventCapacity) && Hosts.Invariant(w.host)
    ensures Invariant(w)
  {
    S.RunKeeps(operationCapacity, eventCapacity, []);
  }

  lemma {:induction false} RunKeeps(worlds: seq<World>, labels: seq<S.Label>, operationCapacity: nat, eventCapacity: nat, n: nat)
    requires Run(worlds, labels, operationCapacity, eventCapacity) && n < |worlds| && Hosts.Invariant(worlds[0].host)
    requires forall m: nat {:trigger ApartAt(worlds, labels, m)} :: m < n ==> ApartAt(worlds, labels, m)
    requires worlds[n].system.registry.nextOperation < U64_MAX
    ensures Invariant(worlds[n])
  {
    if n == 0 {
      IdleIsSound(worlds[0], operationCapacity, eventCapacity);
    } else {
      RunCounts(worlds, labels, operationCapacity, eventCapacity, n - 1, n);
      RunKeeps(worlds, labels, operationCapacity, eventCapacity, n - 1);
      assert StepAt(worlds, labels, n - 1) && ApartAt(worlds, labels, n - 1);
      StepKeeps(worlds[n - 1], labels[n - 1], worlds[n]);
    }
  }

  // -------------------------------------------------- both executors, exactly

  /** The request still fits the host that its call reaches: no snapshot is involved. */
  predicate StillFits(job: S.Job, host: HostSnapshot) {
    match job
    case LifecycleJob(r) => StalePlans.LifecycleFits(r, host)
    case PoolJob(r) => StalePlans.ResizeFits(r, host)
  }

  /** The lock of its lane keeps a lifecycle plan's view of the instances good, whatever pool workers do meanwhile. */
  ghost predicate InHand(w: World, k: nat) {
    Calling(w.system, k) && w.system.workers[k].job.LifecycleJob? ==>
      StalePlans.ShowsInstances(w.system.workers[k].phase.before, w.host)
  }

  /** What holds of every world of every run, isolated or not. */
  ghost predicate Locked(w: World) {
    S.Invariant(w.system) && forall k: nat {:trigger InHand(w, k)} :: InHand(w, k)
  }

  /** The step is a call that Kerf carries out. */
  ghost predicate CarriedOut(w: World, l: S.Label, v: World) {
    && l.CallKerf? && Calling(w.system, l.i)
    && var worker := w.system.workers[l.i];
    && S.Accepts(worker.job, worker.phase.before)
    && Kerf.Runs(Arguments(worker.job, worker.phase.before), w.host, v.host)
  }

  lemma PoolRunShowsInstances(r: Pools.ResourcePoolRequest, planned: HostSnapshot, before: HostSnapshot, host: HostSnapshot,
                              next: HostSnapshot)
    requires Pools.PlanPool(r, planned).Ok? && Kerf.Runs(Pools.PlanPool(r, planned).value.arguments, host, next)
    requires StalePlans.ShowsInstances(before, host)
    ensures StalePlans.ShowsInstances(before, next)
  {
    ResizeArguments(r, planned);
    UnmovedTwice(host, next, before);
  }

  /** A call of one lane leaves the plans of the other in hand; its own lane has no other. */
  lemma CallLeavesInHand(w: World, l: S.Label, v: World, k: nat)
    requires Locked(w) && Step(w, l, v) && l.CallKerf? && Calling(w.system, l.i)
    ensures InHand(v, k)
  {
    if Calling(v.system, k) && v.system.workers[k].job.LifecycleJob? {
      WorkerStep(w.system, l, k);
      PlansAreOld(w.system, l, k);
      CallUsesPlan(w.system, l);
      assert InHand(w, k) && S.LockOk(w.system, k) && S.LockOk(w.system, l.i);
      var before, worker := v.system.workers[k].phase.before, w.system.workers[l.i];
      if Hosts.QuietStep(w.host, v.host) {
        UnmovedTwice(w.host, v.host, before);
      } else {
        PoolRunShowsInstances(worker.job.pool, worker.phase.before, before, w.host, v.host);
      }
    }
  }

  lemma OthersLeaveInHand(w: World, l: S.Label, v: World, k: nat)
    requires Locked(w) && Step(w, l, v) && !(l.CallKerf? && Calling(w.system, l.i))
    ensures InHand(v, k)
  {
    if Calling(v.system, k) && v.system.workers[k].job.LifecycleJob? {
      WorkerStep(w.system, l, k);
      assert InHand(w, k);
      if l.Preflight? && l.i == k {
        NewPlan(w.system, l);
        if !Calling(w.system, k) { S.AcceptedIsCurrent(w.system.workers[k].job, l.before.value); }
      } else {
        PlansAreOld(w.system, l, k);
      }
    }
  }

  lemma StepKeepsLocked(w: World, l: S.Label, v: World)
    requires Locked(w) && Step(w, l, v) && w.system.registry.nextOperation < U64_MAX
    ensures Locked(v)
  {
    S.StepKeeps(w.system, l);
    forall k: nat ensures InHand(v, k) {
      if l.CallKerf? && Calling(w.system, l.i) { CallLeavesInHand(w, l, v, k); } else { OthersLeaveInHand(w, l, v, k); }
    }
  }

  /** A call that Kerf carries out keeps the host isolated exactly when its request still fits. */
  lemma CallKeepsIff(w: World, l: S.Label, v: World)
    requires Locked(w) && Hosts.Invariant(w.host) && CarriedOut(w, l, v)
    ensures Hosts.Invariant(v.host) <==> StillFits(w.system.workers[l.i].job, w.host)
  {
    var worker := w.system.workers[l.i];
    assert InHand(w, l.i);
    match worker.job {
      case LifecycleJob(r) => StalePlans.LifecycleFitsIff(r, worker.phase.before, w.host, v.host);
      case PoolJob(r) => StalePlans.ResizeFitsIff(r, worker.phase.before, w.host, v.host);
    }
  }

  ghost predicate FittedAt(worlds: seq<World>, labels: seq<S.Label>, n: nat) {
    n < |labels| && n + 1 < |worlds| && CarriedOut(worlds[n], labels[n], worlds[n + 1]) ==>
      StillFits(worlds[n].system.workers[labels[n].i].job, worlds[n].host)
  }

  ghost predicate IsolatedAt(worlds: seq<World>, n: nat) {
    n < |worlds| ==>
      Hosts.Isolated(worlds[n].host) && Hosts.CpusPartitioned(worlds[n].host) && Hosts.DevicesIsolated(worlds[n].host)
  }

  lemma {:induction false} RunKeepsLocked(worlds: seq<World>, labels: seq<S.Label>, operationCapacity: nat,
                                          eventCapacity: nat, n: nat)
    requires Run(worlds, labels, operationCapacity, eventCapacity) && n < |worlds|
    requires worlds[n].system.registry.nextOperation < U64_MAX
    ensures Locked(worlds[n])
  {
    if n == 0 {
      S.RunKeeps(operationCapacity, eventCapacity, []);
    } else {
      RunCounts(worlds, labels, operationCapacity, eventCapacity, n - 1, n);
      RunKeepsLocked(worlds, labels, operationCapacity, eventCapacity, n - 1);
      assert StepAt(worlds, labels, n - 1);
      StepKeepsLocked(worlds[n - 1], labels[n - 1], worlds[n]);
    }
  }

  /** From an isolated world, one step of a run leads to an isolated one exactly when a call in it still fitted. */
  lemma NextIsolatedIff(worlds: seq<World>, labels: seq<S.Label>, operationCapacity: nat, eventCapacity: nat, n: nat)
    requires Run(worlds, labels, operationCapacity, eventCapacity) && n + 1 < |worlds|
    requires worlds[n].system.registry.nextOperation < U64_MAX && IsolatedAt(worlds, n)
    ensures IsolatedAt(worlds, n + 1) <==> FittedAt(worlds, labels, n)
  {
    var w, l, v := worlds[n], labels[n], worlds[n + 1];
    assert StepAt(worlds, labels, n);
    RunKeepsLocked(worlds, labels, operationCapacity, eventCapacity, n);
    Hosts.InvariantMeans(w.host);
    Hosts.InvariantMeans(v.host);
    if CarriedOut(w, l, v) {
      CallKeepsIff(w, l, v);
    } else if l.CallKerf? && Calling(w.system, l.i) {
      StalePlans.QuietKeeps(w.host, v.host);
    }
  }

  ghost predicate AllIsolated(worlds: seq<World>, n: nat) {
    forall m: nat {:trigger IsolatedAt(worlds, m)} :: m <= n ==> IsolatedAt(worlds, m)
  }

  ghost predicate AllFitted(worlds: seq<World>, labels: seq<S.Label>, n: nat) {
    forall m: nat {:trigger FittedAt(worlds, labels, m)} :: m < n ==> FittedAt(worlds, labels, m)
  }

  lemma OneMore(worlds: seq<World>, labels: seq<S.Label>, n: nat)
    ensures AllIsolated(worlds, n + 1) <==> AllIsolated(worlds, n) && IsolatedAt(worlds, n + 1)
    ensures AllFitted(worlds, labels, n + 1) <==> AllFitted(worlds, labels, n) && FittedAt(worlds, labels, n)
    ensures AllIsolated(worlds, n) ==> IsolatedAt(worlds, n)
  {
  }

  /**
   The exact condition over both executors: in every run from an isolated host, every world up to `n` is isolated, its
   CPUs partitioned and its IOMMU groups whole, if and only if every call that Kerf carried out before `n` still fitted
   the host that it reached.
   */
  lemma {:induction false} InterleavingsStayIsolatedIff(worlds: seq<World>, labels: seq<S.Label>, operationCapacity: nat,
                                                        eventCapacity: nat, n: nat)
    requires Run(worlds, labels, operationCapacity, eventCapacity) && n < |worlds| && IsolatedAt(worlds, 0)
    requires worlds[n].system.registry.nextOperation < U64_MAX
    ensures AllIsolated(worlds, n) <==> AllFitted(worlds, labels, n)
  {
    if n == 0 {
      assert AllIsolated(worlds, 0) && AllFitted(worlds, labels, 0);
    } else {
      RunCounts(worlds, labels, operationCapacity, eventCapacity, n - 1, n);
      InterleavingsStayIsolatedIff(worlds, labels, operationCapacity, eventCapacity, n - 1);
      OneMore(worlds, labels, n - 1);
      if AllIsolated(worlds, n - 1) { NextIsolatedIff(worlds, labels, operationCapacity, eventCapacity, n - 1); }
    }
  }

  // ------------------------------------------------------------- one lane at a time

  ghost predicate OneLane(s: S.System, lane: S.Lane) {
    forall w :: w in s.workers ==> S.LaneOf(w.job) == lane
  }

  predicate Submits(l: S.Label, lane: S.Lane) {
    l.Submit? ==> S.LaneOf(l.job) == lane
  }

  lemma StepKeepsLane(s: S.System, l: S.Label, lane: S.Lane)
    requires OneLane(s, lane) && Submits(l, lane)
    ensures OneLane(S.Step(s, l), lane)
  {
    var t := S.Step(s, l);
    forall k | 0 <= k < |t.workers| ensures S.LaneOf(t.workers[k].job) == lane {
      WorkerStep(s, l, k);
      if k < |s.workers| {
        assert s.workers[k] in s.workers;
        TaskKeepsPlan(s.workers[k], l);
      }
    }
  }

  lemma {:induction false} RunKeepsLane(worlds: seq<World>, labels: seq<S.Label>, operationCapacity: nat, eventCapacity: nat,
                                        lane: S.Lane, n: nat)
    requires Run(worlds, labels, operationCapacity, eventCapacity) && n < |worlds|
    requires forall l :: l in labels ==> Submits(l, lane)
    ensures OneLane(worlds[n].system, lane)
  {
    if n > 0 {
      RunKeepsLane(worlds, labels, operationCapacity, eventCapacity, lane, n - 1);
      assert StepAt(worlds, labels, n - 1) && labels[n - 1] in labels;
      StepKeepsLane(worlds[n - 1].system, labels[n - 1], lane);
    }
  }

  /** In particular, any number of interleaved lifecycle workers keeps the host isolated; and so does any of pool workers. */
  lemma OneLaneStaysIsolated(worlds: seq<World>, labels: seq<S.Label>, operationCapacity: nat, eventCapacity: nat,
                             lane: S.Lane, n: nat)
    requires Run(worlds, labels, operationCapacity, eventCapacity) && n < |worlds|
    requires forall l :: l in labels ==> Submits(l, lane)
    requires Hosts.Isolated(worlds[0].host) && Hosts.CpusPartitioned(worlds[0].host) && Hosts.DevicesIsolated(worlds[0].host)
    requires worlds[n].system.registry.nextOperation < U64_MAX
    ensures Hosts.Isolated(worlds[n].host) && Hosts.CpusPartitioned(worlds[n].host) && Hosts.DevicesIsolated(worlds[n].host)
  {
    forall m: nat | m < n ensures ApartAt(worlds, labels, m) {
      RunKeepsLane(worlds, labels, operationCapacity, eventCapacity, lane, m);
    }
    Hosts.InvariantMeans(worlds[0].host);
    RunKeeps(worlds, labels, operationCapacity, eventCapacity, n);
    Hosts.InvariantMeans(worlds[n].host);
  }
}
