/** A run in which the plans of the two executors cross: why the condition of module `Concurrency` is needed. */
module Overlaps {
  import opened Prelude
  import opened Snapshots
  import opened Lifecycle
  import opened Kerf
  import opened Concurrency
  import Executors
  import Histories
  import Hosts
  import O = Operations
  import Pools = ResourcePools
  import S = Schedulers

  /** A host with one instance on CPU 4, and CPU 5 to spare. */
  function SpareHost(): HostSnapshot {
    var lab := Hosts.LabHost();
    lab.(pool := lab.pool.(cpus := [4, 5], availableCpus := [5]))
  }

  const SHRINK := Pools.ResourcePoolRequest(1, [4], 10)

  const MOVE := Update(InstanceRequest(1, 1), Some([5]), None, None, false)

  /** The spare CPU is gone. */
  function ShrunkHost(): HostSnapshot {
    SpareHost().(pool := SpareHost().pool.(cpus := [4], availableCpus := []))
  }

  /** The instance was moved to it. */
  function MovedHost(): HostSnapshot {
    var lab := ShrunkHost().instances[0];
    ShrunkHost().(pool := ShrunkHost().pool.(availableCpus := [4]),
                  instances := [lab.(resources := lab.resources.(cpus := [5]))])
  }

  lemma SpareIsSound()
    ensures Hosts.Invariant(SpareHost()) && Pools.AssignedCpus(SpareHost().instances) == {4}
    ensures AssignedBytes(SpareHost().instances) == 10
    ensures Elements(SpareHost().pool.cpus) == {4, 5} && Elements(SpareHost().pool.availableCpus) == {5}
    ensures Elements([4 as U32]) == {4} && NoDuplicates([4 as U32])
  {
    var lab, s := Hosts.LabHost(), SpareHost();
    Hosts.LabIsSound();
    assert s.instances == lab.instances;
    assert Elements([4 as U32, 5]) == {4, 5} && Elements([5 as U32]) == {5};
    forall k | 0 <= k < |s.instances| ensures Hosts.Sound(s.instances[k], s.pool) {
      assert Hosts.Sound(lab.instances[k], lab.pool);
    }
  }

  lemma ShrinkIsPlanned()
    ensures S.Accepts(S.PoolJob(SHRINK), SpareHost())
  {
    SpareIsSound();
    Hosts.ResizeAcceptedIff(SHRINK, SpareHost());
  }

  lemma ShrinkRuns()
    requires Pools.PlanPool(SHRINK, SpareHost()).Ok?
    ensures Kerf.Runs(Pools.PlanPool(SHRINK, SpareHost()).value.arguments, SpareHost(), ShrunkHost())
  {
    var s, t := SpareHost(), ShrunkHost();
    SpareIsSound();
    ResizeArguments(SHRINK, s);
    assert t.instances == s.instances && Elements<U32>([]) == {};
    assert t.pool.regions[..0] == [];
    assert RegionBytes(t.pool.regions) == RegionBytes(t.pool.regions[..0]) + 10;
    assert Hosts.Sound(s.instances[0], s.pool);
  }

  lemma MoveIsPlanned()
    ensures Plan(MOVE, SpareHost()).Ok? && Plan(MOVE, SpareHost()).value.arguments == UpdateArguments(MOVE, "lab")
  {
    var s := SpareHost();
    SpareIsSound();
    assert ValidName("lab") by { assert forall c :: c in "lab" ==> AlphaNumeric(c); }
    assert Elements([5 as U32]) == {5} && NoDuplicates([5 as U32]);
    Hosts.UpdateAcceptedIff(MOVE, s, s.instances[0]);
    assert Find(s.instances, 1) == Some(0);
  }

  lemma MoveIsAccepted()
    ensures S.Accepts(S.LifecycleJob(MOVE), SpareHost())
    ensures Arguments(S.LifecycleJob(MOVE), SpareHost()) == UpdateArguments(MOVE, "lab")
  {
    MoveIsPlanned();
  }

  lemma MoveRuns()
    ensures Kerf.Runs(UpdateArguments(MOVE, "lab"), ShrunkHost(), MovedHost())
    ensures !Hosts.CpusPartitioned(MovedHost())
  {
    var t, u := ShrunkHost(), MovedHost();
    assert Elements([5 as U32]) == {5} && Elements([4 as U32]) == {4} && Elements<U32>([]) == {};
    assert u.instances[..0] == [];
    assert Pools.AssignedCpus(u.instances) == Pools.AssignedCpus(u.instances[..0]) + {5};
    UpdateArgumentsCarryTheRequest(MOVE, "lab");
    assert Replaced(t.instances[0], MOVE.newCpus, MOVE.newMemory, MOVE.newDevices, u.instances[0]);
    assert 5 in Elements(u.pool.availableCpus) + Pools.AssignedCpus(u.instances) && 5 !in Elements(u.pool.cpus);
  }

  /** A pool worker and a lifecycle worker plan on the same snapshot, then call Kerf one after the other. */
  function Overlap(request: O.NewOperation, process: Executors.Process, error: O.ApiError): seq<S.Label> {
    [S.Submit(request, S.PoolJob(SHRINK)), S.Submit(request, S.LifecycleJob(MOVE))]
    + S.Approach(0, SpareHost(), error) + S.Approach(1, SpareHost(), error) + [S.CallKerf(0, process), S.CallKerf(1, process)]
  }

  function OverlapWorld(labels: seq<S.Label>, n: nat): World
    requires n <= |labels|
  {
    World(S.After(S.Initial(2, 1), labels[..n]), if n <= 12 then SpareHost() else if n == 13 then ShrunkHost() else MovedHost())
  }

  predicate Submitted(s: S.System, k: nat, job: S.Job) {
    k < |s.workers| && s.workers[k].id == k + 1 && s.workers[k].job == job && s.workers[k].phase.Spawned? && !s.workers[k].cancelled
  }

  predicate Planned(s: S.System, k: nat, job: S.Job) {
    k < |s.workers| && s.workers[k].job == job && s.workers[k].phase == S.Calling(SpareHost())
  }

  predicate TwoRetained(r: O.Registry) {
    r.nextOperation == 3 && r.operationCapacity == 2
  }

  /** One more worker plans; the other is left alone. */
  lemma PlansNext(labels: seq<S.Label>, i: nat, j: nat, job: S.Job, error: O.ApiError)
    requires i < 2 && j < 2 && i != j && S.Accepts(job, SpareHost())
    requires var s := S.After(S.Initial(2, 1), labels);
      Submitted(s, i, job) && j < |s.workers| && TwoRetained(s.registry) && s.Holder(S.LaneOf(job)).None?
    ensures var s, t := S.After(S.Initial(2, 1), labels), S.After(S.Initial(2, 1), labels + S.Approach(i, SpareHost(), error));
      && Planned(t, i, job) && j < |t.workers| && t.workers[j] == s.workers[j] && TwoRetained(t.registry)
      && (job.PoolJob? ==> t.lifecycleLock == s.lifecycleLock)
  {
    var s := S.After(S.Initial(2, 1), labels);
    S.RunKeeps(2, 1, labels);
    Histories.RetainedIff(s.registry, i + 1);
    S.ApproachReaches(s, i, SpareHost(), error);
    S.AfterAppend(S.Initial(2, 1), labels, S.Approach(i, SpareHost(), error));
  }

  lemma BothSubmitted(a: S.Label, b: S.Label)
    requires a.Submit? && b.Submit?
    ensures var s := S.After(S.Initial(2, 1), [a, b]);
      && Submitted(s, 0, a.job) && Submitted(s, 1, b.job) && TwoRetained(s.registry)
      && s.poolLock.None? && s.lifecycleLock.None?
  {
    S.AfterOne(S.Initial(2, 1), [], a);
    S.AfterOne(S.Initial(2, 1), [a], b);
    assert [] + [a] == [a] && [a] + [b] == [a, b];
  }

  /** Both have the plan of the same snapshot in hand. */
  lemma BothPlan(request: O.NewOperation, process: Executors.Process, error: O.ApiError)
    ensures var s := S.After(S.Initial(2, 1), Overlap(request, process, error)[..12]);
      Planned(s, 0, S.PoolJob(SHRINK)) && Planned(s, 1, S.LifecycleJob(MOVE))
  {
    var a, b := S.Submit(request, S.PoolJob(SHRINK)), S.Submit(request, S.LifecycleJob(MOVE));
    BothSubmitted(a, b);
    ShrinkIsPlanned();
    PlansNext([a, b], 0, 1, a.job, error);
    MoveIsAccepted();
    PlansNext([a, b] + S.Approach(0, SpareHost(), error), 1, 0, b.job, error);
    assert Overlap(request, process, error)[..12] == [a, b] + S.Approach(0, SpareHost(), error) + S.Approach(1, SpareHost(), error);
  }

  predicate Plans(l: S.Label) {
    !l.CallKerf? && (l.Preflight? ==> l.before == Some(SpareHost()))
  }

  /** Twelve labels bring both workers to their call; the calls are the last two. */
  ghost predicate Crossing(labels: seq<S.Label>) {
    && |labels| == 14 && (forall n :: 0 <= n < 12 ==> Plans(labels[n]))
    && labels[12].CallKerf? && labels[12].i == 0 && labels[13].CallKerf? && labels[13].i == 1
    && Planned(OverlapWorld(labels, 12).system, 0, S.PoolJob(SHRINK))
    && Planned(OverlapWorld(labels, 12).system, 1, S.LifecycleJob(MOVE))
  }

  lemma OverlapCrosses(request: O.NewOperation, process: Executors.Process, error: O.ApiError)
    ensures Crossing(Overlap(request, process, error))
  {
    BothPlan(request, process, error);
  }

  lemma NextWorld(labels: seq<S.Label>, n: nat)
    requires n < |labels|
    ensures OverlapWorld(labels, n + 1).system == S.Step(OverlapWorld(labels, n).system, labels[n])
  {
    assert labels[..n] + [labels[n]] == labels[..n + 1];
    S.AfterOne(S.Initial(2, 1), labels[..n], labels[n]);
  }

  /** Planning changes nothing on the host. */
  lemma PlanningStep(w: World, l: S.Label, v: World)
    requires Plans(l) && v.system == S.Step(w.system, l) && w.host == v.host == SpareHost()
    ensures Step(w, l, v)
  {
    if l.Preflight? { SpareIsSound(); }
  }

  lemma ShrinkStep(w: World, l: S.Label, v: World)
    requires Planned(w.system, 0, S.PoolJob(SHRINK)) && w.host == SpareHost() && l.CallKerf? && l.i == 0
    requires v.system == S.Step(w.system, l) && v.host == ShrunkHost()
    ensures Step(w, l, v)
  {
    ShrinkIsPlanned();
    ShrinkRuns();
  }

  /** The second plan stays in hand during the first call. */
  lemma PlanStays(s: S.System, l: S.Label)
    requires Planned(s, 1, S.LifecycleJob(MOVE)) && l.CallKerf? && l.i == 0
    ensures Planned(S.Step(s, l), 1, S.LifecycleJob(MOVE))
  {
  }

  /** It was made for the pool as it was, and is carried out on the pool as it is. */
  lemma MoveStep(w: World, l: S.Label, v: World)
    requires Planned(w.system, 1, S.LifecycleJob(MOVE)) && w.host == ShrunkHost() && l.CallKerf? && l.i == 1
    requires v.system == S.Step(w.system, l) && v.host == MovedHost()
    ensures Step(w, l, v) && CarriedOut(w, l, v) && !StillFits(w.system.workers[1].job, w.host)
  {
    MoveIsAccepted();
    MoveRuns();
    assert 5 in Elements([5 as U32]) && 5 !in Elements([4 as U32]);
  }

  function OverlapWorlds(labels: seq<S.Label>): seq<World> {
    seq(|labels| + 1, n requires 0 <= n <= |labels| => OverlapWorld(labels, n))
  }

  lemma LastCall(labels: seq<S.Label>)
    requires Crossing(labels)
    ensures StepAt(OverlapWorlds(labels), labels, 13) && !FittedAt(OverlapWorlds(labels), labels, 13)
  {
    NextWorld(labels, 12);
    PlanStays(OverlapWorld(labels, 12).system, labels[12]);
    NextWorld(labels, 13);
    MoveStep(OverlapWorld(labels, 13), labels[13], OverlapWorld(labels, 14));
  }

  lemma OverlapSteps(labels: seq<S.Label>, n: nat)
    requires Crossing(labels)
    ensures StepAt(OverlapWorlds(labels), labels, n)
  {
    if n < 13 {
      NextWorld(labels, n);
      if n < 12 {
        PlanningStep(OverlapWorld(labels, n), labels[n], OverlapWorld(labels, n + 1));
      } else {
        ShrinkStep(OverlapWorld(labels, n), labels[n], OverlapWorld(labels, n + 1));
      }
    } else if n == 13 {
      LastCall(labels);
    }
  }

  /** A run of both executors from an isolated host that ends with its CPU partition broken: the last call fits no more. */
  lemma OverlapExample(request: O.NewOperation, process: Executors.Process, error: O.ApiError)
    returns (worlds: seq<World>, labels: seq<S.Label>)
    ensures Run(worlds, labels, 2, 1) && IsolatedAt(worlds, 0) && |labels| == 14
    ensures !Hosts.CpusPartitioned(worlds[14].host) && !FittedAt(worlds, labels, 13)
  {
    labels := Overlap(request, process, error);
    worlds := OverlapWorlds(labels);
    OverlapCrosses(request, process, error);
    forall n: nat ensures StepAt(worlds, labels, n) { OverlapSteps(labels, n); }
    LastCall(labels);
    SpareIsSound();
    Hosts.InvariantMeans(SpareHost());
    MoveRuns();
  }
}
