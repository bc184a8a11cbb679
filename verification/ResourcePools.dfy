/** Resource-pool planning and partial-application reconciliation. */
module ResourcePools {
  import opened Prelude
  import opened Snapshots
  import opened Placement
  import opened Sorting
  import Lifecycle

  datatype ResourcePoolRequest = ResourcePoolRequest(expectedGeneration: U64, cpus: seq<U32>, memoryBytes: U64)

  datatype ResourcePoolPlanError =
    | SnapshotIndeterminate
    | StaleGeneration(expected: U64, actual: U64)
    | DuplicateCpu
    | CpuPlacement(cpu: CpuPlacementError)
    | AssignedResourcesExcluded

  function AtMost(a: U32, b: U32): bool {
    a <= b
  }

  /** Every CPU some instance owns. */
  function AssignedCpus(instances: seq<Instance>): set<U32> {
    if instances == [] then {}
    else AssignedCpus(instances[..|instances| - 1]) + Elements(instances[|instances| - 1].resources.cpus)
  }

  lemma {:induction false} OwnCpusAssigned(instances: seq<Instance>, k: nat)
    requires k < |instances|
    ensures Elements(instances[k].resources.cpus) <= AssignedCpus(instances)
  {
    var n := |instances| - 1;
    if k < n { OwnCpusAssigned(instances[..n], k); }
  }

  lemma {:induction false} CpuOwner(instances: seq<Instance>, c: U32) returns (k: nat)
    requires c in AssignedCpus(instances)
    ensures k < |instances| && c in instances[k].resources.cpus
  {
    k := |instances| - 1;
    if c !in instances[k].resources.cpus { k := CpuOwner(instances[..k], c); }
  }

  /** The assigned total is summed without an overflow check. */
  function PlanPool(r: ResourcePoolRequest, s: HostSnapshot): Result<Lifecycle.KerfInvocation, ResourcePoolPlanError> {
    if s.health != Healthy then Err(SnapshotIndeterminate)
    else if r.expectedGeneration != s.generation then Err(StaleGeneration(r.expectedGeneration, s.generation))
    else if |Elements(r.cpus)| != |r.cpus| then Err(DuplicateCpu)
    else
      var error := PoolCpuError(s, r.cpus);
      if error.Some? then Err(CpuPlacement(error.value))
      else if (exists i :: i in s.instances && exists c :: c in i.resources.cpus && c !in r.cpus)
              || WrappingTotal(AssignedBytes(s.instances)) > r.memoryBytes
      then Err(AssignedResourcesExcluded)
      else
        var cpus := Sort(r.cpus, AtMost);
        Ok(Lifecycle.KerfInvocation(
             [Lifecycle.Verb(Lifecycle.InitCmd), Lifecycle.CpusOption(cpus), Lifecycle.MemoryOption(r.memoryBytes)],
             Lifecycle.ExpectPool(cpus, r.memoryBytes),
             true))
  }

  /** The command lists exactly the requested CPUs, in ascending order. */
  lemma PlannedCpusAreTheRequest(r: ResourcePoolRequest, s: HostSnapshot)
    requires PlanPool(r, s).Ok?
    ensures var cpus := PlanPool(r, s).value.expected.poolCpus;
      && Elements(cpus) == Elements(r.cpus)
      && Sorted(cpus, AtMost) && NoDuplicates(cpus)
      && AssignedCpus(s.instances) <= Elements(cpus)
  {
    var cpus := PlanPool(r, s).value.expected.poolCpus;
    SortSorts(r.cpus, AtMost);
    SameMultisetSameElements(cpus, r.cpus);
    ElementsCount(cpus);
    forall c | c in AssignedCpus(s.instances) ensures c in Elements(cpus) {
      var k := CpuOwner(s.instances, c);
      assert s.instances[k] in s.instances;
    }
  }

  // The source keeps each list as a vector drained from an ordered set; the set is what it stands for.
  datatype Transition = Transition(
    beforeCpus: set<U32>, requestedCpus: set<U32>, observedCpus: set<U32>,
    added: set<U32>, returned: set<U32>, beforeBytes: U64, requestedBytes: U64, observedBytes: U64)
  {
    predicate RequestReached() {
      requestedCpus == observedCpus && requestedBytes == observedBytes
    }

    predicate PartiallyApplied() {
      !RequestReached() && (beforeCpus != observedCpus || beforeBytes != observedBytes)
    }
  }

  function PoolTransition(r: ResourcePoolRequest, before: HostSnapshot, after: HostSnapshot): (t: Transition)
    ensures t.returned == t.added == {} <==> t.beforeCpus == t.observedCpus
    ensures (t.beforeCpus - t.returned) + t.added == t.observedCpus
  {
    var b, o := Elements(before.pool.cpus), Elements(after.pool.cpus);
    assert b - o == {} && o - b == {} ==> b == o by { assert b == (b - o) + (b * o) && o == (o - b) + (b * o); }
    Transition(b, Elements(r.cpus), o, o - b, b - o,
               WrappingTotal(RegionBytes(before.pool.regions)), r.memoryBytes,
               WrappingTotal(RegionBytes(after.pool.regions)))
  }
}
