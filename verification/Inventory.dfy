/** Snapshot assembly and the generation that versions it. */
module Inventory {
  import opened Prelude
  import opened Snapshots
  import opened Lifecycle
  import Placement
  import opened Sorting
  import Pools = ResourcePools

  datatype HostCapability =
    | MultikernelSupport | LifecycleSupport | TransactionSupport | DynamicSupport
    | ConsoleSupport | SharedMemorySupport | DeviceSupport

  datatype LinuxObservation = LinuxObservation(
    kernelRelease: string, capabilities: seq<HostCapability>, architecture: string,
    cpus: seq<Cpu>, numaNodes: seq<NumaNode>, totalBytes: U64)

  datatype LifecycleState = ReadyState | LoadedState | ActiveState

  datatype InstanceObservation = InstanceObservation(
    id: U32, name: string, state: LifecycleState, cpus: seq<U32>, memoryBase: U64, memoryBytes: U64,
    devices: seq<PciDevice>, imagePresent: bool)

  datatype PoolObservation = PoolObservation(
    cpus: seq<U32>, availableCpus: seq<U32>, regions: seq<MemoryRegion>, devices: seq<PciDevice>)

  datatype HostObservations = HostObservations(
    linux: LinuxObservation, pool: PoolObservation, instances: seq<InstanceObservation>, transactions: seq<Transaction>)

  // -------------------------------------------------------- device collection

  /** `BTreeMap::insert` keyed by PCI ID: ordered, and a later entry replaces an earlier one. */
  function Put(devices: seq<PciDevice>, d: PciDevice): seq<PciDevice> {
    if devices == [] then [d]
    else if devices[0].pciId == d.pciId then [d] + devices[1..]
    else if Before(d.pciId, devices[0].pciId) then [d] + devices
    else [devices[0]] + Put(devices[1..], d)
  }

  function Collect(devices: seq<PciDevice>): seq<PciDevice> {
    if devices == [] then [] else Put(Collect(devices[..|devices| - 1]), devices[|devices| - 1])
  }

  ghost predicate Ordered(devices: seq<PciDevice>) {
    forall i, j :: 0 <= i < j < |devices| ==> Before(devices[i].pciId, devices[j].pciId)
  }

  lemma {:induction false} PutMember(devices: seq<PciDevice>, d: PciDevice, e: PciDevice)
    requires e in Put(devices, d)
    ensures e == d || e in devices
  {
    if devices != [] && devices[0].pciId != d.pciId && !Before(d.pciId, devices[0].pciId) && e != devices[0] {
      assert e in Put(devices[1..], d);
      PutMember(devices[1..], d, e);
    }
  }

  lemma {:induction false} PutOrdered(devices: seq<PciDevice>, d: PciDevice)
    requires Ordered(devices)
    ensures Ordered(Put(devices, d))
  {
    if devices != [] {
      var first := devices[0].pciId;
      if first == d.pciId {
      } else if Before(d.pciId, first) {
        forall j | 0 <= j < |devices| ensures Before(d.pciId, devices[j].pciId) {
          BeforeIsStrictOrder(d.pciId, first, devices[j].pciId);
        }
      } else {
        var rest := Put(devices[1..], d);
        PutOrdered(devices[1..], d);
        BeforeIsStrictOrder(first, d.pciId, first);
        forall j | 0 <= j < |rest| ensures Before(first, rest[j].pciId) {
          PutMember(devices[1..], d, rest[j]);
        }
      }
    }
  }

  lemma {:induction false} DistinctHead(devices: seq<PciDevice>, id: string)
    requires devices != [] && forall j :: 0 < j < |devices| ==> devices[j].pciId != devices[0].pciId
    ensures Managed(devices, id) == if devices[0].pciId == id then Some(devices[0]) else Managed(devices[1..], id)
  {
    var n := |devices| - 1;
    if n > 0 {
      assert devices[..n][1..] == devices[1..][..n - 1];
      assert devices[1..][n - 1] == devices[n];
      if devices[n].pciId != id { DistinctHead(devices[..n], id); }
    }
  }

  lemma ManagedHead(devices: seq<PciDevice>, id: string)
    requires devices != [] && Ordered(devices)
    ensures Managed(devices, id) == if devices[0].pciId == id then Some(devices[0]) else Managed(devices[1..], id)
  {
    forall j | 0 < j < |devices| ensures devices[j].pciId != devices[0].pciId {
      BeforeIsStrictOrder(devices[0].pciId, devices[j].pciId, devices[0].pciId);
    }
    DistinctHead(devices, id);
  }

  lemma {:induction false} PutLookup(devices: seq<PciDevice>, d: PciDevice, id: string)
    requires Ordered(devices)
    ensures Managed(Put(devices, d), id) == if d.pciId == id then Some(d) else Managed(devices, id)
  {
    var put := Put(devices, d);
    PutOrdered(devices, d);
    ManagedHead(put, id);
    if devices == [] {
    } else {
      ManagedHead(devices, id);
      if devices[0].pciId == d.pciId {
        assert put[1..] == devices[1..];
      } else if Before(d.pciId, devices[0].pciId) {
        assert put[1..] == devices;
      } else {
        assert put[1..] == Put(devices[1..], d);
        PutLookup(devices[1..], d, id);
      }
    }
  }

  /** Collecting through the ordered map neither loses a device nor changes which entry a PCI ID resolves to. */
  lemma {:induction false} CollectLookup(devices: seq<PciDevice>, id: string)
    ensures Ordered(Collect(devices))
    ensures Managed(Collect(devices), id) == Managed(devices, id)
  {
    if devices != [] {
      var n := |devices| - 1;
      CollectLookup(devices[..n], id);
      PutOrdered(Collect(devices[..n]), devices[n]);
      PutLookup(Collect(devices[..n]), devices[n], id);
    }
  }

  // ----------------------------------------------------------------- assembly

  function InstanceDevices(instances: seq<InstanceObservation>): seq<PciDevice> {
    if instances == [] then []
    else InstanceDevices(instances[..|instances| - 1]) + instances[|instances| - 1].devices
  }

  function PciIds(devices: seq<PciDevice>): seq<string> {
    seq(|devices|, i requires 0 <= i < |devices| => devices[i].pciId)
  }

  function MapState(s: LifecycleState): InstanceState {
    match s
    case ReadyState => Ready
    case LoadedState => Loaded
    case ActiveState => Active
  }

  function MapCapability(c: HostCapability): Capability {
    match c
    case MultikernelSupport => Multikernel
    case LifecycleSupport => InstanceLifecycle
    case TransactionSupport => TransactionRollback
    case DynamicSupport => DynamicResources
    case ConsoleSupport => Console
    case SharedMemorySupport => SharedMemory
    case DeviceSupport => DeviceAssignment
  }

  function MapInstance(generation: U64, i: InstanceObservation): Instance {
    Instance(i.id, i.name, generation, MapState(i.state),
             Allocation(i.cpus, Some(i.memoryBase), i.memoryBytes, PciIds(i.devices)), i.imagePresent)
  }

  function MapInstances(generation: U64, instances: seq<InstanceObservation>): seq<Instance> {
    seq(|instances|, k requires 0 <= k < |instances| => MapInstance(generation, instances[k]))
  }

  function MapPool(o: HostObservations): ResourcePool {
    ResourcePool(o.pool.cpus, o.pool.availableCpus, o.pool.regions,
                 Collect(o.pool.devices + InstanceDevices(o.instances)), PciIds(o.pool.devices))
  }

  function Assemble(generation: U64, o: HostObservations): HostSnapshot {
    var instances := MapInstances(generation, o.instances);
    var poolBytes := WrappingTotal(RegionBytes(o.pool.regions));
    HostSnapshot(
      generation, Healthy, [],
      KernelInfo(o.linux.kernelRelease, MultikernelSupport in o.linux.capabilities),
      seq(|o.linux.capabilities|, i requires 0 <= i < |o.linux.capabilities| => MapCapability(o.linux.capabilities[i])),
      CpuTopology(o.linux.architecture,
                  seq(|o.linux.cpus|, i requires 0 <= i < |o.linux.cpus| => o.linux.cpus[i].(online := true)),
                  o.linux.numaNodes),
      HostMemory(SaturatingAdd(o.linux.totalBytes, poolBytes), o.linux.totalBytes, poolBytes,
                 WrappingTotal(AssignedBytes(instances))),
      MapPool(o), instances, o.transactions)
  }

  /** What an instance is observed as and how the snapshot shows it. */
  ghost predicate ShowsInstance(o: InstanceObservation, i: Instance) {
    && i.id == o.id && i.name == o.name && i.imagePresent == o.imagePresent
    && (i.state == Ready <==> o.state == ReadyState)
    && (i.state == Loaded <==> o.state == LoadedState)
    && (i.state == Active <==> o.state == ActiveState)
    && i.resources.cpus == o.cpus && i.resources.memoryBytes == o.memoryBytes && i.resources.memoryBase == Some(o.memoryBase)
    && NamesOf(o.devices, i.resources.devices)
  }

  ghost predicate NamesOf(devices: seq<PciDevice>, names: seq<string>) {
    |names| == |devices| && forall k :: 0 <= k < |names| ==> names[k] == devices[k].pciId
  }

  /** What each host capability is called in the management API. */
  ghost predicate Called(c: HostCapability, d: Capability) {
    (c, d) in {(MultikernelSupport, Multikernel), (LifecycleSupport, InstanceLifecycle), (DynamicSupport, DynamicResources),
               (TransactionSupport, TransactionRollback), (ConsoleSupport, Console), (DeviceSupport, DeviceAssignment),
               (SharedMemorySupport, SharedMemory)}
  }

  ghost predicate ShowsPool(o: HostObservations, p: ResourcePool) {
    && p.cpus == o.pool.cpus && p.availableCpus == o.pool.availableCpus && p.regions == o.pool.regions
    && NamesOf(o.pool.devices, p.availableDevices)
    && forall id :: Managed(p.devices, id) == Managed(o.pool.devices + InstanceDevices(o.instances), id)
  }

  ghost predicate ShowsTopology(o: LinuxObservation, t: CpuTopology) {
    && t.architecture == o.architecture && t.numaNodes == o.numaNodes && |t.cpus| == |o.cpus|
    && forall k :: 0 <= k < |t.cpus| ==>
         t.cpus[k].online && t.cpus[k].hardwareId == o.cpus[k].hardwareId && t.cpus[k] == o.cpus[k].(online := true)
  }

  ghost predicate ShowsMemory(o: HostObservations, m: HostMemory, instances: seq<Instance>) {
    && m.hostReservedBytes == o.linux.totalBytes
    && m.assignableBytes == RegionBytes(o.pool.regions) % (U64_MAX + 1)
    && m.assignedBytes == AssignedBytes(instances) % (U64_MAX + 1)
    && m.totalBytes == if o.linux.totalBytes + m.assignableBytes <= U64_MAX
                       then o.linux.totalBytes + m.assignableBytes else U64_MAX
  }

  /** A healthy snapshot shows what was observed, and is stamped with its generation throughout. */
  lemma AssembledShows(generation: U64, o: HostObservations)
    ensures var s := Assemble(generation, o);
      && s.generation == generation && s.health == Healthy && s.diagnostics == [] && s.transactions == o.transactions
      && s.kernel.release == o.linux.kernelRelease
      && (s.kernel.multikernelEnabled <==> MultikernelSupport in o.linux.capabilities)
      && |s.capabilities| == |o.linux.capabilities|
      && (forall k :: 0 <= k < |s.capabilities| ==> Called(o.linux.capabilities[k], s.capabilities[k]))
      && ShowsTopology(o.linux, s.topology) && ShowsPool(o, s.pool) && ShowsMemory(o, s.memory, s.instances)
      && |s.instances| == |o.instances|
      && forall k :: 0 <= k < |s.instances| ==>
           s.instances[k].generation == generation && ShowsInstance(o.instances[k], s.instances[k])
  {
    var s := Assemble(generation, o);
    assert ShowsPool(o, s.pool) by {
      forall id ensures Managed(s.pool.devices, id) == Managed(o.pool.devices + InstanceDevices(o.instances), id) {
        CollectLookup(o.pool.devices + InstanceDevices(o.instances), id);
      }
    }
  }

  /** Every device an instance or the pool reports is managed in the assembled snapshot. */
  lemma AssembledDevicesAreManaged(generation: U64, o: HostObservations, id: string)
    ensures var s := Assemble(generation, o);
      (id in s.pool.availableDevices || exists i :: i in s.instances && id in i.resources.devices) ==>
        Managed(s.pool.devices, id).Some?
  {
    var s := Assemble(generation, o);
    var all := o.pool.devices + InstanceDevices(o.instances);
    CollectLookup(all, id);
    if id in s.pool.availableDevices {
      var k :| 0 <= k < |o.pool.devices| && PciIds(o.pool.devices)[k] == id;
      assert all[k] in all && all[k].pciId == id;
    }
    if i :| i in s.instances && id in i.resources.devices {
      var k :| 0 <= k < |s.instances| && s.instances[k] == i;
      var d :| 0 <= d < |o.instances[k].devices| && PciIds(o.instances[k].devices)[d] == id;
      InstanceDevicesContain(o.instances, k, o.instances[k].devices[d]);
      assert o.instances[k].devices[d] in all;
    }
  }

  lemma {:induction false} InstanceDevicesContain(instances: seq<InstanceObservation>, k: nat, d: PciDevice)
    requires k < |instances| && d in instances[k].devices
    ensures d in InstanceDevices(instances)
  {
    var n := |instances| - 1;
    if k < n { InstanceDevicesContain(instances[..n], k, d); }
  }

  // --------------------------------------------------------------- generations

  /** NUMA free memory does not count as a change. */
  function RelevantNodes(nodes: seq<NumaNode>): seq<NumaNode> {
    seq(|nodes|, i requires 0 <= i < |nodes| => nodes[i].(availableBytes := 0))
  }

  function Relevant(s: HostSnapshot): HostSnapshot {
    s.(topology := s.topology.(numaNodes := RelevantNodes(s.topology.numaNodes)))
  }

  predicate SameNode(a: NumaNode, b: NumaNode) {
    a.id == b.id && a.logicalCpuIds == b.logicalCpuIds && a.totalBytes == b.totalBytes
  }

  /** Equal in what counts: everything but the free memory of the NUMA nodes. */
  lemma RelevantIff(a: HostSnapshot, b: HostSnapshot)
    ensures Relevant(a) == Relevant(b) <==>
      && a.(topology := a.topology.(numaNodes := [])) == b.(topology := b.topology.(numaNodes := []))
      && |a.topology.numaNodes| == |b.topology.numaNodes|
      && forall k :: 0 <= k < |a.topology.numaNodes| ==> SameNode(a.topology.numaNodes[k], b.topology.numaNodes[k])
  {
    var p, q := a.topology.numaNodes, b.topology.numaNodes;
    if Relevant(a) == Relevant(b) {
      assert RelevantNodes(p) == RelevantNodes(q);
      forall k | 0 <= k < |p| ensures SameNode(p[k], q[k]) { assert RelevantNodes(p)[k] == RelevantNodes(q)[k]; }
      assert a.(topology := a.topology.(numaNodes := [])) == Relevant(a).(topology := Relevant(a).topology.(numaNodes := []));
      assert b.(topology := b.topology.(numaNodes := [])) == Relevant(b).(topology := Relevant(b).topology.(numaNodes := []));
    } else if |p| == |q| && forall k :: 0 <= k < |p| ==> SameNode(p[k], q[k]) {
      assert RelevantNodes(p) == RelevantNodes(q);
    }
  }

  method GenerationRelevantState(s: HostSnapshot) returns (r: HostSnapshot)
    ensures r == Relevant(s)
  {
    var nodes := s.topology.numaNodes;
    for i := 0 to |nodes|
      invariant |nodes| == |s.topology.numaNodes|
      invariant forall k :: 0 <= k < i ==> nodes[k] == s.topology.numaNodes[k].(availableBytes := 0)
      invariant forall k :: i <= k < |nodes| ==> nodes[k] == s.topology.numaNodes[k]
    {
      nodes := nodes[i := nodes[i].(availableBytes := 0)];
    }
    assert nodes == RelevantNodes(s.topology.numaNodes);
    r := s.(topology := s.topology.(numaNodes := nodes));
  }

  const UNAVAILABLE := Diagnostic("inventory_unavailable", DiagnosticSeverity.Error)

  /** One refresh: the snapshot retained afterwards and the one returned; no observation means the source failed. */
  function Refreshed(current: Option<HostSnapshot>, o: Option<HostObservations>):
    (r: (Option<HostSnapshot>, Option<HostSnapshot>))
  {
    match o
    case None =>
      (current,
       if current.None? then None
       else Some(current.value.(health := Indeterminate, diagnostics := [UNAVAILABLE])))
    case Some(seen) =>
      var next :=
        if current.None? then Assemble(1, seen)
        else
          var same := Assemble(current.value.generation, seen);
          if Relevant(same) == Relevant(current.value) then same
          else Assemble(SaturatingAdd(current.value.generation, 1), seen);
      (Some(next), Some(next))
  }

  /** Stateful snapshot builder that preserves generations for unchanged state. */
  class InventoryService {
    var current: Option<HostSnapshot>

    constructor ()
      ensures current == None
    {
      current := None;
    }

    method Refresh(o: Option<HostObservations>) returns (r: Option<HostSnapshot>)
      modifies this
      ensures (current, r) == Refreshed(old(current), o)
    {
      if o.None? {
        if current.None? { return None; }
        return Some(current.value.(health := Indeterminate, diagnostics := [UNAVAILABLE]));
      }
      if current.Some? {
        var same := Assemble(current.value.generation, o.value);
        var fresh' := GenerationRelevantState(same);
        var kept := GenerationRelevantState(current.value);
        if fresh' == kept {
          current := Some(same);
          return current;
        }
        current := Some(Assemble(SaturatingAdd(current.value.generation, 1), o.value));
        return current;
      }
      current := Some(Assemble(1, o.value));
      return current;
    }
  }

  // ---------------------------------------------------------------- all runs

  type Trace = seq<Option<HostObservations>>

  function CurrentAfter(trace: Trace): Option<HostSnapshot> {
    if trace == [] then None else Refreshed(CurrentAfter(trace[..|trace| - 1]), trace[|trace| - 1]).0
  }

  function Returned(trace: Trace, i: nat): Option<HostSnapshot>
    requires i < |trace|
  {
    Refreshed(CurrentAfter(trace[..i]), trace[i]).1
  }

  /** Everything a generation stands for: all but NUMA free memory, health and diagnostics. */
  function Essence(s: HostSnapshot): HostSnapshot {
    Relevant(s).(health := Healthy, diagnostics := [])
  }

  /** A change is observed while the generation counter cannot advance. */
  predicate ExhaustedAt(trace: Trace, i: nat)
    requires i < |trace|
  {
    var current := CurrentAfter(trace[..i]);
    && current.Some? && current.value.generation == U64_MAX && trace[i].Some?
    && Relevant(Assemble(U64_MAX, trace[i].value)) != Relevant(current.value)
  }

  /** Snapshots returned with equal generations agree on everything the generation stands for. */
  ghost predicate Faithful(trace: Trace) {
    forall i, j {:trigger Returned(trace, i), Returned(trace, j)} ::
      0 <= i < |trace| && 0 <= j < |trace| && Returned(trace, i).Some? && Returned(trace, j).Some?
      && Returned(trace, i).value.generation == Returned(trace, j).value.generation
      ==> Essence(Returned(trace, i).value) == Essence(Returned(trace, j).value)
  }

  // ------------------------------------------------------- what a refresh returns

  /** The last successful observation. */
  function LastSeen(trace: Trace): Option<HostObservations> {
    if trace == [] then None
    else if trace[|trace| - 1].Some? then trace[|trace| - 1] else LastSeen(trace[..|trace| - 1])
  }

  /** Two observations that differ in more than NUMA free memory. */
  predicate Differ(o: HostObservations, p: HostObservations) {
    Relevant(Assemble(1, o)) != Relevant(Assemble(1, p))
  }

  /** How often a successful observation differed from the successful one before it. */
  function Changes(trace: Trace): nat {
    if trace == [] then 0
    else
      var n := |trace| - 1;
      var last := LastSeen(trace[..n]);
      Changes(trace[..n]) + if trace[n].Some? && last.Some? && Differ(trace[n].value, last.value) then 1 else 0
  }

  /** Changes counted from 1 on, up to the last generation. */
  function Counted(changes: nat): U64 {
    if changes < U64_MAX then 1 + changes else U64_MAX
  }

  function Stamped(generation: U64, instances: seq<Instance>): seq<Instance> {
    seq(|instances|, k requires 0 <= k < |instances| => instances[k].(generation := generation))
  }

  /** Only the stamps differ between generations. */
  lemma Restamped(g: U64, h: U64, o: HostObservations)
    ensures Relevant(Assemble(h, o)) ==
            Relevant(Assemble(g, o)).(generation := h, instances := Stamped(h, Relevant(Assemble(g, o)).instances))
  {
    var a, b := Relevant(Assemble(g, o)), Relevant(Assemble(h, o));
    assert b.instances == Stamped(h, a.instances);
    SameBytes(a.instances, b.instances);
  }

  lemma {:induction false} SameBytes(a: seq<Instance>, b: seq<Instance>)
    requires |a| == |b| && forall k :: 0 <= k < |a| ==> a[k].resources == b[k].resources
    ensures AssignedBytes(a) == AssignedBytes(b)
  {
    if a != [] { SameBytes(a[..|a| - 1], b[..|b| - 1]); }
  }

  lemma DifferAtAny(g: U64, o: HostObservations, p: HostObservations)
    ensures Relevant(Assemble(g, o)) != Relevant(Assemble(g, p)) <==> Differ(o, p)
  {
    Restamped(1, g, o);
    Restamped(1, g, p);
    Restamped(g, 1, o);
    Restamped(g, 1, p);
  }

  /**
   The retained snapshot in closed form: it shows the last successful observation, under a generation that counts the
   changes seen, no more and no fewer.
   */
  lemma {:induction false} RetainedIs(trace: Trace)
    ensures CurrentAfter(trace) ==
            match LastSeen(trace) case None => None case Some(o) => Some(Assemble(Counted(Changes(trace)), o))
    ensures LastSeen(trace).None? ==> Changes(trace) == 0
  {
    if trace != [] {
      var n := |trace| - 1;
      RetainedIs(trace[..n]);
      var last := LastSeen(trace[..n]);
      if trace[n].Some? && last.Some? {
        DifferAtAny(Counted(Changes(trace[..n])), trace[n].value, last.value);
      }
    }
  }

  /**
   What a refresh returns: nothing before the first success; the observation itself, healthy, when it succeeds; and the
   last success marked as indeterminate when it fails.
   */
  lemma ReturnedIs(trace: Trace, i: nat)
    requires i < |trace|
    ensures Returned(trace, i).None? <==> forall k :: 0 <= k <= i ==> trace[k].None?
    ensures trace[i].Some? ==> Returned(trace, i) == Some(Assemble(Counted(Changes(trace[..i + 1])), trace[i].value))
    ensures Returned(trace, i).Some? && trace[i].None? ==>
      && LastSeen(trace[..i]).Some?
      && Returned(trace, i).value ==
           Assemble(Counted(Changes(trace[..i])), LastSeen(trace[..i]).value)
             .(health := Indeterminate, diagnostics := [Diagnostic("inventory_unavailable", DiagnosticSeverity.Error)])
    ensures Returned(trace, i).Some? ==> (Returned(trace, i).value.health == Healthy <==> trace[i].Some?)
  {
    assert trace[..i + 1][..i] == trace[..i];
    RetainedIs(trace[..i]);
    RetainedIs(trace[..i + 1]);
    NothingSeen(trace[..i]);
  }

  lemma {:induction false} NothingSeen(trace: Trace)
    ensures LastSeen(trace).None? <==> forall k :: 0 <= k < |trace| ==> trace[k].None?
  {
    if trace != [] {
      NothingSeen(trace[..|trace| - 1]);
      assert trace == trace[..|trace| - 1] + [trace[|trace| - 1]];
    }
  }

  // ------------------------------------------------------------- generations

  lemma CurrentIsAssembled(trace: Trace)
    ensures CurrentAfter(trace).Some? ==>
      CurrentAfter(trace).value.health == Healthy && CurrentAfter(trace).value.diagnostics == []
  {
    if trace != [] { CurrentIsAssembled(trace[..|trace| - 1]); }
  }

  /** The retained snapshot always stands for what was returned last. */
  lemma ReturnedIsCurrent(trace: Trace, i: nat)
    requires i < |trace|
    ensures Returned(trace, i).Some? <==> CurrentAfter(trace[..i + 1]).Some?
    ensures Returned(trace, i).Some? ==>
      && Returned(trace, i).value.generation == CurrentAfter(trace[..i + 1]).value.generation
      && Essence(Returned(trace, i).value) == Essence(CurrentAfter(trace[..i + 1]).value)
  {
    assert trace[..i + 1][..i] == trace[..i];
  }

  /** One refresh keeps the generation and its meaning, or moves to the next generation. */
  lemma RefreshStep(trace: Trace, i: nat)
    requires i < |trace| && CurrentAfter(trace[..i]).Some?
    ensures var c, d := CurrentAfter(trace[..i]), CurrentAfter(trace[..i + 1]);
      && d.Some?
      && if ExhaustedAt(trace, i) then d.value.generation == U64_MAX && Essence(d.value) != Essence(c.value)
         else || (d.value.generation == c.value.generation && Essence(d.value) == Essence(c.value))
              || d.value.generation == c.value.generation + 1
  {
    assert trace[..i + 1][..i] == trace[..i];
    CurrentIsAssembled(trace[..i]);
  }

  lemma {:induction false} GenerationNeverFalls(trace: Trace, i: nat, j: nat)
    requires i <= j <= |trace| && CurrentAfter(trace[..i]).Some?
    ensures CurrentAfter(trace[..j]).Some?
    ensures CurrentAfter(trace[..i]).value.generation <= CurrentAfter(trace[..j]).value.generation
    decreases j - i
  {
    if i < j {
      RefreshStep(trace, i);
      GenerationNeverFalls(trace, i + 1, j);
    }
  }

  lemma {:induction false} SameGenerationSameEssence(trace: Trace, i: nat, j: nat)
    requires i <= j <= |trace| && CurrentAfter(trace[..i]).Some? && CurrentAfter(trace[..j]).Some?
    requires CurrentAfter(trace[..i]).value.generation == CurrentAfter(trace[..j]).value.generation
    requires forall k :: i <= k < j ==> !ExhaustedAt(trace, k)
    ensures Essence(CurrentAfter(trace[..i]).value) == Essence(CurrentAfter(trace[..j]).value)
    decreases j - i
  {
    if i < j {
      RefreshStep(trace, i);
      assert !ExhaustedAt(trace, i);
      GenerationNeverFalls(trace, i + 1, j);
      SameGenerationSameEssence(trace, i + 1, j);
    }
  }

  /** The refresh that produced the retained snapshot. */
  lemma {:induction false} LastSuccess(trace: Trace, i: nat) returns (k: nat)
    requires i <= |trace| && CurrentAfter(trace[..i]).Some?
    ensures k < i && Returned(trace, k) == CurrentAfter(trace[..i])
  {
    assert i > 0 && trace[..i][..i - 1] == trace[..i - 1];
    if trace[i - 1].Some? { k := i - 1; } else { k := LastSuccess(trace, i - 1); }
  }

  /** Along any run returned generations never fall and rise by at most one per refresh. */
  lemma GenerationsStep(trace: Trace, i: nat)
    requires i + 1 < |trace| && Returned(trace, i).Some?
    ensures Returned(trace, i + 1).Some?
    ensures Returned(trace, i).value.generation
         <= Returned(trace, i + 1).value.generation
         <= Returned(trace, i).value.generation + 1
  {
    ReturnedIsCurrent(trace, i);
    ReturnedIsCurrent(trace, i + 1);
    RefreshStep(trace, i + 1);
  }

  lemma CurrentBounded(trace: Trace)
    ensures CurrentAfter(trace).Some? ==> 1 <= CurrentAfter(trace).value.generation <= |trace|
  {
    if trace != [] { CurrentBounded(trace[..|trace| - 1]); }
  }

  lemma FaithfulPair(trace: Trace, i: nat, j: nat)
    requires forall k :: 0 <= k < |trace| ==> !ExhaustedAt(trace, k)
    requires i <= j < |trace| && Returned(trace, i).Some? && Returned(trace, j).Some?
    requires Returned(trace, i).value.generation == Returned(trace, j).value.generation
    ensures Essence(Returned(trace, i).value) == Essence(Returned(trace, j).value)
  {
    ReturnedIsCurrent(trace, i);
    ReturnedIsCurrent(trace, j);
    SameGenerationSameEssence(trace, i + 1, j + 1);
  }

  /** A change seen at the last generation is returned under a generation that stood for something else. */
  lemma ExhaustedIsUnfaithful(trace: Trace, i: nat)
    requires i < |trace| && ExhaustedAt(trace, i)
    ensures !Faithful(trace)
  {
    var k := LastSuccess(trace, i);
    RefreshStep(trace, i);
    ReturnedIsCurrent(trace, i);
    ReturnedIsCurrent(trace, k);
    assert Essence(Returned(trace, k).value) != Essence(Returned(trace, i).value);
  }

  /** The generation is a faithful version tag exactly when no change is observed at the last generation. */
  lemma FaithfulIff(trace: Trace)
    ensures Faithful(trace) <==> forall i :: 0 <= i < |trace| ==> !ExhaustedAt(trace, i)
  {
    if i :| 0 <= i < |trace| && ExhaustedAt(trace, i) {
      ExhaustedIsUnfaithful(trace, i);
    } else {
      forall i, j | 0 <= i < |trace| && 0 <= j < |trace| && Returned(trace, i).Some? && Returned(trace, j).Some?
        && Returned(trace, i).value.generation == Returned(trace, j).value.generation
        ensures Essence(Returned(trace, i).value) == Essence(Returned(trace, j).value)
      {
        if i <= j { FaithfulPair(trace, i, j); } else { FaithfulPair(trace, j, i); }
      }
    }
  }

  /** A run of fewer than 2^64 - 1 refreshes never gets there. */
  lemma FaithfulForPracticalRuns(trace: Trace)
    requires |trace| < U64_MAX
    ensures Faithful(trace)
  {
    forall i | 0 <= i < |trace| ensures !ExhaustedAt(trace, i) {
      CurrentBounded(trace[..i]);
    }
    FaithfulIff(trace);
  }

  /** A host whose kernel release alternates between two observations. */
  function Seen(odd: bool): HostObservations {
    HostObservations(LinuxObservation(if odd then "odd" else "even", [], "", [], [], 0), PoolObservation([], [], [], []), [], [])
  }

  function Alternating(n: nat): (trace: Trace)
    ensures |trace| == n && forall i :: 0 <= i < n ==> trace[i] == Some(Seen(i % 2 == 1))
  {
    seq(n, i => Some(Seen(i % 2 == 1)))
  }

  lemma AlternatingPrefix(n: nat, k: nat)
    requires k <= n
    ensures Alternating(n)[..k] == Alternating(k)
  {
  }

  lemma SeenDiffers(generation: U64, a: bool, b: bool)
    ensures Relevant(Assemble(generation, Seen(a))) == Relevant(Assemble(generation, Seen(b))) <==> a == b
  {
    assert Assemble(generation, Seen(a)).kernel.release == if a then "odd" else "even";
    assert Assemble(generation, Seen(b)).kernel.release == if b then "odd" else "even";
    assert "odd"[0] != "even"[0];
  }

  /** Each alternation is a change, so the generation counts the refreshes until it cannot. */
  lemma {:induction false} AlternatingCounts(n: nat)
    requires 1 <= n <= U64_MAX
    ensures CurrentAfter(Alternating(n)) == Some(Assemble(n, Seen(n % 2 == 0)))
  {
    AlternatingPrefix(n, n - 1);
    if n > 1 {
      AlternatingCounts(n - 1);
      SeenDiffers(n - 1, (n - 1) % 2 == 0, n % 2 == 0);
    }
  }

  /** A run that uses the generations up: two different states are then returned under the last one. */
  lemma SaturationExample()
    ensures ExhaustedAt(Alternating(U64_MAX + 1), U64_MAX) && !Faithful(Alternating(U64_MAX + 1))
  {
    var trace := Alternating(U64_MAX + 1);
    AlternatingPrefix(U64_MAX + 1, U64_MAX);
    AlternatingCounts(U64_MAX);
    SeenDiffers(U64_MAX, U64_MAX % 2 == 0, U64_MAX % 2 == 1);
    assert ExhaustedAt(trace, U64_MAX);
    FaithfulIff(trace);
  }

  // ------------------------------------------------- planning on equal versions

  lemma {:induction false} InstanceCpuErrorSame(a: HostSnapshot, b: HostSnapshot, cpus: seq<U32>, own: seq<U32>)
    requires a.pool == b.pool
    ensures Placement.InstanceCpuError(a, cpus, own) == Placement.InstanceCpuError(b, cpus, own)
  {
    if cpus != [] { InstanceCpuErrorSame(a, b, cpus[1..], own); }
  }

  lemma {:induction false} DeviceScanSame(a: HostSnapshot, b: HostSnapshot, i: Instance, all: set<string>, d: seq<string>)
    requires a.pool == b.pool
    ensures DeviceScan(a, i, all, d) == DeviceScan(b, i, all, d)
  {
    if d != [] { DeviceScanSame(a, b, i, all, d[1..]); }
  }

  lemma UpdateErrorSame(r: LifecycleRequest, a: HostSnapshot, b: HostSnapshot, i: Instance)
    requires r.Update? && a.pool == b.pool && a.instances == b.instances
    ensures UpdateError(r, a, i) == UpdateError(r, b, i)
  {
    if r.newCpus.Some? { InstanceCpuErrorSame(a, b, r.newCpus.value, i.resources.cpus); }
    if r.newDevices.Some? { DeviceScanSame(a, b, i, Elements(r.newDevices.value), r.newDevices.value); }
    assert r.newMemory.Some? ==> UpdateMemoryError(a, i, r.newMemory.value) == UpdateMemoryError(b, i, r.newMemory.value);
    assert r.newDevices.Some? ==>
      UpdateDevicesError(a, i, r.newDevices.value) == UpdateDevicesError(b, i, r.newDevices.value);
  }

  lemma CreateSame(r: LifecycleRequest, a: HostSnapshot, b: HostSnapshot)
    requires r.Create? && a.pool == b.pool && a.instances == b.instances
    ensures PlanCreate(r, a) == PlanCreate(r, b)
  {
    InstanceCpuErrorSame(a, b, r.cpus, []);
    assert CreateMemoryError(a, r.memoryBytes) == CreateMemoryError(b, r.memoryBytes);
  }

  lemma UpdateSame(r: LifecycleRequest, a: HostSnapshot, b: HostSnapshot)
    requires r.Update? && a.pool == b.pool && a.instances == b.instances
    ensures PlanUpdate(r, a) == PlanUpdate(r, b)
  {
    var k := RequireInstance(a, r.instance.id, Ready);
    if k.Ok? { UpdateErrorSame(r, a, b, a.instances[k.value]); }
  }

  /** Planning sees nothing but what the generation stands for. */
  lemma PlanReadsEssence(r: LifecycleRequest, a: HostSnapshot, b: HostSnapshot)
    requires Essence(a) == Essence(b)
    ensures Plan(r, a) == Plan(r, b)
  {
    assert a.pool == Essence(a).pool == b.pool;
    assert a.instances == Essence(a).instances == b.instances;
    assert a.generation == Essence(a).generation == b.generation;
    if r.Create? {
      CreateSame(r, a, b);
    } else if r.Update? {
      UpdateSame(r, a, b);
    } else {
      assert forall q :: RequireInstance(a, r.instance.id, q) == RequireInstance(b, r.instance.id, q);
    }
  }

  /** So a generation-stamped request gets one answer, whichever equally stamped snapshot it is planned on. */
  lemma EqualGenerationsPlanAlike(trace: Trace, i: nat, j: nat, r: LifecycleRequest)
    requires Faithful(trace) && i < |trace| && j < |trace|
    requires Returned(trace, i).Some? && Returned(trace, j).Some?
    requires Returned(trace, i).value.generation == Returned(trace, j).value.generation
    ensures Plan(r, Returned(trace, i).value) == Plan(r, Returned(trace, j).value)
  {
    PlanReadsEssence(r, Returned(trace, i).value, Returned(trace, j).value);
  }
}
