/** Runs of a host under accepted plans, and what every state of every run keeps. */
module Hosts {
  import opened Prelude
  import opened Snapshots
  import opened Lifecycle
  import opened Kerf
  import Placement
  import Pools = ResourcePools

  ghost predicate LifecycleStep(r: LifecycleRequest, s: HostSnapshot, t: HostSnapshot) {
    Plan(r, s).Ok? && Kerf.Runs(Plan(r, s).value.arguments, s, t)
  }

  ghost predicate PoolStep(r: Pools.ResourcePoolRequest, s: HostSnapshot, t: HostSnapshot) {
    Pools.PlanPool(r, s).Ok? && Kerf.Runs(Pools.PlanPool(r, s).value.arguments, s, t)
  }

  /** Health, generation, topology or diagnostics change, or Kerf fails without effect. */
  ghost predicate QuietStep(s: HostSnapshot, t: HostSnapshot) {
    PoolKept(s, t) && Unmoved(s, t) && Reported(s, t)
  }

  ghost predicate Step(s: HostSnapshot, t: HostSnapshot) {
    || (exists r :: LifecycleStep(r, s, t))
    || (exists r :: PoolStep(r, s, t))
    || QuietStep(s, t)
  }

  ghost predicate StepAt(states: seq<HostSnapshot>, i: nat) {
    i + 1 < |states| ==> Step(states[i], states[i + 1])
  }

  ghost predicate Run(states: seq<HostSnapshot>) {
    forall i: nat :: StepAt(states, i)
  }

  // -------------------------------------------------------------- invariants

  predicate Distinct(a: Instance, b: Instance) {
    a.id != b.id && a.name != b.name
  }

  predicate CpusDisjoint(a: Instance, b: Instance) {
    Elements(a.resources.cpus) !! Elements(b.resources.cpus)
  }

  predicate DevicesDisjoint(a: Instance, b: Instance) {
    Elements(a.resources.devices) !! Elements(b.resources.devices)
  }

  /** An instance that owns a device owns every member of its IOMMU group. */
  ghost predicate GroupClosed(i: Instance, devices: seq<PciDevice>) {
    forall d :: d in i.resources.devices ==> OwnsWholeGroup(i, devices, d)
  }

  ghost predicate OwnsWholeGroup(i: Instance, devices: seq<PciDevice>, d: string) {
    var device := Managed(devices, d);
    && device.Some? && device.value.iommuGroup.Some?
    && forall m :: m in device.value.iommuGroupMembers ==> m in i.resources.devices
  }

  /** Unique identities, each range inside one region, ranges pairwise disjoint. */
  ghost predicate Isolated(s: HostSnapshot) {
    && AllPlaced(s)
    && (forall i, j {:trigger Distinct(s.instances[i], s.instances[j])} ::
          0 <= i < j < |s.instances| ==> Distinct(s.instances[i], s.instances[j]))
    && (forall i, j {:trigger Apart(s.instances[i], s.instances[j])} ::
          0 <= i < j < |s.instances| ==> Apart(s.instances[i], s.instances[j]))
  }

  /** The pool is the disjoint union of the available CPUs and every instance's CPUs. */
  ghost predicate CpusPartitioned(s: HostSnapshot) {
    && Elements(s.pool.cpus) == Elements(s.pool.availableCpus) + Pools.AssignedCpus(s.instances)
    && Elements(s.pool.availableCpus) !! Pools.AssignedCpus(s.instances)
    && forall i, j {:trigger CpusDisjoint(s.instances[i], s.instances[j])} ::
         0 <= i < j < |s.instances| ==> CpusDisjoint(s.instances[i], s.instances[j])
  }

  ghost predicate DevicesIsolated(s: HostSnapshot) {
    && (forall k {:trigger GroupClosed(s.instances[k], s.pool.devices)} ::
          0 <= k < |s.instances| ==> GroupClosed(s.instances[k], s.pool.devices))
    && (forall i, j {:trigger DevicesDisjoint(s.instances[i], s.instances[j])} ::
          0 <= i < j < |s.instances| ==> DevicesDisjoint(s.instances[i], s.instances[j]))
  }

  // The three invariants, regrouped by instance and by pair of instances.

  ghost predicate Sound(i: Instance, pool: ResourcePool) {
    && Placed(i, pool.regions)
    && Elements(i.resources.cpus) <= Elements(pool.cpus)
    && GroupClosed(i, pool.devices)
  }

  predicate Compatible(a: Instance, b: Instance) {
    Distinct(a, b) && Apart(a, b) && CpusDisjoint(a, b) && DevicesDisjoint(a, b)
  }

  ghost predicate AllSound(s: HostSnapshot) {
    forall k {:trigger Sound(s.instances[k], s.pool)} :: 0 <= k < |s.instances| ==> Sound(s.instances[k], s.pool)
  }

  ghost predicate AllCompatible(s: HostSnapshot) {
    forall i, j {:trigger Compatible(s.instances[i], s.instances[j])} ::
      0 <= i < j < |s.instances| ==> Compatible(s.instances[i], s.instances[j])
  }

  ghost predicate Invariant(s: HostSnapshot) {
    && AllSound(s) && AllCompatible(s)
    && Elements(s.pool.availableCpus) == Elements(s.pool.cpus) - Pools.AssignedCpus(s.instances)
  }

  lemma AssignedIn(s: HostSnapshot)
    requires AllSound(s)
    ensures Pools.AssignedCpus(s.instances) <= Elements(s.pool.cpus)
  {
    forall c | c in Pools.AssignedCpus(s.instances) ensures c in Elements(s.pool.cpus) {
      var k := Pools.CpuOwner(s.instances, c);
      assert Sound(s.instances[k], s.pool);
      assert c in Elements(s.instances[k].resources.cpus);
    }
  }

  /** An ID names at most one instance. */
  lemma OneInstance(s: HostSnapshot, i: nat, j: nat)
    requires Invariant(s) && i < |s.instances| && j < |s.instances|
    ensures s.instances[i].id == s.instances[j].id ==> i == j
  {
    assert i < j ==> Compatible(s.instances[i], s.instances[j]);
    assert j < i ==> Compatible(s.instances[j], s.instances[i]);
  }

  lemma InvariantMeans(s: HostSnapshot)
    ensures Invariant(s) <==> Isolated(s) && CpusPartitioned(s) && DevicesIsolated(s)
  {
    if Invariant(s) {
      AssignedIn(s);
      forall k | 0 <= k < |s.instances|
        ensures Placed(s.instances[k], s.pool.regions) && GroupClosed(s.instances[k], s.pool.devices)
      {
        assert Sound(s.instances[k], s.pool);
      }
      forall i, j | 0 <= i < j < |s.instances|
        ensures Distinct(s.instances[i], s.instances[j]) && Apart(s.instances[i], s.instances[j])
        ensures CpusDisjoint(s.instances[i], s.instances[j]) && DevicesDisjoint(s.instances[i], s.instances[j])
      {
        assert Compatible(s.instances[i], s.instances[j]);
      }
    }
    if Isolated(s) && CpusPartitioned(s) && DevicesIsolated(s) {
      forall k | 0 <= k < |s.instances| ensures Sound(s.instances[k], s.pool) {
        assert Placed(s.instances[k], s.pool.regions) && GroupClosed(s.instances[k], s.pool.devices);
        Pools.OwnCpusAssigned(s.instances, k);
      }
      forall i, j | 0 <= i < j < |s.instances| ensures Compatible(s.instances[i], s.instances[j]) {
        assert Distinct(s.instances[i], s.instances[j]) && Apart(s.instances[i], s.instances[j]);
        assert CpusDisjoint(s.instances[i], s.instances[j]) && DevicesDisjoint(s.instances[i], s.instances[j]);
      }
    }
  }

  // ------------------------------- commands that only keep or drop instances

  lemma EmbeddingKeeps(s: HostSnapshot, t: HostSnapshot, e: seq<nat>)
    requires AllSound(s) && AllCompatible(s)
    requires Embeds(s, t, e) && PoolKept(s, t) && Reported(s, t)
    ensures Invariant(t)
  {
    forall k | 0 <= k < |t.instances| ensures Sound(t.instances[k], t.pool) {
      assert e[k] < |s.instances| && Sound(s.instances[e[k]], s.pool);
      KeptSound(s.instances[e[k]], s.pool, t.instances[k], t.pool);
    }
    EmbeddingCompatible(s, t, e);
  }

  lemma EmbeddingCompatible(s: HostSnapshot, t: HostSnapshot, e: seq<nat>)
    requires AllCompatible(s) && Embeds(s, t, e)
    ensures AllCompatible(t)
  {
    forall i, j | 0 <= i < j < |t.instances| ensures Compatible(t.instances[i], t.instances[j]) {
      assert e[i] < e[j] && Compatible(s.instances[e[i]], s.instances[e[j]]);
      KeptCompatible(s.instances[e[i]], s.instances[e[j]], t.instances[i], t.instances[j]);
    }
  }

  lemma KeptCompatible(a: Instance, b: Instance, a': Instance, b': Instance)
    requires Compatible(a, b) && Kept(a, a') && Kept(b, b')
    ensures Compatible(a', b')
  {
  }

  lemma KeptSound(a: Instance, p: ResourcePool, b: Instance, q: ResourcePool)
    requires Sound(a, p) && Kept(a, b)
    requires q.cpus == p.cpus && q.regions == p.regions && q.devices == p.devices
    ensures Sound(b, q)
  {
    forall d | d in b.resources.devices ensures OwnsWholeGroup(b, q.devices, d) {
      assert OwnsWholeGroup(a, p.devices, d);
    }
  }

  lemma IdentityEmbedding(s: HostSnapshot, t: HostSnapshot) returns (e: seq<nat>)
    requires |t.instances| == |s.instances|
    requires forall k {:trigger Kept(s.instances[k], t.instances[k])} ::
      0 <= k < |s.instances| ==> Kept(s.instances[k], t.instances[k])
    ensures Embeds(s, t, e)
  {
    e := seq(|s.instances|, k => k);
    forall j | 0 <= j < |e| ensures e[j] < |s.instances| && Kept(s.instances[e[j]], t.instances[j]) {
      assert e[j] == j && Kept(s.instances[j], t.instances[j]);
    }
  }

  lemma UnmovedEmbedding(s: HostSnapshot, t: HostSnapshot) returns (e: seq<nat>)
    requires Unmoved(s, t)
    ensures Embeds(s, t, e)
  {
    forall k | 0 <= k < |s.instances| ensures Kept(s.instances[k], t.instances[k]) {
      assert Same(s.instances[k], t.instances[k]);
    }
    e := IdentityEmbedding(s, t);
  }

  lemma StateKeeps(arguments: seq<Argument>, to: InstanceState, s: HostSnapshot, t: HostSnapshot)
    requires Invariant(s) && StateEffect(arguments, to, s, t) && Reported(s, t)
    ensures Invariant(t)
  {
    forall k | 0 <= k < |s.instances| ensures Kept(s.instances[k], t.instances[k]) {
      assert StateOf(s.instances[k], arguments[1].id, to, t.instances[k]);
    }
    var e := IdentityEmbedding(s, t);
    EmbeddingKeeps(s, t, e);
  }

  lemma DeleteKeeps(arguments: seq<Argument>, s: HostSnapshot, t: HostSnapshot)
    requires Invariant(s) && DeleteEffect(arguments, s, t) && Reported(s, t)
    ensures Invariant(t)
  {
    var e :| RemainsAfterDelete(e, arguments[1].id, s, t);
    EmbeddingKeeps(s, t, e);
  }

  // ------------------------------------------------------------------ create

  /** A create is accepted exactly when its identity is new, its CPUs are free, and its memory fits in all and in one region. */
  lemma CreateAcceptedIff(r: LifecycleRequest, s: HostSnapshot)
    requires r.Create?
    ensures PlanCreate(r, s).Ok? <==>
      && ValidName(r.name) && ValidId(r.id) && r.cpus != [] && NoDuplicates(r.cpus)
      && Elements(r.cpus) <= Elements(s.pool.availableCpus)
      && (forall i :: i in s.instances ==> i.id != r.id && i.name != r.name)
      && 0 < r.memoryBytes && AssignedBytes(s.instances) + r.memoryBytes <= RegionBytes(s.pool.regions) <= U64_MAX
      && (exists g :: g in s.pool.regions && g.bytes >= r.memoryBytes)
  {
    ElementsCount(r.cpus);
    assert Elements<U32>([]) == {};
    assert Elements(s.pool.availableCpus) + {} == Elements(s.pool.availableCpus);
  }

  lemma CreateKeeps(r: LifecycleRequest, s: HostSnapshot, t: HostSnapshot)
    requires Invariant(s) && r.Create? && PlanCreate(r, s).Ok?
    requires CreateEffect(PlanCreate(r, s).value.arguments, s, t) && Reported(s, t)
    ensures Invariant(t)
  {
    var n := |s.instances|;
    var new' := t.instances[n];
    CreateArguments(r, s);
    assert Sound(new', t.pool);
    forall k | 0 <= k < n ensures Kept(s.instances[k], t.instances[k]) && Compatible(t.instances[k], new') {
      assert Same(s.instances[k], t.instances[k]) && Apart(s.instances[k], new');
      assert s.instances[k] in s.instances;
      Pools.OwnCpusAssigned(s.instances, k);
    }
    Extends(s, t);
  }

  /** One more sound and compatible instance. */
  lemma Extends(s: HostSnapshot, t: HostSnapshot)
    requires Invariant(s) && PoolKept(s, t) && Reported(s, t)
    requires |t.instances| == |s.instances| + 1
    requires Sound(t.instances[|s.instances|], t.pool)
    requires forall k {:trigger Kept(s.instances[k], t.instances[k])} ::
      0 <= k < |s.instances| ==> Kept(s.instances[k], t.instances[k])
    requires forall k {:trigger Compatible(t.instances[k], t.instances[|s.instances|])} ::
      0 <= k < |s.instances| ==> Compatible(t.instances[k], t.instances[|s.instances|])
    ensures Invariant(t)
  {
    var n := |s.instances|;
    forall i, j | 0 <= i < j < |t.instances| ensures Compatible(t.instances[i], t.instances[j]) {
      if j < n {
        assert Kept(s.instances[i], t.instances[i]) && Kept(s.instances[j], t.instances[j]);
        assert Compatible(s.instances[i], s.instances[j]);
        KeptCompatible(s.instances[i], s.instances[j], t.instances[i], t.instances[j]);
      } else {
        assert Compatible(t.instances[i], t.instances[n]);
      }
    }
    forall k | 0 <= k < |t.instances| ensures Sound(t.instances[k], t.pool) {
      if k < n {
        assert Kept(s.instances[k], t.instances[k]) && Sound(s.instances[k], s.pool);
        KeptSound(s.instances[k], s.pool, t.instances[k], t.pool);
      }
    }
  }

  // ------------------------------------------------------------------ update

  /** What an accepted update guarantees about the resources it replaces, in terms of the snapshot alone. */
  ghost predicate UpdateAllowed(r: LifecycleRequest, s: HostSnapshot, i: Instance)
    requires r.Update?
  {
    && (r.newCpus.Some? || r.newMemory.Some? || r.newDevices.Some?)
    && (r.newCpus.Some? ==>
          && r.newCpus.value != [] && NoDuplicates(r.newCpus.value)
          && Elements(r.newCpus.value) <= Elements(s.pool.availableCpus) + Elements(i.resources.cpus))
    && (r.newMemory.Some? ==> r.newMemory.value > 0 && MemoryAllowed(s, i, r.newMemory.value))
    && (r.newDevices.Some? ==> DevicesAllowed(s, i, r.newDevices.value))
  }

  ghost predicate MemoryAllowed(s: HostSnapshot, i: Instance, bytes: U64) {
    bytes > i.resources.memoryBytes ==>
      && i.resources.memoryBase.Some?
      && var base := i.resources.memoryBase.value;
      && InSomeRegion(base, bytes, s.pool.regions) && base + bytes <= U64_MAX
      && forall p :: p in s.instances && p.id != i.id ==> PeerClear(p, base, base + bytes)
  }

  ghost predicate DevicesAllowed(s: HostSnapshot, i: Instance, devices: seq<string>) {
    && devices != [] && NoDuplicates(devices)
    && (forall d :: d in devices ==> CanonicalPciId(d) && Assignable(s, i, Elements(devices), d))
    && (forall p :: p in s.instances && p.id != i.id ==> Elements(p.resources.devices) !! Elements(devices))
  }

  /** An update of a found instance is accepted exactly when its name is valid and its resources are allowed. */
  lemma UpdateAcceptedIff(r: LifecycleRequest, s: HostSnapshot, i: Instance)
    requires r.Update?
    ensures UpdateError(r, s, i).None? <==> ValidName(i.name) && UpdateAllowed(r, s, i)
  {
    if r.newCpus.Some? { ElementsCount(r.newCpus.value); }
    if r.newDevices.Some? { ElementsCount(r.newDevices.value); }
  }

  /** Shrinking stays inside the old range; growth was checked against the region and every peer. */
  lemma UpdateApart(s: HostSnapshot, a: Instance, b: Instance, peer: Instance)
    requires Placed(a, s.pool.regions) && Placed(peer, s.pool.regions) && Apart(peer, a)
    requires peer in s.instances && peer.id != a.id
    requires b.resources.memoryBase == a.resources.memoryBase && MemoryAllowed(s, a, b.resources.memoryBytes)
    ensures Apart(peer, b)
  {
  }

  lemma UpdatePlaced(s: HostSnapshot, a: Instance, b: Instance)
    requires Placed(a, s.pool.regions)
    requires b.resources.memoryBase == a.resources.memoryBase && MemoryAllowed(s, a, b.resources.memoryBytes)
    ensures Placed(b, s.pool.regions)
  {
    if 0 < b.resources.memoryBytes <= a.resources.memoryBytes {
      var base := a.resources.memoryBase.value;
      var region :| region in s.pool.regions && InRegion(base, a.resources.memoryBytes, region);
      assert InRegion(base, b.resources.memoryBytes, region);
    }
  }

  lemma UpdateGroupClosed(r: LifecycleRequest, s: HostSnapshot, a: Instance, b: Instance)
    requires r.Update? && UpdateAllowed(r, s, a) && GroupClosed(a, s.pool.devices)
    requires Elements(b.resources.devices) == Elements(r.newDevices.Or(a.resources.devices))
    ensures GroupClosed(b, s.pool.devices)
  {
    var source := r.newDevices.Or(a.resources.devices);
    forall d ensures d in b.resources.devices <==> d in source {
      assert d in Elements(b.resources.devices) <==> d in Elements(source);
    }
    forall d | d in b.resources.devices ensures OwnsWholeGroup(b, s.pool.devices, d) {
      if r.newDevices.Some? {
        assert Assignable(s, a, Elements(source), d);
      } else {
        assert OwnsWholeGroup(a, s.pool.devices, d);
      }
    }
  }

  lemma UpdateSound(r: LifecycleRequest, s: HostSnapshot, a: Instance, b: Instance, pool: ResourcePool)
    requires r.Update? && UpdateAllowed(r, s, a) && Sound(a, s.pool)
    requires Replaced(a, r.newCpus, r.newMemory, r.newDevices, b)
    requires Elements(s.pool.availableCpus) <= Elements(s.pool.cpus)
    requires pool.cpus == s.pool.cpus && pool.regions == s.pool.regions && pool.devices == s.pool.devices
    ensures Sound(b, pool)
  {
    UpdatePlaced(s, a, b);
    UpdateGroupClosed(r, s, a, b);
  }

  lemma UpdateCompatible(r: LifecycleRequest, s: HostSnapshot, a: Instance, b: Instance, peer: Instance)
    requires r.Update? && UpdateAllowed(r, s, a) && Sound(a, s.pool) && Sound(peer, s.pool)
    requires Compatible(peer, a) && peer in s.instances
    requires Elements(s.pool.availableCpus) !! Elements(peer.resources.cpus)
    requires Replaced(a, r.newCpus, r.newMemory, r.newDevices, b)
    ensures Compatible(peer, b)
  {
    UpdateApart(s, a, b, peer);
  }

  lemma CompatibleSymmetric(a: Instance, b: Instance)
    ensures Compatible(a, b) <==> Compatible(b, a)
  {
  }

  /** Kerf addresses an update by name; unique names make that the instance the request means. */
  lemma UpdateHitsOne(r: LifecycleRequest, s: HostSnapshot, t: HostSnapshot, k: nat)
    requires r.Update? && !r.dryRun && AllCompatible(s) && k < |s.instances|
    requires UpdateEffect(UpdateArguments(r, s.instances[k].name), s, t)
    ensures Replaced(s.instances[k], r.newCpus, r.newMemory, r.newDevices, t.instances[k])
    ensures forall p {:trigger Same(s.instances[p], t.instances[p])} ::
      0 <= p < |s.instances| && p != k ==> Same(s.instances[p], t.instances[p])
  {
    var arguments := UpdateArguments(r, s.instances[k].name);
    UpdateArgumentsCarryTheRequest(r, s.instances[k].name);
    assert UpdateOf(s.instances[k], arguments, t.instances[k]);
    forall p | 0 <= p < |s.instances| && p != k ensures Same(s.instances[p], t.instances[p]) {
      assert UpdateOf(s.instances[p], arguments, t.instances[p]);
      assert if p < k then Compatible(s.instances[p], s.instances[k]) else Compatible(s.instances[k], s.instances[p]);
    }
  }

  /** One instance replaced by a sound instance that is compatible with all others. */
  lemma Replaces(s: HostSnapshot, t: HostSnapshot, k: nat)
    requires Invariant(s) && PoolKept(s, t) && Reported(s, t)
    requires k < |s.instances| == |t.instances| && Sound(t.instances[k], t.pool)
    requires forall p {:trigger Same(s.instances[p], t.instances[p])} ::
      0 <= p < |s.instances| && p != k ==> Same(s.instances[p], t.instances[p])
    requires forall p {:trigger Compatible(s.instances[p], t.instances[k])} ::
      0 <= p < |s.instances| && p != k ==> Compatible(s.instances[p], t.instances[k])
    ensures Invariant(t)
  {
    forall p | 0 <= p < |t.instances| ensures Sound(t.instances[p], t.pool) {
      if p != k {
        assert Same(s.instances[p], t.instances[p]) && Sound(s.instances[p], s.pool);
        KeptSound(s.instances[p], s.pool, t.instances[p], t.pool);
      }
    }
    forall i, j | 0 <= i < j < |t.instances| ensures Compatible(t.instances[i], t.instances[j]) {
      if j == k {
        assert Same(s.instances[i], t.instances[i]) && Compatible(s.instances[i], t.instances[k]);
      } else if i == k {
        assert Same(s.instances[j], t.instances[j]) && Compatible(s.instances[j], t.instances[k]);
        CompatibleSymmetric(t.instances[j], t.instances[k]);
      } else {
        assert Same(s.instances[i], t.instances[i]) && Same(s.instances[j], t.instances[j]);
        assert Compatible(s.instances[i], s.instances[j]);
      }
    }
  }

  lemma UpdateKeeps(r: LifecycleRequest, s: HostSnapshot, t: HostSnapshot)
    requires Invariant(s) && r.Update? && PlanUpdate(r, s).Ok?
    requires UpdateEffect(PlanUpdate(r, s).value.arguments, s, t) && Reported(s, t)
    ensures Invariant(t)
  {
    var k := RequireInstance(s, r.instance.id, Ready).value;
    var a, b := s.instances[k], t.instances[k];
    UpdateArgumentsCarryTheRequest(r, a.name);
    if r.dryRun {
      forall p | 0 <= p < |s.instances| ensures Same(s.instances[p], t.instances[p]) {
        assert UpdateOf(s.instances[p], UpdateArguments(r, a.name), t.instances[p]);
      }
      var e := UnmovedEmbedding(s, t);
      EmbeddingKeeps(s, t, e);
    } else {
      UpdateAcceptedIff(r, s, a);
      UpdateHitsOne(r, s, t, k);
      assert Sound(a, s.pool);
      UpdateSound(r, s, a, b, t.pool);
      forall p | 0 <= p < |s.instances| && p != k ensures Compatible(s.instances[p], b) {
        assert Sound(s.instances[p], s.pool) && s.instances[p] in s.instances;
        assert if p < k then Compatible(s.instances[p], a) else Compatible(a, s.instances[p]);
        CompatibleSymmetric(a, s.instances[p]);
        Pools.OwnCpusAssigned(s.instances, p);
        UpdateCompatible(r, s, a, b, s.instances[p]);
      }
      Replaces(s, t, k);
    }
  }

  // ------------------------------------------------------------- pool resize

  lemma {:induction false} SameCpus(a: seq<Instance>, b: seq<Instance>)
    requires |a| == |b|
    requires forall k :: 0 <= k < |a| ==> a[k].resources == b[k].resources
    ensures Pools.AssignedCpus(a) == Pools.AssignedCpus(b)
  {
    if a != [] { SameCpus(a[..|a| - 1], b[..|b| - 1]); }
  }

  /** A resize is accepted exactly when newcomers may enter and nothing assigned is left out of the new totals. */
  lemma ResizeAcceptedIff(r: Pools.ResourcePoolRequest, s: HostSnapshot)
    ensures Pools.PlanPool(r, s).Ok? <==>
      && s.health == Healthy && r.expectedGeneration == s.generation && NoDuplicates(r.cpus)
      && (forall c :: c in r.cpus && c !in s.pool.cpus ==> Placement.MayEnterPool(s.topology.cpus, c))
      && Pools.AssignedCpus(s.instances) <= Elements(r.cpus)
      && WrappingTotal(AssignedBytes(s.instances)) <= r.memoryBytes
  {
    ElementsCount(r.cpus);
    LeftOutIff(s.instances, r.cpus);
  }

  lemma LeftOutIff(instances: seq<Instance>, cpus: seq<U32>)
    ensures (exists i :: i in instances && exists c :: c in i.resources.cpus && c !in cpus) <==>
      !(Pools.AssignedCpus(instances) <= Elements(cpus))
  {
    if i, c :| i in instances && c in i.resources.cpus && c !in cpus {
      var k :| 0 <= k < |instances| && instances[k] == i;
      Pools.OwnCpusAssigned(instances, k);
      assert c in Elements(i.resources.cpus);
    }
    if !(Pools.AssignedCpus(instances) <= Elements(cpus)) {
      var c :| c in Pools.AssignedCpus(instances) && c !in Elements(cpus);
      var k := Pools.CpuOwner(instances, c);
      assert instances[k] in instances && c in instances[k].resources.cpus && c !in cpus;
    }
  }

  lemma UnmovedCpus(s: HostSnapshot, t: HostSnapshot)
    requires Unmoved(s, t)
    ensures Pools.AssignedCpus(s.instances) == Pools.AssignedCpus(t.instances)
  {
    forall k | 0 <= k < |s.instances| ensures s.instances[k].resources == t.instances[k].resources {
      assert Same(s.instances[k], t.instances[k]);
    }
    SameCpus(s.instances, t.instances);
  }

  /**
   A resize keeps the CPU partition exactly when the new pool contains every CPU assigned in the state Kerf applies it
   to. Planning checks this against the snapshot it read; lifecycle and pool executors hold different locks, so it is
   the applied state that counts.
   */
  lemma ResizeKeepsCpusIff(arguments: seq<Argument>, s: HostSnapshot, t: HostSnapshot)
    requires CpusPartitioned(s) && ResizeEffect(arguments, s, t) && Reported(s, t)
    ensures CpusPartitioned(t) <==> Pools.AssignedCpus(s.instances) <= Elements(CpusIn(arguments).value)
  {
    UnmovedCpus(s, t);
    forall i, j | 0 <= i < j < |t.instances| ensures CpusDisjoint(t.instances[i], t.instances[j]) {
      assert Same(s.instances[i], t.instances[i]) && Same(s.instances[j], t.instances[j]);
      assert CpusDisjoint(s.instances[i], s.instances[j]);
    }
  }

  lemma UnmovedIsolatedIff(arguments: seq<Argument>, s: HostSnapshot, t: HostSnapshot)
    requires Isolated(s) && ResizeEffect(arguments, s, t)
    ensures Isolated(t) <==>
      forall k {:trigger Placed(s.instances[k], t.pool.regions)} ::
        0 <= k < |s.instances| ==> Placed(s.instances[k], t.pool.regions)
  {
    forall k | 0 <= k < |s.instances|
      ensures Placed(s.instances[k], t.pool.regions) <==> Placed(t.instances[k], t.pool.regions)
    {
      assert Same(s.instances[k], t.instances[k]);
    }
    forall i, j | 0 <= i < j < |t.instances|
      ensures Distinct(t.instances[i], t.instances[j]) && Apart(t.instances[i], t.instances[j])
    {
      assert Same(s.instances[i], t.instances[i]) && Same(s.instances[j], t.instances[j]);
      assert Distinct(s.instances[i], s.instances[j]) && Apart(s.instances[i], s.instances[j]);
    }
  }

  /** The given CPUs without the used ones. */
  function Without(cpus: seq<U32>, used: set<U32>): (left: seq<U32>)
    ensures Elements(left) == Elements(cpus) - used
  {
    if cpus == [] then []
    else
      assert Elements(cpus) == {cpus[0]} + Elements(cpus[1..]);
      var rest := Without(cpus[1..], used);
      assert Elements([cpus[0]] + rest) == {cpus[0]} + Elements(rest);
      if cpus[0] in used then rest else [cpus[0]] + rest
  }

  /** A resize that meets its totals but starts the pool just above the range of one instance. */
  function Displaced(r: Pools.ResourcePoolRequest, s: HostSnapshot, base: U64): HostSnapshot
    requires base < U64_MAX && Pools.PlanPool(r, s).Ok?
  {
    var cpus := CpusIn(Pools.PlanPool(r, s).value.arguments).Or([]);
    s.(pool := s.pool.(
         cpus := cpus, availableCpus := Without(cpus, Pools.AssignedCpus(s.instances)),
         regions := [MemoryRegion(base + 1, r.memoryBytes, 0)]))
  }

  lemma DisplacedBreaks(r: Pools.ResourcePoolRequest, s: HostSnapshot, k: nat)
    requires Isolated(s) && Pools.PlanPool(r, s).Ok? && k < |s.instances| && s.instances[k].resources.memoryBytes > 0
    ensures exists t ::
      ResizeEffect(Pools.PlanPool(r, s).value.arguments, s, t) && Reported(s, t) && !Isolated(t)
  {
    assert Placed(s.instances[k], s.pool.regions);
    var base := s.instances[k].resources.memoryBase.value;
    ResizeArguments(r, s);
    var t := Displaced(r, s, base);
    assert t.pool.regions[..0] == [];
    assert RegionBytes(t.pool.regions) == RegionBytes(t.pool.regions[..0]) + r.memoryBytes;
    assert !Placed(t.instances[k], t.pool.regions);
    assert ResizeEffect(Pools.PlanPool(r, s).value.arguments, s, t) && Reported(s, t) && !Isolated(t);
  }

  lemma NothingToDisplace(arguments: seq<Argument>, s: HostSnapshot, t: HostSnapshot)
    requires Isolated(s) && ResizeEffect(arguments, s, t)
    requires forall k :: 0 <= k < |s.instances| ==> s.instances[k].resources.memoryBytes == 0
    ensures Isolated(t)
  {
    UnmovedIsolatedIff(arguments, s, t);
  }

  /**
   Planning compares totals and Kerf chooses the regions: an accepted resize is sure to keep memory isolated exactly
   when no instance holds any memory.
   */
  lemma ResizeKeepsIsolationIff(r: Pools.ResourcePoolRequest, s: HostSnapshot)
    requires Isolated(s) && Pools.PlanPool(r, s).Ok?
    ensures
      (forall t {:trigger ResizeEffect(Pools.PlanPool(r, s).value.arguments, s, t)} ::
         ResizeEffect(Pools.PlanPool(r, s).value.arguments, s, t) && Reported(s, t) ==> Isolated(t))
      <==> (forall k :: 0 <= k < |s.instances| ==> s.instances[k].resources.memoryBytes == 0)
  {
    var arguments := Pools.PlanPool(r, s).value.arguments;
    if k :| 0 <= k < |s.instances| && s.instances[k].resources.memoryBytes > 0 {
      DisplacedBreaks(r, s, k);
    } else {
      forall t | ResizeEffect(arguments, s, t) && Reported(s, t) ensures Isolated(t) {
        NothingToDisplace(arguments, s, t);
      }
    }
  }

  lemma ResizeKeeps(r: Pools.ResourcePoolRequest, s: HostSnapshot, t: HostSnapshot)
    requires Invariant(s) && PoolStep(r, s, t)
    ensures Invariant(t)
  {
    ResizeArguments(r, s);
    Pools.PlannedCpusAreTheRequest(r, s);
    var e := UnmovedEmbedding(s, t);
    EmbeddingCompatible(s, t, e);
    forall k | 0 <= k < |t.instances| ensures Sound(t.instances[k], t.pool) {
      assert Same(s.instances[k], t.instances[k]) && Sound(s.instances[k], s.pool);
      assert Placed(t.instances[k], t.pool.regions);
      Pools.OwnCpusAssigned(s.instances, k);
      ResizeSound(s.instances[k], s.pool, t.instances[k], t.pool);
    }
  }

  lemma ResizeSound(a: Instance, p: ResourcePool, b: Instance, q: ResourcePool)
    requires Sound(a, p) && Same(a, b) && q.devices == p.devices
    requires Placed(b, q.regions) && Elements(b.resources.cpus) <= Elements(q.cpus)
    ensures Sound(b, q)
  {
    forall d | d in b.resources.devices ensures OwnsWholeGroup(b, q.devices, d) {
      assert OwnsWholeGroup(a, p.devices, d);
    }
  }

  /** A host with one instance on CPU 4 and ten bytes at address 0. */
  function LabHost(): HostSnapshot {
    HostSnapshot(1, Healthy, [], KernelInfo("", true), [], CpuTopology("", [], []), HostMemory(10, 0, 10, 10),
      ResourcePool([4], [], [MemoryRegion(0, 10, 0)], [], []),
      [Instance(1, "lab", 1, Ready, Allocation([4], Some(0), 10, []), false)], [])
  }

  lemma LabIsSound()
    ensures Invariant(LabHost()) && Pools.AssignedCpus(LabHost().instances) == {4} && Elements([4 as U32]) == {4}
    ensures AssignedBytes(LabHost().instances) == 10 && NoDuplicates([4 as U32])
  {
    var s := LabHost();
    assert s.instances[..0] == [] && Pools.AssignedCpus(s.instances[..0]) == {};
    assert AssignedBytes(s.instances) == AssignedBytes(s.instances[..0]) + 10;
    assert InRegion(0, 10, s.pool.regions[0]) && s.pool.regions[0] in s.pool.regions;
  }

  /** A case of it: an accepted one can leave a live range outside the new pool. */
  lemma TotalsDoNotPlaceRanges() returns (r: Pools.ResourcePoolRequest, s: HostSnapshot, t: HostSnapshot)
    ensures Invariant(s) && Pools.PlanPool(r, s).Ok?
    ensures ResizeEffect(Pools.PlanPool(r, s).value.arguments, s, t) && Reported(s, t)
    ensures !Isolated(t)
  {
    LabIsSound();
    s := LabHost();
    t := s.(pool := s.pool.(regions := [MemoryRegion(100, 10, 0)]));
    r := Pools.ResourcePoolRequest(1, [4], 10);
    ResizeAcceptedIff(r, s);
    assert t.pool.regions[..0] == [];
    assert RegionBytes(t.pool.regions) == RegionBytes(t.pool.regions[..0]) + 10;
    ResizeArguments(r, s);
    assert !Placed(t.instances[0], t.pool.regions);
  }

  // ---------------------------------------------------------------- all runs

  lemma LifecycleKeeps(r: LifecycleRequest, s: HostSnapshot, t: HostSnapshot)
    requires Invariant(s) && LifecycleStep(r, s, t)
    ensures Invariant(t)
  {
    PlannedVerb(r, s);
    var arguments := Plan(r, s).value.arguments;
    match r {
      case Create(_, _, _, _, _) => CreateKeeps(r, s, t);
      case Update(_, _, _, _, _) => UpdateKeeps(r, s, t);
      case Load(_, _, _, _) => StateKeeps(arguments, Loaded, s, t);
      case Start(_) => StateKeeps(arguments, Active, s, t);
      case Stop(_, _) => StateKeeps(arguments, Loaded, s, t);
      case Unload(_) => StateKeeps(arguments, Ready, s, t);
      case Delete(_) => DeleteKeeps(arguments, s, t);
    }
  }

  lemma StepKeeps(s: HostSnapshot, t: HostSnapshot)
    requires Invariant(s) && Step(s, t)
    ensures Invariant(t)
  {
    if QuietStep(s, t) {
      var e := UnmovedEmbedding(s, t);
      EmbeddingKeeps(s, t, e);
    } else if r :| PoolStep(r, s, t) {
      ResizeKeeps(r, s, t);
    } else {
      var r :| LifecycleStep(r, s, t);
      LifecycleKeeps(r, s, t);
    }
  }

  lemma {:induction false} RunKeeps(states: seq<HostSnapshot>, i: nat)
    requires Run(states) && i < |states| && Invariant(states[0])
    ensures Invariant(states[i])
  {
    if i > 0 {
      RunKeeps(states, i - 1);
      RunStepKeeps(states, i - 1);
    }
  }

  lemma RunStepKeeps(states: seq<HostSnapshot>, i: nat)
    requires Run(states) && i + 1 < |states| && Invariant(states[i])
    ensures Invariant(states[i + 1])
  {
    assert StepAt(states, i);
    StepKeeps(states[i], states[i + 1]);
  }

  /** Isolation, CPU conservation and IOMMU closure hold in every state of every run. */
  lemma RunsStayIsolated(states: seq<HostSnapshot>, i: nat)
    requires Run(states) && i < |states|
    requires Isolated(states[0]) && CpusPartitioned(states[0]) && DevicesIsolated(states[0])
    ensures Isolated(states[i]) && CpusPartitioned(states[i]) && DevicesIsolated(states[i])
  {
    InvariantMeans(states[0]);
    RunKeeps(states, i);
    InvariantMeans(states[i]);
  }

  /** Groups are as the kernel lists them: a device's member list names every managed device of its group. */
  ghost predicate GroupsListed(devices: seq<PciDevice>) {
    forall a, b :: Managed(devices, a).Some? && Managed(devices, b).Some?
      && Managed(devices, a).value.iommuGroup.Some?
      && Managed(devices, a).value.iommuGroup == Managed(devices, b).value.iommuGroup
      ==> b in Managed(devices, a).value.iommuGroupMembers
  }

  lemma LifecycleKeepsPool(r: LifecycleRequest, s: HostSnapshot, t: HostSnapshot)
    requires LifecycleStep(r, s, t)
    ensures PoolKept(s, t)
  {
    PlannedVerb(r, s);
  }

  lemma StepBounds(s: HostSnapshot, t: HostSnapshot)
    requires Step(s, t) && RegionBytes(s.pool.regions) <= U64_MAX
    ensures RegionBytes(t.pool.regions) <= U64_MAX
  {
    if r :| LifecycleStep(r, s, t) { LifecycleKeepsPool(r, s, t); }
  }

  lemma BoundedNext(states: seq<HostSnapshot>, n: nat)
    requires Run(states) && n + 1 < |states| && RegionBytes(states[n].pool.regions) <= U64_MAX
    ensures RegionBytes(states[n + 1].pool.regions) <= U64_MAX
  {
    assert StepAt(states, n);
    StepBounds(states[n], states[n + 1]);
  }

  /** The size of the pool stays addressable along every run. */
  lemma {:induction false} RunBounds(states: seq<HostSnapshot>, n: nat)
    requires Run(states) && n < |states| && RegionBytes(states[0].pool.regions) <= U64_MAX
    ensures RegionBytes(states[n].pool.regions) <= U64_MAX
  {
    if n > 0 {
      RunBounds(states, n - 1);
      BoundedNext(states, n - 1);
    }
  }

  lemma SameDevicesNext(states: seq<HostSnapshot>, n: nat)
    requires Run(states) && n + 1 < |states|
    ensures states[n + 1].pool.devices == states[n].pool.devices
  {
    assert StepAt(states, n);
  }

  /** Devices and their groups stay as they were. */
  lemma {:induction false} RunKeepsDevices(states: seq<HostSnapshot>, n: nat)
    requires Run(states) && n < |states|
    ensures states[n].pool.devices == states[0].pool.devices
  {
    if n > 0 {
      RunKeepsDevices(states, n - 1);
      SameDevicesNext(states, n - 1);
    }
  }

  /** In every state of every run no two instances own members of one IOMMU group. */
  lemma RunsNeverSplitGroups(states: seq<HostSnapshot>, n: nat, i: nat, j: nat, a: string, b: string)
    requires Run(states) && n < |states|
    requires Isolated(states[0]) && CpusPartitioned(states[0]) && DevicesIsolated(states[0])
    requires GroupsListed(states[0].pool.devices)
    requires i < |states[n].instances| && j < |states[n].instances| && i != j
    requires a in states[n].instances[i].resources.devices && b in states[n].instances[j].resources.devices
    ensures Managed(states[n].pool.devices, a).Some? && Managed(states[n].pool.devices, b).Some?
    ensures Managed(states[n].pool.devices, a).value.iommuGroup != Managed(states[n].pool.devices, b).value.iommuGroup
  {
    RunsStayIsolated(states, n);
    RunKeepsDevices(states, n);
    GroupsNotSplit(states[n], i, j, a, b);
  }

  lemma GroupsNotSplit(s: HostSnapshot, i: nat, j: nat, a: string, b: string)
    requires DevicesIsolated(s) && GroupsListed(s.pool.devices)
    requires i < |s.instances| && j < |s.instances| && i != j
    requires a in s.instances[i].resources.devices && b in s.instances[j].resources.devices
    ensures Managed(s.pool.devices, a).Some? && Managed(s.pool.devices, b).Some?
    ensures Managed(s.pool.devices, a).value.iommuGroup != Managed(s.pool.devices, b).value.iommuGroup
  {
    assert GroupClosed(s.instances[i], s.pool.devices) && GroupClosed(s.instances[j], s.pool.devices);
    assert OwnsWholeGroup(s.instances[i], s.pool.devices, a) && OwnsWholeGroup(s.instances[j], s.pool.devices, b);
    assert if i < j then DevicesDisjoint(s.instances[i], s.instances[j])
           else DevicesDisjoint(s.instances[j], s.instances[i]);
    assert b in Elements(s.instances[j].resources.devices) && b !in Elements(s.instances[i].resources.devices);
    assert b !in Managed(s.pool.devices, a).value.iommuGroupMembers;
  }
}
