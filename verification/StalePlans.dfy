/** Commands planned on one snapshot and carried out on a host that has changed since: what still keeps it isolated. */
module StalePlans {
  import opened Prelude
  import opened Snapshots
  import opened Lifecycle
  import opened Kerf
  import Hosts
  import Pools = ResourcePools

  /** The range of an instance still has room to take a new size where it begins. */
  predicate RoomFor(host: HostSnapshot, id: U32, bytes: U64) {
    forall i :: i in host.instances && i.id == id ==>
      i.resources.memoryBase.Some? && InSomeRegion(i.resources.memoryBase.value, bytes, host.pool.regions)
  }

  /** What a lifecycle request still has to meet on the host that it reaches. */
  predicate LifecycleFits(r: LifecycleRequest, host: HostSnapshot) {
    match r
    case Create(_, _, _, cpus, _) => Elements(cpus) <= Elements(host.pool.cpus)
    case Update(instance, newCpus, newMemory, _, dryRun) =>
      || dryRun
      || ((newCpus.Some? ==> Elements(newCpus.value) <= Elements(host.pool.cpus))
          && (newMemory.Some? ==> RoomFor(host, instance.id, newMemory.value)))
    case _ => true
  }

  /** What a pool request still has to meet. */
  predicate ResizeFits(r: Pools.ResourcePoolRequest, host: HostSnapshot) {
    Pools.AssignedCpus(host.instances) <= Elements(r.cpus)
  }

  /** The snapshot still shows the instances and the devices of the host; the pool may be another one. */
  ghost predicate ShowsInstances(before: HostSnapshot, host: HostSnapshot) {
    && Unmoved(host, before) && before.pool.devices == host.pool.devices
    && Elements(before.pool.availableCpus) == Elements(before.pool.cpus) - Pools.AssignedCpus(before.instances)
  }

  lemma QuietKeeps(host: HostSnapshot, next: HostSnapshot)
    requires Hosts.Invariant(host) && Hosts.QuietStep(host, next)
    ensures Hosts.Invariant(next)
  {
    assert Hosts.Step(host, next);
    Hosts.StepKeeps(host, next);
  }

  // --------------------------------------------------------------------- create

  lemma CreateFitsIff(r: LifecycleRequest, before: HostSnapshot, host: HostSnapshot, next: HostSnapshot)
    requires Hosts.Invariant(host) && ShowsInstances(before, host) && r.Create? && PlanCreate(r, before).Ok?
    requires CreateEffect(PlanCreate(r, before).value.arguments, host, next) && Reported(host, next)
    ensures Hosts.Invariant(next) <==> LifecycleFits(r, host)
  {
    var n := |host.instances|;
    var new' := next.instances[n];
    CreateArguments(r, before);
    if Hosts.Invariant(next) {
      assert Hosts.Sound(new', next.pool);
    }
    if LifecycleFits(r, host) {
      assert Hosts.Sound(new', next.pool);
      forall k | 0 <= k < n ensures Kept(host.instances[k], next.instances[k]) && Hosts.Compatible(next.instances[k], new') {
        assert Same(host.instances[k], next.instances[k]) && Apart(host.instances[k], new');
        assert Same(host.instances[k], before.instances[k]) && before.instances[k] in before.instances;
        Pools.OwnCpusAssigned(before.instances, k);
      }
      Hosts.Extends(host, next);
    }
  }

  // --------------------------------------------------------------------- update

  /** The host as a fresh preflight would see it, with the devices that the plan found available. */
  function Seen(before: HostSnapshot, host: HostSnapshot): HostSnapshot {
    host.(pool := host.pool.(availableDevices := before.pool.availableDevices))
  }

  lemma SeenIsQuiet(before: HostSnapshot, host: HostSnapshot)
    requires Hosts.Invariant(host)
    ensures Hosts.QuietStep(host, Seen(before, host)) && Hosts.Invariant(Seen(before, host))
  {
    QuietKeeps(host, Seen(before, host));
  }

  /** The instance that an accepted update means is at the same place on the host. */
  lemma Target(r: LifecycleRequest, before: HostSnapshot, host: HostSnapshot) returns (k: nat)
    requires Hosts.Invariant(host) && ShowsInstances(before, host) && r.Update? && PlanUpdate(r, before).Ok?
    ensures k < |host.instances| == |before.instances| && Same(host.instances[k], before.instances[k])
    ensures host.instances[k].id == r.instance.id && RequireInstance(Seen(before, host), r.instance.id, Ready) == Ok(k)
    ensures PlanUpdate(r, before).value.arguments == UpdateArguments(r, host.instances[k].name)
    ensures UpdateError(r, before, before.instances[k]).None?
  {
    k := RequireInstance(before, r.instance.id, Ready).value;
    assert Same(host.instances[k], before.instances[k]);
    var found := Find(host.instances, r.instance.id);
    assert host.instances[k] in host.instances;
    Hosts.OneInstance(host, found.value, k);
  }

  lemma MemoryStillAllowed(before: HostSnapshot, host: HostSnapshot, k: nat, bytes: U64)
    requires ShowsInstances(before, host) && k < |host.instances|
    requires Hosts.MemoryAllowed(before, before.instances[k], bytes) && RoomFor(host, host.instances[k].id, bytes)
    ensures Hosts.MemoryAllowed(Seen(before, host), host.instances[k], bytes)
  {
    assert Same(host.instances[k], before.instances[k]) && host.instances[k] in host.instances;
    if bytes > host.instances[k].resources.memoryBytes {
      var base := host.instances[k].resources.memoryBase.value;
      forall p | p in host.instances && p.id != host.instances[k].id ensures PeerClear(p, base, base + bytes) {
        var j :| 0 <= j < |host.instances| && host.instances[j] == p;
        assert Same(host.instances[j], before.instances[j]) && before.instances[j] in before.instances;
      }
    }
  }

  lemma DevicesStillAllowed(before: HostSnapshot, host: HostSnapshot, k: nat, devices: seq<string>)
    requires ShowsInstances(before, host) && k < |host.instances|
    requires Hosts.DevicesAllowed(before, before.instances[k], devices)
    ensures Hosts.DevicesAllowed(Seen(before, host), host.instances[k], devices)
  {
    assert Same(host.instances[k], before.instances[k]);
    forall d | d in devices ensures Assignable(Seen(before, host), host.instances[k], Elements(devices), d) {
      assert Assignable(before, before.instances[k], Elements(devices), d);
    }
    forall p | p in host.instances && p.id != host.instances[k].id ensures Elements(p.resources.devices) !! Elements(devices) {
      var j :| 0 <= j < |host.instances| && host.instances[j] == p;
      assert Same(host.instances[j], before.instances[j]) && before.instances[j] in before.instances;
    }
  }

  lemma CpusStillFree(before: HostSnapshot, host: HostSnapshot, own: set<U32>, cpus: set<U32>)
    requires Hosts.Invariant(host) && ShowsInstances(before, host) && cpus <= Elements(host.pool.cpus)
    requires cpus <= Elements(before.pool.availableCpus) + own
    ensures cpus <= Elements(host.pool.availableCpus) + own
  {
    Hosts.UnmovedCpus(host, before);
  }

  /** An update that still fits would be accepted on the host as well. */
  lemma StillAccepted(r: LifecycleRequest, before: HostSnapshot, host: HostSnapshot, k: nat)
    requires Hosts.Invariant(host) && ShowsInstances(before, host) && r.Update? && !r.dryRun && k < |host.instances|
    requires host.instances[k].id == r.instance.id && UpdateError(r, before, before.instances[k]).None? && LifecycleFits(r, host)
    ensures UpdateError(r, Seen(before, host), host.instances[k]).None?
  {
    assert Same(host.instances[k], before.instances[k]);
    Hosts.UpdateAcceptedIff(r, before, before.instances[k]);
    Hosts.UpdateAcceptedIff(r, Seen(before, host), host.instances[k]);
    if r.newCpus.Some? {
      CpusStillFree(before, host, Elements(host.instances[k].resources.cpus), Elements(r.newCpus.value));
    }
    if r.newMemory.Some? { MemoryStillAllowed(before, host, k, r.newMemory.value); }
    if r.newDevices.Some? { DevicesStillAllowed(before, host, k, r.newDevices.value); }
  }

  /** An update that kept the host sound did fit. */
  lemma SoundUpdateFits(r: LifecycleRequest, before: HostSnapshot, host: HostSnapshot, next: HostSnapshot, k: nat)
    requires Hosts.Invariant(host) && Hosts.Invariant(next) && PoolKept(host, next)
    requires r.Update? && k < |host.instances| == |next.instances| && host.instances[k].id == r.instance.id
    requires Replaced(host.instances[k], r.newCpus, r.newMemory, r.newDevices, next.instances[k])
    requires r.newMemory.Some? ==> r.newMemory.value > 0
    ensures LifecycleFits(r, host)
  {
    assert Hosts.Sound(next.instances[k], next.pool);
    if r.newMemory.Some? {
      forall i | i in host.instances && i.id == r.instance.id
        ensures i.resources.memoryBase.Some? && InSomeRegion(i.resources.memoryBase.value, r.newMemory.value, host.pool.regions)
      {
        var j :| 0 <= j < |host.instances| && host.instances[j] == i;
        Hosts.OneInstance(host, j, k);
      }
    }
  }

  lemma UpdateFitsIff(r: LifecycleRequest, before: HostSnapshot, host: HostSnapshot, next: HostSnapshot)
    requires Hosts.Invariant(host) && ShowsInstances(before, host) && r.Update? && PlanUpdate(r, before).Ok?
    requires UpdateEffect(PlanUpdate(r, before).value.arguments, host, next) && Reported(host, next)
    ensures Hosts.Invariant(next) <==> LifecycleFits(r, host)
  {
    var k := Target(r, before, host);
    if r.dryRun {
      UpdateArgumentsCarryTheRequest(r, host.instances[k].name);
      forall p | 0 <= p < |host.instances| ensures Same(host.instances[p], next.instances[p]) {
        assert UpdateOf(host.instances[p], UpdateArguments(r, host.instances[k].name), next.instances[p]);
      }
      QuietKeeps(host, next);
    } else {
      Hosts.UpdateHitsOne(r, host, next, k);
      if Hosts.Invariant(next) {
        Hosts.UpdateAcceptedIff(r, before, before.instances[k]);
        SoundUpdateFits(r, before, host, next, k);
      }
      if LifecycleFits(r, host) {
        StillAccepted(r, before, host, k);
        SeenIsQuiet(before, host);
        SeenUpdateKeeps(r, before, host, next, k);
      }
    }
  }

  lemma SeenUpdateKeeps(r: LifecycleRequest, before: HostSnapshot, host: HostSnapshot, next: HostSnapshot, k: nat)
    requires r.Update? && Hosts.Invariant(Seen(before, host)) && k < |host.instances|
    requires RequireInstance(Seen(before, host), r.instance.id, Ready) == Ok(k)
    requires UpdateError(r, Seen(before, host), host.instances[k]).None?
    requires UpdateEffect(UpdateArguments(r, host.instances[k].name), host, next) && Reported(host, next)
    ensures Hosts.Invariant(next)
  {
    var s := Seen(before, host);
    assert PlanUpdate(r, s).Ok? && PlanUpdate(r, s).value.arguments == UpdateArguments(r, host.instances[k].name);
    forall p | 0 <= p < |s.instances|
      ensures UpdateOf(s.instances[p], UpdateArguments(r, host.instances[k].name), next.instances[p])
    {
      assert UpdateOf(host.instances[p], UpdateArguments(r, host.instances[k].name), next.instances[p]);
    }
    Hosts.UpdateKeeps(r, s, next);
  }

  // ----------------------------------------------------------------- all commands

  /** A lifecycle command planned on the host's instances keeps the host sound exactly when it still fits the pool. */
  lemma LifecycleFitsIff(r: LifecycleRequest, before: HostSnapshot, host: HostSnapshot, next: HostSnapshot)
    requires Hosts.Invariant(host) && ShowsInstances(before, host) && Plan(r, before).Ok?
    requires Kerf.Runs(Plan(r, before).value.arguments, host, next)
    ensures Hosts.Invariant(next) <==> LifecycleFits(r, host)
  {
    PlannedVerb(r, before);
    var arguments := Plan(r, before).value.arguments;
    match r {
      case Create(_, _, _, _, _) => CreateFitsIff(r, before, host, next);
      case Update(_, _, _, _, _) => UpdateFitsIff(r, before, host, next);
      case Load(_, _, _, _) => Hosts.StateKeeps(arguments, Loaded, host, next);
      case Start(_) => Hosts.StateKeeps(arguments, Active, host, next);
      case Stop(_, _) => Hosts.StateKeeps(arguments, Loaded, host, next);
      case Unload(_) => Hosts.StateKeeps(arguments, Ready, host, next);
      case Delete(_) => Hosts.DeleteKeeps(arguments, host, next);
    }
  }

  /** A pool command, planned on any snapshot, keeps the host sound exactly when it contains what is assigned by now. */
  lemma ResizeFitsIff(r: Pools.ResourcePoolRequest, before: HostSnapshot, host: HostSnapshot, next: HostSnapshot)
    requires Hosts.Invariant(host) && Pools.PlanPool(r, before).Ok?
    requires Kerf.Runs(Pools.PlanPool(r, before).value.arguments, host, next)
    ensures Hosts.Invariant(next) <==> ResizeFits(r, host)
  {
    ResizeArguments(r, before);
    Hosts.UnmovedCpus(host, next);
    if Hosts.Invariant(next) {
      Hosts.AssignedIn(next);
    }
    if ResizeFits(r, host) {
      var e := Hosts.UnmovedEmbedding(host, next);
      Hosts.EmbeddingCompatible(host, next, e);
      forall k | 0 <= k < |next.instances| ensures Hosts.Sound(next.instances[k], next.pool) {
        assert Same(host.instances[k], next.instances[k]) && Hosts.Sound(host.instances[k], host.pool);
        assert Placed(next.instances[k], next.pool.regions);
        Pools.OwnCpusAssigned(host.instances, k);
        Hosts.ResizeSound(host.instances[k], host.pool, next.instances[k], next.pool);
      }
    }
  }
}
