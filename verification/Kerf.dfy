/**
 Kerf as an environment. Kernmux only plans; Kerf applies. Here is what each planned argument list makes it do: replace
 the listed resources, keep the memory base, pick a free range for a new instance, and report what is left over.
 */
module Kerf {
  import opened Prelude
  import opened Snapshots
  import opened Lifecycle
  import Pools = ResourcePools

  // ------------------------------------------------------- reading a command

  function CpusIn(arguments: seq<Argument>): Option<seq<U32>> {
    if arguments == [] then None
    else if arguments[0].CpusOption? then Some(arguments[0].cpus) else CpusIn(arguments[1..])
  }

  function MemoryIn(arguments: seq<Argument>): Option<U64> {
    if arguments == [] then None
    else if arguments[0].MemoryOption? then Some(arguments[0].bytes) else MemoryIn(arguments[1..])
  }

  function DevicesIn(arguments: seq<Argument>): Option<seq<string>> {
    if arguments == [] then None
    else if arguments[0].DevicesOption? then Some(arguments[0].devices) else DevicesIn(arguments[1..])
  }

  lemma {:induction false} OptionsAppend(a: seq<Argument>, b: seq<Argument>)
    ensures CpusIn(a + b) == if CpusIn(a).Some? then CpusIn(a) else CpusIn(b)
    ensures MemoryIn(a + b) == if MemoryIn(a).Some? then MemoryIn(a) else MemoryIn(b)
    ensures DevicesIn(a + b) == if DevicesIn(a).Some? then DevicesIn(a) else DevicesIn(b)
  {
    if a == [] {
      assert a + b == b;
    } else {
      OptionsAppend(a[1..], b);
      assert (a + b)[1..] == a[1..] + b;
    }
  }

  lemma OptionPush(a: seq<Argument>, x: Argument)
    ensures CpusIn(a + [x]) == if CpusIn(a).None? && x.CpusOption? then Some(x.cpus) else CpusIn(a)
    ensures MemoryIn(a + [x]) == if MemoryIn(a).None? && x.MemoryOption? then Some(x.bytes) else MemoryIn(a)
    ensures DevicesIn(a + [x]) == if DevicesIn(a).None? && x.DevicesOption? then Some(x.devices) else DevicesIn(a)
  {
    OptionsAppend(a, [x]);
    assert [x][1..] == [];
  }

  /** What Kerf reads back from an update command is what was requested. */
  lemma UpdateArgumentsCarryTheRequest(r: LifecycleRequest, name: string)
    requires r.Update?
    ensures var a := UpdateArguments(r, name);
      && a[0] == Verb(UpdateCmd) && a[1] == Target(name)
      && CpusIn(a) == r.newCpus && MemoryIn(a) == r.newMemory && DevicesIn(a) == r.newDevices
      && (DryRunFlag in a <==> r.dryRun)
  {
    var a0 := [Verb(UpdateCmd), Target(name)];
    var a1 := if r.newCpus.Some? then a0 + [CpusOption(r.newCpus.value)] else a0;
    var a2 := if r.newMemory.Some? then a1 + [MemoryOption(r.newMemory.value)] else a1;
    var a3 := if r.newDevices.Some? then a2 + [DevicesOption(r.newDevices.value)] else a2;
    OptionPush([Verb(UpdateCmd)], Target(name));
    assert a0 == [Verb(UpdateCmd)] + [Target(name)];
    assert [Verb(UpdateCmd)][1..] == [];
    if r.newCpus.Some? { OptionPush(a0, CpusOption(r.newCpus.value)); }
    if r.newMemory.Some? { OptionPush(a1, MemoryOption(r.newMemory.value)); }
    if r.newDevices.Some? { OptionPush(a2, DevicesOption(r.newDevices.value)); }
    OptionPush(a3, DryRunFlag);
  }

  // -------------------------------------------------- what Kerf does with it

  /** Everything but the snapshot generation stamped on the instance and its image flag. */
  predicate Same(a: Instance, b: Instance) {
    a.id == b.id && a.name == b.name && a.state == b.state && a.resources == b.resources
  }

  /** Same identity and resources; the lifecycle state may differ. */
  predicate Kept(a: Instance, b: Instance) {
    a.id == b.id && a.name == b.name && a.resources == b.resources
  }

  /** An update replaces the given resources, as sets where the kernel keeps sets, and keeps the memory base. */
  predicate Replaced(a: Instance, cpus: Option<seq<U32>>, memory: Option<U64>, devices: Option<seq<string>>, b: Instance) {
    && a.id == b.id && a.name == b.name && a.state == b.state
    && b.resources.memoryBase == a.resources.memoryBase
    && Elements(b.resources.cpus) == Elements(cpus.Or(a.resources.cpus))
    && b.resources.memoryBytes == memory.Or(a.resources.memoryBytes)
    && Elements(b.resources.devices) == Elements(devices.Or(a.resources.devices))
  }

  /** Two ranges share no address. */
  predicate Apart(a: Instance, b: Instance) {
    a.resources.memoryBytes > 0 && b.resources.memoryBytes > 0
    && a.resources.memoryBase.Some? && b.resources.memoryBase.Some? ==>
      || a.resources.memoryBase.value + a.resources.memoryBytes <= b.resources.memoryBase.value
      || b.resources.memoryBase.value + b.resources.memoryBytes <= a.resources.memoryBase.value
  }

  /** A non-empty range has a known base and lies in one region. */
  predicate Placed(i: Instance, regions: seq<MemoryRegion>) {
    i.resources.memoryBytes > 0 ==>
      && i.resources.memoryBase.Some?
      && InSomeRegion(i.resources.memoryBase.value, i.resources.memoryBytes, regions)
  }

  predicate PoolKept(s: HostSnapshot, t: HostSnapshot) {
    t.pool.cpus == s.pool.cpus && t.pool.regions == s.pool.regions
  }

  /** Kerf picks a free range inside one region; a new instance has no devices. */
  predicate CreateEffect(arguments: seq<Argument>, s: HostSnapshot, t: HostSnapshot) {
    && |arguments| >= 3 && arguments[1].Target? && arguments[2].IdOption?
    && CpusIn(arguments).Some? && MemoryIn(arguments).Some?
    && PoolKept(s, t)
    && |t.instances| == |s.instances| + 1
    && (forall k {:trigger Same(s.instances[k], t.instances[k])} ::
          0 <= k < |s.instances| ==> Same(s.instances[k], t.instances[k]))
    && var new' := t.instances[|s.instances|];
    && new'.name == arguments[1].name && new'.id == arguments[2].id && new'.state == Ready
    && Elements(new'.resources.cpus) == Elements(CpusIn(arguments).value)
    && new'.resources.memoryBytes == MemoryIn(arguments).value
    && new'.resources.devices == []
    && Placed(new', t.pool.regions)
    && (forall k {:trigger Apart(s.instances[k], new')} :: 0 <= k < |s.instances| ==> Apart(s.instances[k], new'))
  }

  /** What an update makes of one instance. */
  predicate UpdateOf(a: Instance, arguments: seq<Argument>, b: Instance)
    requires |arguments| >= 2 && arguments[1].Target?
  {
    if a.name == arguments[1].name && DryRunFlag !in arguments
    then Replaced(a, CpusIn(arguments), MemoryIn(arguments), DevicesIn(arguments), b)
    else Same(a, b)
  }

  predicate UpdateEffect(arguments: seq<Argument>, s: HostSnapshot, t: HostSnapshot) {
    && |arguments| >= 2 && arguments[1].Target?
    && PoolKept(s, t)
    && |t.instances| == |s.instances|
    && forall k {:trigger UpdateOf(s.instances[k], arguments, t.instances[k])} ::
         0 <= k < |s.instances| ==> UpdateOf(s.instances[k], arguments, t.instances[k])
  }

  /** What a lifecycle transition makes of one instance. */
  predicate StateOf(a: Instance, id: U32, to: InstanceState, b: Instance) {
    Kept(a, b) && b.state == if a.id == id then to else a.state
  }

  predicate StateEffect(arguments: seq<Argument>, to: InstanceState, s: HostSnapshot, t: HostSnapshot) {
    && |arguments| >= 2 && arguments[1].IdOption?
    && PoolKept(s, t)
    && |t.instances| == |s.instances|
    && forall k {:trigger StateOf(s.instances[k], arguments[1].id, to, t.instances[k])} ::
         0 <= k < |s.instances| ==> StateOf(s.instances[k], arguments[1].id, to, t.instances[k])
  }

  /** Every instance of `t` is an unchanged instance of `s`, in order; `e` says which. */
  ghost predicate Embeds(s: HostSnapshot, t: HostSnapshot, e: seq<nat>) {
    && |e| == |t.instances|
    && (forall j {:trigger e[j]} :: 0 <= j < |e| ==> e[j] < |s.instances| && Kept(s.instances[e[j]], t.instances[j]))
    && (forall i, j {:trigger e[i], e[j]} :: 0 <= i < j < |e| ==> e[i] < e[j])
  }

  ghost predicate RemainsAfterDelete(e: seq<nat>, id: U32, s: HostSnapshot, t: HostSnapshot) {
    && Embeds(s, t, e)
    && (forall j {:trigger e[j]} :: 0 <= j < |e| ==> t.instances[j].state == s.instances[e[j]].state)
    && (forall k {:trigger k in e} :: 0 <= k < |s.instances| ==> (k in e <==> s.instances[k].id != id))
  }

  ghost predicate DeleteEffect(arguments: seq<Argument>, s: HostSnapshot, t: HostSnapshot) {
    && |arguments| >= 2 && arguments[1].IdOption?
    && PoolKept(s, t)
    && exists e :: RemainsAfterDelete(e, arguments[1].id, s, t)
  }

  predicate Unmoved(s: HostSnapshot, t: HostSnapshot) {
    && |t.instances| == |s.instances|
    && forall k {:trigger Same(s.instances[k], t.instances[k])} ::
         0 <= k < |s.instances| ==> Same(s.instances[k], t.instances[k])
  }

  /** A pool resize replaces the CPU set and the regions, and leaves the instances alone. */
  predicate ResizeEffect(arguments: seq<Argument>, s: HostSnapshot, t: HostSnapshot) {
    && CpusIn(arguments).Some? && MemoryIn(arguments).Some?
    && Elements(t.pool.cpus) == Elements(CpusIn(arguments).value)
    && RegionBytes(t.pool.regions) == MemoryIn(arguments).value
    && Unmoved(s, t)
  }

  ghost predicate AllPlaced(s: HostSnapshot) {
    forall k {:trigger Placed(s.instances[k], s.pool.regions)} ::
      0 <= k < |s.instances| ==> Placed(s.instances[k], s.pool.regions)
  }

  /** The kernel reports what is left over, and device identity and IOMMU groups do not change. */
  ghost predicate Reported(s: HostSnapshot, t: HostSnapshot) {
    && t.pool.devices == s.pool.devices
    && Elements(t.pool.availableCpus) == Elements(t.pool.cpus) - Pools.AssignedCpus(t.instances)
  }

  /** One faithful execution of an argument list. A resize never moves a live range out of the pool. */
  ghost predicate Runs(arguments: seq<Argument>, s: HostSnapshot, t: HostSnapshot) {
    && arguments != [] && arguments[0].Verb?
    && Reported(s, t)
    && match arguments[0].command
       case CreateCmd => CreateEffect(arguments, s, t)
       case UpdateCmd => UpdateEffect(arguments, s, t)
       case LoadCmd => StateEffect(arguments, Loaded, s, t)
       case ExecCmd => StateEffect(arguments, Active, s, t)
       case KillCmd => StateEffect(arguments, Loaded, s, t)
       case UnloadCmd => StateEffect(arguments, Ready, s, t)
       case DeleteCmd => DeleteEffect(arguments, s, t)
       case InitCmd => ResizeEffect(arguments, s, t) && AllPlaced(t)
  }

  // ---------------------------------------- arguments of the planned commands

  lemma CreateArguments(r: LifecycleRequest, s: HostSnapshot)
    requires r.Create? && PlanCreate(r, s).Ok?
    ensures var a := PlanCreate(r, s).value.arguments;
      && a[1] == Target(r.name) && a[2] == IdOption(r.id)
      && CpusIn(a) == Some(r.cpus) && MemoryIn(a) == Some(r.memoryBytes)
  {
    var a := PlanCreate(r, s).value.arguments;
    assert a == [Verb(CreateCmd), Target(r.name), IdOption(r.id)] + ([CpusOption(r.cpus)] + [MemoryOption(r.memoryBytes)]);
    assert [Verb(CreateCmd), Target(r.name), IdOption(r.id)][1..] == [Target(r.name)] + [IdOption(r.id)];
    forall x: Argument ensures [x][1..] == [] {}
    OptionsAppend([Verb(CreateCmd), Target(r.name), IdOption(r.id)], [CpusOption(r.cpus)] + [MemoryOption(r.memoryBytes)]);
    OptionsAppend([CpusOption(r.cpus)], [MemoryOption(r.memoryBytes)]);
    OptionsAppend([Target(r.name)], [IdOption(r.id)]);
  }

  lemma ResizeArguments(r: Pools.ResourcePoolRequest, s: HostSnapshot)
    requires Pools.PlanPool(r, s).Ok?
    ensures var a := Pools.PlanPool(r, s).value.arguments;
      && a[0] == Verb(InitCmd)
      && CpusIn(a).Some? && Elements(CpusIn(a).value) == Elements(r.cpus) && MemoryIn(a) == Some(r.memoryBytes)
  {
    var a := Pools.PlanPool(r, s).value.arguments;
    Pools.PlannedCpusAreTheRequest(r, s);
    assert a == [a[0]] + ([a[1]] + [a[2]]);
    forall x: Argument ensures [x][1..] == [] {}
    OptionsAppend([a[0]], [a[1]] + [a[2]]);
    OptionsAppend([a[1]], [a[2]]);
  }

  function VerbOf(r: LifecycleRequest): Command {
    match r
    case Create(_, _, _, _, _) => CreateCmd
    case Update(_, _, _, _, _) => UpdateCmd
    case Load(_, _, _, _) => LoadCmd
    case Start(_) => ExecCmd
    case Stop(_, _) => KillCmd
    case Unload(_) => UnloadCmd
    case Delete(_) => DeleteCmd
  }

  lemma PlannedVerb(r: LifecycleRequest, s: HostSnapshot)
    requires Plan(r, s).Ok?
    ensures var a := Plan(r, s).value.arguments;
      && |a| >= 2 && a[0] == Verb(VerbOf(r))
      && (r.Create? || r.Update? || a[1] == IdOption(r.instance.id))
    ensures r.Create? ==> PlanCreate(r, s) == Plan(r, s)
    ensures r.Update? ==> PlanUpdate(r, s) == Plan(r, s)
  {
  }
}
