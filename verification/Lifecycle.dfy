/** Typed lifecycle command planning against an authoritative snapshot. */
module Lifecycle {
  import opened Prelude
  import opened Snapshots
  import opened Placement

  datatype InstanceRequest = InstanceRequest(expectedGeneration: U64, id: U32)

  datatype LifecycleRequest =
    | Create(expectedGeneration: U64, id: U32, name: string, cpus: seq<U32>, memoryBytes: U64)
    | Update(instance: InstanceRequest, newCpus: Option<seq<U32>>, newMemory: Option<U64>,
             newDevices: Option<seq<string>>, dryRun: bool)
    | Load(instance: InstanceRequest, kernel: string, initrd: Option<string>, cmdline: Option<string>)
    | Start(instance: InstanceRequest)
    | Stop(instance: InstanceRequest, force: bool)
    | Unload(instance: InstanceRequest)
    | Delete(instance: InstanceRequest)
  {
    function Generation(): U64 {
      if Create? then expectedGeneration else instance.expectedGeneration
    }
  }

  datatype ExpectedState =
    | ExpectInstance(id: U32, state: InstanceState)
    | ExpectResources(id: U32, state: InstanceState, name: Option<string>, cpus: Option<seq<U32>>,
                      memoryBytes: Option<U64>, devices: Option<seq<string>>)
    | ExpectPool(poolCpus: seq<U32>, poolBytes: U64)
    | ExpectAbsent(id: U32)

  datatype Command = CreateCmd | UpdateCmd | LoadCmd | ExecCmd | KillCmd | UnloadCmd | DeleteCmd | InitCmd

  /** One Kerf argument; the text rendering of option values is abstracted. */
  datatype Argument =
    | Verb(command: Command)
    | Target(name: string)
    | IdOption(id: U32)
    | CpusOption(cpus: seq<U32>)
    | MemoryOption(bytes: U64)
    | DevicesOption(devices: seq<string>)
    | KernelOption(path: string)
    | InitrdOption(path: string)
    | CmdlineOption(text: string)
    | DryRunFlag
    | ForceFlag

  datatype KerfInvocation = KerfInvocation(arguments: seq<Argument>, expected: ExpectedState, mutatesKernel: bool)

  datatype InvalidReason =
    | BadId | BadName | BadCpus | ZeroMemory | EmptyUpdate | EmptyKernelPath | EmptyInitrdPath

  datatype MemoryPlacementError =
    | InsufficientAvailable(requested: U64, available: U64)
    | NoContiguousPoolChunk(requested: U64)
    | MissingInstanceBase(id: U32)
    | LeavesPoolChunk(base: U64, requested: U64)
    | OverlapsInstance(peerName: string)
    | AddressOverflow

  datatype DevicePlacementError =
    | EmptySelection
    | InvalidPciId(pciId: string)
    | DuplicateDevice
    | NotManaged(pciId: string)
    | Unavailable(pciId: string)
    | OwnedByPeer(pciId: string, peerName: string)
    | MissingIommuGroup(pciId: string)
    | IncompleteIommuGroup(pciId: string, group: U32, missing: seq<string>)

  datatype LifecyclePlanError =
    | StaleGeneration(expected: U64, actual: U64)
    | InvalidRequest(reason: InvalidReason)
    | CpuPlacement(cpu: CpuPlacementError)
    | MemoryPlacement(memory: MemoryPlacementError)
    | DevicePlacement(device: DevicePlacementError)
    | NotFound
    | AlreadyExists
    | InvalidState(required: InstanceState, actualState: InstanceState)

  // ---------------------------------------------------------------- identity

  predicate ValidId(id: U32) {
    1 <= id <= 511
  }

  predicate AlphaNumeric(c: char) {
    '0' <= c <= '9' || 'a' <= c <= 'z' || 'A' <= c <= 'Z'
  }

  predicate ValidName(name: string) {
    && name != []
    && |name| <= 63
    && (forall c :: c in name ==> AlphaNumeric(c) || c in {'.', '_', '-'})
    && AlphaNumeric(name[0])
  }

  predicate ValidCpus(cpus: seq<U32>) {
    cpus != [] && |Elements(cpus)| == |cpus|
  }

  /** First instance with the given ID. */
  function Find(instances: seq<Instance>, id: U32): (r: Option<nat>)
    ensures r.Some? ==> r.value < |instances| && instances[r.value].id == id
    ensures r.None? <==> forall i :: i in instances ==> i.id != id
  {
    if instances == [] then None
    else if instances[0].id == id then Some(0)
    else
      match Find(instances[1..], id)
      case None => None
      case Some(k) => Some(k + 1)
  }

  /** `require_instance`: the index of the instance when it exists in the required state. */
  function RequireInstance(s: HostSnapshot, id: U32, required: InstanceState): (r: Result<nat, LifecyclePlanError>)
    ensures r.Ok? ==> r.value < |s.instances| && s.instances[r.value].id == id
                      && s.instances[r.value].state == required
    ensures r == Err(InvalidRequest(BadId)) <==> !ValidId(id)
    ensures r == Err(NotFound) <==> ValidId(id) && forall i :: i in s.instances ==> i.id != id
    ensures r.Ok? || r.error in {InvalidRequest(BadId), NotFound} || r.error.InvalidState?
    ensures r.Err? && r.error.InvalidState? ==>
      && r.error.required == required != r.error.actualState
      && exists i :: i in s.instances && i.id == id && i.state == r.error.actualState
  {
    if !ValidId(id) then Err(InvalidRequest(BadId))
    else
      match Find(s.instances, id)
      case None => Err(NotFound)
      case Some(k) =>
        if s.instances[k].state != required then Err(InvalidState(required, s.instances[k].state)) else Ok(k)
  }

  // ------------------------------------------------------------------ memory

  /** `checked_sum`: the exact total, or `AddressOverflow` when it does not fit `u64`. */
  function CheckedRegionBytes(regions: seq<MemoryRegion>): (r: Option<U64>)
    ensures r == if RegionBytes(regions) <= U64_MAX then Some(RegionBytes(regions)) else None
  {
    if regions == [] then Some(0)
    else
      match CheckedRegionBytes(regions[..|regions| - 1])
      case None => None
      case Some(total) => CheckedAdd(total, regions[|regions| - 1].bytes)
  }

  function CheckedAssignedBytes(instances: seq<Instance>): (r: Option<U64>)
    ensures r == if AssignedBytes(instances) <= U64_MAX then Some(AssignedBytes(instances)) else None
  {
    if instances == [] then Some(0)
    else
      match CheckedAssignedBytes(instances[..|instances| - 1])
      case None => None
      case Some(total) => CheckedAdd(total, instances[|instances| - 1].resources.memoryBytes)
  }

  function CreateMemoryError(s: HostSnapshot, requested: U64): Option<MemoryPlacementError> {
    match CheckedRegionBytes(s.pool.regions)
    case None => Some(AddressOverflow)
    case Some(pool) =>
      match CheckedAssignedBytes(s.instances)
      case None => Some(AddressOverflow)
      case Some(used) =>
        var available := SaturatingSub(pool, used);
        if requested > available then Some(InsufficientAvailable(requested, available))
        else if !exists r :: r in s.pool.regions && r.bytes >= requested then Some(NoContiguousPoolChunk(requested))
        else None
  }

  /** A range lies in one pool region, with no wrap of the region's end. */
  predicate InRegion(base: U64, bytes: U64, region: MemoryRegion) {
    && region.base + region.bytes <= U64_MAX
    && region.base <= base
    && base + bytes <= region.base + region.bytes
  }

  predicate InSomeRegion(base: U64, bytes: U64, regions: seq<MemoryRegion>) {
    exists r :: r in regions && InRegion(base, bytes, r)
  }

  /** A peer is known not to touch `[base, end)`. */
  predicate PeerClear(peer: Instance, base: U64, end: U64) {
    match peer.resources.memoryBase
    case None => peer.resources.memoryBytes == 0
    case Some(peerBase) =>
      && peerBase + peer.resources.memoryBytes <= U64_MAX
      && !(base < peerBase + peer.resources.memoryBytes && peerBase < end)
  }

  function PeerMemoryError(peers: seq<Instance>, id: U32, base: U64, end: U64): (e: Option<MemoryPlacementError>)
    ensures e.None? <==> forall p :: p in peers && p.id != id ==> PeerClear(p, base, end)
  {
    if peers == [] then None
    else
      var peer := peers[0];
      assert peer in peers;
      if peer.id == id || PeerClear(peer, base, end) then PeerMemoryError(peers[1..], id, base, end)
      else
        match peer.resources.memoryBase
        case None => Some(MissingInstanceBase(peer.id))
        case Some(peerBase) =>
          if CheckedAdd(peerBase, peer.resources.memoryBytes).None? then Some(AddressOverflow)
          else Some(OverlapsInstance(peer.name))
  }

  function UpdateMemoryError(s: HostSnapshot, instance: Instance, requested: U64): Option<MemoryPlacementError> {
    if requested <= instance.resources.memoryBytes then None
    else
      match instance.resources.memoryBase
      case None => Some(MissingInstanceBase(instance.id))
      case Some(base) =>
        match CheckedAdd(base, requested)
        case None => Some(AddressOverflow)
        case Some(end) =>
          if !InSomeRegion(base, requested, s.pool.regions) then Some(LeavesPoolChunk(base, requested))
          else PeerMemoryError(s.instances, instance.id, base, end)
  }

  // ----------------------------------------------------------------- devices

  predicate CanonicalPciId(id: string) {
    && |id| == 12
    && id[4] == ':' && id[7] == ':' && id[10] == '.'
    && forall k :: 0 <= k < 12 && k !in {4, 7, 10} ==> '0' <= id[k] <= '9' || 'a' <= id[k] <= 'f'
  }

  /** The managed-device map: a later entry replaces an earlier one with the same PCI ID. */
  function Managed(devices: seq<PciDevice>, id: string): (d: Option<PciDevice>)
    ensures d.Some? ==> d.value in devices && d.value.pciId == id
    ensures d.None? <==> forall e :: e in devices ==> e.pciId != id
  {
    if devices == [] then None
    else if devices[|devices| - 1].pciId == id then Some(devices[|devices| - 1])
    else Managed(devices[..|devices| - 1], id)
  }

  function FirstInvalidPciId(requested: seq<string>): (e: Option<string>)
    ensures e.None? <==> forall d :: d in requested ==> CanonicalPciId(d)
  {
    if requested == [] then None
    else if !CanonicalPciId(requested[0]) then Some(requested[0])
    else FirstInvalidPciId(requested[1..])
  }

  function FirstShared(owned: seq<string>, requested: set<string>): (e: Option<string>)
    ensures e.None? <==> Elements(owned) !! requested
  {
    if owned == [] then None
    else if owned[0] in requested then
      assert owned[0] in Elements(owned);
      Some(owned[0])
    else
      assert Elements(owned) == {owned[0]} + Elements(owned[1..]);
      FirstShared(owned[1..], requested)
  }

  function PeerDeviceError(peers: seq<Instance>, id: U32, requested: set<string>): (e: Option<DevicePlacementError>)
    ensures e.None? <==>
      forall p :: p in peers && p.id != id ==> Elements(p.resources.devices) !! requested
  {
    if peers == [] then None
    else
      var peer := peers[0];
      assert peer in peers;
      var shared := FirstShared(peer.resources.devices, requested);
      if peer.id != id && shared.Some? then Some(OwnedByPeer(shared.value, peer.name))
      else PeerDeviceError(peers[1..], id, requested)
  }

  /** Group members that the request leaves out or that are not managed. */
  function MissingMembers(members: seq<string>, requested: set<string>, devices: seq<PciDevice>): (m: seq<string>)
    ensures m == [] <==> forall d :: d in members ==> d in requested && Managed(devices, d).Some?
  {
    if members == [] then []
    else
      var rest := MissingMembers(members[1..], requested, devices);
      assert members == [members[0]] + members[1..];
      if members[0] !in requested || Managed(devices, members[0]).None? then [members[0]] + rest else rest
  }

  /** The device may move to the instance together with its whole IOMMU group. */
  predicate Assignable(s: HostSnapshot, instance: Instance, requested: set<string>, id: string) {
    var device := Managed(s.pool.devices, id);
    && device.Some?
    && (id in s.pool.availableDevices || id in instance.resources.devices)
    && device.value.iommuGroup.Some?
    && forall m :: m in device.value.iommuGroupMembers ==> m in requested && Managed(s.pool.devices, m).Some?
  }

  function DeviceError(s: HostSnapshot, instance: Instance, requested: set<string>, id: string):
    (e: Option<DevicePlacementError>)
    ensures e.None? <==> Assignable(s, instance, requested, id)
  {
    match Managed(s.pool.devices, id)
    case None => Some(NotManaged(id))
    case Some(device) =>
      if id !in s.pool.availableDevices && id !in instance.resources.devices then Some(Unavailable(id))
      else if device.iommuGroup.None? then Some(MissingIommuGroup(id))
      else
        var missing := MissingMembers(device.iommuGroupMembers, requested, s.pool.devices);
        if missing != [] then Some(IncompleteIommuGroup(id, device.iommuGroup.value, missing)) else None
  }

  function DeviceScan(s: HostSnapshot, instance: Instance, all: set<string>, requested: seq<string>):
    (e: Option<DevicePlacementError>)
    ensures e.None? <==> forall d :: d in requested ==> Assignable(s, instance, all, d)
  {
    if requested == [] then None
    else
      var error := DeviceError(s, instance, all, requested[0]);
      assert requested[0] in requested;
      if error.Some? then error else DeviceScan(s, instance, all, requested[1..])
  }

  function UpdateDevicesError(s: HostSnapshot, instance: Instance, requested: seq<string>):
    Option<DevicePlacementError>
  {
    var all := Elements(requested);
    if requested == [] then Some(EmptySelection)
    else if |all| != |requested| then Some(DuplicateDevice)
    else
      var invalid := FirstInvalidPciId(requested);
      if invalid.Some? then Some(InvalidPciId(invalid.value))
      else
        var owned := PeerDeviceError(s.instances, instance.id, all);
        if owned.Some? then owned else DeviceScan(s, instance, all, requested)
  }

  // ---------------------------------------------------------------- planning

  function PlanCreate(r: LifecycleRequest, s: HostSnapshot): Result<KerfInvocation, LifecyclePlanError>
    requires r.Create?
  {
    if !ValidName(r.name) then Err(InvalidRequest(BadName))
    else if !ValidId(r.id) then Err(InvalidRequest(BadId))
    else if !ValidCpus(r.cpus) then Err(InvalidRequest(BadCpus))
    else
      var cpuError := InstanceCpuError(s, r.cpus, []);
      if cpuError.Some? then Err(CpuPlacement(cpuError.value))
      else if r.memoryBytes == 0 then Err(InvalidRequest(ZeroMemory))
      else if exists i :: i in s.instances && (i.id == r.id || i.name == r.name) then Err(AlreadyExists)
      else
        var memoryError := CreateMemoryError(s, r.memoryBytes);
        if memoryError.Some? then Err(MemoryPlacement(memoryError.value))
        else
          Ok(KerfInvocation(
               [Verb(CreateCmd), Target(r.name), IdOption(r.id), CpusOption(r.cpus), MemoryOption(r.memoryBytes)],
               ExpectResources(r.id, Ready, Some(r.name), Some(r.cpus), Some(r.memoryBytes), None),
               true))
  }

  /** First rejection of an update, in the order the source checks its resources. */
  function UpdateError(r: LifecycleRequest, s: HostSnapshot, instance: Instance): Option<LifecyclePlanError>
    requires r.Update?
  {
    if !ValidName(instance.name) then Some(InvalidRequest(BadName))
    else if r.newCpus.None? && r.newMemory.None? && r.newDevices.None? then Some(InvalidRequest(EmptyUpdate))
    else if r.newCpus.Some? && !ValidCpus(r.newCpus.value) then Some(InvalidRequest(BadCpus))
    else
      var cpuError := if r.newCpus.None? then None
                      else InstanceCpuError(s, r.newCpus.value, instance.resources.cpus);
      if cpuError.Some? then Some(CpuPlacement(cpuError.value))
      else if r.newMemory == Some(0) then Some(InvalidRequest(ZeroMemory))
      else
        var memoryError := if r.newMemory.None? then None else UpdateMemoryError(s, instance, r.newMemory.value);
        if memoryError.Some? then Some(MemoryPlacement(memoryError.value))
        else
          var deviceError := if r.newDevices.None? then None
                             else UpdateDevicesError(s, instance, r.newDevices.value);
          if deviceError.Some? then Some(DevicePlacement(deviceError.value)) else None
  }

  function UpdateArguments(r: LifecycleRequest, name: string): seq<Argument>
    requires r.Update?
  {
    var a0 := [Verb(UpdateCmd), Target(name)];
    var a1 := if r.newCpus.Some? then a0 + [CpusOption(r.newCpus.value)] else a0;
    var a2 := if r.newMemory.Some? then a1 + [MemoryOption(r.newMemory.value)] else a1;
    var a3 := if r.newDevices.Some? then a2 + [DevicesOption(r.newDevices.value)] else a2;
    if r.dryRun then a3 + [DryRunFlag] else a3
  }

  function PlanUpdate(r: LifecycleRequest, s: HostSnapshot): Result<KerfInvocation, LifecyclePlanError>
    requires r.Update?
  {
    match RequireInstance(s, r.instance.id, Ready)
    case Err(error) => Err(error)
    case Ok(k) =>
      var instance := s.instances[k];
      var error := UpdateError(r, s, instance);
      if error.Some? then Err(error.value)
      else
        Ok(KerfInvocation(
             UpdateArguments(r, instance.name),
             ExpectResources(r.instance.id, Ready, None, r.newCpus, r.newMemory, r.newDevices),
             !r.dryRun))
  }

  function PlanLoad(r: LifecycleRequest, s: HostSnapshot): Result<KerfInvocation, LifecyclePlanError>
    requires r.Load?
  {
    match RequireInstance(s, r.instance.id, Ready)
    case Err(error) => Err(error)
    case Ok(_) =>
      if r.kernel == [] then Err(InvalidRequest(EmptyKernelPath))
      else if r.initrd == Some([]) then Err(InvalidRequest(EmptyInitrdPath))
      else
        Ok(KerfInvocation(
             [Verb(LoadCmd), IdOption(r.instance.id), KernelOption(r.kernel)]
             + (if r.initrd.Some? then [InitrdOption(r.initrd.value)] else [])
             + (if r.cmdline.Some? then [CmdlineOption(r.cmdline.value)] else []),
             ExpectInstance(r.instance.id, Loaded),
             true))
  }

  function PlanStop(r: LifecycleRequest, s: HostSnapshot): Result<KerfInvocation, LifecyclePlanError>
    requires r.Stop?
  {
    match RequireInstance(s, r.instance.id, Active)
    case Err(error) => Err(error)
    case Ok(_) =>
      Ok(KerfInvocation(
           [Verb(KillCmd), IdOption(r.instance.id)] + (if r.force then [ForceFlag] else []),
           ExpectInstance(r.instance.id, Loaded),
           true))
  }

  function PlanStateCommand(command: Command, id: U32, s: HostSnapshot, required: InstanceState, expected: InstanceState):
    Result<KerfInvocation, LifecyclePlanError>
  {
    match RequireInstance(s, id, required)
    case Err(error) => Err(error)
    case Ok(_) =>
      Ok(KerfInvocation(
           [Verb(command), IdOption(id)],
           if expected == Absent then ExpectAbsent(id) else ExpectInstance(id, expected),
           true))
  }

  /** Validates a lifecycle request against an authoritative snapshot. */
  function Plan(r: LifecycleRequest, s: HostSnapshot): Result<KerfInvocation, LifecyclePlanError> {
    if r.Generation() != s.generation then Err(StaleGeneration(r.Generation(), s.generation))
    else
      match r
      case Create(_, _, _, _, _) => PlanCreate(r, s)
      case Update(_, _, _, _, _) => PlanUpdate(r, s)
      case Load(_, _, _, _) => PlanLoad(r, s)
      case Start(i) => PlanStateCommand(ExecCmd, i.id, s, Loaded, Active)
      case Stop(_, _) => PlanStop(r, s)
      case Unload(i) => PlanStateCommand(UnloadCmd, i.id, s, Loaded, Ready)
      case Delete(i) => PlanStateCommand(DeleteCmd, i.id, s, Ready, Absent)
  }

  /** Builds the update command the way the source does, pushing each validated option onto the argument vector. */
  method BuildUpdate(r: LifecycleRequest, s: HostSnapshot) returns (plan: Result<KerfInvocation, LifecyclePlanError>)
    requires r.Update?
    ensures plan == PlanUpdate(r, s)
  {
    var found := RequireInstance(s, r.instance.id, Ready);
    if found.Err? { return Err(found.error); }
    var instance := s.instances[found.value];
    if !ValidName(instance.name) { return Err(InvalidRequest(BadName)); }
    if r.newCpus.None? && r.newMemory.None? && r.newDevices.None? { return Err(InvalidRequest(EmptyUpdate)); }
    var arguments := [Verb(UpdateCmd), Target(instance.name)];
    if r.newCpus.Some? {
      if !ValidCpus(r.newCpus.value) { return Err(InvalidRequest(BadCpus)); }
      var error := InstanceCpuError(s, r.newCpus.value, instance.resources.cpus);
      if error.Some? { return Err(CpuPlacement(error.value)); }
      arguments := arguments + [CpusOption(r.newCpus.value)];
    }
    if r.newMemory.Some? {
      if r.newMemory.value == 0 { return Err(InvalidRequest(ZeroMemory)); }
      var error := UpdateMemoryError(s, instance, r.newMemory.value);
      if error.Some? { return Err(MemoryPlacement(error.value)); }
      arguments := arguments + [MemoryOption(r.newMemory.value)];
    }
    if r.newDevices.Some? {
      var error := UpdateDevicesError(s, instance, r.newDevices.value);
      if error.Some? { return Err(DevicePlacement(error.value)); }
      arguments := arguments + [DevicesOption(r.newDevices.value)];
    }
    if r.dryRun { arguments := arguments + [DryRunFlag]; }
    return Ok(KerfInvocation(
      arguments, ExpectResources(r.instance.id, Ready, None, r.newCpus, r.newMemory, r.newDevices), !r.dryRun));
  }
}
