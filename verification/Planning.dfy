/** Planning as a list of rules: a request is refused with the error of the first rule that it violates, and only then. */
module Planning {
  import opened Prelude
  import opened Snapshots
  import opened Placement
  import opened Lifecycle
  import opened Rules
  import Kerf
  import Pools = ResourcePools
  import Hosts

  // ------------------------------------------------------------------ identifiers

  predicate NameTail(rest: string) {
    |rest| <= 62 && forall c :: c in rest ==> AlphaNumeric(c) || c == '.' || c == '_' || c == '-'
  }

  predicate Named(name: string, c: char, rest: string) {
    name == [c] + rest && AlphaNumeric(c) && NameTail(rest)
  }

  /** A name is a letter or digit and at most 62 more of them, dots, underscores and dashes. */
  lemma NameIff(name: string)
    ensures ValidName(name) <==> exists c, rest :: Named(name, c, rest)
  {
    if ValidName(name) {
      assert name == [name[0]] + name[1..];
      assert Named(name, name[0], name[1..]);
    }
  }

  predicate HexDigit(c: char) {
    '0' <= c <= '9' || 'a' <= c <= 'f'
  }

  /** A lower-case hexadecimal field of a fixed width. */
  predicate HexField(s: string, width: nat) {
    |s| == width && forall k :: 0 <= k < |s| ==> HexDigit(s[k])
  }

  /** A domain, a bus, a device and a function, as a PCI ID spells them. */
  predicate SpellsPci(id: string, domain: string, bus: string, device: string, function': string) {
    && HexField(domain, 4) && HexField(bus, 2) && HexField(device, 2) && HexField(function', 1)
    && id == domain + ":" + bus + ":" + device + "." + function'
  }

  /** A PCI ID is canonical exactly when it spells them in fixed-width hexadecimal. */
  lemma CanonicalPciIdIff(id: string)
    ensures CanonicalPciId(id) <==> exists domain, bus, device, function' :: SpellsPci(id, domain, bus, device, function')
  {
    if CanonicalPciId(id) { CanonicalIsSpelled(id); }
    if domain, bus, device, function' :| SpellsPci(id, domain, bus, device, function') {
      SpelledIsCanonical(id, domain, bus, device, function');
    }
  }

  lemma CanonicalIsSpelled(id: string)
    requires CanonicalPciId(id)
    ensures SpellsPci(id, id[..4], id[5..7], id[8..10], id[11..])
  {
    assert id[..4] + ":" == id[..5] && id[..5] + id[5..7] == id[..7] && id[..7] + ":" == id[..8];
    assert id[..8] + id[8..10] == id[..10] && id[..10] + "." == id[..11] && id[..11] + id[11..] == id;
  }

  lemma SpelledIsCanonical(id: string, domain: string, bus: string, device: string, function': string)
    requires SpellsPci(id, domain, bus, device, function')
    ensures CanonicalPciId(id)
  {
    forall k | 0 <= k < 12 && k !in {4, 7, 10} ensures HexDigit(id[k]) {
      if k < 4 { assert id[k] == domain[k]; }
      else if k < 7 { assert id[k] == bus[k - 5]; }
      else if k < 10 { assert id[k] == device[k - 8]; }
      else { assert id[k] == function'[k - 11]; }
    }
    assert forall k :: 0 <= k < 12 && k !in {4, 7, 10} ==> HexDigit(id[k]);
  }

  // ------------------------------------------------------------------- instances

  /** Instance `k` is the one that the ID addresses. */
  predicate Addressed(s: HostSnapshot, id: U32, k: nat) {
    k < |s.instances| && s.instances[k].id == id && forall j :: 0 <= j < k ==> s.instances[j].id != id
  }

  lemma {:induction false} FindIsFirst(instances: seq<Instance>, id: U32)
    ensures Find(instances, id).Some? ==> forall j :: 0 <= j < Find(instances, id).value ==> instances[j].id != id
  {
    if instances != [] && instances[0].id != id { FindIsFirst(instances[1..], id); }
  }

  lemma AddressedIsFound(s: HostSnapshot, id: U32, k: nat)
    requires Addressed(s, id, k)
    ensures Find(s.instances, id) == Some(k)
  {
    FindIsFirst(s.instances, id);
    assert s.instances[k] in s.instances;
  }

  /** The state that a command needs its instance to be in. */
  function Needed(r: LifecycleRequest): InstanceState
    requires !r.Create?
  {
    match r
    case Update(_, _, _, _, _) => Ready
    case Load(_, _, _, _) => Ready
    case Start(_) => Loaded
    case Stop(_, _) => Active
    case Unload(_) => Loaded
    case Delete(_) => Ready
  }

  /** The addressed instance has to be in that state. */
  function StateRules(s: HostSnapshot, id: U32, needed: InstanceState): seq<Rule<LifecyclePlanError>> {
    [Rule(1 <= id <= 511, InvalidRequest(BadId)),
     Rule(exists i :: i in s.instances && i.id == id, NotFound),
     match Find(s.instances, id)
     case None => Rule(true, NotFound)
     case Some(k) => Rule(s.instances[k].state == needed, InvalidState(needed, s.instances[k].state))]
  }

  lemma StateDecides(s: HostSnapshot, id: U32, needed: InstanceState)
    ensures FirstViolated(StateRules(s, id, needed)) ==
            match RequireInstance(s, id, needed) case Ok(_) => None case Err(e) => Some(e)
  {
    var rules := StateRules(s, id, needed);
    assert rules == [rules[0]] + ([rules[1]] + [rules[2]]);
    FirstCons(rules[0], [rules[1]] + [rules[2]]);
    FirstCons(rules[1], [rules[2]]);
    FirstOne(rules[2]);
  }

  /** Load, start, stop, unload and delete are accepted exactly in the one state that each is for. */
  lemma CommandAcceptedIff(r: LifecycleRequest, s: HostSnapshot)
    requires !r.Create? && !r.Update?
    ensures Plan(r, s).Ok? <==>
      && r.instance.expectedGeneration == s.generation && 1 <= r.instance.id <= 511
      && (exists k: nat {:trigger Addressed(s, r.instance.id, k)} :: Addressed(s, r.instance.id, k) && s.instances[k].state == Needed(r))
      && (r.Load? ==> r.kernel != [] && r.initrd != Some([]))
  {
    FindIsFirst(s.instances, r.instance.id);
    forall k: nat | Addressed(s, r.instance.id, k) ensures Find(s.instances, r.instance.id) == Some(k) {
      AddressedIsFound(s, r.instance.id, k);
    }
    var found := Find(s.instances, r.instance.id);
    if found.Some? { assert Addressed(s, r.instance.id, found.value); }
  }

  /** In any other state the answer names the state needed and the state found. */
  lemma CommandStateRefusedIff(r: LifecycleRequest, s: HostSnapshot, k: nat)
    requires !r.Create? && Addressed(s, r.instance.id, k)
    ensures Plan(r, s) == Err(InvalidState(Needed(r), s.instances[k].state)) <==>
      && r.instance.expectedGeneration == s.generation && 1 <= r.instance.id <= 511
      && s.instances[k].state != Needed(r)
  {
    AddressedIsFound(s, r.instance.id, k);
  }

  // ------------------------------------------------------------------------ CPUs

  function CpuRules(s: HostSnapshot, requested: seq<U32>, own: seq<U32>): seq<Rule<LifecyclePlanError>> {
    seq(|requested|, k requires 0 <= k < |requested| =>
      Rule(requested[k] in s.pool.availableCpus || requested[k] in own, CpuPlacement(UnavailableHardwareId(requested[k]))))
  }

  lemma {:induction false} CpusDecide(s: HostSnapshot, requested: seq<U32>, own: seq<U32>)
    ensures FirstViolated(CpuRules(s, requested, own)) ==
            match InstanceCpuError(s, requested, own) case None => None case Some(e) => Some(CpuPlacement(e))
  {
    if requested != [] {
      CpusDecide(s, requested[1..], own);
      assert CpuRules(s, requested, own)[1..] == CpuRules(s, requested[1..], own);
    }
  }

  // ---------------------------------------------------------------------- memory

  function CreateMemoryRules(s: HostSnapshot, bytes: U64): seq<Rule<LifecyclePlanError>> {
    var pool, used := RegionBytes(s.pool.regions), AssignedBytes(s.instances);
    [Rule(pool <= U64_MAX, MemoryPlacement(AddressOverflow)),
     Rule(used <= U64_MAX, MemoryPlacement(AddressOverflow)),
     Rule(used + bytes <= pool || bytes == 0,
          MemoryPlacement(InsufficientAvailable(bytes, if used <= pool <= U64_MAX then pool - used else 0))),
     Rule(exists r :: r in s.pool.regions && r.bytes >= bytes, MemoryPlacement(NoContiguousPoolChunk(bytes)))]
  }

  lemma CreateMemoryDecides(s: HostSnapshot, bytes: U64)
    ensures FirstViolated(CreateMemoryRules(s, bytes)) ==
            match CreateMemoryError(s, bytes) case None => None case Some(e) => Some(MemoryPlacement(e))
  {
    var rules := CreateMemoryRules(s, bytes);
    assert rules == [rules[0]] + ([rules[1]] + ([rules[2]] + [rules[3]]));
    FirstCons(rules[0], [rules[1]] + ([rules[2]] + [rules[3]]));
    FirstCons(rules[1], [rules[2]] + [rules[3]]);
    FirstCons(rules[2], [rules[3]]);
    FirstOne(rules[3]);
  }

  /** A peer's range must be known, must not wrap, and must not meet `[base, end)`. */
  function PeerRules(peer: Instance, base: U64, end: U64): seq<Rule<LifecyclePlanError>> {
    match peer.resources.memoryBase
    case None => [Rule(peer.resources.memoryBytes == 0, MemoryPlacement(MissingInstanceBase(peer.id)))]
    case Some(at) =>
      [Rule(at + peer.resources.memoryBytes <= U64_MAX, MemoryPlacement(AddressOverflow)),
       Rule(at + peer.resources.memoryBytes <= base || end <= at, MemoryPlacement(OverlapsInstance(peer.name)))]
  }

  function PeersRules(peers: seq<Instance>, id: U32, base: U64, end: U64): seq<Rule<LifecyclePlanError>> {
    if peers == [] then []
    else (if peers[0].id == id then [] else PeerRules(peers[0], base, end)) + PeersRules(peers[1..], id, base, end)
  }

  lemma PeerDecides(peer: Instance, base: U64, end: U64)
    ensures FirstViolated(PeerRules(peer, base, end)).None? <==> PeerClear(peer, base, end)
    ensures FirstViolated(PeerRules(peer, base, end)) ==
            if PeerClear(peer, base, end) then None
            else if peer.resources.memoryBase.None? then Some(MemoryPlacement(MissingInstanceBase(peer.id)))
            else if peer.resources.memoryBase.value + peer.resources.memoryBytes > U64_MAX then Some(MemoryPlacement(AddressOverflow))
            else Some(MemoryPlacement(OverlapsInstance(peer.name)))
  {
    var rules := PeerRules(peer, base, end);
    if peer.resources.memoryBase.None? {
      FirstOne(rules[0]);
    } else {
      assert rules == [rules[0]] + [rules[1]];
      FirstCons(rules[0], [rules[1]]);
      FirstOne(rules[1]);
    }
  }

  lemma {:induction false} PeersDecide(peers: seq<Instance>, id: U32, base: U64, end: U64)
    ensures FirstViolated(PeersRules(peers, id, base, end)) ==
            match PeerMemoryError(peers, id, base, end) case None => None case Some(e) => Some(MemoryPlacement(e))
  {
    if peers != [] {
      var first := if peers[0].id == id then [] else PeerRules(peers[0], base, end);
      PeersDecide(peers[1..], id, base, end);
      PeerDecides(peers[0], base, end);
      FirstAppend(first, PeersRules(peers[1..], id, base, end));
    }
  }

  /** A range that ends at `end` has to lie in one region and be clear of every peer. */
  function RangeRules(s: HostSnapshot, id: U32, base: U64, bytes: U64, end: U64): seq<Rule<LifecyclePlanError>> {
    [Rule(InSomeRegion(base, bytes, s.pool.regions), MemoryPlacement(LeavesPoolChunk(base, bytes)))]
    + PeersRules(s.instances, id, base, end)
  }

  /** A range lies in a region exactly when one holds it from its first to its last address and does not wrap. */
  lemma InSomeRegionIff(base: U64, bytes: U64, regions: seq<MemoryRegion>)
    ensures InSomeRegion(base, bytes, regions) <==>
      exists k :: 0 <= k < |regions| && regions[k].base <= base
                  && base + bytes <= regions[k].base + regions[k].bytes <= 0xFFFF_FFFF_FFFF_FFFF
  {
    if InSomeRegion(base, bytes, regions) {
      var r :| r in regions && InRegion(base, bytes, r);
      var k :| 0 <= k < |regions| && regions[k] == r;
    }
    if k :| 0 <= k < |regions| && regions[k].base <= base
            && base + bytes <= regions[k].base + regions[k].bytes <= 0xFFFF_FFFF_FFFF_FFFF
    {
      assert regions[k] in regions && InRegion(base, bytes, regions[k]);
    }
  }

  /** Only growth is checked, from the old base on. */
  function GrowthRules(s: HostSnapshot, i: Instance, bytes: U64): seq<Rule<LifecyclePlanError>> {
    if bytes <= i.resources.memoryBytes then []
    else if i.resources.memoryBase.None? then [Rule(false, MemoryPlacement(MissingInstanceBase(i.id)))]
    else if i.resources.memoryBase.value + bytes > U64_MAX then [Rule(false, MemoryPlacement(AddressOverflow))]
    else RangeRules(s, i.id, i.resources.memoryBase.value, bytes, i.resources.memoryBase.value + bytes)
  }

  lemma RangeDecides(s: HostSnapshot, id: U32, base: U64, bytes: U64, end: U64)
    ensures FirstViolated(RangeRules(s, id, base, bytes, end)) ==
            if !InSomeRegion(base, bytes, s.pool.regions) then Some(MemoryPlacement(LeavesPoolChunk(base, bytes)))
            else match PeerMemoryError(s.instances, id, base, end) case None => None case Some(e) => Some(MemoryPlacement(e))
  {
    PeersDecide(s.instances, id, base, end);
    FirstCons(Rule(InSomeRegion(base, bytes, s.pool.regions), MemoryPlacement(LeavesPoolChunk(base, bytes))),
              PeersRules(s.instances, id, base, end));
  }

  lemma GrowthDecides(s: HostSnapshot, i: Instance, bytes: U64)
    ensures FirstViolated(GrowthRules(s, i, bytes)) ==
            match UpdateMemoryError(s, i, bytes) case None => None case Some(e) => Some(MemoryPlacement(e))
  {
    if bytes > i.resources.memoryBytes {
      if i.resources.memoryBase.None? {
        FirstOne(Rule(false, MemoryPlacement(MissingInstanceBase(i.id))));
      } else {
        var base := i.resources.memoryBase.value;
        if base + bytes > U64_MAX {
          FirstOne(Rule(false, MemoryPlacement(AddressOverflow)));
        } else {
          RangeDecides(s, i.id, base, bytes, base + bytes);
        }
      }
    }
  }

  // --------------------------------------------------------------------- devices

  function FormRules(requested: seq<string>): seq<Rule<LifecyclePlanError>> {
    seq(|requested|, k requires 0 <= k < |requested| =>
      Rule(CanonicalPciId(requested[k]), DevicePlacement(InvalidPciId(requested[k]))))
  }

  lemma {:induction false} FormDecides(requested: seq<string>)
    ensures FirstViolated(FormRules(requested)) ==
            match FirstInvalidPciId(requested) case None => None case Some(d) => Some(DevicePlacement(InvalidPciId(d)))
  {
    if requested != [] {
      FormDecides(requested[1..]);
      assert FormRules(requested)[1..] == FormRules(requested[1..]);
    }
  }

  function OwnerRules(owned: seq<string>, name: string, requested: set<string>): seq<Rule<LifecyclePlanError>> {
    seq(|owned|, k requires 0 <= k < |owned| => Rule(owned[k] !in requested, DevicePlacement(OwnedByPeer(owned[k], name))))
  }

  lemma {:induction false} OwnerDecides(owned: seq<string>, name: string, requested: set<string>)
    ensures FirstViolated(OwnerRules(owned, name, requested)) ==
            match FirstShared(owned, requested) case None => None case Some(d) => Some(DevicePlacement(OwnedByPeer(d, name)))
  {
    if owned != [] {
      OwnerDecides(owned[1..], name, requested);
      assert OwnerRules(owned, name, requested)[1..] == OwnerRules(owned[1..], name, requested);
    }
  }

  function OwnersRules(peers: seq<Instance>, id: U32, requested: set<string>): seq<Rule<LifecyclePlanError>> {
    if peers == [] then []
    else
      (if peers[0].id == id then [] else OwnerRules(peers[0].resources.devices, peers[0].name, requested))
      + OwnersRules(peers[1..], id, requested)
  }

  lemma {:induction false} OwnersDecide(peers: seq<Instance>, id: U32, requested: set<string>)
    ensures FirstViolated(OwnersRules(peers, id, requested)) ==
            match PeerDeviceError(peers, id, requested) case None => None case Some(e) => Some(DevicePlacement(e))
  {
    if peers != [] {
      var first := if peers[0].id == id then [] else OwnerRules(peers[0].resources.devices, peers[0].name, requested);
      OwnersDecide(peers[1..], id, requested);
      OwnerDecides(peers[0].resources.devices, peers[0].name, requested);
      FirstAppend(first, OwnersRules(peers[1..], id, requested));
    }
  }

  /** The members of a group that the answer names: those left out of the request or not managed, in group order. */
  lemma {:induction false} MissingAre(members: seq<string>, requested: set<string>, devices: seq<PciDevice>)
    ensures var missing := MissingMembers(members, requested, devices);
      && (forall d :: d in missing <==> d in members && !(d in requested && exists e :: e in devices && e.pciId == d))
      && |missing| <= |members|
  {
    if members != [] {
      MissingAre(members[1..], requested, devices);
      assert members == [members[0]] + members[1..];
    }
  }

  /** A device has to be managed, free or owned already, in a group, and to come with that whole group. */
  function DeviceRules(s: HostSnapshot, i: Instance, all: set<string>, d: string): seq<Rule<LifecyclePlanError>> {
    match Managed(s.pool.devices, d)
    case None => [Rule(false, DevicePlacement(NotManaged(d)))]
    case Some(device) =>
      [Rule(d in s.pool.availableDevices || d in i.resources.devices, DevicePlacement(Unavailable(d)))]
      + match device.iommuGroup
        case None => [Rule(false, DevicePlacement(MissingIommuGroup(d)))]
        case Some(group) =>
          [Rule(forall m :: m in device.iommuGroupMembers ==> m in all && Managed(s.pool.devices, m).Some?,
                DevicePlacement(IncompleteIommuGroup(d, group, MissingMembers(device.iommuGroupMembers, all, s.pool.devices))))]
  }

  lemma DeviceDecides(s: HostSnapshot, i: Instance, all: set<string>, d: string)
    ensures FirstViolated(DeviceRules(s, i, all, d)) ==
            match DeviceError(s, i, all, d) case None => None case Some(e) => Some(DevicePlacement(e))
  {
    var rules := DeviceRules(s, i, all, d);
    if Managed(s.pool.devices, d).None? {
      FirstOne(rules[0]);
    } else {
      assert rules == [rules[0]] + [rules[1]];
      FirstCons(rules[0], [rules[1]]);
      FirstOne(rules[1]);
    }
  }

  function ScanRules(s: HostSnapshot, i: Instance, all: set<string>, requested: seq<string>): seq<Rule<LifecyclePlanError>> {
    if requested == [] then [] else DeviceRules(s, i, all, requested[0]) + ScanRules(s, i, all, requested[1..])
  }

  lemma {:induction false} ScanDecides(s: HostSnapshot, i: Instance, all: set<string>, requested: seq<string>)
    ensures FirstViolated(ScanRules(s, i, all, requested)) ==
            match DeviceScan(s, i, all, requested) case None => None case Some(e) => Some(DevicePlacement(e))
  {
    if requested != [] {
      ScanDecides(s, i, all, requested[1..]);
      DeviceDecides(s, i, all, requested[0]);
      FirstAppend(DeviceRules(s, i, all, requested[0]), ScanRules(s, i, all, requested[1..]));
    }
  }

  ghost function DevicesRules(s: HostSnapshot, i: Instance, requested: seq<string>): seq<Rule<LifecyclePlanError>> {
    [Rule(requested != [], DevicePlacement(EmptySelection))]
    + ([Rule(NoDuplicates(requested), DevicePlacement(DuplicateDevice))]
       + (FormRules(requested)
          + (OwnersRules(s.instances, i.id, Elements(requested)) + ScanRules(s, i, Elements(requested), requested))))
  }

  lemma DevicesDecide(s: HostSnapshot, i: Instance, requested: seq<string>)
    ensures FirstViolated(DevicesRules(s, i, requested)) ==
            match UpdateDevicesError(s, i, requested) case None => None case Some(e) => Some(DevicePlacement(e))
  {
    var all := Elements(requested);
    var owners, scan := OwnersRules(s.instances, i.id, all), ScanRules(s, i, all, requested);
    ElementsCount(requested);
    FormDecides(requested);
    OwnersDecide(s.instances, i.id, all);
    ScanDecides(s, i, all, requested);
    FirstAppend(owners, scan);
    FirstAppend(FormRules(requested), owners + scan);
    FirstCons(Rule(NoDuplicates(requested), DevicePlacement(DuplicateDevice)), FormRules(requested) + (owners + scan));
    FirstCons(Rule(requested != [], DevicePlacement(EmptySelection)),
              [Rule(NoDuplicates(requested), DevicePlacement(DuplicateDevice))] + (FormRules(requested) + (owners + scan)));
  }

  // ---------------------------------------------------------------- whole requests

  ghost predicate UsableCpus(cpus: seq<U32>) {
    cpus != [] && NoDuplicates(cpus)
  }

  ghost function CreateRules(r: LifecycleRequest, s: HostSnapshot): seq<Rule<LifecyclePlanError>>
    requires r.Create?
  {
    [Rule(ValidName(r.name), InvalidRequest(BadName))]
    + ([Rule(1 <= r.id <= 511, InvalidRequest(BadId))]
       + ([Rule(UsableCpus(r.cpus), InvalidRequest(BadCpus))]
          + (CpuRules(s, r.cpus, [])
             + ([Rule(r.memoryBytes > 0, InvalidRequest(ZeroMemory))]
                + ([Rule(forall i :: i in s.instances ==> i.id != r.id && i.name != r.name, AlreadyExists)]
                   + CreateMemoryRules(s, r.memoryBytes))))))
  }

  lemma CreateDecides(r: LifecycleRequest, s: HostSnapshot)
    requires r.Create?
    ensures FirstViolated(CreateRules(r, s)) == match PlanCreate(r, s) case Ok(_) => None case Err(e) => Some(e)
  {
    var memory := CreateMemoryRules(s, r.memoryBytes);
    var fresh' := Rule(forall i :: i in s.instances ==> i.id != r.id && i.name != r.name, AlreadyExists);
    var zero := Rule(r.memoryBytes > 0, InvalidRequest(ZeroMemory));
    var cpus := Rule(UsableCpus(r.cpus), InvalidRequest(BadCpus));
    var id := Rule(1 <= r.id <= 511, InvalidRequest(BadId));
    ElementsCount(r.cpus);
    CpusDecide(s, r.cpus, []);
    CreateMemoryDecides(s, r.memoryBytes);
    FirstCons(fresh', memory);
    FirstCons(zero, [fresh'] + memory);
    FirstAppend(CpuRules(s, r.cpus, []), [zero] + ([fresh'] + memory));
    FirstCons(cpus, CpuRules(s, r.cpus, []) + ([zero] + ([fresh'] + memory)));
    FirstCons(id, [cpus] + (CpuRules(s, r.cpus, []) + ([zero] + ([fresh'] + memory))));
    FirstCons(Rule(ValidName(r.name), InvalidRequest(BadName)),
              [id] + ([cpus] + (CpuRules(s, r.cpus, []) + ([zero] + ([fresh'] + memory)))));
  }

  ghost function NewCpuRules(s: HostSnapshot, i: Instance, cpus: Option<seq<U32>>): seq<Rule<LifecyclePlanError>> {
    match cpus
    case None => []
    case Some(new') => [Rule(UsableCpus(new'), InvalidRequest(BadCpus))] + CpuRules(s, new', i.resources.cpus)
  }

  ghost function NewMemoryRules(s: HostSnapshot, i: Instance, bytes: Option<U64>): seq<Rule<LifecyclePlanError>> {
    match bytes
    case None => []
    case Some(new') => [Rule(new' > 0, InvalidRequest(ZeroMemory))] + GrowthRules(s, i, new')
  }

  ghost function NewDeviceRules(s: HostSnapshot, i: Instance, devices: Option<seq<string>>): seq<Rule<LifecyclePlanError>> {
    match devices
    case None => []
    case Some(new') => DevicesRules(s, i, new')
  }

  /** The rules of an update to the addressed instance: CPUs, then memory, then devices. */
  ghost function UpdateRules(r: LifecycleRequest, s: HostSnapshot, i: Instance): seq<Rule<LifecyclePlanError>>
    requires r.Update?
  {
    [Rule(ValidName(i.name), InvalidRequest(BadName))]
    + ([Rule(r.newCpus.Some? || r.newMemory.Some? || r.newDevices.Some?, InvalidRequest(EmptyUpdate))]
       + (NewCpuRules(s, i, r.newCpus) + (NewMemoryRules(s, i, r.newMemory) + NewDeviceRules(s, i, r.newDevices))))
  }

  lemma NewCpusDecide(s: HostSnapshot, i: Instance, cpus: Option<seq<U32>>)
    ensures FirstViolated(NewCpuRules(s, i, cpus)) ==
            if cpus.None? then None
            else if !ValidCpus(cpus.value) then Some(InvalidRequest(BadCpus))
            else match InstanceCpuError(s, cpus.value, i.resources.cpus) case None => None case Some(e) => Some(CpuPlacement(e))
  {
    if cpus.Some? {
      ElementsCount(cpus.value);
      CpusDecide(s, cpus.value, i.resources.cpus);
      FirstCons(Rule(UsableCpus(cpus.value), InvalidRequest(BadCpus)), CpuRules(s, cpus.value, i.resources.cpus));
    }
  }

  lemma NewMemoryDecides(s: HostSnapshot, i: Instance, bytes: Option<U64>)
    ensures FirstViolated(NewMemoryRules(s, i, bytes)) ==
            if bytes.None? then None
            else if bytes.value == 0 then Some(InvalidRequest(ZeroMemory))
            else match UpdateMemoryError(s, i, bytes.value) case None => None case Some(e) => Some(MemoryPlacement(e))
  {
    if bytes.Some? {
      GrowthDecides(s, i, bytes.value);
      FirstCons(Rule(bytes.value > 0, InvalidRequest(ZeroMemory)), GrowthRules(s, i, bytes.value));
    }
  }

  lemma UpdateDecides(r: LifecycleRequest, s: HostSnapshot, i: Instance)
    requires r.Update?
    ensures FirstViolated(UpdateRules(r, s, i)) == UpdateError(r, s, i)
  {
    var cpus, memory, devices := NewCpuRules(s, i, r.newCpus), NewMemoryRules(s, i, r.newMemory), NewDeviceRules(s, i, r.newDevices);
    var any := Rule(r.newCpus.Some? || r.newMemory.Some? || r.newDevices.Some?, InvalidRequest(EmptyUpdate));
    NewCpusDecide(s, i, r.newCpus);
    NewMemoryDecides(s, i, r.newMemory);
    if r.newDevices.Some? { DevicesDecide(s, i, r.newDevices.value); }
    FirstAppend(memory, devices);
    FirstAppend(cpus, memory + devices);
    FirstCons(any, cpus + (memory + devices));
    FirstCons(Rule(ValidName(i.name), InvalidRequest(BadName)), [any] + (cpus + (memory + devices)));
  }

  ghost function BodyRules(r: LifecycleRequest, s: HostSnapshot): seq<Rule<LifecyclePlanError>> {
    match r
    case Create(_, _, _, _, _) => CreateRules(r, s)
    case Update(i, _, _, _, _) =>
      StateRules(s, i.id, Needed(r))
      + (match Find(s.instances, i.id) case None => [] case Some(k) => UpdateRules(r, s, s.instances[k]))
    case Load(i, kernel, initrd, _) =>
      StateRules(s, i.id, Needed(r))
      + ([Rule(kernel != [], InvalidRequest(EmptyKernelPath))] + [Rule(initrd != Some([]), InvalidRequest(EmptyInitrdPath))])
    case _ => StateRules(s, r.instance.id, Needed(r))
  }

  /** Every rule that a request has to meet, in the order in which they are looked at. */
  ghost function RequestRules(r: LifecycleRequest, s: HostSnapshot): seq<Rule<LifecyclePlanError>> {
    [Rule(r.Generation() == s.generation, StaleGeneration(r.Generation(), s.generation))] + BodyRules(r, s)
  }

  lemma BodyDecides(r: LifecycleRequest, s: HostSnapshot)
    requires r.Generation() == s.generation
    ensures FirstViolated(BodyRules(r, s)) == match Plan(r, s) case Ok(_) => None case Err(e) => Some(e)
  {
    match r {
      case Create(_, _, _, _, _) => CreateDecides(r, s);
      case Update(i, _, _, _, _) =>
        StateDecides(s, i.id, Needed(r));
        var found := Find(s.instances, i.id);
        var rest := match found case None => [] case Some(k) => UpdateRules(r, s, s.instances[k]);
        FirstAppend(StateRules(s, i.id, Needed(r)), rest);
        if found.Some? { UpdateDecides(r, s, s.instances[found.value]); }
      case Load(i, kernel, initrd, _) =>
        var paths := Rule(initrd != Some([]), InvalidRequest(EmptyInitrdPath));
        StateDecides(s, i.id, Needed(r));
        FirstOne(paths);
        FirstCons(Rule(kernel != [], InvalidRequest(EmptyKernelPath)), [paths]);
        FirstAppend(StateRules(s, i.id, Needed(r)), [Rule(kernel != [], InvalidRequest(EmptyKernelPath))] + [paths]);
      case _ => StateDecides(s, r.instance.id, Needed(r));
    }
  }

  /** A lifecycle request is refused with the first rule it violates, and accepted when it violates none. */
  lemma PlanDecides(r: LifecycleRequest, s: HostSnapshot)
    ensures FirstViolated(RequestRules(r, s)) == match Plan(r, s) case Ok(_) => None case Err(e) => Some(e)
  {
    FirstCons(Rule(r.Generation() == s.generation, StaleGeneration(r.Generation(), s.generation)), BodyRules(r, s));
    if r.Generation() == s.generation { BodyDecides(r, s); }
  }

  // ---------------------------------------------------------------- pool requests

  /** A hardware ID that no host CPU, or more than one, or an offline one reports cannot enter the pool. */
  lemma EntryErrorIff(cpus: seq<Cpu>, id: U32)
    ensures EntryError(cpus, id) == Some(UnknownHardwareId(id)) <==> forall c :: c in cpus ==> c.hardwareId != id
    ensures EntryError(cpus, id) == Some(AmbiguousHardwareId(id)) <==>
      exists i, j :: 0 <= i < j < |cpus| && cpus[i].hardwareId == cpus[j].hardwareId == id
    ensures EntryError(cpus, id) == Some(OfflineHardwareId(id)) <==>
      && (exists c :: c in cpus && c.hardwareId == id && !c.online)
      && (forall i, j :: 0 <= i < j < |cpus| ==> !(cpus[i].hardwareId == cpus[j].hardwareId == id))
    ensures EntryError(cpus, id).None? ==> exists c :: c in cpus && c.hardwareId == id && c.online
  {
    ReportingNone(cpus, id);
    ReportingTwice(cpus, id);
  }

  lemma {:induction false} ReportingTwice(cpus: seq<Cpu>, id: U32)
    ensures Reporting(cpus, id) > 1 <==> exists i, j :: 0 <= i < j < |cpus| && cpus[i].hardwareId == cpus[j].hardwareId == id
  {
    if cpus != [] {
      var n := |cpus| - 1;
      ReportingTwice(cpus[..n], id);
      ReportingNone(cpus[..n], id);
      if cpus[n].hardwareId == id && Reporting(cpus[..n], id) > 0 {
        var c :| c in cpus[..n] && c.hardwareId == id;
        var i :| 0 <= i < n && cpus[i] == c;
        assert cpus[i].hardwareId == cpus[n].hardwareId == id;
      }
      if i, j :| 0 <= i < j < |cpus| && cpus[i].hardwareId == cpus[j].hardwareId == id {
        assert cpus[..n][i] == cpus[i];
        if j < n { assert cpus[..n][j] == cpus[j]; } else { assert cpus[i] in cpus[..n]; }
      }
      if i, j :| 0 <= i < j < |cpus[..n]| && cpus[..n][i].hardwareId == cpus[..n][j].hardwareId == id {
        assert cpus[i].hardwareId == cpus[j].hardwareId == id;
      }
    }
  }

  function EntryRule(s: HostSnapshot, id: U32): Rule<Pools.ResourcePoolPlanError> {
    if id in s.pool.cpus then Rule(true, Pools.DuplicateCpu)
    else
      match EntryError(s.topology.cpus, id)
      case None => Rule(true, Pools.DuplicateCpu)
      case Some(e) => Rule(false, Pools.CpuPlacement(e))
  }

  function EntryRules(s: HostSnapshot, requested: seq<U32>): seq<Rule<Pools.ResourcePoolPlanError>> {
    seq(|requested|, k requires 0 <= k < |requested| => EntryRule(s, requested[k]))
  }

  lemma {:induction false} EntryDecides(s: HostSnapshot, requested: seq<U32>)
    ensures FirstViolated(EntryRules(s, requested)) ==
            match PoolCpuError(s, requested) case None => None case Some(e) => Some(Pools.CpuPlacement(e))
  {
    if requested != [] {
      var n := |requested| - 1;
      EntryDecides(s, requested[..n]);
      assert EntryRules(s, requested) == EntryRules(s, requested[..n]) + [EntryRule(s, requested[n])];
      FirstAppend(EntryRules(s, requested[..n]), [EntryRule(s, requested[n])]);
      FirstOne(EntryRule(s, requested[n]));
    }
  }

  ghost function PoolRules(r: Pools.ResourcePoolRequest, s: HostSnapshot): seq<Rule<Pools.ResourcePoolPlanError>> {
    [Rule(s.health == Healthy, Pools.SnapshotIndeterminate)]
    + ([Rule(r.expectedGeneration == s.generation, Pools.StaleGeneration(r.expectedGeneration, s.generation))]
       + ([Rule(NoDuplicates(r.cpus), Pools.DuplicateCpu)]
          + (EntryRules(s, r.cpus)
             + [Rule(Pools.AssignedCpus(s.instances) <= Elements(r.cpus)
                     && WrappingTotal(AssignedBytes(s.instances)) <= r.memoryBytes, Pools.AssignedResourcesExcluded)])))
  }

  /** And so is a pool request. */
  lemma PoolDecides(r: Pools.ResourcePoolRequest, s: HostSnapshot)
    ensures FirstViolated(PoolRules(r, s)) == match Pools.PlanPool(r, s) case Ok(_) => None case Err(e) => Some(e)
  {
    var kept := Rule(Pools.AssignedCpus(s.instances) <= Elements(r.cpus)
                     && WrappingTotal(AssignedBytes(s.instances)) <= r.memoryBytes, Pools.AssignedResourcesExcluded);
    var once := Rule(NoDuplicates(r.cpus), Pools.DuplicateCpu);
    var current := Rule(r.expectedGeneration == s.generation, Pools.StaleGeneration(r.expectedGeneration, s.generation));
    ElementsCount(r.cpus);
    Hosts.LeftOutIff(s.instances, r.cpus);
    EntryDecides(s, r.cpus);
    FirstOne(kept);
    FirstAppend(EntryRules(s, r.cpus), [kept]);
    FirstCons(once, EntryRules(s, r.cpus) + [kept]);
    FirstCons(current, [once] + (EntryRules(s, r.cpus) + [kept]));
    FirstCons(Rule(s.health == Healthy, Pools.SnapshotIndeterminate), [current] + ([once] + (EntryRules(s, r.cpus) + [kept])));
  }

  /** An accepted pool command lists the requested CPUs once each in ascending order and the bytes, and expects them. */
  lemma PlannedPool(r: Pools.ResourcePoolRequest, s: HostSnapshot)
    requires Pools.PlanPool(r, s).Ok?
    ensures var p := Pools.PlanPool(r, s).value;
      && p.expected.ExpectPool? && p.expected.poolBytes == r.memoryBytes && p.mutatesKernel
      && p.arguments == [Verb(InitCmd), CpusOption(p.expected.poolCpus), MemoryOption(r.memoryBytes)]
      && (forall i, j :: 0 <= i < j < |p.expected.poolCpus| ==> p.expected.poolCpus[i] < p.expected.poolCpus[j])
      && Elements(p.expected.poolCpus) == Elements(r.cpus)
  {
    var cpus := Pools.PlanPool(r, s).value.expected.poolCpus;
    Pools.PlannedCpusAreTheRequest(r, s);
    forall i, j | 0 <= i < j < |cpus| ensures cpus[i] < cpus[j] {
      assert Pools.AtMost(cpus[i], cpus[j]) && cpus[i] != cpus[j];
    }
  }

  // ------------------------------------------------------------- planned commands

  /** What a command is expected to lead to. */
  function Leads(r: LifecycleRequest): ExpectedState {
    match r
    case Create(_, id, name, cpus, bytes) => ExpectResources(id, Ready, Some(name), Some(cpus), Some(bytes), None)
    case Update(i, cpus, bytes, devices, _) => ExpectResources(i.id, Ready, None, cpus, bytes, devices)
    case Load(i, _, _, _) => ExpectInstance(i.id, Loaded)
    case Start(i) => ExpectInstance(i.id, Active)
    case Stop(i, _) => ExpectInstance(i.id, Loaded)
    case Unload(i) => ExpectInstance(i.id, Ready)
    case Delete(i) => ExpectAbsent(i.id)
  }

  /** The options of a command, after its verb and the instance it addresses. */
  predicate OptionOf(r: LifecycleRequest, a: Argument) {
    match r
    case Create(_, _, _, cpus, bytes) => a == CpusOption(cpus) || a == MemoryOption(bytes)
    case Update(_, cpus, bytes, devices, dryRun) =>
      || (cpus.Some? && a == CpusOption(cpus.value)) || (bytes.Some? && a == MemoryOption(bytes.value))
      || (devices.Some? && a == DevicesOption(devices.value)) || (dryRun && a == DryRunFlag)
    case Load(_, kernel, initrd, cmdline) =>
      || a == KernelOption(kernel) || (initrd.Some? && a == InitrdOption(initrd.value))
      || (cmdline.Some? && a == CmdlineOption(cmdline.value))
    case Stop(_, force) => force && a == ForceFlag
    case _ => false
  }

  lemma TailMembers(xs: seq<Argument>)
    requires xs != [] && NoDuplicates(xs)
    ensures forall x :: x in xs[1..] <==> x in xs && x != xs[0]
  {
    assert xs == [xs[0]] + xs[1..];
    forall k | 0 <= k < |xs| - 1 ensures xs[1..][k] != xs[0] { assert xs[1..][k] == xs[k + 1]; }
  }

  /** The argument list of a command that addresses its instance by `name`. */
  ghost predicate Spelled(r: LifecycleRequest, name: string, arguments: seq<Argument>) {
    && arguments != [] && arguments[0] == Verb(Kerf.VerbOf(r)) && NoDuplicates(arguments)
    && forall a :: a in arguments[1..] <==>
         || (if r.Create? || r.Update? then a == Target(name) else a == IdOption(r.instance.id))
         || (r.Create? && a == IdOption(r.id))
         || OptionOf(r, a)
  }

  /** An option is pushed, or not. */
  lemma Pushed(xs: seq<Argument>, push: bool, x: Argument, ys: seq<Argument>)
    requires xs != [] && NoDuplicates(xs) && x !in xs && ys == if push then xs + [x] else xs
    ensures NoDuplicates(ys) && ys != [] && ys[0] == xs[0]
    ensures forall y :: y in ys <==> y in xs || (push && y == x)
  {
  }

  lemma UpdateMembers(r: LifecycleRequest, name: string)
    requires r.Update?
    ensures var a := UpdateArguments(r, name);
      && a != [] && a[0] == Verb(UpdateCmd) && NoDuplicates(a)
      && forall x :: x in a <==> x == Verb(UpdateCmd) || x == Target(name) || OptionOf(r, x)
  {
    var cpus := CpusOption(r.newCpus.Or([]));
    var memory := MemoryOption(r.newMemory.Or(0));
    var devices := DevicesOption(r.newDevices.Or([]));
    var a0 := [Verb(UpdateCmd), Target(name)];
    var a1 := if r.newCpus.Some? then a0 + [cpus] else a0;
    var a2 := if r.newMemory.Some? then a1 + [memory] else a1;
    var a3 := if r.newDevices.Some? then a2 + [devices] else a2;
    var a4 := if r.dryRun then a3 + [DryRunFlag] else a3;
    Pushed(a0, r.newCpus.Some?, cpus, a1);
    Pushed(a1, r.newMemory.Some?, memory, a2);
    Pushed(a2, r.newDevices.Some?, devices, a3);
    Pushed(a3, r.dryRun, DryRunFlag, a4);
    assert a4 == UpdateArguments(r, name);
  }

  lemma UpdateSpelled(r: LifecycleRequest, name: string)
    requires r.Update?
    ensures Spelled(r, name, UpdateArguments(r, name))
  {
    UpdateMembers(r, name);
    TailMembers(UpdateArguments(r, name));
  }

  lemma LoadSpelled(r: LifecycleRequest, s: HostSnapshot)
    requires r.Load? && PlanLoad(r, s).Ok?
    ensures Spelled(r, "", PlanLoad(r, s).value.arguments)
  {
    TailMembers(PlanLoad(r, s).value.arguments);
  }

  lemma CreateSpelled(r: LifecycleRequest, s: HostSnapshot)
    requires r.Create? && PlanCreate(r, s).Ok?
    ensures Spelled(r, r.name, PlanCreate(r, s).value.arguments)
  {
    TailMembers(PlanCreate(r, s).value.arguments);
  }

  lemma ShortSpelled(r: LifecycleRequest, s: HostSnapshot)
    requires (r.Start? || r.Stop? || r.Unload? || r.Delete?) && Plan(r, s).Ok?
    ensures Spelled(r, "", Plan(r, s).value.arguments)
  {
    TailMembers(Plan(r, s).value.arguments);
  }

  /** An accepted command is its verb, the instance that the request addresses, and exactly the requested options, each once. */
  lemma PlannedCommand(r: LifecycleRequest, s: HostSnapshot) returns (name: string)
    requires Plan(r, s).Ok?
    ensures Spelled(r, name, Plan(r, s).value.arguments)
    ensures r.Create? ==> name == r.name
    ensures r.Update? ==> exists k: nat :: Addressed(s, r.instance.id, k) && name == s.instances[k].name
    ensures Plan(r, s).value.expected == Leads(r)
    ensures Plan(r, s).value.mutatesKernel <==> !(r.Update? && r.dryRun)
  {
    name := "";
    match r {
      case Create(_, _, _, _, _) =>
        name := r.name;
        CreateSpelled(r, s);
      case Update(_, _, _, _, _) =>
        var k := Find(s.instances, r.instance.id).value;
        name := s.instances[k].name;
        FindIsFirst(s.instances, r.instance.id);
        assert Addressed(s, r.instance.id, k);
        UpdateSpelled(r, name);
      case Load(_, _, _, _) => LoadSpelled(r, s);
      case _ => ShortSpelled(r, s);
    }
  }
}
