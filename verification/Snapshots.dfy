/** The authoritative host snapshot of the management API. */
module Snapshots {
  import opened Prelude

  datatype SnapshotHealth = Healthy | Indeterminate | UnknownHealth

  datatype InstanceState = Absent | Ready | Loaded | Active | UnknownState

  datatype DiagnosticSeverity = Info | Warning | Error

  datatype Diagnostic = Diagnostic(code: string, severity: DiagnosticSeverity)

  datatype KernelInfo = KernelInfo(release: string, multikernelEnabled: bool)

  datatype Capability =
    | Multikernel | InstanceLifecycle | DynamicResources | TransactionRollback
    | Console | DeviceAssignment | SharedMemory

  datatype Cpu = Cpu(
    logicalId: U32, hardwareId: U32, packageId: U32, coreId: U32, threadIndex: U32, numaNode: U32, online: bool)

  datatype NumaNode = NumaNode(id: U32, logicalCpuIds: seq<U32>, totalBytes: U64, availableBytes: U64)

  datatype CpuTopology = CpuTopology(architecture: string, cpus: seq<Cpu>, numaNodes: seq<NumaNode>)

  datatype HostMemory = HostMemory(totalBytes: U64, hostReservedBytes: U64, assignableBytes: U64, assignedBytes: U64)

  datatype MemoryRegion = MemoryRegion(base: U64, bytes: U64, numaNode: U32)

  datatype PciDevice = PciDevice(
    pciId: string, poolName: string, vendorId: Option<U32>, deviceId: Option<U32>,
    iommuGroup: Option<U32>, iommuGroupMembers: seq<string>)

  datatype ResourcePool = ResourcePool(
    cpus: seq<U32>, availableCpus: seq<U32>, regions: seq<MemoryRegion>,
    devices: seq<PciDevice>, availableDevices: seq<string>)

  datatype Allocation = Allocation(
    cpus: seq<U32>, memoryBase: Option<U64>, memoryBytes: U64, devices: seq<string>)

  datatype Instance = Instance(
    id: U32, name: string, generation: U64, state: InstanceState, resources: Allocation, imagePresent: bool)

  datatype TransactionState = Planned | Applied | RolledBack | FailedTransaction

  datatype Transaction = Transaction(id: U64, state: TransactionState)

  datatype HostSnapshot = HostSnapshot(
    generation: U64, health: SnapshotHealth, diagnostics: seq<Diagnostic>, kernel: KernelInfo,
    capabilities: seq<Capability>, topology: CpuTopology, memory: HostMemory,
    pool: ResourcePool, instances: seq<Instance>, transactions: seq<Transaction>)

  /** Exact (unbounded) memory totals. */
  function RegionBytes(regions: seq<MemoryRegion>): nat {
    if regions == [] then 0 else RegionBytes(regions[..|regions| - 1]) + regions[|regions| - 1].bytes
  }

  function AssignedBytes(instances: seq<Instance>): nat {
    if instances == [] then 0
    else AssignedBytes(instances[..|instances| - 1]) + instances[|instances| - 1].resources.memoryBytes
  }

  /** `Iterator::sum::<u64>` in a release build: the total modulo 2^64. */
  function WrappingTotal(total: nat): U64 {
    total % (U64_MAX + 1)
  }
}
