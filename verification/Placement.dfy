/** CPU identity and availability checks for placement. */
module Placement {
  import opened Prelude
  import opened Snapshots

  datatype CpuPlacementError =
    | UnknownHardwareId(id: U32)
    | AmbiguousHardwareId(id: U32)
    | OfflineHardwareId(id: U32)
    | UnavailableHardwareId(id: U32)

  /** How many host CPUs report a hardware ID. */
  function Reporting(cpus: seq<Cpu>, id: U32): nat {
    if cpus == [] then 0
    else Reporting(cpus[..|cpus| - 1], id) + (if cpus[|cpus| - 1].hardwareId == id then 1 else 0)
  }

  lemma {:induction false} ReportingPrefix(cpus: seq<Cpu>, k: nat, id: U32)
    requires k <= |cpus|
    ensures Reporting(cpus[..k], id) <= Reporting(cpus, id)
    decreases |cpus|
  {
    if k < |cpus| {
      ReportingPrefix(cpus[..|cpus| - 1], k, id);
      assert cpus[..|cpus| - 1][..k] == cpus[..k];
    } else {
      assert cpus[..k] == cpus;
    }
  }

  lemma {:induction false} ReportingNone(cpus: seq<Cpu>, id: U32)
    ensures Reporting(cpus, id) == 0 <==> forall c :: c in cpus ==> c.hardwareId != id
  {
    if cpus != [] {
      ReportingNone(cpus[..|cpus| - 1], id);
      assert cpus == cpus[..|cpus| - 1] + [cpus[|cpus| - 1]];
    }
  }

  /** Whether a CPU that is not yet in the pool may enter it. */
  predicate MayEnterPool(cpus: seq<Cpu>, id: U32) {
    && Reporting(cpus, id) == 1
    && (forall c :: c in cpus && c.hardwareId == id ==> c.online)
  }

  /** Why one hardware ID cannot enter the pool. */
  function EntryError(cpus: seq<Cpu>, id: U32): Option<CpuPlacementError> {
    if Reporting(cpus, id) == 0 then Some(UnknownHardwareId(id))
    else if Reporting(cpus, id) > 1 then Some(AmbiguousHardwareId(id))
    else if !MayEnterPool(cpus, id) then Some(OfflineHardwareId(id))
    else None
  }

  /** First rejection, in request order, among the CPUs newly entering the pool. */
  function PoolCpuError(s: HostSnapshot, requested: seq<U32>): (e: Option<CpuPlacementError>)
    ensures e.None? <==>
      forall id :: id in requested && id !in s.pool.cpus ==> MayEnterPool(s.topology.cpus, id)
  {
    if requested == [] then None
    else
      var rest := requested[..|requested| - 1];
      var id := requested[|requested| - 1];
      assert requested == rest + [id];
      var earlier := PoolCpuError(s, rest);
      if earlier.Some? || id in s.pool.cpus then earlier else EntryError(s.topology.cpus, id)
  }

  lemma {:induction false} PoolCpuErrorIsFirst(s: HostSnapshot, requested: seq<U32>, k: nat)
    requires k <= |requested|
    requires PoolCpuError(s, requested[..k]).Some?
    ensures PoolCpuError(s, requested) == PoolCpuError(s, requested[..k])
    decreases |requested|
  {
    if k == |requested| {
      assert requested[..k] == requested;
    } else {
      assert requested[..|requested| - 1][..k] == requested[..k];
      PoolCpuErrorIsFirst(s, requested[..|requested| - 1], k);
    }
  }

  /** Scans the topology as the source's iterator does: take the first match, then look for a second one. */
  method FindUnique(cpus: seq<Cpu>, id: U32) returns (error: Option<CpuPlacementError>)
    ensures error == EntryError(cpus, id)
  {
    var found: Option<Cpu> := None;
    for i := 0 to |cpus|
      invariant found.None? ==> Reporting(cpus[..i], id) == 0
      invariant found.Some? ==> Reporting(cpus[..i], id) == 1
      invariant found.Some? ==> found.value in cpus && found.value.hardwareId == id
      invariant forall c :: c in cpus[..i] && c.hardwareId == id ==> found == Some(c)
    {
      assert cpus[..i + 1] == cpus[..i] + [cpus[i]];
      assert cpus[..i + 1][..i] == cpus[..i];
      if cpus[i].hardwareId == id {
        if found.Some? {
          ReportingPrefix(cpus, i + 1, id);
          return Some(AmbiguousHardwareId(id));
        }
        found := Some(cpus[i]);
        ReportingNone(cpus[..i], id);
      }
    }
    assert cpus[..|cpus|] == cpus;
    match found {
      case None => error := Some(UnknownHardwareId(id));
      case Some(cpu) => error := if cpu.online then None else Some(OfflineHardwareId(id));
    }
  }

  /** Validates only the CPUs newly entering the pool; CPUs already there may be absent from the topology. */
  method ValidatePoolCpus(s: HostSnapshot, requested: seq<U32>) returns (error: Option<CpuPlacementError>)
    ensures error == PoolCpuError(s, requested)
  {
    for i := 0 to |requested|
      invariant PoolCpuError(s, requested[..i]).None?
    {
      assert requested[..i + 1][..i] == requested[..i];
      if requested[i] !in s.pool.cpus {
        error := FindUnique(s.topology.cpus, requested[i]);
        if error.Some? {
          PoolCpuErrorIsFirst(s, requested, i + 1);
          return;
        }
      }
    }
    assert requested[..|requested|] == requested;
    error := None;
  }

  /** First requested CPU that is neither available nor already the instance's own. */
  function InstanceCpuError(s: HostSnapshot, requested: seq<U32>, retained: seq<U32>): (e: Option<CpuPlacementError>)
    ensures e.None? <==> Elements(requested) <= Elements(s.pool.availableCpus) + Elements(retained)
  {
    if requested == [] then None
    else if requested[0] !in s.pool.availableCpus && requested[0] !in retained then
      assert requested[0] in Elements(requested);
      Some(UnavailableHardwareId(requested[0]))
    else
      assert Elements(requested) == {requested[0]} + Elements(requested[1..]);
      InstanceCpuError(s, requested[1..], retained)
  }
}
