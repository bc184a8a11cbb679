/** Memory accounting by geometry: disjoint ranges inside the pool's regions never outweigh them. */
module Commitment {
  import opened Prelude
  import opened Snapshots
  import opened Lifecycle
  import opened Kerf
  import opened Hosts

  ghost function Addresses(base: int, bytes: nat): (addresses: set<int>)
    ensures |addresses| == bytes
    ensures forall a :: a in addresses <==> base <= a < base + bytes
  {
    if bytes == 0 then {} else Addresses(base, bytes - 1) + {base + bytes - 1}
  }

  ghost function Range(i: Instance): set<int> {
    if i.resources.memoryBase.None? then {}
    else Addresses(i.resources.memoryBase.value, i.resources.memoryBytes)
  }

  ghost function Occupied(instances: seq<Instance>): set<int> {
    if instances == [] then {}
    else Occupied(instances[..|instances| - 1]) + Range(instances[|instances| - 1])
  }

  ghost function Covered(regions: seq<MemoryRegion>): set<int> {
    if regions == [] then {}
    else Covered(regions[..|regions| - 1]) + Addresses(regions[|regions| - 1].base, regions[|regions| - 1].bytes)
  }

  lemma {:induction false} Occupant(instances: seq<Instance>, a: int) returns (k: nat)
    requires a in Occupied(instances)
    ensures k < |instances| && a in Range(instances[k])
  {
    k := |instances| - 1;
    if a !in Range(instances[k]) { k := Occupant(instances[..k], a); }
  }

  lemma {:induction false} CoveredContains(regions: seq<MemoryRegion>, r: MemoryRegion)
    requires r in regions
    ensures Addresses(r.base, r.bytes) <= Covered(regions)
  {
    var n := |regions| - 1;
    if r != regions[n] {
      assert regions == regions[..n] + [regions[n]];
      CoveredContains(regions[..n], r);
    }
  }

  lemma PlacedIsCovered(i: Instance, regions: seq<MemoryRegion>)
    requires Placed(i, regions)
    ensures Range(i) <= Covered(regions)
  {
    if i.resources.memoryBytes > 0 {
      var base, bytes := i.resources.memoryBase.value, i.resources.memoryBytes;
      var r :| r in regions && InRegion(base, bytes, r);
      CoveredContains(regions, r);
      assert Addresses(base, bytes) <= Addresses(r.base, r.bytes);
    }
  }

  lemma UnionCount(a: set<int>, b: set<int>)
    ensures |a + b| <= |a| + |b|
    ensures a !! b ==> |a + b| == |a| + |b|
    ensures a <= b ==> |a| <= |b|
  {
    assert a + b == a + (b - a);
    assert b == (b - a) + (b * a) && |b| == |b - a| + |b * a|;
    assert a <= b ==> b * a == a;
  }

  lemma {:induction false} CoveredCount(regions: seq<MemoryRegion>)
    ensures |Covered(regions)| <= RegionBytes(regions)
  {
    if regions != [] {
      var n := |regions| - 1;
      CoveredCount(regions[..n]);
      UnionCount(Covered(regions[..n]), Addresses(regions[n].base, regions[n].bytes));
    }
  }

  lemma {:induction false} OccupiedCount(s: HostSnapshot, n: nat)
    requires Isolated(s) && n <= |s.instances|
    ensures |Occupied(s.instances[..n])| == AssignedBytes(s.instances[..n])
  {
    if n > 0 {
      OccupiedCount(s, n - 1);
      var earlier, last := s.instances[..n - 1], s.instances[n - 1];
      assert s.instances[..n][..n - 1] == earlier;
      assert Placed(last, s.pool.regions);
      forall a | a in Occupied(earlier) ensures a !in Range(last) {
        var k := Occupant(earlier, a);
        assert Apart(s.instances[k], s.instances[n - 1]);
      }
      UnionCount(Occupied(earlier), Range(last));
    }
  }

  /** Growth is never checked against a total, yet an isolated host is never over-committed. */
  lemma NeverOverCommitted(s: HostSnapshot)
    requires Isolated(s)
    ensures AssignedBytes(s.instances) <= RegionBytes(s.pool.regions)
  {
    assert s.instances[..|s.instances|] == s.instances;
    OccupiedCount(s, |s.instances|);
    forall a | a in Occupied(s.instances) ensures a in Covered(s.pool.regions) {
      var k := Occupant(s.instances, a);
      assert Placed(s.instances[k], s.pool.regions);
      PlacedIsCovered(s.instances[k], s.pool.regions);
    }
    UnionCount(Occupied(s.instances), Covered(s.pool.regions));
    CoveredCount(s.pool.regions);
  }

  /**
   Along every run the create capacity test works on exact numbers: with a pool that fits `u64` the checked sums never
   overflow, the saturating subtraction never clamps, and the pool planner's unchecked sum never wraps.
   */
  lemma RunsNeverOverCommit(states: seq<HostSnapshot>, n: nat, requested: U64)
    requires Run(states) && n < |states|
    requires Isolated(states[0]) && CpusPartitioned(states[0]) && DevicesIsolated(states[0])
    requires RegionBytes(states[0].pool.regions) <= U64_MAX
    ensures var s := states[n];
      var free := RegionBytes(s.pool.regions) - AssignedBytes(s.instances);
      && free >= 0
      && WrappingTotal(AssignedBytes(s.instances)) == AssignedBytes(s.instances)
      && CreateMemoryError(s, requested) ==
           if requested > free then Some(InsufficientAvailable(requested, free))
           else if forall r :: r in s.pool.regions ==> r.bytes < requested then Some(NoContiguousPoolChunk(requested))
           else None
  {
    RunsStayIsolated(states, n);
    RunBounds(states, n);
    NeverOverCommitted(states[n]);
  }
}
