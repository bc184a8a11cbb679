/** What becomes of each instance over a run: the lifecycle diagram, and what a running instance can rely on. */
module Lifelines {
  import opened Prelude
  import opened Snapshots
  import opened Lifecycle
  import opened Kerf
  import opened Planning
  import Hosts
  import Pools = ResourcePools

  /** The arrows of the lifecycle diagram. */
  predicate Arrow(a: InstanceState, b: InstanceState) {
    (a, b) in {(Ready, Loaded), (Loaded, Active), (Active, Loaded), (Loaded, Ready)}
  }

  /** The same instance, untouched, one arrow on, or with other resources while it is ready. */
  predicate Follows(a: Instance, b: Instance) {
    && a.id == b.id && a.name == b.name
    && (Same(a, b)
        || (Kept(a, b) && Arrow(a.state, b.state))
        || (a.state == b.state == Ready && a.resources.memoryBase == b.resources.memoryBase))
  }

  predicate FollowedBy(a: Instance, t: HostSnapshot, j: nat) {
    j < |t.instances| && Follows(a, t.instances[j])
  }

  /** It goes on in the next snapshot, or was ready and is gone. */
  ghost predicate GoesOn(a: Instance, t: HostSnapshot) {
    || (exists j :: FollowedBy(a, t, j))
    || (a.state == Ready && forall i :: i in t.instances ==> i.id != a.id)
  }

  /** An instance that was not there before is ready. */
  ghost predicate Joins(s: HostSnapshot, b: Instance) {
    b.state == Ready || exists i :: i in s.instances && i.id == b.id
  }

  /** The instance that an accepted command addresses is in the state that the command is for. */
  lemma TargetIsReady(r: LifecycleRequest, s: HostSnapshot, k: nat)
    requires Hosts.Invariant(s) && !r.Create? && Plan(r, s).Ok? && k < |s.instances| && s.instances[k].id == r.instance.id
    ensures s.instances[k].state == Needed(r)
  {
    var found := Find(s.instances, r.instance.id);
    assert s.instances[k] in s.instances;
    Hosts.OneInstance(s, k, found.value);
    FindIsFirst(s.instances, r.instance.id);
    CommandStateRefusedIff(r, s, k);
  }

  lemma UnmovedGoesOn(s: HostSnapshot, t: HostSnapshot, k: nat)
    requires Unmoved(s, t) && k < |s.instances|
    ensures GoesOn(s.instances[k], t) && Joins(s, t.instances[k])
  {
    assert Same(s.instances[k], t.instances[k]);
    assert FollowedBy(s.instances[k], t, k);
    assert s.instances[k] in s.instances;
  }

  lemma CommandGoesOn(r: LifecycleRequest, to: InstanceState, s: HostSnapshot, t: HostSnapshot, k: nat)
    requires Hosts.Invariant(s) && !r.Create? && !r.Update? && Plan(r, s).Ok? && k < |s.instances| && Arrow(Needed(r), to)
    requires StateEffect(Plan(r, s).value.arguments, to, s, t)
    ensures GoesOn(s.instances[k], t) && Joins(s, t.instances[k])
  {
    PlannedVerb(r, s);
    assert StateOf(s.instances[k], r.instance.id, to, t.instances[k]);
    if s.instances[k].id == r.instance.id { TargetIsReady(r, s, k); }
    assert FollowedBy(s.instances[k], t, k);
    assert s.instances[k] in s.instances;
  }

  lemma DeleteGoesOn(r: LifecycleRequest, s: HostSnapshot, t: HostSnapshot, k: nat)
    requires Hosts.Invariant(s) && r.Delete? && Plan(r, s).Ok? && k < |s.instances|
    requires DeleteEffect(Plan(r, s).value.arguments, s, t)
    ensures GoesOn(s.instances[k], t)
  {
    PlannedVerb(r, s);
    var id := r.instance.id;
    var e :| RemainsAfterDelete(e, id, s, t);
    if s.instances[k].id == id {
      TargetIsReady(r, s, k);
      forall i | i in t.instances ensures i.id != id {
        var j :| 0 <= j < |t.instances| && t.instances[j] == i;
        assert e[j] in e;
      }
    } else {
      assert k in e;
      var j :| 0 <= j < |e| && e[j] == k;
      assert FollowedBy(s.instances[k], t, j);
    }
  }

  lemma DeleteJoins(arguments: seq<Argument>, s: HostSnapshot, t: HostSnapshot, j: nat)
    requires DeleteEffect(arguments, s, t) && j < |t.instances|
    ensures Joins(s, t.instances[j])
  {
    var e :| RemainsAfterDelete(e, arguments[1].id, s, t);
    assert s.instances[e[j]] in s.instances;
  }

  lemma CreateGoesOn(arguments: seq<Argument>, s: HostSnapshot, t: HostSnapshot)
    requires CreateEffect(arguments, s, t)
    ensures forall k {:trigger s.instances[k]} :: 0 <= k < |s.instances| ==> GoesOn(s.instances[k], t)
    ensures forall j {:trigger t.instances[j]} :: 0 <= j < |t.instances| ==> Joins(s, t.instances[j])
  {
    forall k | 0 <= k < |s.instances| ensures GoesOn(s.instances[k], t) && Joins(s, t.instances[k]) {
      assert Same(s.instances[k], t.instances[k]);
      assert FollowedBy(s.instances[k], t, k);
      assert s.instances[k] in s.instances;
    }
  }

  lemma UpdateGoesOn(r: LifecycleRequest, s: HostSnapshot, t: HostSnapshot, p: nat)
    requires Hosts.Invariant(s) && r.Update? && Plan(r, s).Ok? && p < |s.instances|
    requires UpdateEffect(Plan(r, s).value.arguments, s, t)
    ensures GoesOn(s.instances[p], t) && Joins(s, t.instances[p])
  {
    var k := RequireInstance(s, r.instance.id, Ready).value;
    var a := UpdateArguments(r, s.instances[k].name);
    UpdateArgumentsCarryTheRequest(r, s.instances[k].name);
    assert UpdateOf(s.instances[p], a, t.instances[p]);
    if !r.dryRun {
      Hosts.UpdateHitsOne(r, s, t, k);
      if p != k { assert Same(s.instances[p], t.instances[p]); }
    }
    TargetIsReady(r, s, k);
    assert FollowedBy(s.instances[p], t, p);
    assert s.instances[p] in s.instances;
  }

  lemma LifecycleGoesOn(r: LifecycleRequest, s: HostSnapshot, t: HostSnapshot)
    requires Hosts.Invariant(s) && Hosts.LifecycleStep(r, s, t)
    ensures forall k {:trigger s.instances[k]} :: 0 <= k < |s.instances| ==> GoesOn(s.instances[k], t)
    ensures forall j {:trigger t.instances[j]} :: 0 <= j < |t.instances| ==> Joins(s, t.instances[j])
  {
    var arguments := Plan(r, s).value.arguments;
    PlannedVerb(r, s);
    if r.Create? {
      CreateGoesOn(arguments, s, t);
    } else if r.Delete? {
      forall k | 0 <= k < |s.instances| ensures GoesOn(s.instances[k], t) { DeleteGoesOn(r, s, t, k); }
      forall j | 0 <= j < |t.instances| ensures Joins(s, t.instances[j]) { DeleteJoins(arguments, s, t, j); }
    } else {
      assert |t.instances| == |s.instances|;
      forall k | 0 <= k < |s.instances| ensures GoesOn(s.instances[k], t) && Joins(s, t.instances[k]) {
        match r {
          case Update(_, _, _, _, _) => UpdateGoesOn(r, s, t, k);
          case Load(_, _, _, _) => CommandGoesOn(r, Loaded, s, t, k);
          case Start(_) => CommandGoesOn(r, Active, s, t, k);
          case Stop(_, _) => CommandGoesOn(r, Loaded, s, t, k);
          case Unload(_) => CommandGoesOn(r, Ready, s, t, k);
        }
      }
    }
  }

  lemma StepGoesOn(s: HostSnapshot, t: HostSnapshot)
    requires Hosts.Invariant(s) && Hosts.Step(s, t)
    ensures forall k {:trigger s.instances[k]} :: 0 <= k < |s.instances| ==> GoesOn(s.instances[k], t)
    ensures forall j {:trigger t.instances[j]} :: 0 <= j < |t.instances| ==> Joins(s, t.instances[j])
  {
    if r :| Hosts.LifecycleStep(r, s, t) {
      LifecycleGoesOn(r, s, t);
    } else {
      assert Unmoved(s, t) by {
        if r :| Hosts.PoolStep(r, s, t) { ResizeArguments(r, s); }
      }
      forall k | 0 <= k < |s.instances| ensures GoesOn(s.instances[k], t) && Joins(s, t.instances[k]) {
        UnmovedGoesOn(s, t, k);
      }
    }
  }

  /**
   In every run every instance follows the lifecycle diagram from one snapshot to the next: it is created ready, it
   changes resources only while it is ready, and it is deleted only when it is ready.
   */
  lemma RunsFollowLifecycle(states: seq<HostSnapshot>, n: nat)
    requires Hosts.Run(states) && n + 1 < |states| && Hosts.Invariant(states[0])
    ensures forall k {:trigger states[n].instances[k]} :: 0 <= k < |states[n].instances| ==>
      GoesOn(states[n].instances[k], states[n + 1])
    ensures forall j {:trigger states[n + 1].instances[j]} :: 0 <= j < |states[n + 1].instances| ==>
      Joins(states[n], states[n + 1].instances[j])
  {
    Hosts.RunKeeps(states, n);
    assert Hosts.StepAt(states, n);
    StepGoesOn(states[n], states[n + 1]);
  }

  /** A running instance keeps its identity and resources, and leaves that state only by being stopped. */
  lemma RunningIsLeftAlone(states: seq<HostSnapshot>, n: nat, k: nat) returns (j: nat)
    requires Hosts.Run(states) && n + 1 < |states| && Hosts.Invariant(states[0])
    requires k < |states[n].instances| && states[n].instances[k].state == Active
    ensures j < |states[n + 1].instances| && Kept(states[n].instances[k], states[n + 1].instances[j])
    ensures states[n + 1].instances[j].state in {Active, Loaded}
  {
    RunsFollowLifecycle(states, n);
    j :| FollowedBy(states[n].instances[k], states[n + 1], j);
  }
}
