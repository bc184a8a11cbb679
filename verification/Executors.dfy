/** Preflight, one Kerf call, postflight: how an attempted mutation becomes an operation outcome. */
module Executors {
  import opened Prelude
  import opened Snapshots
  import opened Lifecycle
  import opened Kerf
  import opened Inventory
  import Hosts
  import Planning
  import Pools = ResourcePools
  import O = Operations

  datatype Termination = Exited(code: int) | Signalled | TimedOut

  /** No termination means that the process could not be supervised. */
  type Process = Option<Termination>

  predicate ProcessSucceeded(p: Process) {
    p == Some(Exited(0))
  }

  predicate Shows(i: Instance, e: ExpectedState)
    requires e.ExpectResources?
  {
    && i.id == e.id && i.state == e.state
    && (e.name.Some? ==> i.name == e.name.value)
    && (e.cpus.Some? ==> Elements(e.cpus.value) == Elements(i.resources.cpus))
    && (e.memoryBytes.Some? ==> i.resources.memoryBytes == e.memoryBytes.value)
    && (e.devices.Some? ==> Elements(e.devices.value) == Elements(i.resources.devices))
  }

  /** Whether the postflight snapshot shows the planned result. */
  predicate Observed(e: ExpectedState, s: HostSnapshot) {
    match e
    case ExpectInstance(id, state) => exists i :: i in s.instances && i.id == id && i.state == state
    case ExpectResources(_, _, _, _, _, _) => exists i :: i in s.instances && Shows(i, e)
    case ExpectPool(cpus, bytes) =>
      Elements(s.pool.cpus) == Elements(cpus) && WrappingTotal(RegionBytes(s.pool.regions)) == bytes
    case ExpectAbsent(id) => forall i :: i in s.instances ==> i.id != id
  }

  function Reconciled(invocation: KerfInvocation, process: Process, after: HostSnapshot): (state: O.OperationState)
    ensures O.IsTerminal(state) && state != O.Cancelled
    ensures state == O.Succeeded <==>
      after.health == Healthy
      && if invocation.mutatesKernel then Observed(invocation.expected, after) else ProcessSucceeded(process)
    ensures state == O.Indeterminate <==> after.health != Healthy
  {
    if after.health != Healthy then O.Indeterminate
    else if !invocation.mutatesKernel && ProcessSucceeded(process) then O.Succeeded
    else if invocation.mutatesKernel && Observed(invocation.expected, after) then O.Succeeded
    else O.Failed
  }

  datatype Outcome = Outcome(state: O.OperationState, snapshot: HostSnapshot)

  datatype ExecutionError = InventoryError | SnapshotIndeterminate | PlanRejected(plan: LifecyclePlanError)

  /** What one execution leaves behind: the retained snapshot, the call made to Kerf if any, and the result. */
  datatype Execution = Execution(
    current: Option<HostSnapshot>, call: Option<KerfInvocation>, result: Result<Outcome, ExecutionError>)

  /** The shared inventory after refreshes by others. */
  function HeldAfter(current: Option<HostSnapshot>, others: seq<Option<HostObservations>>): (held: Option<HostSnapshot>)
    ensures current.Some? ==> held.Some?
  {
    if others == [] then current
    else Refreshed(HeldAfter(current, others[..|others| - 1]), others[|others| - 1]).0
  }

  /** One execution; `others` are refreshes that others make while Kerf runs, for the inventory is shared. */
  function Executed(current: Option<HostSnapshot>, r: LifecycleRequest, pre: Option<HostObservations>,
                    others: seq<Option<HostObservations>>, process: Process, post: Option<HostObservations>): Execution
  {
    var (held, before) := Refreshed(current, pre);
    if before.None? then Execution(held, None, Err(InventoryError))
    else if before.value.health != Healthy then Execution(held, None, Err(SnapshotIndeterminate))
    else
      match Plan(r, before.value)
      case Err(error) => Execution(held, None, Err(PlanRejected(error)))
      case Ok(invocation) =>
        var (held', after) := Refreshed(HeldAfter(held, others), post);
        Execution(held', Some(invocation),
                  if after.None? then Err(InventoryError)
                  else Ok(Outcome(Reconciled(invocation, process, after.value), after.value)))
  }

  method RefreshMeanwhile(inventory: InventoryService, others: seq<Option<HostObservations>>)
    modifies inventory
    ensures inventory.current == HeldAfter(old(inventory.current), others)
  {
    for k := 0 to |others|
      invariant inventory.current == HeldAfter(old(inventory.current), others[..k])
    {
      var _ := inventory.Refresh(others[k]);
      assert others[..k + 1][..k] == others[..k];
    }
    assert others[..|others|] == others;
  }

  /** The executor behind its lock. `calls` records every invocation handed to Kerf. */
  class LifecycleExecutor {
    const inventory: InventoryService
    var calls: seq<KerfInvocation>

    constructor (inventory: InventoryService)
      ensures this.inventory == inventory && calls == []
    {
      this.inventory, calls := inventory, [];
    }

    method Execute(r: LifecycleRequest, pre: Option<HostObservations>, others: seq<Option<HostObservations>>,
                   process: Process, post: Option<HostObservations>)
      returns (result: Result<Outcome, ExecutionError>)
      modifies this, inventory
      ensures var e := Executed(old(inventory.current), r, pre, others, process, post);
        && inventory.current == e.current && result == e.result
        && calls == old(calls) + (if e.call.Some? then [e.call.value] else [])
    {
      var before := inventory.Refresh(pre);
      if before.None? { return Err(InventoryError); }
      if before.value.health != Healthy { return Err(SnapshotIndeterminate); }
      var planned := Plan(r, before.value);
      if planned.Err? { return Err(PlanRejected(planned.error)); }
      calls := calls + [planned.value];
      RefreshMeanwhile(inventory, others);
      var after := inventory.Refresh(post);
      if after.None? { return Err(InventoryError); }
      return Ok(Outcome(Reconciled(planned.value, process, after.value), after.value));
    }
  }

  /**
   Kerf is called at most once, only on a healthy snapshot of the requested generation, and an error result always
   means it was not called: after a preflight that worked the inventory cannot come back empty-handed.
   */
  lemma CallsAreGuarded(current: Option<HostSnapshot>, r: LifecycleRequest, pre: Option<HostObservations>,
                        others: seq<Option<HostObservations>>, process: Process, post: Option<HostObservations>)
    ensures var e := Executed(current, r, pre, others, process, post);
      && (e.result.Err? <==> e.call.None?)
      && (e.call.Some? ==>
            var before := Refreshed(current, pre).1;
            && before.Some? && before.value.health == Healthy && before.value.generation == r.Generation()
            && Plan(r, before.value) == Ok(e.call.value)
            && O.IsTerminal(e.result.value.state) && e.result.value.state != O.Cancelled)
  {
  }

  /**
   Nothing is done or believed without looking: Kerf is called only after a successful preflight observation, an outcome
   is indeterminate exactly when the postflight observation failed, and otherwise it is what that observation shows.
   */
  lemma OutcomesRestOnObservations(current: Option<HostSnapshot>, r: LifecycleRequest, pre: Option<HostObservations>,
                                   others: seq<Option<HostObservations>>, process: Process, post: Option<HostObservations>)
    ensures var e := Executed(current, r, pre, others, process, post);
      && (e.result == Err(InventoryError) <==> current.None? && pre.None?)
      && (e.result == Err(SnapshotIndeterminate) <==> current.Some? && pre.None?)
      && (e.call.Some? ==> pre.Some?)
      && (e.result.Ok? ==>
            && (e.result.value.state == O.Indeterminate <==> post.None?)
            && (post.Some? ==> exists g :: e.result.value.snapshot == Assemble(g, post.value))
            && (e.result.value.state == O.Succeeded <==>
                  post.Some? && if e.call.value.mutatesKernel then Observed(e.call.value.expected, e.result.value.snapshot)
                                else ProcessSucceeded(process))
            && e.result.value.state in {O.Succeeded, O.Failed, O.Indeterminate})
  {
    if pre.Some? { RefreshedHealth(current, pre); }
    var held := HeldAfter(Refreshed(current, pre).0, others);
    RefreshedHealth(held, post);
  }

  /** A refresh returns a healthy snapshot exactly when it observed the host, and then it shows what it observed. */
  lemma RefreshedHealth(current: Option<HostSnapshot>, o: Option<HostObservations>)
    ensures var r := Refreshed(current, o).1;
      && (r.None? <==> current.None? && o.None?)
      && (r.Some? ==> (r.value.health == Healthy <==> o.Some?) && (o.None? ==> r.value.health == Indeterminate))
      && (o.Some? ==> r.Some? && exists g :: r.value == Assemble(g, o.value))
  {
    if o.Some? {
      var next := Refreshed(current, o).1.value;
      assert next == Assemble(next.generation, o.value);
    }
  }

  /** The same for pool requests: without a preflight observation there is no call. */
  lemma PoolCallsNeedObservations(current: Option<HostSnapshot>, r: Pools.ResourcePoolRequest, pre: Option<HostObservations>,
                                  others: seq<Option<HostObservations>>, post: Option<HostObservations>)
    ensures var e := PoolExecuted(current, r, pre, others, post);
      && (e.result == Err(PoolInventoryError) <==> current.None? && pre.None?)
      && (e.result == Err(PoolPlanRejected(Pools.SnapshotIndeterminate)) <==> current.Some? && pre.None?)
      && (e.call.Some? ==> pre.Some?)
  {
    RefreshedHealth(current, pre);
    var before, after := PoolExecutedOn(current, r, pre, others, post);
  }

  /** And an outcome is what the postflight observation shows. */
  lemma PoolOutcomesRestOnObservations(current: Option<HostSnapshot>, r: Pools.ResourcePoolRequest, pre: Option<HostObservations>,
                                       others: seq<Option<HostObservations>>, post: Option<HostObservations>)
    requires PoolExecuted(current, r, pre, others, post).result.Ok?
    ensures var o := PoolExecuted(current, r, pre, others, post).result.value;
      && (o.state == O.Indeterminate <==> post.None?) && (o.recovery == RefreshRequired <==> post.None?)
      && (o.state == O.Succeeded <==>
            && post.Some? && Elements(post.value.pool.cpus) == Elements(r.cpus)
            && WrappingTotal(RegionBytes(post.value.pool.regions)) == r.memoryBytes)
      && o.state in {O.Succeeded, O.Failed, O.Indeterminate}
  {
    var before, after := PoolExecutedOn(current, r, pre, others, post);
    RefreshedHealth(HeldAfter(Refreshed(current, pre).0, others), post);
    PoolOutcomeIff(r, before.value, after.value);
    if g :| post.Some? && after.value == Assemble(g, post.value) {
      assert after.value.pool.cpus == post.value.pool.cpus && after.value.pool.regions == post.value.pool.regions;
    }
  }

  /** An execution in terms of its two snapshots alone. */
  lemma ExecutedOn(current: Option<HostSnapshot>, r: LifecycleRequest, pre: Option<HostObservations>,
                   others: seq<Option<HostObservations>>, process: Process, post: Option<HostObservations>)
    returns (before: Option<HostSnapshot>, after: Option<HostSnapshot>)
    ensures before == Refreshed(current, pre).1
    ensures after == Refreshed(HeldAfter(Refreshed(current, pre).0, others), post).1
    ensures var e := Executed(current, r, pre, others, process, post);
      if before.Some? && before.value.health == Healthy && Plan(r, before.value).Ok? then
        && e.call == Some(Plan(r, before.value).value) && after.Some?
        && e.result == Ok(Outcome(Reconciled(e.call.value, process, after.value), after.value))
      else e.call == None && e.result.Err?
  {
    before := Refreshed(current, pre).1;
    after := Refreshed(HeldAfter(Refreshed(current, pre).0, others), post).1;
  }

  lemma PoolExecutedOn(current: Option<HostSnapshot>, r: Pools.ResourcePoolRequest, pre: Option<HostObservations>,
                       others: seq<Option<HostObservations>>, post: Option<HostObservations>)
    returns (before: Option<HostSnapshot>, after: Option<HostSnapshot>)
    ensures before == Refreshed(current, pre).1
    ensures after == Refreshed(HeldAfter(Refreshed(current, pre).0, others), post).1
    ensures var e := PoolExecuted(current, r, pre, others, post);
      if before.Some? && Pools.PlanPool(r, before.value).Ok? then
        && e.call == Some(Pools.PlanPool(r, before.value).value) && after.Some? && e.result.Ok?
        && (e.result.value.state, e.result.value.recovery) == ReconciledPool(r, before.value, after.value)
        && e.result.value.snapshot == after.value
      else e.call == None && e.result.Err?
  {
    before := Refreshed(current, pre).1;
    after := Refreshed(HeldAfter(Refreshed(current, pre).0, others), post).1;
  }

  // ------------------------------------------------------ outcomes are truthful

  /** The instance is there as requested; resources that were not asked for do not matter. */
  predicate HasBecome(i: Instance, r: LifecycleRequest) {
    match r
    case Create(_, id, name, cpus, bytes) =>
      && i.id == id && i.name == name && i.state == Ready
      && Elements(i.resources.cpus) == Elements(cpus) && i.resources.memoryBytes == bytes
    case Update(_, _, _, _, _) => i.state == Ready && HasAlready(i, r)
    case Load(target, _, _, _) => i.id == target.id && i.state == Loaded
    case Start(target) => i.id == target.id && i.state == Active
    case Stop(target, _) => i.id == target.id && i.state == Loaded
    case Unload(target) => i.id == target.id && i.state == Ready
    case Delete(_) => false
  }

  /** What a request was for is visible in a snapshot. */
  predicate Visible(r: LifecycleRequest, s: HostSnapshot) {
    if r.Delete? then forall i :: i in s.instances ==> i.id != r.instance.id
    else exists i :: i in s.instances && HasBecome(i, r)
  }

  /** Postflight looks for what the request was for, and for nothing less. */
  lemma ObservedIff(r: LifecycleRequest, s: HostSnapshot)
    ensures Observed(Planning.Leads(r), s) <==> Visible(r, s)
  {
    var e := Planning.Leads(r);
    if !r.Delete? {
      forall i | i in s.instances
        ensures HasBecome(i, r) <==> if e.ExpectInstance? then i.id == e.id && i.state == e.state else Shows(i, e)
      {
      }
    }
  }

  lemma CreateObserved(r: LifecycleRequest, s: HostSnapshot, t: HostSnapshot)
    requires r.Create? && PlanCreate(r, s).Ok? && CreateEffect(PlanCreate(r, s).value.arguments, s, t)
    ensures Observed(PlanCreate(r, s).value.expected, t)
  {
    CreateArguments(r, s);
    assert Shows(t.instances[|s.instances|], PlanCreate(r, s).value.expected);
  }

  lemma UpdateObserved(r: LifecycleRequest, s: HostSnapshot, t: HostSnapshot)
    requires r.Update? && !r.dryRun && Hosts.Invariant(s) && PlanUpdate(r, s).Ok?
    requires UpdateEffect(PlanUpdate(r, s).value.arguments, s, t)
    ensures Observed(PlanUpdate(r, s).value.expected, t)
  {
    var k := RequireInstance(s, r.instance.id, Ready).value;
    Hosts.UpdateHitsOne(r, s, t, k);
    assert Shows(t.instances[k], PlanUpdate(r, s).value.expected);
  }

  lemma StateObserved(id: U32, required: InstanceState, to: InstanceState, arguments: seq<Argument>,
                      s: HostSnapshot, t: HostSnapshot)
    requires RequireInstance(s, id, required).Ok? && StateEffect(arguments, to, s, t) && arguments[1].id == id
    ensures Observed(ExpectInstance(id, to), t)
  {
    var k := RequireInstance(s, id, required).value;
    assert StateOf(s.instances[k], arguments[1].id, to, t.instances[k]);
  }

  lemma DeleteObserved(arguments: seq<Argument>, s: HostSnapshot, t: HostSnapshot)
    requires DeleteEffect(arguments, s, t)
    ensures Observed(ExpectAbsent(arguments[1].id), t)
  {
    var e :| RemainsAfterDelete(e, arguments[1].id, s, t);
    forall i | i in t.instances ensures i.id != arguments[1].id {
      var j :| 0 <= j < |t.instances| && t.instances[j] == i;
      assert e[j] in e;
    }
  }

  /** A faithful run of the planned command is always recognised, whatever its exit status was. */
  lemma FaithfulRunSucceeds(r: LifecycleRequest, s: HostSnapshot, t: HostSnapshot, process: Process)
    requires Hosts.Invariant(s) && Hosts.LifecycleStep(r, s, t) && t.health == Healthy
    requires Plan(r, s).value.mutatesKernel
    ensures Reconciled(Plan(r, s).value, process, t) == O.Succeeded
  {
    PlannedVerb(r, s);
    var arguments := Plan(r, s).value.arguments;
    match r {
      case Create(_, _, _, _, _) => CreateObserved(r, s, t);
      case Update(_, _, _, _, _) => UpdateObserved(r, s, t);
      case Load(i, _, _, _) => StateObserved(i.id, Ready, Loaded, arguments, s, t);
      case Start(i) => StateObserved(i.id, Loaded, Active, arguments, s, t);
      case Stop(i, _) => StateObserved(i.id, Active, Loaded, arguments, s, t);
      case Unload(i) => StateObserved(i.id, Loaded, Ready, arguments, s, t);
      case Delete(_) => DeleteObserved(arguments, s, t);
    }
  }

  /** Only an update can ask for what is already there. */
  ghost predicate AlreadyShown(r: LifecycleRequest, s: HostSnapshot) {
    r.Update? && exists i :: i in s.instances && HasAlready(i, r)
  }

  predicate HasAlready(i: Instance, r: LifecycleRequest)
    requires r.Update?
  {
    && i.id == r.instance.id
    && (r.newCpus.Some? ==> Elements(r.newCpus.value) == Elements(i.resources.cpus))
    && (r.newMemory.Some? ==> r.newMemory.value == i.resources.memoryBytes)
    && (r.newDevices.Some? ==> Elements(r.newDevices.value) == Elements(i.resources.devices))
  }

  lemma UnmovedMember(s: HostSnapshot, t: HostSnapshot, i: Instance) returns (k: nat)
    requires Unmoved(s, t) && i in t.instances
    ensures k < |s.instances| && t.instances[k] == i && Same(s.instances[k], i)
  {
    k :| 0 <= k < |t.instances| && t.instances[k] == i;
    assert Same(s.instances[k], t.instances[k]);
  }

  /** A Kerf that did nothing is believed exactly when an update asked for what was there already. */
  lemma IneffectiveRunFails(r: LifecycleRequest, s: HostSnapshot, t: HostSnapshot, process: Process)
    requires Hosts.Invariant(s) && Plan(r, s).Ok? && Plan(r, s).value.mutatesKernel
    requires Unmoved(s, t) && t.health == Healthy
    ensures Reconciled(Plan(r, s).value, process, t) == O.Succeeded <==> AlreadyShown(r, s)
  {
    var e := Plan(r, s).value.expected;
    match r {
      case Create(_, _, _, _, _) => IneffectiveCreate(r, s, t);
      case Update(_, _, _, _, _) => IneffectiveUpdate(r, s, t);
      case Load(i, _, _, _) => IneffectiveState(i.id, Ready, Loaded, s, t);
      case Start(i) => IneffectiveState(i.id, Loaded, Active, s, t);
      case Stop(i, _) => IneffectiveState(i.id, Active, Loaded, s, t);
      case Unload(i) => IneffectiveState(i.id, Loaded, Ready, s, t);
      case Delete(i) =>
        var k := RequireInstance(s, i.id, Ready).value;
        assert Same(s.instances[k], t.instances[k]) && t.instances[k] in t.instances;
    }
  }

  /** A case of it: an update to the CPUs that the instance has already, by a Kerf that failed and did nothing. */
  lemma BelievedExample() returns (r: LifecycleRequest, s: HostSnapshot)
    ensures Hosts.Invariant(s) && Plan(r, s).Ok? && Plan(r, s).value.mutatesKernel
    ensures Reconciled(Plan(r, s).value, Some(Exited(1)), s) == O.Succeeded
  {
    s := Hosts.LabHost();
    r := Update(InstanceRequest(1, 1), Some([4]), None, None, false);
    Hosts.LabIsSound();
    var lab := s.instances[0];
    assert ValidName(lab.name) by { assert forall c :: c in "lab" ==> AlphaNumeric(c); }
    Hosts.UpdateAcceptedIff(r, s, lab);
    assert Find(s.instances, 1) == Some(0);
    assert lab in s.instances && HasAlready(lab, r);
    assert Unmoved(s, s);
    IneffectiveRunFails(r, s, s, Some(Exited(1)));
  }

  lemma IneffectiveCreate(r: LifecycleRequest, s: HostSnapshot, t: HostSnapshot)
    requires r.Create? && PlanCreate(r, s).Ok? && Unmoved(s, t)
    ensures !Observed(PlanCreate(r, s).value.expected, t)
  {
    forall i | i in t.instances ensures i.id != r.id {
      var k := UnmovedMember(s, t, i);
      assert s.instances[k] in s.instances;
    }
  }

  lemma IneffectiveState(id: U32, required: InstanceState, to: InstanceState, s: HostSnapshot, t: HostSnapshot)
    requires Hosts.Invariant(s) && RequireInstance(s, id, required).Ok? && required != to && Unmoved(s, t)
    ensures !Observed(ExpectInstance(id, to), t)
  {
    forall i | i in t.instances && i.id == id ensures i.state != to {
      var k := UnmovedMember(s, t, i);
      Hosts.OneInstance(s, k, RequireInstance(s, id, required).value);
    }
  }

  lemma IneffectiveUpdate(r: LifecycleRequest, s: HostSnapshot, t: HostSnapshot)
    requires Hosts.Invariant(s) && r.Update? && PlanUpdate(r, s).Ok? && Unmoved(s, t)
    ensures Observed(PlanUpdate(r, s).value.expected, t) <==> AlreadyShown(r, s)
  {
    var e := PlanUpdate(r, s).value.expected;
    var n := RequireInstance(s, r.instance.id, Ready).value;
    if i :| i in t.instances && Shows(i, e) {
      var k := UnmovedMember(s, t, i);
      assert s.instances[k] in s.instances && HasAlready(s.instances[k], r);
    }
    if AlreadyShown(r, s) {
      var i :| i in s.instances && HasAlready(i, r);
      var k :| 0 <= k < |s.instances| && s.instances[k] == i;
      Hosts.OneInstance(s, k, n);
      assert Same(s.instances[n], t.instances[n]) && Shows(t.instances[n], e);
    }
  }

  // -------------------------------------------------------------- pool requests

  datatype Recovery = NoRecovery | RefreshRequired | RetryRequest | HostRestartRequired

  function ReconciledPool(r: Pools.ResourcePoolRequest, before: HostSnapshot, after: HostSnapshot):
    (o: (O.OperationState, Recovery))
    ensures O.IsTerminal(o.0) && o.0 != O.Cancelled
  {
    var t := Pools.PoolTransition(r, before, after);
    if after.health != Healthy then (O.Indeterminate, RefreshRequired)
    else if t.RequestReached() then (O.Succeeded, NoRecovery)
    else
      (O.Failed,
       if t.PartiallyApplied() && r.cpus == [] && r.memoryBytes == 0 && t.observedCpus == {} && t.observedBytes != 0
       then HostRestartRequired else RetryRequest)
  }

  datatype PoolExecutionError = PoolInventoryError | PoolPlanRejected(plan: Pools.ResourcePoolPlanError)

  datatype PoolOutcome = PoolOutcome(
    state: O.OperationState, recovery: Recovery, transition: Pools.Transition, snapshot: HostSnapshot)

  datatype PoolExecution = PoolExecution(
    current: Option<HostSnapshot>, call: Option<KerfInvocation>, result: Result<PoolOutcome, PoolExecutionError>)

  function PoolExecuted(current: Option<HostSnapshot>, r: Pools.ResourcePoolRequest, pre: Option<HostObservations>,
                        others: seq<Option<HostObservations>>, post: Option<HostObservations>): PoolExecution
  {
    var (held, before) := Refreshed(current, pre);
    if before.None? then PoolExecution(held, None, Err(PoolInventoryError))
    else
      match Pools.PlanPool(r, before.value)
      case Err(error) => PoolExecution(held, None, Err(PoolPlanRejected(error)))
      case Ok(invocation) =>
        var (held', after) := Refreshed(HeldAfter(held, others), post);
        PoolExecution(held', Some(invocation),
                      if after.None? then Err(PoolInventoryError)
                      else
                        var (state, recovery) := ReconciledPool(r, before.value, after.value);
                        Ok(PoolOutcome(state, recovery, Pools.PoolTransition(r, before.value, after.value), after.value)))
  }

  /** The pool executor behind its own lock. `calls` records every invocation handed to Kerf. */
  class ResourcePoolExecutor {
    const inventory: InventoryService
    var calls: seq<KerfInvocation>

    constructor (inventory: InventoryService)
      ensures this.inventory == inventory && calls == []
    {
      this.inventory, calls := inventory, [];
    }

    method Execute(r: Pools.ResourcePoolRequest, pre: Option<HostObservations>, others: seq<Option<HostObservations>>,
                   post: Option<HostObservations>)
      returns (result: Result<PoolOutcome, PoolExecutionError>)
      modifies this, inventory
      ensures var e := PoolExecuted(old(inventory.current), r, pre, others, post);
        && inventory.current == e.current && result == e.result
        && calls == old(calls) + (if e.call.Some? then [e.call.value] else [])
    {
      var before := inventory.Refresh(pre);
      if before.None? { return Err(PoolInventoryError); }
      var planned := Pools.PlanPool(r, before.value);
      if planned.Err? { return Err(PoolPlanRejected(planned.error)); }
      calls := calls + [planned.value];
      RefreshMeanwhile(inventory, others);
      var after := inventory.Refresh(post);
      if after.None? { return Err(PoolInventoryError); }
      var (state, recovery) := ReconciledPool(r, before.value, after.value);
      return Ok(PoolOutcome(state, recovery, Pools.PoolTransition(r, before.value, after.value), after.value));
    }
  }

  /** One call, only on a healthy snapshot of the requested generation, and a result exactly when it was made. */
  lemma PoolCallsAreGuarded(current: Option<HostSnapshot>, r: Pools.ResourcePoolRequest, pre: Option<HostObservations>,
                            others: seq<Option<HostObservations>>, post: Option<HostObservations>)
    ensures var e := PoolExecuted(current, r, pre, others, post);
      && (e.result.Err? <==> e.call.None?)
      && (e.call.Some? ==>
            var before := Refreshed(current, pre).1;
            && before.Some? && before.value.health == Healthy && before.value.generation == r.expectedGeneration
            && Pools.PlanPool(r, before.value) == Ok(e.call.value)
            && O.IsTerminal(e.result.value.state) && e.result.value.state != O.Cancelled
            && (e.result.value.state == O.Succeeded <==> e.result.value.recovery == NoRecovery))
  {
    var before, after := PoolExecutedOn(current, r, pre, others, post);
    if before.Some? && Pools.PlanPool(r, before.value).Ok? {
      ReachedSucceeds(r, before.value, after.value);
    }
  }

  /** A faithful resize is recognised, and success means exactly the requested CPUs and bytes. */
  lemma FaithfulResizeSucceeds(r: Pools.ResourcePoolRequest, s: HostSnapshot, t: HostSnapshot)
    requires Hosts.PoolStep(r, s, t) && t.health == Healthy
    ensures ReconciledPool(r, s, t) == (O.Succeeded, NoRecovery)
  {
    ResizeReached(r, s, t);
    ReachedSucceeds(r, s, t);
  }

  lemma ReachedSucceeds(r: Pools.ResourcePoolRequest, before: HostSnapshot, after: HostSnapshot)
    ensures ReconciledPool(r, before, after).0 == O.Succeeded <==>
      && after.health == Healthy && Elements(after.pool.cpus) == Elements(r.cpus)
      && WrappingTotal(RegionBytes(after.pool.regions)) == r.memoryBytes
    ensures ReconciledPool(r, before, after).0 == O.Succeeded <==> ReconciledPool(r, before, after).1 == NoRecovery
  {
  }

  /** The pool as requested. */
  predicate Reached(r: Pools.ResourcePoolRequest, after: HostSnapshot) {
    Elements(after.pool.cpus) == Elements(r.cpus) && WrappingTotal(RegionBytes(after.pool.regions)) == r.memoryBytes
  }

  /** Every outcome of a pool request and every advice has its own condition, on the snapshots alone. */
  lemma PoolOutcomeIff(r: Pools.ResourcePoolRequest, before: HostSnapshot, after: HostSnapshot)
    ensures var (state, recovery) := ReconciledPool(r, before, after);
      && (state == O.Indeterminate <==> after.health != Healthy)
      && (state == O.Succeeded <==> after.health == Healthy && Reached(r, after))
      && (state == O.Failed <==> after.health == Healthy && !Reached(r, after))
      && (recovery == RefreshRequired <==> after.health != Healthy)
      && (recovery == NoRecovery <==> after.health == Healthy && Reached(r, after))
      && (recovery in {RetryRequest, HostRestartRequired} <==> after.health == Healthy && !Reached(r, after))
  {
  }

  /** What a pool plan expects is what its reconciliation looks for. */
  lemma PoolExpectationIff(r: Pools.ResourcePoolRequest, before: HostSnapshot, after: HostSnapshot)
    requires Pools.PlanPool(r, before).Ok?
    ensures Observed(Pools.PlanPool(r, before).value.expected, after) <==> Reached(r, after)
  {
    Pools.PlannedCpusAreTheRequest(r, before);
    Planning.PlannedPool(r, before);
  }

  lemma ResizeReached(r: Pools.ResourcePoolRequest, s: HostSnapshot, t: HostSnapshot)
    requires Hosts.PoolStep(r, s, t)
    ensures Elements(t.pool.cpus) == Elements(r.cpus)
    ensures WrappingTotal(RegionBytes(t.pool.regions)) == r.memoryBytes
  {
    ResizeArguments(r, s);
  }

  /** A restart is advised exactly when a full release gave back every CPU but left memory behind. */
  lemma RestartAdvisedIff(r: Pools.ResourcePoolRequest, before: HostSnapshot, after: HostSnapshot)
    ensures ReconciledPool(r, before, after).1 == HostRestartRequired <==>
      && after.health == Healthy && r.cpus == [] && r.memoryBytes == 0
      && Elements(after.pool.cpus) == {}
      && var left := WrappingTotal(RegionBytes(after.pool.regions));
      && left != 0
      && (Elements(before.pool.cpus) != {} || WrappingTotal(RegionBytes(before.pool.regions)) != left)
  {
  }
}
