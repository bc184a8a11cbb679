/** What the registry promises about each operation over whole runs. */
module Histories {
  import opened Prelude
  import opened Operations
  import EventStreams

  // -------------------------------------------------------- single operations

  ghost predicate WellFormed(o: Operation) {
    && (o.progress.Some? ==> o.progress.value <= 100)
    && (o.state == Succeeded ==> o.progress == Some(100))
    && (o.completedAt.Some? <==> IsTerminal(o.state))
    && (o.state == Queued ==> o.progress == None && o.error == None && o.observedGeneration == None)
    && (o.state == Running ==> o.progress.Some? && o.error == None && o.observedGeneration == None)
    && o.state != UnknownState
  }

  /** A later view of the same operation: accepted fields fixed, terminal states final, progress never back. */
  predicate Evolves(a: Operation, b: Operation) {
    && b.id == a.id && b.request == a.request
    && (IsTerminal(a.state) ==> b == a)
    && (a.progress.Some? ==> b.progress.Some? && a.progress.value <= b.progress.value)
    && (b.state == Queued ==> a.state == Queued)
  }

  lemma MutateEvolves(o: Operation, c: Change)
    requires WellFormed(o) && Mutate(o, c).Ok?
    ensures WellFormed(Mutate(o, c).value) && Evolves(o, Mutate(o, c).value)
    ensures Mutate(o, c).value != o || c.SetProgress?
  {
  }

  lemma EvolvesTransitive(a: Operation, b: Operation, c: Operation)
    requires Evolves(a, b) && Evolves(b, c)
    ensures Evolves(a, c)
  {
  }

  // ---------------------------------------------------------------- retention

  ghost predicate Slot(r: Registry, k: nat) {
    k < |r.operations| ==> r.operations[k].id == r.nextOperation - |r.operations| + k && WellFormed(r.operations[k])
  }

  /** The newest operations, oldest first, under consecutive identifiers. */
  ghost predicate Retains(r: Registry) {
    && r.operationCapacity > 0 && r.nextOperation >= 1
    && |r.operations| == (if r.nextOperation - 1 < r.operationCapacity then r.nextOperation - 1 else r.operationCapacity)
    && forall k: nat {:trigger Slot(r, k)} :: Slot(r, k)
  }

  /** An operation is retrievable exactly until `operationCapacity` later ones were created. */
  lemma RetainedIff(r: Registry, id: U64)
    requires Retains(r)
    ensures Get(r, id).Some? <==> r.nextOperation - |r.operations| <= id < r.nextOperation
    ensures Get(r, id).Some? <==> 1 <= id < r.nextOperation <= id + r.operationCapacity
    ensures Get(r, id).Some? ==>
      && Find(r.operations, id) == Some(id - (r.nextOperation - |r.operations|))
      && WellFormed(Get(r, id).value)
  {
    var first := r.nextOperation - |r.operations|;
    if first <= id < r.nextOperation {
      assert Slot(r, id - first);
      assert r.operations[id - first] in r.operations;
    }
    if Get(r, id).Some? { assert Slot(r, Find(r.operations, id).value); }
  }

  lemma CreatedRetains(r: Registry, request: NewOperation)
    requires Retains(r) && r.nextOperation < U64_MAX
    ensures Retains(Created(r, request))
  {
    var t := Created(r, request);
    forall k: nat ensures Slot(t, k) {
      assert Slot(r, k) && Slot(r, k + 1);
    }
  }

  lemma ChangedRetains(r: Registry, id: U64, c: Change)
    requires Retains(r)
    ensures Retains(Changed(r, id, c).0)
  {
    var t := Changed(r, id, c).0;
    forall k: nat ensures Slot(t, k) {
      assert Slot(r, k);
      if Changed(r, id, c).1.Ok? && k == Find(r.operations, id).value { MutateEvolves(r.operations[k], c); }
    }
  }

  lemma CreatedEvolves(r: Registry, request: NewOperation, id: U64)
    requires Retains(r) && r.nextOperation < U64_MAX
    requires Get(r, id).Some? && Get(Created(r, request), id).Some?
    ensures Get(Created(r, request), id) == Get(r, id)
  {
    CreatedRetains(r, request);
    RetainedIff(r, id);
    RetainedIff(Created(r, request), id);
  }

  /** A change touches the addressed operation only. */
  lemma ChangedEvolves(r: Registry, id: U64, c: Change, other: U64)
    requires Retains(r) && Get(r, other).Some?
    ensures Get(Changed(r, id, c).0, other).Some?
    ensures Evolves(Get(r, other).value, Get(Changed(r, id, c).0, other).value)
    ensures other != id ==> Get(Changed(r, id, c).0, other) == Get(r, other)
  {
    var t := Changed(r, id, c).0;
    ChangedRetains(r, id, c);
    RetainedIff(r, other);
    RetainedIff(t, other);
    if Changed(r, id, c).1.Ok? {
      var k := Find(r.operations, id).value;
      assert Slot(r, k);
      MutateEvolves(r.operations[k], c);
    }
  }

  lemma ChangedOthers(r: Registry, id: U64, c: Change, other: U64)
    requires Retains(r) && other != id
    ensures Get(Changed(r, id, c).0, other) == Get(r, other)
  {
    ChangedRetains(r, id, c);
    RetainedIff(r, other);
    RetainedIff(Changed(r, id, c).0, other);
    if Get(r, other).Some? { ChangedEvolves(r, id, c, other); }
  }

  lemma CreatedOthers(r: Registry, request: NewOperation, id: U64)
    requires Retains(r) && r.nextOperation < U64_MAX && id < r.nextOperation
    ensures Get(Created(r, request), id).None? || Get(Created(r, request), id) == Get(r, id)
  {
    CreatedRetains(r, request);
    RetainedIff(r, id);
    RetainedIff(Created(r, request), id);
    if Get(Created(r, request), id).Some? { CreatedEvolves(r, request, id); }
  }

  /** The view of the addressed operation after a change. */
  lemma ChangedView(r: Registry, id: U64, c: Change)
    requires Retains(r)
    ensures Get(r, id).None? ==> Changed(r, id, c) == (r, Err(NotFound))
    ensures Get(r, id).Some? ==>
      && Changed(r, id, c).1 == Mutate(Get(r, id).value, c)
      && Get(Changed(r, id, c).0, id) ==
           if Mutate(Get(r, id).value, c).Ok? then Some(Mutate(Get(r, id).value, c).value) else Get(r, id)
  {
    ChangedRetains(r, id, c);
    RetainedIff(r, id);
    RetainedIff(Changed(r, id, c).0, id);
  }

  // ---------------------------------------------------------------- all runs

  lemma StepRetains(s: EventStreams.System, a: EventStreams.Action)
    requires Retains(s.registry) && s.registry.nextOperation < U64_MAX
    ensures var t := EventStreams.Do(s, a).registry;
      && Retains(t) && t.operationCapacity == s.registry.operationCapacity
      && s.registry.nextOperation <= t.nextOperation <= s.registry.nextOperation + 1
  {
    match a {
      case Submit(request) => CreatedRetains(s.registry, request);
      case Apply(id, change) => ChangedRetains(s.registry, id, change);
      case Read =>
    }
  }

  lemma StepEvolves(s: EventStreams.System, a: EventStreams.Action, id: U64)
    requires Retains(s.registry) && s.registry.nextOperation < U64_MAX
    requires Get(s.registry, id).Some? && Get(EventStreams.Do(s, a).registry, id).Some?
    ensures Evolves(Get(s.registry, id).value, Get(EventStreams.Do(s, a).registry, id).value)
  {
    match a {
      case Submit(request) => CreatedEvolves(s.registry, request, id);
      case Apply(other, change) => ChangedEvolves(s.registry, other, change, id);
      case Read =>
    }
  }

  lemma {:induction false} RunCounts(s: EventStreams.System, actions: seq<EventStreams.Action>)
    ensures s.registry.nextOperation <= EventStreams.After(s, actions).registry.nextOperation
  {
    if actions != [] { RunCounts(s, actions[..|actions| - 1]); }
  }

  lemma {:induction false} RunRetains(s: EventStreams.System, actions: seq<EventStreams.Action>)
    requires Retains(s.registry) && EventStreams.After(s, actions).registry.nextOperation < U64_MAX
    ensures var t := EventStreams.After(s, actions).registry;
      && Retains(t) && t.operationCapacity == s.registry.operationCapacity
      && s.registry.nextOperation <= t.nextOperation
  {
    if actions != [] {
      var n := |actions| - 1;
      RunRetains(s, actions[..n]);
      StepRetains(EventStreams.After(s, actions[..n]), actions[n]);
    }
  }

  lemma RetainedBetween(r: Registry, m: Registry, t: Registry, id: U64)
    requires Retains(r) && Retains(m) && Retains(t)
    requires r.operationCapacity == m.operationCapacity == t.operationCapacity
    requires r.nextOperation <= m.nextOperation <= t.nextOperation
    requires Get(r, id).Some? && Get(t, id).Some?
    ensures Get(m, id).Some?
    ensures WellFormed(Get(r, id).value) && WellFormed(Get(m, id).value) && WellFormed(Get(t, id).value)
  {
    RetainedIff(r, id);
    RetainedIff(m, id);
    RetainedIff(t, id);
  }

  /** An operation retained at both ends of a run was retained throughout, and only evolved. */
  lemma {:induction false} RunEvolves(s: EventStreams.System, actions: seq<EventStreams.Action>, id: U64)
    requires Retains(s.registry) && EventStreams.After(s, actions).registry.nextOperation < U64_MAX
    requires Get(s.registry, id).Some? && Get(EventStreams.After(s, actions).registry, id).Some?
    ensures WellFormed(Get(s.registry, id).value) && WellFormed(Get(EventStreams.After(s, actions).registry, id).value)
    ensures Evolves(Get(s.registry, id).value, Get(EventStreams.After(s, actions).registry, id).value)
  {
    if actions == [] {
      RetainedIff(s.registry, id);
    } else {
      var n := |actions| - 1;
      var m := EventStreams.After(s, actions[..n]);
      RunRetains(s, actions[..n]);
      StepRetains(m, actions[n]);
      var t := EventStreams.Do(m, actions[n]);
      assert t == EventStreams.After(s, actions);
      RetainedBetween(s.registry, m.registry, t.registry, id);
      RunEvolves(s, actions[..n], id);
      StepEvolves(m, actions[n], id);
      EvolvesTransitive(Get(s.registry, id).value, Get(m.registry, id).value, Get(t.registry, id).value);
    }
  }

  function RegistryAfter(operationCapacity: nat, eventCapacity: nat, actions: seq<EventStreams.Action>): Registry {
    EventStreams.After(EventStreams.Initial(operationCapacity, eventCapacity, 0), actions).registry
  }

  lemma {:induction false} AfterAppend(s: EventStreams.System, a: seq<EventStreams.Action>, b: seq<EventStreams.Action>)
    ensures EventStreams.After(s, a + b) == EventStreams.After(EventStreams.After(s, a), b)
  {
    if b == [] {
      assert a + b == a;
    } else {
      var n := |b| - 1;
      AfterAppend(s, a, b[..n]);
      assert (a + b)[..|a + b| - 1] == a + b[..n];
    }
  }

  /** How many operations a run submits. */
  function Submissions(actions: seq<EventStreams.Action>): nat {
    if actions == [] then 0
    else Submissions(actions[..|actions| - 1]) + if actions[|actions| - 1].Submit? then 1 else 0
  }

  /** The next identifier counts them, up to the last value of the counter. */
  lemma {:induction false} NextIdentifier(operationCapacity: nat, eventCapacity: nat, actions: seq<EventStreams.Action>)
    ensures RegistryAfter(operationCapacity, eventCapacity, actions).nextOperation ==
            if Submissions(actions) < U64_MAX then Submissions(actions) + 1 else U64_MAX
  {
    if actions != [] { NextIdentifier(operationCapacity, eventCapacity, actions[..|actions| - 1]); }
  }

  /** Between any two moments of any run a retained operation only evolves. */
  lemma OperationsEvolve(
    operationCapacity: nat, eventCapacity: nat, past: seq<EventStreams.Action>, later: seq<EventStreams.Action>, id: U64)
    requires operationCapacity > 0 && Submissions(past + later) < U64_MAX - 1
    requires Get(RegistryAfter(operationCapacity, eventCapacity, past), id).Some?
    requires Get(RegistryAfter(operationCapacity, eventCapacity, past + later), id).Some?
    ensures var a := Get(RegistryAfter(operationCapacity, eventCapacity, past), id).value;
      var b := Get(RegistryAfter(operationCapacity, eventCapacity, past + later), id).value;
      WellFormed(a) && WellFormed(b) && Evolves(a, b)
  {
    var s := EventStreams.Initial(operationCapacity, eventCapacity, 0);
    NextIdentifier(operationCapacity, eventCapacity, past + later);
    AfterAppend(s, past, later);
    RunCounts(EventStreams.After(s, past), later);
    RunRetains(s, past);
    RunEvolves(EventStreams.After(s, past), later, id);
  }

  /** Over any run an operation is retrievable exactly while fewer than the capacity were submitted after it. */
  lemma RetrievableUntilEvicted(operationCapacity: nat, eventCapacity: nat, actions: seq<EventStreams.Action>, id: U64)
    requires operationCapacity > 0 && Submissions(actions) < U64_MAX - 1
    ensures Get(RegistryAfter(operationCapacity, eventCapacity, actions), id).Some? <==>
            1 <= id <= Submissions(actions) && Submissions(actions) - id < operationCapacity
  {
    NextIdentifier(operationCapacity, eventCapacity, actions);
    RunRetains(EventStreams.Initial(operationCapacity, eventCapacity, 0), actions);
    RetainedIff(RegistryAfter(operationCapacity, eventCapacity, actions), id);
  }

  // ------------------------------------------------------------ what a change does

  /** What an operation has to be like for a change to be accepted. */
  predicate Fits(o: Operation, c: Change) {
    match c
    case Start => o.state == Queued
    case SetProgress(percent) => o.state == Running && percent <= 100 && (o.progress.Some? ==> o.progress.value <= percent)
    case Finish(state, _, _, _) => o.state in {Queued, Running} && state in {Succeeded, Failed, Cancelled, Indeterminate}
  }

  /** A change is accepted exactly when it fits a retained operation; each refusal has its own condition. */
  lemma ChangeAcceptedIff(r: Registry, id: U64, c: Change)
    requires Retains(r)
    ensures var result := Changed(r, id, c).1;
      && (result.Ok? <==> Get(r, id).Some? && Fits(Get(r, id).value, c))
      && (result == Err(NotFound) <==> Get(r, id).None?)
      && (result == Err(InvalidProgress) <==>
            Get(r, id).Some? && c.SetProgress? && Get(r, id).value.state == Running && !Fits(Get(r, id).value, c))
      && (result.Err? ==> result.error in {NotFound, InvalidProgress, InvalidTransition})
  {
    ChangedView(r, id, c);
    RetainedIff(r, id);
  }

  /** What a client reads of an operation once a change was accepted. */
  predicate Reads(before: Operation, c: Change, after: Operation) {
    && after.id == before.id && after.request == before.request
    && match c
       case Start => after.state == Running && after.progress == Some(0) && after.completedAt.None?
       case SetProgress(percent) => after.state == Running && after.progress == Some(percent) && after.completedAt.None?
       case Finish(state, observed, error, at) =>
         && after.state == state && after.observedGeneration == observed && after.error == error
         && after.completedAt == Some(at)
         && after.progress == if state == Succeeded then Some(100) else before.progress
  }

  lemma ChangeReads(r: Registry, id: U64, c: Change)
    requires Retains(r) && Changed(r, id, c).1.Ok?
    ensures Get(r, id).Some? && Get(Changed(r, id, c).0, id).Some?
    ensures Reads(Get(r, id).value, c, Get(Changed(r, id, c).0, id).value)
  {
    ChangedView(r, id, c);
    RetainedIff(r, id);
  }

  /** A finished operation reads as it was finished for as long as it is retained, over every continuation of the run. */
  lemma FinishLasts(operationCapacity: nat, eventCapacity: nat, past: seq<EventStreams.Action>, id: U64, c: Change,
                    later: seq<EventStreams.Action>)
    requires operationCapacity > 0 && c.Finish? && Submissions(past + [EventStreams.Apply(id, c)] + later) < U64_MAX - 1
    requires Changed(RegistryAfter(operationCapacity, eventCapacity, past), id, c).1.Ok?
    requires Get(RegistryAfter(operationCapacity, eventCapacity, past + [EventStreams.Apply(id, c)] + later), id).Some?
    ensures Get(RegistryAfter(operationCapacity, eventCapacity, past), id).Some?
    ensures Reads(Get(RegistryAfter(operationCapacity, eventCapacity, past), id).value, c,
                  Get(RegistryAfter(operationCapacity, eventCapacity, past + [EventStreams.Apply(id, c)] + later), id).value)
  {
    var s := EventStreams.Initial(operationCapacity, eventCapacity, 0);
    var now := past + [EventStreams.Apply(id, c)];
    NextIdentifier(operationCapacity, eventCapacity, now + later);
    AfterAppend(s, now, later);
    RunCounts(EventStreams.After(s, now), later);
    assert now[..|now| - 1] == past;
    RunCounts(EventStreams.After(s, past), [EventStreams.Apply(id, c)]);
    RunRetains(s, past);
    ChangeReads(RegistryAfter(operationCapacity, eventCapacity, past), id, c);
    OperationsEvolve(operationCapacity, eventCapacity, now, later, id);
  }
}
