/** The operation registry: bounded operation history and a bounded, sequenced event ring. */
module Operations {
  import opened Prelude

  datatype OperationState = Queued | Running | Succeeded | Failed | Cancelled | Indeterminate | UnknownState

  predicate IsTerminal(s: OperationState) {
    s in {Succeeded, Failed, Cancelled, Indeterminate}
  }

  datatype OperationKind =
    | InitializeResourcePool | ReleaseResourcePool | CreateInstance | UpdateInstance | LoadInstance
    | StartInstance | StopInstance | UnloadInstance | DeleteInstance | ImportImage | ImportOsImage

  datatype ErrorCode =
    | InvalidRequestCode | NotFoundCode | ConflictCode | PreconditionFailedCode
    | BackendUnavailableCode | TimeoutCode | InternalCode

  datatype ApiError = ApiError(code: ErrorCode, retryable: bool)

  datatype ResourceReference = ResourceReference(kind: string, id: string)

  datatype NewOperation = NewOperation(
    kind: OperationKind, expectedGeneration: U64, resources: seq<ResourceReference>, auditId: Option<string>,
    createdAt: string)

  /** The numeric part of the source's "op-N" identifier stands for the identifier. */
  datatype Operation = Operation(
    id: U64, request: NewOperation, state: OperationState, progress: Option<nat>,
    observedGeneration: Option<U64>, error: Option<ApiError>, completedAt: Option<string>)

  datatype EventKind = OperationChanged | StreamOverflow

  datatype Event = Event(sequence: U64, generation: U64, kind: EventKind, resource: Option<ResourceReference>)

  /** Directly follows without a gap and does not move the generation backwards. */
  predicate ContiguousAfter(next: Event, previous: Event) {
    next.sequence == SaturatingAdd(previous.sequence, 1) && next.generation >= previous.generation
  }

  datatype EventBatch = EventBatch(events: seq<Event>, overflowed: bool, latest: U64)

  datatype RegistryError = InvalidCapacity | NotFound | InvalidTransition | InvalidProgress

  datatype Registry = Registry(
    operationCapacity: nat, eventCapacity: nat, nextOperation: U64, nextSequence: U64, latestGeneration: U64,
    operations: seq<Operation>, events: seq<Event>)

  datatype Change =
    | Start
    | SetProgress(percent: nat)
    | Finish(state: OperationState, observed: Option<U64>, error: Option<ApiError>, at: string)

  // ------------------------------------------------------------- transitions

  function Empty(operationCapacity: nat, eventCapacity: nat): Registry {
    Registry(operationCapacity, eventCapacity, 1, 1, 0, [], [])
  }

  /** Append to a bounded queue, dropping the oldest entry when it is full. */
  function Push<T>(queue: seq<T>, capacity: nat, x: T): seq<T> {
    if |queue| == capacity && queue != [] then queue[1..] + [x] else queue + [x]
  }

  function GenerationAfter(r: Registry, operation: Operation): U64 {
    var g := operation.observedGeneration.Or(operation.request.expectedGeneration);
    if g > r.latestGeneration then g else r.latestGeneration
  }

  function EventFor(r: Registry, operation: Operation): Event {
    Event(r.nextSequence, GenerationAfter(r, operation), OperationChanged,
          if operation.request.resources == [] then None else Some(operation.request.resources[0]))
  }

  function Publish(r: Registry, operation: Operation): Registry {
    r.(latestGeneration := GenerationAfter(r, operation),
       nextSequence := SaturatingAdd(r.nextSequence, 1),
       events := Push(r.events, r.eventCapacity, EventFor(r, operation)))
  }

  function Accepted(r: Registry, request: NewOperation): Operation {
    Operation(r.nextOperation, request, Queued, None, None, None, None)
  }

  function Created(r: Registry, request: NewOperation): Registry {
    var operation := Accepted(r, request);
    Publish(r.(nextOperation := SaturatingAdd(r.nextOperation, 1),
               operations := Push(r.operations, r.operationCapacity, operation)),
            operation)
  }

  function Mutate(o: Operation, c: Change): Result<Operation, RegistryError> {
    match c
    case Start =>
      if o.state != Queued then Err(InvalidTransition) else Ok(o.(state := Running, progress := Some(0)))
    case SetProgress(percent) =>
      if o.state != Running then Err(InvalidTransition)
      else if percent > 100 || (o.progress.Some? && percent < o.progress.value) then Err(InvalidProgress)
      else Ok(o.(progress := Some(percent)))
    case Finish(state, observed, error, at) =>
      if IsTerminal(o.state) || !IsTerminal(state) then Err(InvalidTransition)
      else Ok(o.(state := state, observedGeneration := observed, error := error, completedAt := Some(at),
                 progress := if state == Succeeded then Some(100) else o.progress))
  }

  function Find(operations: seq<Operation>, id: U64): (k: Option<nat>)
    ensures k.Some? ==> k.value < |operations| && operations[k.value].id == id
    ensures k.None? <==> forall o :: o in operations ==> o.id != id
  {
    if operations == [] then None
    else if operations[0].id == id then Some(0)
    else
      match Find(operations[1..], id)
      case None => None
      case Some(k) => Some(k + 1)
  }

  function Get(r: Registry, id: U64): Option<Operation> {
    match Find(r.operations, id)
    case None => None
    case Some(k) => Some(r.operations[k])
  }

  function Changed(r: Registry, id: U64, c: Change): (u: (Registry, Result<Operation, RegistryError>))
    ensures u.1.Err? ==> u.0 == r
  {
    match Find(r.operations, id)
    case None => (r, Err(NotFound))
    case Some(k) =>
      match Mutate(r.operations[k], c)
      case Err(error) => (r, Err(error))
      case Ok(operation) => (Publish(r.(operations := r.operations[k := operation]), operation), Ok(operation))
  }

  function After(events: seq<Event>, cursor: U64): seq<Event> {
    if events == [] then []
    else if events[0].sequence > cursor then [events[0]] + After(events[1..], cursor)
    else After(events[1..], cursor)
  }

  function Batch(r: Registry, cursor: U64): EventBatch {
    var latest := SaturatingSub(r.nextSequence, 1);
    if r.events == [] then EventBatch([], false, latest)
    else
      var oldest := r.events[0];
      var overflowed := SaturatingAdd(cursor, 1) < oldest.sequence;
      var marker := if overflowed
                    then [Event(SaturatingSub(oldest.sequence, 1), oldest.generation, StreamOverflow, None)] else [];
      EventBatch(marker + After(r.events, cursor), overflowed, latest)
  }

  // ------------------------------------------------------- the shared object

  /** The registry behind its lock; each method is one critical section. */
  class OperationRegistry {
    const operationCapacity: nat
    const eventCapacity: nat
    var nextOperation: U64
    var nextSequence: U64
    var latestGeneration: U64
    var operations: seq<Operation>
    var events: seq<Event>

    function State(): Registry
      reads this
    {
      Registry(operationCapacity, eventCapacity, nextOperation, nextSequence, latestGeneration, operations, events)
    }

    constructor (operationCapacity: nat, eventCapacity: nat)
      requires operationCapacity > 0 && eventCapacity > 0
      ensures State() == Empty(operationCapacity, eventCapacity)
    {
      this.operationCapacity, this.eventCapacity := operationCapacity, eventCapacity;
      nextOperation, nextSequence, latestGeneration, operations, events := 1, 1, 0, [], [];
    }

    static method New(operationCapacity: nat, eventCapacity: nat) returns (r: Result<OperationRegistry, RegistryError>)
      ensures r == Err(InvalidCapacity) <==> operationCapacity == 0 || eventCapacity == 0
      ensures r.Ok? <==> operationCapacity > 0 && eventCapacity > 0
      ensures r.Ok? ==> fresh(r.value) && r.value.State() == Empty(operationCapacity, eventCapacity)
    {
      if operationCapacity == 0 || eventCapacity == 0 { return Err(InvalidCapacity); }
      var registry := new OperationRegistry(operationCapacity, eventCapacity);
      return Ok(registry);
    }

    method Create(request: NewOperation) returns (operation: Operation)
      modifies this
      ensures State() == Created(old(State()), request)
      ensures operation == Accepted(old(State()), request)
    {
      operation := Operation(nextOperation, request, Queued, None, None, None, None);
      nextOperation := SaturatingAdd(nextOperation, 1);
      if |operations| == operationCapacity && operations != [] { operations := operations[1..]; }
      operations := operations + [operation];
      PublishOperationEvent(operation);
    }

    method Update(id: U64, c: Change) returns (result: Result<Operation, RegistryError>)
      modifies this
      ensures (State(), result) == Changed(old(State()), id, c)
    {
      var k := Find(operations, id);
      if k.None? { return Err(NotFound); }
      result := Mutate(operations[k.value], c);
      if result.Ok? {
        operations := operations[k.value := result.value];
        PublishOperationEvent(result.value);
      }
    }

    method PublishOperationEvent(operation: Operation)
      modifies this`latestGeneration, this`nextSequence, this`events
      ensures State() == Publish(old(State()), operation)
    {
      var g := operation.observedGeneration.Or(operation.request.expectedGeneration);
      if g > latestGeneration { latestGeneration := g; }
      var event := Event(nextSequence, latestGeneration, OperationChanged,
        if operation.request.resources == [] then None else Some(operation.request.resources[0]));
      nextSequence := SaturatingAdd(nextSequence, 1);
      if |events| == eventCapacity && events != [] { events := events[1..]; }
      events := events + [event];
    }
  }

  /** One event-stream client. */
  class EventSubscription {
    const registry: OperationRegistry
    var cursor: U64

    constructor (registry: OperationRegistry, cursor: U64)
      ensures this.registry == registry && this.cursor == cursor
    {
      this.registry, this.cursor := registry, cursor;
    }

    /** The batch available when the wait ends; the cursor moves to its last event. */
    method NextBatch() returns (batch: EventBatch)
      modifies this
      ensures batch == Batch(registry.State(), old(cursor))
      ensures cursor == CursorAfter(old(cursor), batch)
    {
      var latest := SaturatingSub(registry.nextSequence, 1);
      var events: seq<Event> := [];
      var overflowed := false;
      if registry.events != [] {
        var oldest := registry.events[0];
        overflowed := SaturatingAdd(cursor, 1) < oldest.sequence;
        if overflowed {
          events := [Event(SaturatingSub(oldest.sequence, 1), oldest.generation, StreamOverflow, None)];
        }
        ghost var marker := events;
        for i := 0 to |registry.events|
          invariant events + After(registry.events[i..], cursor) == marker + After(registry.events, cursor)
        {
          assert registry.events[i..][0] == registry.events[i] && registry.events[i..][1..] == registry.events[i + 1..];
          if registry.events[i].sequence > cursor { events := events + [registry.events[i]]; }
        }
      }
      batch := EventBatch(events, overflowed, latest);
      if events != [] { cursor := events[|events| - 1].sequence; }
    }
  }

  function CursorAfter(cursor: U64, batch: EventBatch): U64 {
    if batch.events == [] then cursor else batch.events[|batch.events| - 1].sequence
  }
}
