/** Every interleaving of registry changes with one subscription's reads. */
module EventStreams {
  import opened Prelude
  import opened Operations

  datatype Action = Submit(request: NewOperation) | Apply(id: U64, change: Change) | Read

  /** `log` is everything ever published and `stream` everything the subscription was handed. */
  datatype System = System(registry: Registry, log: seq<Event>, cursor: U64, stream: seq<Event>)

  function Initial(operationCapacity: nat, eventCapacity: nat, start: U64): System {
    System(Empty(operationCapacity, eventCapacity), [], start, [])
  }

  function Do(s: System, a: Action): System {
    match a
    case Submit(request) =>
      s.(registry := Created(s.registry, request), log := s.log + [EventFor(s.registry, Accepted(s.registry, request))])
    case Apply(id, change) =>
      var (registry, result) := Changed(s.registry, id, change);
      s.(registry := registry, log := if result.Ok? then s.log + [EventFor(s.registry, result.value)] else s.log)
    case Read =>
      var batch := Batch(s.registry, s.cursor);
      s.(cursor := CursorAfter(s.cursor, batch), stream := s.stream + batch.events)
  }

  function After(s: System, actions: seq<Action>): System {
    if actions == [] then s else Do(After(s, actions[..|actions| - 1]), actions[|actions| - 1])
  }

  // ------------------------------------------------------------ the event ring

  predicate Numbered(log: seq<Event>, i: nat) {
    i < |log| ==> log[i].sequence == i + 1 && log[i].kind == OperationChanged
  }

  predicate Rising(log: seq<Event>, i: nat, j: nat) {
    i <= j < |log| ==> log[i].generation <= log[j].generation
  }

  /** Consecutive numbers from 1 on, generations that never fall. */
  ghost predicate Sequenced(log: seq<Event>) {
    && (forall i: nat {:trigger Numbered(log, i)} :: Numbered(log, i))
    && (forall i: nat, j: nat {:trigger Rising(log, i, j)} :: Rising(log, i, j))
  }

  predicate Held(events: seq<Event>, log: seq<Event>, i: nat) {
    i < |events| <= |log| ==> events[i] == log[|log| - |events| + i]
  }

  ghost predicate Suffix(events: seq<Event>, log: seq<Event>) {
    |events| <= |log| && forall i: nat {:trigger Held(events, log, i)} :: Held(events, log, i)
  }

  lemma SuffixIsSlice(events: seq<Event>, log: seq<Event>)
    requires Suffix(events, log)
    ensures events == log[|log| - |events|..]
  {
    forall i | 0 <= i < |events| ensures events[i] == log[|log| - |events|..][i] {
      assert Held(events, log, i);
    }
  }

  /** The ring holds the newest events of the log. */
  ghost predicate Ring(r: Registry, log: seq<Event>) {
    && Sequenced(log)
    && r.eventCapacity > 0
    && r.nextSequence == |log| + 1
    && |r.events| == (if |log| < r.eventCapacity then |log| else r.eventCapacity)
    && Suffix(r.events, log)
    && (log != [] ==> log[|log| - 1].generation <= r.latestGeneration)
  }

  lemma PushKeepsSuffix(log: seq<Event>, queue: seq<Event>, capacity: nat, e: Event)
    requires capacity > 0 && Suffix(queue, log)
    requires |queue| == if |log| < capacity then |log| else capacity
    ensures |Push(queue, capacity, e)| == if |log| + 1 < capacity then |log| + 1 else capacity
    ensures Suffix(Push(queue, capacity, e), log + [e])
  {
    forall i: nat ensures Held(Push(queue, capacity, e), log + [e], i) {
      assert Held(queue, log, i) && Held(queue, log, i + 1);
    }
  }

  lemma SequencedSnoc(log: seq<Event>, e: Event)
    requires Sequenced(log) && e.sequence == |log| + 1 && e.kind == OperationChanged
    requires log != [] ==> log[|log| - 1].generation <= e.generation
    ensures Sequenced(log + [e])
  {
    forall i: nat ensures Numbered(log + [e], i) {
      assert Numbered(log, i);
    }
    forall i: nat, j: nat ensures Rising(log + [e], i, j) {
      assert Rising(log, i, j);
      if i < j == |log| { assert Rising(log, i, |log| - 1); }
    }
  }

  /** Publishing keeps the ring exactly while the sequence counter can still advance. */
  lemma PublishKeepsRingIff(r: Registry, log: seq<Event>, operation: Operation)
    requires Ring(r, log)
    ensures Ring(Publish(r, operation), log + [EventFor(r, operation)]) <==> r.nextSequence < U64_MAX
  {
    var e := EventFor(r, operation);
    PushKeepsSuffix(log, r.events, r.eventCapacity, e);
    SequencedSnoc(log, e);
  }

  lemma SubmitKeepsRing(r: Registry, log: seq<Event>, request: NewOperation)
    requires Ring(r, log) && r.nextSequence < U64_MAX
    ensures Ring(Created(r, request), log + [EventFor(r, Accepted(r, request))])
  {
    var operation := Accepted(r, request);
    var q := r.(nextOperation := SaturatingAdd(r.nextOperation, 1),
                operations := Push(r.operations, r.operationCapacity, operation));
    assert Ring(q, log) && EventFor(q, operation) == EventFor(r, operation);
    PublishKeepsRingIff(q, log, operation);
  }

  lemma ApplyKeepsRing(r: Registry, log: seq<Event>, id: U64, change: Change)
    requires Ring(r, log) && r.nextSequence < U64_MAX && Changed(r, id, change).1.Ok?
    ensures Ring(Changed(r, id, change).0, log + [EventFor(r, Changed(r, id, change).1.value)])
  {
    var operation := Changed(r, id, change).1.value;
    var q := r.(operations := r.operations[Find(r.operations, id).value := operation]);
    assert Ring(q, log) && EventFor(q, operation) == EventFor(r, operation);
    PublishKeepsRingIff(q, log, operation);
  }

  lemma DoKeepsRing(s: System, a: Action)
    requires Ring(s.registry, s.log) && |Do(s, a).log| < U64_MAX
    ensures Ring(Do(s, a).registry, Do(s, a).log)
  {
    match a {
      case Submit(request) => SubmitKeepsRing(s.registry, s.log, request);
      case Apply(id, change) =>
        if Changed(s.registry, id, change).1.Ok? { ApplyKeepsRing(s.registry, s.log, id, change); }
      case Read =>
    }
  }

  // ------------------------------------------------------------------ batches

  lemma {:induction false} AfterSuffix(log: seq<Event>, k: nat, cursor: U64)
    requires k <= |log| && Sequenced(log)
    ensures Operations.After(log[k..], cursor) == if cursor >= |log| then [] else log[if cursor > k then cursor else k..]
    decreases |log| - k
  {
    if k < |log| {
      AfterSuffix(log, k + 1, cursor);
      assert Numbered(log, k);
      assert log[k..][0] == log[k] && log[k..][1..] == log[k + 1..];
      assert log[k..] == [log[k]] + log[k + 1..];
    }
  }

  /** A batch is the whole unread log, or a marker for what the ring lost followed by all it still holds. */
  lemma BatchIsUnread(r: Registry, log: seq<Event>, cursor: U64)
    requires Ring(r, log)
    ensures var b := Batch(r, cursor);
      && b.latest == |log|
      && (b.overflowed <==> |log| > cursor + r.eventCapacity)
      && b.events ==
           if cursor >= |log| then []
           else if |log| <= cursor + r.eventCapacity then log[cursor..]
           else
             var k := |log| - r.eventCapacity;
             [Event(k, log[k].generation, StreamOverflow, None)] + log[k..]
  {
    if log != [] {
      var k := |log| - |r.events|;
      SuffixIsSlice(r.events, log);
      assert Numbered(log, k);
      AfterSuffix(log, k, cursor);
    }
  }

  lemma LogContiguous(log: seq<Event>, i: nat)
    requires Sequenced(log) && i + 1 < |log| <= U64_MAX
    ensures ContiguousAfter(log[i + 1], log[i])
    ensures log[i + 1].sequence == log[i].sequence + 1 && log[i].generation <= log[i + 1].generation
  {
    assert Numbered(log, i) && Numbered(log, i + 1) && Rising(log, i, i + 1);
  }

  /** Successive events of one batch, the marker included, are contiguous. */
  lemma BatchContiguous(r: Registry, log: seq<Event>, cursor: U64, i: nat)
    requires Ring(r, log) && i + 1 < |Batch(r, cursor).events|
    ensures var a, b := Batch(r, cursor).events[i], Batch(r, cursor).events[i + 1];
      ContiguousAfter(b, a) && b.sequence == a.sequence + 1 && a.generation <= b.generation
  {
    BatchIsUnread(r, log, cursor);
    var events := Batch(r, cursor).events;
    if |log| <= cursor + r.eventCapacity {
      SliceContiguous(log, cursor, events, i);
    } else {
      MarkedContiguous(log, |log| - r.eventCapacity, events, i);
    }
  }

  lemma SliceContiguous(log: seq<Event>, k: nat, events: seq<Event>, i: nat)
    requires Sequenced(log) && |log| <= U64_MAX && k <= |log| && events == log[k..] && i + 1 < |events|
    ensures ContiguousAfter(events[i + 1], events[i])
    ensures events[i + 1].sequence == events[i].sequence + 1 && events[i].generation <= events[i + 1].generation
  {
    LogContiguous(log, k + i);
  }

  lemma MarkedContiguous(log: seq<Event>, k: nat, events: seq<Event>, i: nat)
    requires Sequenced(log) && k < |log| <= U64_MAX && i + 1 < |events|
    requires events == [Event(k, log[k].generation, StreamOverflow, None)] + log[k..]
    ensures ContiguousAfter(events[i + 1], events[i])
    ensures events[i + 1].sequence == events[i].sequence + 1 && events[i].generation <= events[i + 1].generation
  {
    assert Numbered(log, k);
    if i > 0 { LogContiguous(log, k + i - 1); }
  }

  // -------------------------------------------------------------- the stream

  /** The sequence number reached before element `i` of the stream. */
  function Reached(start: U64, stream: seq<Event>, i: nat): U64
    requires i <= |stream|
  {
    if i == 0 then start else stream[i - 1].sequence
  }

  /** Element `i` is the very next published event, or a marker that announces the loss of a non-empty stretch. */
  ghost predicate Explained(start: U64, stream: seq<Event>, log: seq<Event>, i: nat)
    requires i < |stream|
  {
    var before := Reached(start, stream, i);
    match stream[i].kind
    case OperationChanged => before < |log| && stream[i] == log[before] && stream[i].sequence == before + 1
    case StreamOverflow => before < stream[i].sequence <= |log|
  }

  ghost predicate Explains(start: U64, s: System) {
    && s.cursor == Reached(start, s.stream, |s.stream|)
    && forall i {:trigger Explained(start, s.stream, s.log, i)} ::
         0 <= i < |s.stream| ==> Explained(start, s.stream, s.log, i)
  }

  lemma LogGrows(start: U64, s: System, t: System)
    requires Explains(start, s) && t.cursor == s.cursor && t.stream == s.stream && s.log <= t.log
    ensures Explains(start, t)
  {
    forall i | 0 <= i < |t.stream| ensures Explained(start, t.stream, t.log, i) {
      assert Explained(start, s.stream, s.log, i);
    }
  }

  lemma ReadKeeps(start: U64, s: System)
    requires Explains(start, s) && Ring(s.registry, s.log)
    ensures Explains(start, Do(s, Read))
  {
    var t := Do(s, Read);
    forall i | 0 <= i < |t.stream| ensures Explained(start, t.stream, t.log, i) {
      if i < |s.stream| {
        assert Explained(start, s.stream, s.log, i);
      } else {
        BatchExplained(start, s, i - |s.stream|);
      }
    }
  }

  lemma BatchExplained(start: U64, s: System, i: nat)
    requires Explains(start, s) && Ring(s.registry, s.log)
    requires i < |Batch(s.registry, s.cursor).events|
    ensures Explained(start, Do(s, Read).stream, s.log, |s.stream| + i)
  {
    var events := Batch(s.registry, s.cursor).events;
    var stream := Do(s, Read).stream;
    assert stream == s.stream + events;
    assert stream[|s.stream| + i] == events[i];
    assert i > 0 ==> stream[|s.stream| + i - 1] == events[i - 1];
    BatchFollows(s.registry, s.log, s.cursor, i);
  }

  /** The event after sequence number `before` is the next of the log, or a marker for a stretch of it. */
  predicate Succeeds(log: seq<Event>, before: int, e: Event) {
    match e.kind
    case OperationChanged => 0 <= before < |log| && e == log[before] && e.sequence == before + 1
    case StreamOverflow => before < e.sequence <= |log|
  }

  lemma SliceFollows(log: seq<Event>, k: nat, i: nat)
    requires Sequenced(log) && k + i < |log|
    ensures Succeeds(log, if i == 0 then k else log[k + i - 1].sequence, log[k + i])
  {
    assert Numbered(log, k + i);
    if i > 0 { assert Numbered(log, k + i - 1); }
  }

  /** Each event of a batch is the one right after its predecessor, except for a leading marker. */
  lemma BatchFollows(r: Registry, log: seq<Event>, cursor: U64, i: nat)
    requires Ring(r, log) && i < |Batch(r, cursor).events|
    ensures var events := Batch(r, cursor).events;
      Succeeds(log, if i == 0 then cursor else events[i - 1].sequence, events[i])
  {
    BatchIsUnread(r, log, cursor);
    var events := Batch(r, cursor).events;
    if |log| <= cursor + r.eventCapacity {
      assert events[i] == log[cursor + i] && (i > 0 ==> events[i - 1] == log[cursor + i - 1]);
      SliceFollows(log, cursor, i);
    } else if i > 0 {
      var k := |log| - r.eventCapacity;
      assert events[i] == log[k + i - 1] && events[i - 1].sequence == if i == 1 then k else log[k + i - 2].sequence;
      SliceFollows(log, k, i - 1);
    }
  }

  lemma DoExtendsLog(s: System, a: Action)
    ensures s.log <= Do(s, a).log && |Do(s, a).log| <= |s.log| + 1
    ensures Do(s, a).registry.eventCapacity == s.registry.eventCapacity
  {
  }

  /**
   In every reachable state the ring holds the newest consecutively numbered events exactly while fewer than 2^64 - 1
   were published, and until then the stream is explained by the log.
   */
  lemma {:induction false} RunKeepsIff(operationCapacity: nat, eventCapacity: nat, start: U64, actions: seq<Action>)
    requires eventCapacity > 0
    ensures var s := After(Initial(operationCapacity, eventCapacity, start), actions);
      && (Ring(s.registry, s.log) <==> |s.log| < U64_MAX)
      && (|s.log| < U64_MAX ==> Explains(start, s))
      && |s.log| <= |actions| && s.registry.eventCapacity == eventCapacity
  {
    if actions != [] {
      var n := |actions| - 1;
      RunKeepsIff(operationCapacity, eventCapacity, start, actions[..n]);
      var s := After(Initial(operationCapacity, eventCapacity, start), actions[..n]);
      DoExtendsLog(s, actions[n]);
      if |Do(s, actions[n]).log| < U64_MAX {
        DoKeepsRing(s, actions[n]);
        if actions[n] == Read { ReadKeeps(start, s); } else { LogGrows(start, s, Do(s, actions[n])); }
      }
    }
  }

  // ------------------------------------------------------- what the events tell

  /** The operations of a run in the order in which they were accepted or changed, as each then was. */
  function Told(start: System, actions: seq<Action>): seq<Operation> {
    if actions == [] then []
    else
      var n := |actions| - 1;
      var earlier, r := Told(start, actions[..n]), After(start, actions[..n]).registry;
      match actions[n]
      case Submit(request) => earlier + [Operation(r.nextOperation, request, Queued, None, None, None, None)]
      case Apply(id, change) => if Changed(r, id, change).1.Ok? then earlier + [Changed(r, id, change).1.value] else earlier
      case Read => earlier
  }

  /** The generation that an operation speaks of: the one observed, or else the one expected. */
  predicate SpeaksOf(o: Operation, generation: int) {
    match o.observedGeneration
    case Some(seen) => generation == seen
    case None => generation == o.request.expectedGeneration
  }

  /** Event `n` is about operation `n`, and carries the highest generation that any operation up to it spoke of. */
  ghost predicate TellsOf(log: seq<Event>, told: seq<Operation>, n: nat) {
    n < |log| == |told| ==>
      && log[n].kind == OperationChanged
      && (told[n].request.resources == [] ==> log[n].resource == None)
      && (told[n].request.resources != [] ==> log[n].resource == Some(told[n].request.resources[0]))
      && (forall m, g :: 0 <= m <= n && SpeaksOf(told[m], g) ==> g <= log[n].generation)
      && exists m :: 0 <= m <= n && SpeaksOf(told[m], log[n].generation)
  }

  ghost predicate AllTold(r: Registry, log: seq<Event>, told: seq<Operation>) {
    && |log| == |told|
    && (forall n: nat {:trigger TellsOf(log, told, n)} :: TellsOf(log, told, n))
    && r.latestGeneration == if log == [] then 0 else log[|log| - 1].generation
  }

  lemma TellsMore(r: Registry, log: seq<Event>, told: seq<Operation>, o: Operation, e: Event)
    requires AllTold(r, log, told) && e == EventFor(r, o)
    ensures AllTold(r.(latestGeneration := GenerationAfter(r, o)), log + [e], told + [o])
  {
    forall n: nat ensures TellsOf(log + [e], told + [o], n) {
      assert TellsOf(log, told, n);
      if n < |log| {
        assert forall m :: 0 <= m <= n ==> (told + [o])[m] == told[m];
        var m :| 0 <= m <= n && SpeaksOf(told[m], log[n].generation);
        assert SpeaksOf((told + [o])[m], log[n].generation);
      } else if n == |log| {
        TellsNewest(r, log, told, o, e);
      }
    }
  }

  lemma TellsNewest(r: Registry, log: seq<Event>, told: seq<Operation>, o: Operation, e: Event)
    requires AllTold(r, log, told) && e == EventFor(r, o)
    ensures TellsOf(log + [e], told + [o], |log|)
  {
    var n, all := |log|, told + [o];
    if n > 0 { assert TellsOf(log, told, n - 1); }
    forall m, g | 0 <= m <= n && SpeaksOf(all[m], g) ensures g <= e.generation {
      if m < n { assert all[m] == told[m]; }
    }
    if e.generation == r.latestGeneration && n > 0 {
      var m :| 0 <= m <= n - 1 && SpeaksOf(told[m], log[n - 1].generation);
      assert SpeaksOf(all[m], e.generation);
    } else {
      assert SpeaksOf(all[n], e.generation);
    }
  }

  /**
   Over every run the log tells of the operations accepted and changed, one event each and in order, and the generation
   that it has reached is the highest that any of them spoke of.
   */
  lemma {:induction false} LogTells(operationCapacity: nat, eventCapacity: nat, start: U64, actions: seq<Action>)
    ensures var s := After(Initial(operationCapacity, eventCapacity, start), actions);
      AllTold(s.registry, s.log, Told(Initial(operationCapacity, eventCapacity, start), actions))
  {
    var first := Initial(operationCapacity, eventCapacity, start);
    if actions == [] {
      assert AllTold(first.registry, [], []);
    } else {
      var n := |actions| - 1;
      LogTells(operationCapacity, eventCapacity, start, actions[..n]);
      ActionTells(After(first, actions[..n]), actions[n], Told(first, actions[..n]));
    }
  }

  lemma ActionTells(s: System, a: Action, told: seq<Operation>)
    requires AllTold(s.registry, s.log, told)
    ensures var more := match a
        case Submit(request) => told + [Operation(s.registry.nextOperation, request, Queued, None, None, None, None)]
        case Apply(id, change) =>
          if Changed(s.registry, id, change).1.Ok? then told + [Changed(s.registry, id, change).1.value] else told
        case Read => told;
      AllTold(Do(s, a).registry, Do(s, a).log, more)
  {
    match a {
      case Submit(request) =>
        var o := Accepted(s.registry, request);
        TellsMore(s.registry, s.log, told, o, EventFor(s.registry, o));
      case Apply(id, change) =>
        var result := Changed(s.registry, id, change).1;
        if result.Ok? { TellsMore(s.registry, s.log, told, result.value, EventFor(s.registry, result.value)); }
      case Read =>
    }
  }

  function Submits(n: nat, request: NewOperation): seq<Action> {
    seq(n, _ => Submit(request))
  }

  lemma SubmitCounts(s: System, request: NewOperation)
    ensures var t := Do(s, Submit(request));
      && t.registry.nextSequence == SaturatingAdd(s.registry.nextSequence, 1)
      && |t.log| == |s.log| + 1 && t.log[..|s.log|] == s.log && t.log[|s.log|].sequence == s.registry.nextSequence
  {
  }

  function Submitted(operationCapacity: nat, eventCapacity: nat, n: nat, request: NewOperation): System {
    After(Initial(operationCapacity, eventCapacity, 0), Submits(n, request))
  }

  lemma SubmitsNext(operationCapacity: nat, eventCapacity: nat, n: nat, request: NewOperation)
    ensures Submitted(operationCapacity, eventCapacity, n + 1, request) ==
            Do(Submitted(operationCapacity, eventCapacity, n, request), Submit(request))
  {
    assert Submits(n + 1, request)[..n] == Submits(n, request);
  }

  lemma {:induction false} SubmitsCount(operationCapacity: nat, eventCapacity: nat, n: nat, request: NewOperation)
    ensures var s := Submitted(operationCapacity, eventCapacity, n, request);
      |s.log| == n && s.registry.nextSequence == if n < U64_MAX then n + 1 else U64_MAX
  {
    if n > 0 {
      SubmitsCount(operationCapacity, eventCapacity, n - 1, request);
      SubmitsNext(operationCapacity, eventCapacity, n - 1, request);
      SubmitCounts(Submitted(operationCapacity, eventCapacity, n - 1, request), request);
    }
  }

  /** The newest event carries the sequence number that was next before it. */
  lemma SubmitsExtend(operationCapacity: nat, eventCapacity: nat, n: nat, request: NewOperation)
    ensures var s, t := Submitted(operationCapacity, eventCapacity, n, request),
                        Submitted(operationCapacity, eventCapacity, n + 1, request);
      |s.log| == n && |t.log| == n + 1 && t.log[..n] == s.log && t.log[n].sequence == if n < U64_MAX then n + 1 else U64_MAX
  {
    SubmitsCount(operationCapacity, eventCapacity, n, request);
    SubmitsNext(operationCapacity, eventCapacity, n, request);
    SubmitCounts(Submitted(operationCapacity, eventCapacity, n, request), request);
  }

  /** A run that uses the sequence numbers up: two successive events carry the last one, and the ring is lost. */
  lemma SequenceExample(operationCapacity: nat, eventCapacity: nat, request: NewOperation)
    requires eventCapacity > 0
    ensures var s := Submitted(operationCapacity, eventCapacity, U64_MAX + 1, request);
      && |s.log| == U64_MAX + 1 && s.log[U64_MAX - 1].sequence == s.log[U64_MAX].sequence == U64_MAX
      && !Ring(s.registry, s.log)
  {
    SubmitsExtend(operationCapacity, eventCapacity, U64_MAX - 1, request);
    SubmitsExtend(operationCapacity, eventCapacity, U64_MAX, request);
    RunKeepsIff(operationCapacity, eventCapacity, 0, Submits(U64_MAX + 1, request));
    var s := After(Initial(operationCapacity, eventCapacity, 0), Submits(U64_MAX + 1, request));
    assert s.log[U64_MAX - 1] == s.log[..U64_MAX][U64_MAX - 1];
  }

  /** Stream positions strictly increase: nothing is handed out twice. */
  lemma {:induction false} StreamIncreases(start: U64, s: System, i: nat, j: nat)
    requires Explains(start, s) && i < j <= |s.stream|
    ensures Reached(start, s.stream, i) < Reached(start, s.stream, j)
    decreases j
  {
    assert Explained(start, s.stream, s.log, j - 1);
    if i < j - 1 { StreamIncreases(start, s, i, j - 1); }
  }

  /** Element `i` accounts for published event number `n`: it is that event, or a marker whose gap contains it. */
  predicate Accounts(start: U64, s: System, i: nat, n: nat) {
    && i < |s.stream| && 0 < n <= |s.log|
    && Reached(start, s.stream, i) < n <= s.stream[i].sequence
    && (s.stream[i].kind == OperationChanged ==> s.stream[i] == s.log[n - 1])
  }

  /** Reads cover everything published since the start cursor, each event exactly once or inside one announced gap. */
  lemma {:induction false} ExactlyOnceOrAnnounced(
    operationCapacity: nat, eventCapacity: nat, start: U64, actions: seq<Action>, n: nat) returns (i: nat)
    requires eventCapacity > 0
    requires var s := After(Initial(operationCapacity, eventCapacity, start), actions);
      start < n <= s.cursor && n <= |s.log| < U64_MAX
    ensures var s := After(Initial(operationCapacity, eventCapacity, start), actions);
      Accounts(start, s, i, n) && forall j: nat :: Accounts(start, s, j, n) ==> j == i
  {
    var s := After(Initial(operationCapacity, eventCapacity, start), actions);
    RunKeepsIff(operationCapacity, eventCapacity, start, actions);
    i := Locate(start, s, n, |s.stream|);
    forall j: nat | Accounts(start, s, j, n) ensures j == i {
      if j < i {
        if j + 1 < i { StreamIncreases(start, s, j + 1, i); }
      } else if i < j {
        if i + 1 < j { StreamIncreases(start, s, i + 1, j); }
      }
    }
  }

  lemma {:induction false} Locate(start: U64, s: System, n: nat, k: nat) returns (i: nat)
    requires Explains(start, s) && k <= |s.stream| && start < n <= Reached(start, s.stream, k) && n <= |s.log|
    ensures Accounts(start, s, i, n)
  {
    i := k - 1;
    assert Explained(start, s.stream, s.log, i);
    if n <= Reached(start, s.stream, i) { i := Locate(start, s, n, i); }
  }

  lemma BatchReachesEnd(r: Registry, log: seq<Event>, cursor: U64)
    requires Ring(r, log)
    ensures CursorAfter(cursor, Batch(r, cursor)) == if cursor < |log| then |log| else cursor
  {
    BatchIsUnread(r, log, cursor);
    var events := Batch(r, cursor).events;
    if cursor < |log| {
      assert events[|events| - 1] == log[|log| - 1];
      assert Numbered(log, |log| - 1);
    }
  }

  /** A read leaves nothing unaccounted for, and announces a loss exactly when more than the capacity went by. */
  lemma ReadCatchesUp(operationCapacity: nat, eventCapacity: nat, start: U64, actions: seq<Action>)
    requires eventCapacity > 0 && |After(Initial(operationCapacity, eventCapacity, start), actions).log| < U64_MAX
    ensures var s := After(Initial(operationCapacity, eventCapacity, start), actions);
      && Do(s, Read).cursor == (if s.cursor < |s.log| then |s.log| else s.cursor)
      && (Batch(s.registry, s.cursor).overflowed <==> |s.log| > s.cursor + eventCapacity)
  {
    var s := After(Initial(operationCapacity, eventCapacity, start), actions);
    RunKeepsIff(operationCapacity, eventCapacity, start, actions);
    BatchReachesEnd(s.registry, s.log, s.cursor);
    assert Batch(s.registry, s.cursor).overflowed <==> |s.log| > s.cursor + eventCapacity by {
      BatchIsUnread(s.registry, s.log, s.cursor);
    }
  }
}
