/** The framed console server: one request, one reply, between a client stream and an exclusive console device. */
module ConsoleServer {
  import opened Prelude
  import opened ConsoleFrames
  import opened ConsoleStreams
  import opened ConsoleLeases
  import opened ConsoleSessions
  import opened ConsoleWire

  const FRAME_ATTACHMENT: Byte := 0x01
  const FRAME_INPUT: Byte := 0x10
  const FRAME_READ: Byte := 0x11
  const FRAME_DETACH: Byte := 0x12
  const FRAME_RESIZE: Byte := 0x13
  const FRAME_OUTPUT: Byte := 0x20
  const FRAME_ACK: Byte := 0x21
  const FRAME_CLOSED: Byte := 0x22
  const FRAME_ERROR: Byte := 0x7f

  const MAX_CONTROL_FRAME_BYTES: int := 4096

  /** How replies are rendered and resize requests recognised; the JSON itself is abstract. */
  datatype Codec = Codec(
    attachment: seq<Byte>, errorJson: ConsoleError -> seq<Byte>, closeJson: CloseReason -> seq<Byte>,
    isSize: seq<Byte> -> bool)

  datatype Exchange = Exchange(request: Frame, reply: Frame)

  function Requests(log: seq<Exchange>): seq<Frame> {
    seq(|log|, i requires 0 <= i < |log| => log[i].request)
  }

  function Replies(log: seq<Exchange>): seq<Frame> {
    seq(|log|, i requires 0 <= i < |log| => log[i].reply)
  }

  /** What an exchange sent to the device: the payload of an acknowledged input. */
  function InputOf(e: Exchange): seq<Byte> {
    if e.request.kind == FRAME_INPUT && e.reply.kind == FRAME_ACK then e.request.payload else []
  }

  /** What an exchange took from the device: the payload of an output reply. */
  function OutputOf(e: Exchange): seq<Byte> {
    if e.reply.kind == FRAME_OUTPUT then e.reply.payload else []
  }

  /** Payloads of the acknowledged inputs, in order. */
  function Inputs(log: seq<Exchange>): seq<Byte> {
    if log == [] then [] else Inputs(log[..|log| - 1]) + InputOf(log[|log| - 1])
  }

  /** Payloads of the output replies, in order. */
  function Outputs(log: seq<Exchange>): seq<Byte> {
    if log == [] then [] else Outputs(log[..|log| - 1]) + OutputOf(log[|log| - 1])
  }

  /** Every request gets a reply of a kind that answers it. */
  predicate Answers(e: Exchange) {
    || (e.request.kind == FRAME_INPUT && e.reply.kind in {FRAME_ACK, FRAME_ERROR})
    || (e.request.kind == FRAME_READ && e.request.payload == []
        && e.reply.kind in {FRAME_OUTPUT, FRAME_ACK, FRAME_CLOSED, FRAME_ERROR})
    || (e.request.kind == FRAME_DETACH && e.request.payload == [] && e.reply.kind == FRAME_CLOSED)
    || (e.request.kind == FRAME_RESIZE && e.reply.kind == FRAME_ERROR)
  }

  /** What a session is served on: how replies are worded, and the frame limit. */
  datatype Terms = Terms(codec: Codec, maxFrame: nat)

  /** A reply keeps to the frame limit, and to the codec. */
  ghost predicate Worded(terms: Terms, reply: Frame) {
    && (reply.kind == FRAME_OUTPUT ==> 0 < |reply.payload| <= terms.maxFrame)
    && (reply.kind == FRAME_ACK ==> reply.payload == [])
    && (reply.kind == FRAME_CLOSED ==> exists reason: CloseReason :: reply.payload == terms.codec.closeJson(reason))
    && (reply.kind == FRAME_ERROR ==> exists error: ConsoleError :: reply.payload == terms.codec.errorJson(error))
  }

  ghost predicate Proper(terms: Terms, e: Exchange) {
    Answers(e) && Worded(terms, e.reply)
  }

  ghost predicate AllProper(terms: Terms, log: seq<Exchange>) {
    forall e :: e in log ==> Proper(terms, e)
  }

  function Extended(log: seq<Exchange>, done: Option<Exchange>): seq<Exchange> {
    if done.Some? then log + [done.value] else log
  }

  function Last(log: seq<Exchange>): Option<Exchange> {
    if log == [] then None else Some(log[|log| - 1])
  }

  ghost predicate WellSized(log: seq<Exchange>) {
    forall e :: e in log ==> |e.request.payload| <= U32_MAX && |e.reply.payload| <= U32_MAX
  }

  /** The bytes of completed exchanges alone. */
  ghost predicate Accounted(log: seq<Exchange>, moved: Traffic) {
    && WellSized(log)
    && moved == Traffic(EncodeAll(Requests(log)), EncodeAll(Replies(log)), Inputs(log), Outputs(log))
  }

  lemma ListsSnoc(log: seq<Exchange>, e: Exchange)
    ensures Requests(log + [e]) == Requests(log) + [e.request]
    ensures Replies(log + [e]) == Replies(log) + [e.reply]
    ensures Inputs(log + [e]) == Inputs(log) + InputOf(e)
    ensures Outputs(log + [e]) == Outputs(log) + OutputOf(e)
  {
    assert (log + [e])[..|log|] == log;
  }

  lemma AccountedSnoc(log: seq<Exchange>, e: Exchange, moved: Traffic)
    requires Accounted(log, moved) && |e.request.payload| <= U32_MAX && |e.reply.payload| <= U32_MAX
    ensures Accounted(log + [e], Plus(moved, Traffic(Encode(e.request), Encode(e.reply), InputOf(e), OutputOf(e))))
  {
    ListsSnoc(log, e);
    EncodeAllSnoc(Requests(log), e.request);
    EncodeAllSnoc(Replies(log), e.reply);
  }

  datatype Handled = Continue | Finished(reason: CloseReason) | Stopped(error: ProtocolError)

  /** The payload an exchange was writing to the device when the device failed or the reply was cut off. */
  function InputAtRisk(e: Exchange): seq<Byte> {
    if e.request.kind == FRAME_INPUT then e.request.payload else []
  }

  // ------------------------------------------------------------ what may go wrong

  /** What the causes of an error are read from: the session, and what its two streams are still going to do. */
  datatype Scene = Scene(
    maxFrame: nat, closed: Option<CloseReason>, faults: set<IoError>, device: seq<WriteEvent>, client: seq<WriteEvent>)

  ghost function SceneOf(client: Stream, session: ConsoleSession): Scene
    reads client, session, session.device
  {
    Scene(session.maxFrame, session.closed, Faults(session.device.inbound), session.device.outbound, client.outbound)
  }

  predicate Onward(before: Scene, after: Scene) {
    && after.maxFrame == before.maxFrame && after.faults <= before.faults
    && Later(before.device, after.device) && Later(before.client, after.client)
  }

  /** The device, the frame limit or the session's end is to blame for a console error. */
  ghost predicate Blamed(before: Scene, after: Scene, request: Frame, error: ConsoleError) {
    if request.kind != FRAME_INPUT then exists e: IoError :: e in before.faults && error == DeviceError(e)
    else if |request.payload| > before.maxFrame then error == TooLarge
    else
      || (before.closed.Some? && error == SessionClosed(before.closed.value))
      || WriteRefused(before.device, after.device, error, false)
  }

  /** The exchange ended in an error that its reply reports. */
  ghost predicate Failed(codec: Codec, before: Scene, after: Scene, error: ProtocolError, e: Exchange) {
    && e.reply.kind == FRAME_ERROR && e.request.kind != FRAME_RESIZE
    && error.Console? && e.reply.payload == codec.errorJson(error.console)
    && Blamed(before, after, e.request, error.console)
  }

  /** The reply could not be sent: it does not fit a frame, or the client's stream refused it. */
  ghost predicate Unsent(before: Scene, after: Scene, error: ProtocolError, e: Exchange) {
    if |e.reply.payload| > U32_MAX then error == InvalidFrame
    else error.Io? && Refused(before.client, after.client, error.io, false)
  }

  /** Requests may be as long as a frame of data or of control, whichever is more. */
  function Limit(maxFrame: nat): (limit: nat)
    ensures maxFrame <= limit && 4 * 1024 <= limit && (limit == maxFrame || limit == 4 * 1024)
  {
    if maxFrame > MAX_CONTROL_FRAME_BYTES then maxFrame else MAX_CONTROL_FRAME_BYTES
  }

  /** No request could be read from what was left, or one that is not understood; `consumed` is what it took. */
  predicate Unserved(codec: Codec, maxFrame: nat, error: ProtocolError, left: seq<Byte>, stop: ReadOutcome, consumed: seq<Byte>) {
    match Parsed(left, stop, Limit(maxFrame))
    case Err(e) => error == e && consumed == Consumed(left, e)
    case Ok(None) => false
    case Ok(Some(request)) =>
      && error == InvalidFrame && !Understood(codec, request)
      && |request.payload| <= U32_MAX && consumed == Encode(request)
  }

  lemma LaterScenes(first: Scene, before: Scene, after: Scene)
    requires Onward(first, before) && Onward(before, after)
    ensures Onward(first, after)
  {
    LaterLater(first.device, before.device, after.device);
    LaterLater(first.client, before.client, after.client);
  }

  lemma FailedLater(codec: Codec, first: Scene, before: Scene, after: Scene, error: ProtocolError, e: Exchange)
    requires Onward(first, before) && Onward(before, after) && before.closed == first.closed
    requires Failed(codec, before, after, error, e)
    ensures Failed(codec, first, after, error, e)
  {
    if e.request.kind == FRAME_INPUT && WriteRefused(before.device, after.device, error.console, false) {
      var io :| error.console == DeviceError(io) && Refused(before.device, after.device, io, false);
      RefusedLater(first.device, before.device, after.device, io, false);
    }
  }

  lemma UnsentLater(first: Scene, before: Scene, after: Scene, error: ProtocolError, e: Exchange)
    requires Onward(first, before) && Onward(before, after) && Unsent(before, after, error, e)
    ensures Unsent(first, after, error, e)
  {
    if error.Io? && |e.reply.payload| <= U32_MAX {
      RefusedLater(first.client, before.client, after.client, error.io, false);
    }
  }

  // ----------------------------------------------------------------- one request

  /** Requests that get a reply; anything else ends the session. */
  predicate Understood(codec: Codec, request: Frame) {
    || request.kind == FRAME_INPUT
    || (request.kind in {FRAME_READ, FRAME_DETACH} && request.payload == [])
    || (request.kind == FRAME_RESIZE && codec.isSize(request.payload))
  }

  /** The reason of a clean end: the first one recorded, or that the device ended while it was read, or else the client's leaving. */
  function EndReason(closed: Option<CloseReason>, last: Option<Exchange>): CloseReason {
    if closed.Some? then closed.value
    else if last.Some? && last.value.request.kind == FRAME_READ && last.value.reply.kind == FRAME_CLOSED then DeviceEnded
    else ClientDetached
  }

  /** What a reply says, and what it leads to once it is out: it reports the session's own state and ends it or not. */
  predicate Says(codec: Codec, closed: Option<CloseReason>, e: Exchange, h: Handled) {
    if e.reply.kind == FRAME_OUTPUT then h == Continue
    else if e.reply.kind == FRAME_ACK then e.reply.payload == [] && h == Continue
    else if e.reply.kind == FRAME_CLOSED then
      closed.Some? && e.reply.payload == codec.closeJson(closed.value) && h == Finished(closed.value)
    else if e.request.kind == FRAME_RESIZE then e.reply.payload == codec.errorJson(ResizeUnsupported) && h == Continue
    else h.Stopped? && h.error.Console? && e.reply.payload == codec.errorJson(h.error.console)
  }

  /** The reply to a read tells what the device had: data while some arrives, and otherwise what stopped it. */
  predicate ReadReply(codec: Codec, closed: Option<CloseReason>, arriving: seq<Byte>, stop: ReadOutcome, reply: Frame) {
    if closed.Some? then reply == Frame(FRAME_CLOSED, codec.closeJson(closed.value))
    else if arriving != [] then reply.kind == FRAME_OUTPUT && reply.payload != [] && reply.payload <= arriving
    else
      match stop
      case Blocked => reply == Frame(FRAME_ACK, [])
      case End => reply == Frame(FRAME_CLOSED, codec.closeJson(DeviceEnded))
      case Fault(error) => reply == Frame(FRAME_ERROR, codec.errorJson(DeviceError(error)))
      case _ => false
  }

  /** The session's side of a request: what to reply, what follows, and the bytes exchanged with the device. */
  method Respond(session: ConsoleSession, codec: Codec, request: Frame)
    returns (reply: Option<Frame>, h: Handled, ghost toDevice: seq<Byte>, ghost fromDevice: seq<Byte>)
    requires session.Valid()
    modifies session, session.table, session.device`inbound, session.device`taken, session.device`outbound, session.device`written
    ensures session.Valid()
    ensures Follows(session, old(session.holding), old(session.table.attached))
    ensures session.device.written == old(session.device.written) + toDevice
    ensures session.device.taken == old(session.device.taken) + fromDevice
    ensures Later(old(session.device.outbound), session.device.outbound)
    ensures Faults(session.device.inbound) <= Faults(old(session.device.inbound))
    ensures reply.Some? <==> Understood(codec, request)
    ensures reply.None? ==> h == Stopped(InvalidFrame) && toDevice == fromDevice == []
    ensures reply.Some? ==>
      var e := Exchange(request, reply.value);
      && Proper(Terms(codec, session.maxFrame), e) && Says(codec, session.closed, e, h)
      && fromDevice == OutputOf(e) && InputOf(e) <= toDevice <= InputAtRisk(e)
      && (!h.Stopped? ==> toDevice == InputOf(e))
    ensures h.Continue? ==> session.closed == old(session.closed)
    ensures h.Finished? ==> h.reason == EndReason(old(session.closed), Some(Exchange(request, reply.value)))
    ensures request.kind == FRAME_READ && reply.Some? ==>
      ReadReply(codec, old(session.closed), Arriving(old(session.device.inbound)), Stop(old(session.device.inbound)), reply.value)
    ensures h.Stopped? && reply.Some? ==>
      Blamed(Scene(session.maxFrame, old(session.closed), Faults(old(session.device.inbound)), old(session.device.outbound), []),
             Scene(session.maxFrame, session.closed, Faults(session.device.inbound), session.device.outbound, []),
             request, h.error.console)
  {
    toDevice, fromDevice := [], [];
    if request.kind == FRAME_INPUT {
      var error := session.WriteFrame(request.payload);
      toDevice := session.device.written[|old(session.device.written)|..];
      reply := Some(if error.None? then Frame(FRAME_ACK, []) else Frame(FRAME_ERROR, codec.errorJson(error.value)));
      h := if error.None? then Continue else Stopped(Console(error.value));
    } else if request.kind == FRAME_READ && request.payload == [] {
      StopIsAFault(session.device.inbound);
      var read := session.ReadFrame();
      match read {
        case ReadData(data) => reply, h := Some(Frame(FRAME_OUTPUT, data)), Continue; fromDevice := data;
        case Pending => reply, h := Some(Frame(FRAME_ACK, [])), Continue;
        case ReadClosed(reason) => reply, h := Some(Frame(FRAME_CLOSED, codec.closeJson(reason))), Finished(reason);
        case ReadError(error) => reply, h := Some(Frame(FRAME_ERROR, codec.errorJson(error))), Stopped(Console(error));
      }
    } else if request.kind == FRAME_DETACH && request.payload == [] {
      var reason := session.Close(ClientDetached);
      reply, h := Some(Frame(FRAME_CLOSED, codec.closeJson(reason))), Finished(reason);
    } else if request.kind == FRAME_RESIZE && codec.isSize(request.payload) {
      reply, h := Some(Frame(FRAME_ERROR, codec.errorJson(ResizeUnsupported))), Continue;
    } else {
      reply, h := None, Stopped(InvalidFrame);
    }
  }

  /** Sends one reply; `sent` says whether it went out completely, and `answer` what did go out. */
  method Reply(client: Stream, reply: Frame, then': Handled) returns (h: Handled, ghost sent: bool, ghost answer: seq<Byte>)
    modifies client`outbound, client`written
    ensures client.written == old(client.written) + answer
    ensures Later(old(client.outbound), client.outbound)
    ensures sent ==> |reply.payload| <= U32_MAX && h == then' && answer == Encode(reply)
    ensures !sent ==> h.Stopped?
    ensures !sent && |reply.payload| > U32_MAX ==> h.error == InvalidFrame
    ensures !sent && |reply.payload| <= U32_MAX ==>
      h.error.Io? && Refused(old(client.outbound), client.outbound, h.error.io, false)
    ensures if |reply.payload| <= U32_MAX then answer <= Encode(reply) else answer == []
  {
    var fault := WriteProtocolFrame(client, reply);
    sent := fault.None?;
    answer := client.written[|old(client.written)|..];
    h := if fault.Some? then Stopped(fault.value) else then';
  }

  /** One request handled: the bytes moved, what follows, and the cause of an error. */
  ghost predicate Handles(codec: Codec, before: Scene, after: Scene, request: Frame, reply: Option<Frame>, sent: bool,
                          h: Handled, answer: seq<Byte>, toDevice: seq<Byte>, fromDevice: seq<Byte>)
  {
    if reply.None? then !Understood(codec, request) && h == Stopped(InvalidFrame) && !sent && answer == toDevice == fromDevice == []
    else
      var e := Exchange(request, reply.value);
      && Understood(codec, request) && Proper(Terms(codec, before.maxFrame), e)
      && fromDevice == OutputOf(e) && InputOf(e) <= toDevice <= InputAtRisk(e)
      && if sent then
           && |e.reply.payload| <= U32_MAX && answer == Encode(e.reply) && Says(codec, after.closed, e, h)
           && (if h.Stopped? then Failed(codec, before, after, h.error, e) else toDevice == InputOf(e))
           && (h.Continue? ==> after.closed == before.closed)
           && (h.Finished? ==> h.reason == EndReason(before.closed, Some(e)))
         else
           && h.Stopped? && Unsent(before, after, h.error, e)
           && (if |e.reply.payload| <= U32_MAX then answer <= Encode(e.reply) else answer == [])
  }

  /**
   Handles one request. `reply` is the reply attempted, if the request was understood, and `sent` says whether it went
   out completely; `answer`, `toDevice` and `fromDevice` are the bytes moved meanwhile.
   */
  method HandleRequest(client: Stream, session: ConsoleSession, codec: Codec, request: Frame)
    returns (h: Handled, ghost reply: Option<Frame>, ghost sent: bool, ghost answer: seq<Byte>,
             ghost toDevice: seq<Byte>, ghost fromDevice: seq<Byte>)
    requires session.Valid() && client != session.device
    modifies client`outbound, client`written
    modifies session, session.table, session.device`inbound, session.device`taken, session.device`outbound, session.device`written
    ensures session.Valid()
    ensures Follows(session, old(session.holding), old(session.table.attached))
    ensures session.device.written == old(session.device.written) + toDevice
    ensures session.device.taken == old(session.device.taken) + fromDevice
    ensures client.written == old(client.written) + answer
    ensures Onward(old(SceneOf(client, session)), SceneOf(client, session))
    ensures Handles(codec, old(SceneOf(client, session)), SceneOf(client, session), request, reply, sent, h, answer, toDevice, fromDevice)
    ensures request.kind == FRAME_READ && reply.Some? ==>
      ReadReply(codec, old(session.closed), Arriving(old(session.device.inbound)), Stop(old(session.device.inbound)), reply.value)
  {
    sent, answer := false, [];
    var out;
    out, h, toDevice, fromDevice := Respond(session, codec, request);
    reply := out;
    if out.Some? { h, sent, answer := Reply(client, out.value, h); }
  }

  // ------------------------------------------------------------------ one round

  /**
   What an error left unfinished: an exchange without its whole reply, the request bytes that belong to it or to no
   exchange at all, and a device write that stopped early.
   */
  datatype Cut = Cut(exchange: Option<Exchange>, request: seq<Byte>, reply: seq<Byte>, input: seq<Byte>, output: seq<Byte>)

  const NOTHING_CUT := Cut(None, [], [], [], [])

  /** Nothing but the request in flight and prefixes of what it set off is ever left over. */
  ghost predicate Bounded(terms: Terms, cut: Cut, last: Option<Exchange>) {
    match cut.exchange
    case Some(e) =>
      && |e.request.payload| <= U32_MAX && cut.request == Encode(e.request)
      && Proper(terms, e) && cut.output == OutputOf(e) && InputOf(e) <= cut.input <= InputAtRisk(e)
      && (if |e.reply.payload| <= U32_MAX then cut.reply <= Encode(e.reply) else cut.reply == [])
    case None =>
      && cut.reply == cut.output == [] && Fragment(cut.request)
      && (cut.input == []
          || (cut.request == [] && last.Some? && last.value.reply.kind == FRAME_ERROR && cut.input <= InputAtRisk(last.value)))
  }

  /** The bytes that crossed the client's and the device's stream, in either direction. */
  datatype Traffic = Traffic(requests: seq<Byte>, replies: seq<Byte>, toDevice: seq<Byte>, fromDevice: seq<Byte>)

  const SILENCE := Traffic([], [], [], [])

  function Plus(a: Traffic, b: Traffic): Traffic {
    Traffic(a.requests + b.requests, a.replies + b.replies, a.toDevice + b.toDevice, a.fromDevice + b.fromDevice)
  }

  lemma PlusAssoc(a: Traffic, b: Traffic, c: Traffic)
    ensures Plus(Plus(a, b), c) == Plus(a, Plus(b, c))
  {
    Assoc(a.requests, b.requests, c.requests);
    Assoc(a.replies, b.replies, c.replies);
    Assoc(a.toDevice, b.toDevice, c.toDevice);
    Assoc(a.fromDevice, b.fromDevice, c.fromDevice);
  }

  /** One round: a completed exchange, a cut one or neither, and the bytes it moved. */
  datatype Turn = Turn(done: Option<Exchange>, cut: Cut, moved: Traffic)

  ghost predicate Round(terms: Terms, turn: Turn, clean: bool) {
    && Bounded(terms, turn.cut, turn.done)
    && (clean ==> turn.cut == NOTHING_CUT)
    && match turn.done
       case None => turn.moved == Traffic(turn.cut.request, turn.cut.reply, turn.cut.input, turn.cut.output)
       case Some(e) =>
         && |e.request.payload| <= U32_MAX && |e.reply.payload| <= U32_MAX && Proper(terms, e)
         && turn.cut.exchange.None? && turn.cut.request == []
         && turn.moved == Traffic(Encode(e.request), Encode(e.reply), InputOf(e) + turn.cut.input, OutputOf(e))
  }

  /** Why a round stopped with an error. */
  ghost predicate Cause(codec: Codec, before: Scene, after: Scene, error: ProtocolError,
                        turn: Turn, left: seq<Byte>, stop: ReadOutcome)
  {
    if turn.done.Some? then Failed(codec, before, after, error, turn.done.value)
    else if turn.cut.exchange.Some? then Unsent(before, after, error, turn.cut.exchange.value)
    else Unserved(codec, before.maxFrame, error, left, stop, turn.cut.request)
  }

  /** A clean end: the session was closed in the last exchange, or the client has nothing more to say. */
  predicate Concluded(last: Option<Exchange>, requests: seq<Byte>, arriving: seq<Byte>, stop: ReadOutcome) {
    (last.Some? && last.value.reply.kind == FRAME_CLOSED) || (requests == arriving && stop == End)
  }

  /** An exchange after which the session goes on. */
  predicate Continues(e: Exchange) {
    e.reply.kind in {FRAME_OUTPUT, FRAME_ACK} || e.request.kind == FRAME_RESIZE
  }

  /** Where a session stands: the scene, all traffic so far, and what the client is still going to send. */
  datatype Moment = Moment(scene: Scene, traffic: Traffic, arriving: seq<Byte>, stop: ReadOutcome)

  ghost function Now(client: Stream, session: ConsoleSession): Moment
    reads client, session, session.device
  {
    Moment(SceneOf(client, session),
           Traffic(client.taken, client.written, session.device.written, session.device.taken),
           Arriving(client.inbound), Stop(client.inbound))
  }

  /** What one round does, from one moment to the next. */
  ghost predicate Turned(codec: Codec, before: Moment, after: Moment, h: Handled, turn: Turn) {
    && Round(Terms(codec, before.scene.maxFrame), turn, !h.Stopped?)
    && after.traffic == Plus(before.traffic, turn.moved)
    && Onward(before.scene, after.scene)
    && turn.moved.requests <= before.arriving
    && match h
       case Continue =>
         && turn.done.Some? && Continues(turn.done.value) && after.scene.closed == before.scene.closed
         && before.arriving == turn.moved.requests + after.arriving && after.stop == before.stop
       case Finished(reason) =>
         && after.scene.closed == Some(reason) && reason == EndReason(before.scene.closed, turn.done)
         && Concluded(turn.done, turn.moved.requests, before.arriving, before.stop)
       case Stopped(error) => Cause(codec, before.scene, after.scene, error, turn, before.arriving, before.stop)
  }

  /** One round of the serve loop. */
  method ServeOne(client: Stream, session: ConsoleSession, codec: Codec) returns (h: Handled, ghost turn: Turn)
    requires session.Valid() && client != session.device
    modifies client, session, session.device, session.table
    ensures session.Valid()
    ensures Follows(session, old(session.holding), old(session.table.attached))
    ensures Turned(codec, old(Now(client, session)), Now(client, session), h, turn)
    ensures h.Continue? ==> Budget(client.inbound) < Budget(old(client.inbound))
  {
    ghost var before := Now(client, session);
    var incoming := ReadProtocolFrame(client, Limit(session.maxFrame));
    if incoming.Err? {
      h := Stopped(incoming.error);
      turn := UnreadTurn(codec, before, Now(client, session), incoming.error);
      return;
    }
    if incoming.value.None? {
      var reason := session.Close(ClientDetached);
      h, turn := Finished(reason), Turn(None, NOTHING_CUT, SILENCE);
      QuietTurn(codec, before, Now(client, session), reason);
      return;
    }
    var request := incoming.value.value;
    ghost var reply, sent, replies, toDevice, fromDevice;
    h, reply, sent, replies, toDevice, fromDevice := HandleRequest(client, session, codec, request);
    turn := Settled(request, reply, sent, replies, toDevice, fromDevice);
    HandledTurn(codec, before, Now(client, session), request, reply, sent, h, replies, toDevice, fromDevice);
  }

  /** No request could be read. */
  lemma UnreadTurn(codec: Codec, before: Moment, after: Moment, error: ProtocolError) returns (turn: Turn)
    requires Parsed(before.arriving, before.stop, Limit(before.scene.maxFrame)) == Err(error)
    requires after.scene == before.scene
    requires after.traffic == before.traffic.(requests := before.traffic.requests + Consumed(before.arriving, error))
    ensures Turned(codec, before, after, Stopped(error), turn)
  {
    var requests := Consumed(before.arriving, error);
    ConsumedIsFragment(before.arriving, before.stop, Limit(before.scene.maxFrame));
    turn := Turn(None, NOTHING_CUT.(request := requests), SILENCE.(requests := requests));
  }

  /** The client has nothing more to say. */
  lemma QuietTurn(codec: Codec, before: Moment, after: Moment, reason: CloseReason)
    requires before.arriving == [] && before.stop == End
    requires reason == EndReason(before.scene.closed, None)
    requires after.scene == before.scene.(closed := Some(reason)) && after.traffic == before.traffic
    ensures Turned(codec, before, after, Finished(reason), Turn(None, NOTHING_CUT, SILENCE))
  {
  }

  /** A request was read and handled. */
  lemma HandledTurn(codec: Codec, before: Moment, after: Moment, request: Frame, reply: Option<Frame>, sent: bool,
                    h: Handled, answer: seq<Byte>, toDevice: seq<Byte>, fromDevice: seq<Byte>)
    requires |request.payload| <= U32_MAX
    requires Parsed(before.arriving, before.stop, Limit(before.scene.maxFrame)) == Ok(Some(request))
    requires before.arriving == Encode(request) + after.arriving && after.stop == before.stop
    requires after.traffic == Plus(before.traffic, Traffic(Encode(request), answer, toDevice, fromDevice))
    requires Onward(before.scene, after.scene)
    requires Handles(codec, before.scene, after.scene, request, reply, sent, h, answer, toDevice, fromDevice)
    ensures Turned(codec, before, after, h, Settled(request, reply, sent, answer, toDevice, fromDevice))
  {
    RoundMade(codec, before.scene, after.scene, request, reply, sent, h, answer, toDevice, fromDevice);
  }

  /** What a handled request leaves: a completed exchange, a cut one, or a request that nobody answers. */
  ghost function Settled(request: Frame, reply: Option<Frame>, sent: bool,
                         answer: seq<Byte>, toDevice: seq<Byte>, fromDevice: seq<Byte>): Turn
    requires |request.payload| <= U32_MAX
  {
    var moved := Traffic(Encode(request), answer, toDevice, fromDevice);
    if reply.None? then Turn(None, Cut(None, Encode(request), [], [], []), moved)
    else
      var e := Exchange(request, reply.value);
      if sent then
        Turn(Some(e), Cut(None, [], [], if InputOf(e) <= toDevice then toDevice[|InputOf(e)|..] else [], []), moved)
      else Turn(None, Cut(Some(e), Encode(request), answer, toDevice, fromDevice), moved)
  }

  lemma EncodeIsFragment(f: Frame)
    requires |f.payload| <= U32_MAX
    ensures Fragment(Encode(f))
  {
    BigEndianRoundTrip(|f.payload|);
    assert Encode(f)[1..5] == BigEndian(|f.payload|);
  }

  lemma RoundMade(codec: Codec, before: Scene, after: Scene, request: Frame, reply: Option<Frame>, sent: bool,
                  h: Handled, answer: seq<Byte>, toDevice: seq<Byte>, fromDevice: seq<Byte>)
    requires |request.payload| <= U32_MAX
    requires Handles(codec, before, after, request, reply, sent, h, answer, toDevice, fromDevice)
    ensures var turn := Settled(request, reply, sent, answer, toDevice, fromDevice);
      && Round(Terms(codec, before.maxFrame), turn, !h.Stopped?)
      && (h.Continue? ==> turn.done.Some? && Continues(turn.done.value) && after.closed == before.closed)
      && (h.Finished? ==>
            && turn.done.Some? && turn.done.value.reply.kind == FRAME_CLOSED && after.closed == Some(h.reason)
            && h.reason == EndReason(before.closed, turn.done))
      && (h.Stopped? ==>
            if turn.done.Some? then Failed(codec, before, after, h.error, turn.done.value)
            else if turn.cut.exchange.Some? then Unsent(before, after, h.error, turn.cut.exchange.value)
            else !Understood(codec, request) && h.error == InvalidFrame && turn.cut.request == Encode(request))
  {
    EncodeIsFragment(request);
    if reply.Some? && sent {
      var e := Exchange(request, reply.value);
      assert toDevice == InputOf(e) + toDevice[|InputOf(e)|..];
      if h.Stopped? { assert InputOf(e) == []; }
    }
  }

  // ------------------------------------------------------------------ whole runs

  /** A run: the completed exchanges, what an error left unfinished, and the bytes that it moved. */
  datatype Transcript = Transcript(log: seq<Exchange>, cut: Cut, moved: Traffic)

  const NOTHING_YET := Transcript([], NOTHING_CUT, SILENCE)

  ghost predicate AllContinue(log: seq<Exchange>) {
    forall e :: e in log ==> Continues(e)
  }

  /** Only the last exchange may end the session. */
  ghost predicate Orderly(log: seq<Exchange>) {
    log == [] || AllContinue(log[..|log| - 1])
  }

  /** The bytes on all four sides are the completed exchanges plus what was cut off. */
  ghost predicate Transparent(terms: Terms, t: Transcript) {
    && WellSized(t.log) && AllProper(terms, t.log) && Orderly(t.log)
    && Bounded(terms, t.cut, Last(t.log)) && (t.cut.request != [] ==> AllContinue(t.log))
    && t.moved == Traffic(EncodeAll(Requests(t.log)) + t.cut.request, EncodeAll(Replies(t.log)) + t.cut.reply,
                          Inputs(t.log) + t.cut.input, Outputs(t.log) + t.cut.output)
  }

  /** A run that is still going on. */
  ghost predicate Ongoing(terms: Terms, t: Transcript) {
    && t.cut == NOTHING_CUT && AllProper(terms, t.log) && AllContinue(t.log)
    && Accounted(t.log, t.moved)
  }

  function Then(t: Transcript, turn: Turn): Transcript {
    Transcript(Extended(t.log, turn.done), turn.cut, Plus(t.moved, turn.moved))
  }

  /**
   Why a run stopped with an error: a reply that could not be sent, an exchange that failed, or a request that could not
   be read or was not understood, at the very place in the client's stream where the completed exchanges end.
   */
  ghost predicate Explained(codec: Codec, before: Scene, after: Scene, error: ProtocolError,
                            t: Transcript, arriving: seq<Byte>, stop: ReadOutcome)
    requires WellSized(t.log)
  {
    if t.cut.exchange.Some? then Unsent(before, after, error, t.cut.exchange.value)
    else
      || (t.log != [] && t.cut.request == [] && Failed(codec, before, after, error, t.log[|t.log| - 1]))
      || (var done := EncodeAll(Requests(t.log));
          done <= arriving && Unserved(codec, before.maxFrame, error, arriving[|done|..], stop, t.cut.request))
  }

  lemma ExplainedLater(codec: Codec, first: Scene, before: Scene, after: Scene, error: ProtocolError,
                       t: Transcript, arriving: seq<Byte>, stop: ReadOutcome)
    requires Onward(first, before) && Onward(before, after) && before.closed == first.closed
    requires WellSized(t.log) && Explained(codec, before, after, error, t, arriving, stop)
    ensures Explained(codec, first, after, error, t, arriving, stop)
  {
    if t.cut.exchange.Some? {
      UnsentLater(first, before, after, error, t.cut.exchange.value);
    } else if t.log != [] && t.cut.request == [] && Failed(codec, before, after, error, t.log[|t.log| - 1]) {
      FailedLater(codec, first, before, after, error, t.log[|t.log| - 1]);
    }
  }

  /** From its first moment to this one, the session has gone through `t` and goes on. */
  ghost predicate Running(codec: Codec, first: Moment, now: Moment, t: Transcript) {
    && Ongoing(Terms(codec, first.scene.maxFrame), t)
    && now.traffic == Plus(first.traffic, t.moved)
    && first.arriving == t.moved.requests + now.arriving && now.stop == first.stop
    && Onward(first.scene, now.scene) && now.scene.closed == first.scene.closed
  }

  /** From its first moment to its last, the session has gone through `t`, with the result `r`. */
  ghost predicate Ended(codec: Codec, first: Moment, last: Moment, t: Transcript, r: Result<CloseReason, ProtocolError>) {
    && Transparent(Terms(codec, first.scene.maxFrame), t)
    && last.traffic == Plus(first.traffic, t.moved) && t.moved.requests <= first.arriving
    && Onward(first.scene, last.scene)
    && match r
       case Ok(reason) =>
         && t.cut == NOTHING_CUT && last.scene.closed == Some(reason) && reason == EndReason(first.scene.closed, Last(t.log))
         && Concluded(Last(t.log), t.moved.requests, first.arriving, first.stop)
       case Err(error) => Explained(codec, first.scene, last.scene, error, t, first.arriving, first.stop)
  }

  method ServeLoop(client: Stream, session: ConsoleSession, codec: Codec)
    returns (r: Result<CloseReason, ProtocolError>, ghost t: Transcript)
    requires session.Valid() && client != session.device
    modifies client, session, session.device, session.table
    ensures session.Valid()
    ensures Follows(session, old(session.holding), old(session.table.attached))
    ensures Ended(codec, old(Now(client, session)), Now(client, session), t, r)
  {
    t := NOTHING_YET;
    ghost var first := Now(client, session);
    NothingYetRuns(codec, first);
    while true
      invariant session.Valid()
      invariant Follows(session, old(session.holding), old(session.table.attached))
      invariant Running(codec, first, Now(client, session), t)
      decreases Budget(client.inbound)
    {
      ghost var before := Now(client, session);
      var h;
      ghost var turn;
      h, turn := ServeOne(client, session, codec);
      TurnAdds(codec, first, before, Now(client, session), t, h, turn);
      t := Then(t, turn);
      match h {
        case Continue =>
        case Finished(reason) => r := Ok(reason); return;
        case Stopped(error) => r := Err(error); return;
      }
    }
  }

  lemma NothingYetRuns(codec: Codec, first: Moment)
    ensures Running(codec, first, first, NOTHING_YET)
  {
  }

  /** One more round, on values: the session goes on, or has ended as its outcome says. */
  lemma TurnAdds(codec: Codec, first: Moment, before: Moment, after: Moment, t: Transcript, h: Handled, turn: Turn)
    requires Running(codec, first, before, t) && Turned(codec, before, after, h, turn)
    ensures
      match h
      case Continue => Running(codec, first, after, Then(t, turn))
      case Finished(reason) => Ended(codec, first, after, Then(t, turn), Ok(reason))
      case Stopped(error) => Ended(codec, first, after, Then(t, turn), Err(error))
  {
    var terms := Terms(codec, first.scene.maxFrame);
    PlusAssoc(first.traffic, t.moved, turn.moved);
    LaterScenes(first.scene, before.scene, after.scene);
    RoundEnds(terms, t, turn, !h.Stopped?);
    Advance(first.arriving, t.moved.requests, before.arriving, turn.moved.requests, after.arriving);
    match h {
      case Continue =>
      case Finished(_) =>
        if turn.done.None? { NotClosedYet(terms, t); }
        Concludes(first.arriving, t.log, turn.done, t.moved.requests, before.arriving, turn.moved.requests, first.stop);
      case Stopped(error) =>
        RoundExplains(codec, first.scene, before.scene, after.scene, error, t, turn, before.arriving, first.arriving, first.stop);
    }
  }

  lemma NotClosedYet(terms: Terms, t: Transcript)
    requires Ongoing(terms, t)
    ensures Last(t.log).Some? ==> Last(t.log).value.reply.kind != FRAME_CLOSED
  {
    if t.log != [] { assert t.log[|t.log| - 1] in t.log; }
  }

  lemma Advance(all: seq<Byte>, done: seq<Byte>, left: seq<Byte>, q: seq<Byte>, rest: seq<Byte>)
    requires all == done + left && q <= left
    ensures done + q <= all
    ensures left == q + rest ==> all == done + q + rest
  {
    assert left == q + left[|q|..];
    Assoc(done, q, left[|q|..]);
  }

  lemma Concludes(all: seq<Byte>, log: seq<Exchange>, done: Option<Exchange>, requests: seq<Byte>, left: seq<Byte>,
                  q: seq<Byte>, stop: ReadOutcome)
    requires all == requests + left && Concluded(done, q, left, stop)
    ensures Concluded(Last(Extended(log, done)), requests + q, all, stop)
  {
  }

  lemma RoundEnds(terms: Terms, t: Transcript, turn: Turn, clean: bool)
    requires Ongoing(terms, t) && Round(terms, turn, clean)
    ensures Transparent(terms, Then(t, turn))
    ensures clean && turn.done.Some? && Continues(turn.done.value) ==> Ongoing(terms, Then(t, turn))
  {
    if turn.done.Some? { RoundCompletes(terms, t, turn.done.value, turn); }
  }

  lemma RoundCompletes(terms: Terms, t: Transcript, e: Exchange, turn: Turn)
    requires Ongoing(terms, t) && turn.done == Some(e) && Round(terms, turn, false)
    ensures Transparent(terms, Then(t, turn))
    ensures turn.cut == NOTHING_CUT && Continues(e) ==> Ongoing(terms, Then(t, turn))
  {
    AccountedSnoc(t.log, e, t.moved);
    assert (t.log + [e])[..|t.log|] == t.log;
    Assoc(t.moved.toDevice, InputOf(e), turn.cut.input);
    Completed(terms, Then(t, turn), t.moved.toDevice + InputOf(e));
  }

  lemma Completed(terms: Terms, t: Transcript, acknowledged: seq<Byte>)
    requires Accounted(t.log, t.moved.(toDevice := acknowledged)) && t.moved.toDevice == acknowledged + t.cut.input
    requires t.cut.exchange.None? && t.cut.request == [] && Bounded(terms, t.cut, Last(t.log))
    requires AllProper(terms, t.log) && Orderly(t.log)
    ensures Transparent(terms, t)
    ensures t.cut == NOTHING_CUT && AllContinue(t.log) ==> Ongoing(terms, t)
  {
  }

  lemma RoundExplains(codec: Codec, first: Scene, before: Scene, after: Scene, error: ProtocolError, t: Transcript,
                      turn: Turn, left: seq<Byte>, arriving: seq<Byte>, stop: ReadOutcome)
    requires Ongoing(Terms(codec, first.maxFrame), t) && Round(Terms(codec, first.maxFrame), turn, false)
    requires arriving == t.moved.requests + left
    requires Onward(first, before) && Onward(before, after) && before.closed == first.closed
    requires Cause(codec, before, after, error, turn, left, stop)
    ensures WellSized(Then(t, turn).log)
    ensures Explained(codec, first, after, error, Then(t, turn), arriving, stop)
  {
    if turn.done.Some? {
      FailedLater(codec, first, before, after, error, turn.done.value);
    } else if turn.cut.exchange.Some? {
      UnsentLater(first, before, after, error, turn.cut.exchange.value);
    } else {
      assert arriving[|t.moved.requests|..] == left;
    }
  }

  /** The attachment goes out first and whole, or nothing follows and its own error is returned. */
  ghost predicate Greets(codec: Codec, before: Scene, after: Scene, greeted: bool, greeting: seq<Byte>,
                         r: Result<CloseReason, ProtocolError>, t: Transcript)
  {
    var attachment := Frame(FRAME_ATTACHMENT, codec.attachment);
    if greeted then |codec.attachment| <= U32_MAX && greeting == Encode(attachment)
    else
      && r.Err? && t == NOTHING_YET && Unsent(before, after, r.error, Exchange(attachment, attachment))
      && (if |codec.attachment| > U32_MAX then greeting == [] else greeting <= Encode(attachment))
  }

  /** The moment after the greeting, as far as the client's stream is concerned. */
  function AfterGreeting(first: Moment, greeting: seq<Byte>): Moment {
    first.(traffic := first.traffic.(replies := first.traffic.replies + greeting))
  }

  /** A whole session: the greeting, and then a run with the result `r`. */
  ghost predicate Served(codec: Codec, first: Moment, last: Moment, greeted: bool, greeting: seq<Byte>, t: Transcript,
                         r: Result<CloseReason, ProtocolError>)
  {
    && Greets(codec, first.scene, last.scene, greeted, greeting, r, t)
    && if greeted then Ended(codec, AfterGreeting(first, greeting), last, t, r)
       else last.traffic == AfterGreeting(first, greeting).traffic && Onward(first.scene, last.scene)
  }

  /**
   Serves a client until it detaches, its stream ends, or an error stops the session. `greeting` is what went out of the
   attachment metadata, and `t` everything after it.
   */
  method ServeFramedConsole(client: Stream, session: ConsoleSession, codec: Codec)
    returns (r: Result<CloseReason, ProtocolError>, ghost greeted: bool, ghost greeting: seq<Byte>, ghost t: Transcript)
    requires session.Valid() && client != session.device
    modifies client, session, session.device, session.table
    ensures session.Valid()
    ensures Follows(session, old(session.holding), old(session.table.attached))
    ensures Served(codec, old(Now(client, session)), Now(client, session), greeted, greeting, t, r)
  {
    t := NOTHING_YET;
    ghost var first := Now(client, session);
    var fault;
    fault, greeting := Greet(client, codec);
    greeted := fault.None?;
    if fault.Some? {
      r := Err(fault.value);
      return;
    }
    ghost var before := Now(client, session);
    r, t := ServeLoop(client, session, codec);
    EndedEarlier(codec, AfterGreeting(first, greeting), before, Now(client, session), t, r);
  }

  /** A greeting uses up some of the client's stream and changes nothing else. */
  lemma EndedEarlier(codec: Codec, first: Moment, before: Moment, last: Moment, t: Transcript, r: Result<CloseReason, ProtocolError>)
    requires Ended(codec, before, last, t, r) && Onward(first.scene, before.scene) && before.scene.closed == first.scene.closed
    requires first.traffic == before.traffic && first.arriving == before.arriving && first.stop == before.stop
    ensures Ended(codec, first, last, t, r)
  {
    LaterScenes(first.scene, before.scene, last.scene);
    if r.Err? { ExplainedLater(codec, first.scene, before.scene, last.scene, r.error, t, first.arriving, first.stop); }
  }

  method Greet(client: Stream, codec: Codec) returns (fault: Option<ProtocolError>, ghost greeting: seq<Byte>)
    modifies client`outbound, client`written
    ensures client.written == old(client.written) + greeting && Later(old(client.outbound), client.outbound)
    ensures fault.None? ==> |codec.attachment| <= U32_MAX && greeting == Encode(Frame(FRAME_ATTACHMENT, codec.attachment))
    ensures fault.Some? && |codec.attachment| > U32_MAX ==> fault.value == InvalidFrame && greeting == []
    ensures fault.Some? && |codec.attachment| <= U32_MAX ==>
      && fault.value.Io? && Refused(old(client.outbound), client.outbound, fault.value.io, false)
      && greeting <= Encode(Frame(FRAME_ATTACHMENT, codec.attachment))
  {
    fault := WriteProtocolFrame(client, Frame(FRAME_ATTACHMENT, codec.attachment));
    greeting := client.written[|old(client.written)|..];
  }
}
