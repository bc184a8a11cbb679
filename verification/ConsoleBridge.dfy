/** The gateway's relay between a browser's WebSocket and the daemon's console stream. */
module ConsoleBridge {
  import opened Prelude
  import opened ConsoleFrames
  import opened ConsoleStreams

  datatype Message = Binary(payload: seq<Byte>) | Ping(payload: seq<Byte>) | Pong(payload: seq<Byte>) | Closing | Text

  /** Which side is ready first; `FromBrowser(None)` is the end or a failure of the WebSocket. */
  datatype Turn = FromBrowser(message: Option<Message>) | FromDaemon

  predicate Sends(outcomes: seq<bool>) {
    outcomes != [] && outcomes[0]
  }

  /** The sending half of a WebSocket: messages that went out, and whether the next ones will. */
  class Socket {
    var sent: seq<Message>
    var outcomes: seq<bool>

    constructor (outcomes: seq<bool>)
      ensures sent == [] && this.outcomes == outcomes
    {
      sent, this.outcomes := [], outcomes;
    }

    method Send(m: Message) returns (ok: bool)
      modifies this
      ensures ok <==> Sends(old(outcomes))
      ensures outcomes == if old(outcomes) == [] then [] else old(outcomes)[1..]
      ensures sent == if ok then old(sent) + [m] else old(sent)
    {
      ok := outcomes != [] && outcomes[0];
      if outcomes != [] { outcomes := outcomes[1..]; }
      if ok { sent := sent + [m]; }
    }
  }

  /** Payloads of the binary messages, in order. */
  function Binaries(messages: seq<Message>): seq<seq<Byte>> {
    if messages == [] then []
    else
      var m := messages[|messages| - 1];
      var rest := Binaries(messages[..|messages| - 1]);
      if m.Binary? then rest + [m.payload] else rest
  }

  /** Payloads of the pongs, in order. */
  function Pongs(messages: seq<Message>): seq<seq<Byte>> {
    if messages == [] then []
    else
      var m := messages[|messages| - 1];
      var rest := Pongs(messages[..|messages| - 1]);
      if m.Pong? then rest + [m.payload] else rest
  }

  /** The browser's messages among the turns taken. */
  function Messages(turns: seq<Turn>): seq<Message> {
    if turns == [] then []
    else
      var t := turns[|turns| - 1];
      var rest := Messages(turns[..|turns| - 1]);
      if t.FromBrowser? && t.message.Some? then rest + [t.message.value] else rest
  }

  function Pings(messages: seq<Message>): seq<seq<Byte>> {
    if messages == [] then []
    else
      var m := messages[|messages| - 1];
      var rest := Pings(messages[..|messages| - 1]);
      if m.Ping? then rest + [m.payload] else rest
  }

  predicate Forwards(turn: Turn) {
    turn.FromBrowser? && turn.message.Some? && turn.message.value.Binary?
    && |turn.message.value.payload| <= MAX_CONSOLE_WIRE_BYTES
  }

  lemma SentSnoc(messages: seq<Message>, m: Message)
    ensures Binaries(messages + [m]) == if m.Binary? then Binaries(messages) + [m.payload] else Binaries(messages)
    ensures Pongs(messages + [m]) == if m.Pong? then Pongs(messages) + [m.payload] else Pongs(messages)
    ensures Pings(messages + [m]) == if m.Ping? then Pings(messages) + [m.payload] else Pings(messages)
  {
    assert (messages + [m])[..|messages|] == messages;
  }

  lemma TurnsSnoc(turns: seq<Turn>, k: nat)
    requires k < |turns|
    ensures Messages(turns[..k + 1]) ==
      if turns[k].FromBrowser? && turns[k].message.Some? then Messages(turns[..k]) + [turns[k].message.value]
      else Messages(turns[..k])
  {
    assert turns[..k + 1][..k] == turns[..k];
  }

  /** The state of the relay after `done` turns, in terms of what each side has sent and received so far. */
  ghost predicate Relays(turns: seq<Turn>, done: nat, sent: seq<Message>, toDaemon: seq<Byte>, fromDaemon: seq<Byte>)
  {
    && done <= |turns|
    && Relayed(Binaries(sent)) && Relayed(Binaries(Messages(turns[..done])))
    && fromDaemon == Flatten(Binaries(sent))
    && toDaemon == Flatten(Binaries(Messages(turns[..done])))
    && Pongs(sent) == Pings(Messages(turns[..done]))
  }

  /** What a turn moved: the message that answers it, if any, and the bytes passed on in either direction. */
  datatype Effect = Effect(answer: Option<Message>, toDaemon: seq<Byte>, fromDaemon: seq<Byte>)

  predicate Proper(turn: Turn, e: Effect) {
    match turn
    case FromDaemon =>
      && e.toDaemon == [] && |e.fromDaemon| <= MAX_CONSOLE_WIRE_BYTES
      && (e.answer == Some(Binary(e.fromDaemon)) || (e.answer == None && e.fromDaemon == []))
    case FromBrowser(Some(Binary(payload))) => |payload| <= MAX_CONSOLE_WIRE_BYTES && e == Effect(None, payload, [])
    case FromBrowser(Some(Ping(payload))) => e == Effect(Some(Pong(payload)), [], [])
    case FromBrowser(Some(Pong(_))) => e == Effect(None, [], [])
    case _ => false
  }

  function With(sent: seq<Message>, answer: Option<Message>): seq<Message> {
    if answer.Some? then sent + [answer.value] else sent
  }

  lemma ProperKeeps(turns: seq<Turn>, done: nat, sent: seq<Message>, toDaemon: seq<Byte>, fromDaemon: seq<Byte>, e: Effect)
    requires Relays(turns, done, sent, toDaemon, fromDaemon) && done < |turns| && Proper(turns[done], e)
    ensures Relays(turns, done + 1, With(sent, e.answer), toDaemon + e.toDaemon, fromDaemon + e.fromDaemon)
  {
    var turn := turns[done];
    TurnsSnoc(turns, done);
    if turn.FromDaemon? { FromDaemonKeeps(sent, fromDaemon, e); } else { FromBrowserKeeps(turns, done, sent, toDaemon, e); }
    if e.toDaemon == [] { assert toDaemon + e.toDaemon == toDaemon; }
    if e.fromDaemon == [] { assert fromDaemon + e.fromDaemon == fromDaemon; }
  }

  lemma FromDaemonKeeps(sent: seq<Message>, fromDaemon: seq<Byte>, e: Effect)
    requires Relayed(Binaries(sent)) && fromDaemon == Flatten(Binaries(sent)) && Proper(FromDaemon, e)
    ensures Relayed(Binaries(With(sent, e.answer)))
    ensures fromDaemon + e.fromDaemon == Flatten(Binaries(With(sent, e.answer)))
    ensures Pongs(With(sent, e.answer)) == Pongs(sent)
  {
    if e.answer.Some? {
      SentSnoc(sent, e.answer.value);
      FlattenSnoc(Binaries(sent), e.fromDaemon);
    } else {
      assert fromDaemon + [] == fromDaemon;
    }
  }

  lemma FromBrowserKeeps(turns: seq<Turn>, done: nat, sent: seq<Message>, toDaemon: seq<Byte>, e: Effect)
    requires done < |turns| && turns[done].FromBrowser? && Proper(turns[done], e)
    requires var seen := Messages(turns[..done]);
      Relayed(Binaries(seen)) && toDaemon == Flatten(Binaries(seen)) && Pongs(sent) == Pings(seen)
    ensures var seen := Messages(turns[..done]) + [turns[done].message.value];
      && Relayed(Binaries(seen)) && toDaemon + e.toDaemon == Flatten(Binaries(seen))
      && Pongs(With(sent, e.answer)) == Pings(seen) && Binaries(With(sent, e.answer)) == Binaries(sent)
  {
    var seen, m := Messages(turns[..done]), turns[done].message.value;
    SentSnoc(seen, m);
    if m.Binary? { FlattenSnoc(Binaries(seen), m.payload); } else { assert toDaemon + [] == toDaemon; }
    if e.answer.Some? { SentSnoc(sent, e.answer.value); }
  }

  /** What an error cut off: the prefix of a message on its way to the daemon, or a read on its way to the browser. */
  predicate Leftover(turn: Turn, partial: seq<Byte>, lost: seq<Byte>) {
    && |lost| <= MAX_CONSOLE_WIRE_BYTES && (lost == [] || turn.FromDaemon?)
    && (partial == [] || (Forwards(turn) && partial <= turn.message.value.payload))
  }

  /** What the two sides are still going to do: the daemon's reads and writes, and the sends of the WebSocket. */
  datatype Ahead = Ahead(inbound: seq<ReadEvent>, outbound: seq<WriteEvent>, outcomes: seq<bool>)

  ghost function AheadOf(socket: Socket, daemon: Stream): Ahead
    reads socket, daemon
  {
    Ahead(daemon.inbound, daemon.outbound, socket.outcomes)
  }

  /**
   The relay ends with this turn: the daemon's stream ended or failed, one side refused what had to be passed on, or the
   browser left, sent too much or left the protocol.
   */
  predicate Ends(turn: Turn, a: Ahead) {
    match turn
    case FromDaemon =>
      if a.inbound == [] then true
      else if a.inbound[0].Ready? then !Sends(a.outcomes)
      else !a.inbound[0].WouldBlock?
    case FromBrowser(Some(Binary(payload))) => |payload| > MAX_CONSOLE_WIRE_BYTES || Refusal(a.outbound, |payload|).Some?
    case FromBrowser(Some(Ping(_))) => !Sends(a.outcomes)
    case FromBrowser(Some(Pong(_))) => false
    case _ => true
  }

  /** The browser is told: not when it is the browser or the daemon that refused what was passed on. */
  predicate Farewell(turn: Turn, a: Ahead) {
    match turn
    case FromDaemon => a.inbound == [] || !a.inbound[0].Ready?
    case FromBrowser(Some(Binary(payload))) => |payload| > MAX_CONSOLE_WIRE_BYTES
    case FromBrowser(Some(Ping(_))) => false
    case _ => true
  }

  /** The closing message of a relay that ends with this turn, if it goes out. */
  function Goodbye(turn: Turn, a: Ahead): seq<Message> {
    if Farewell(turn, a) && Sends(a.outcomes) then [Closing] else []
  }

  /** What is still ahead after a turn that did not end the relay. */
  function Next(turn: Turn, a: Ahead): Ahead {
    match turn
    case FromDaemon =>
      var (read, inbound) := ReadStep(a.inbound, MAX_CONSOLE_WIRE_BYTES);
      a.(inbound := inbound, outcomes := if read.Data? then Tail(a.outcomes) else a.outcomes)
    case FromBrowser(Some(Binary(payload))) => a.(outbound := Remaining(a.outbound, |payload|))
    case FromBrowser(Some(Ping(_))) => a.(outcomes := Tail(a.outcomes))
    case _ => a
  }

  function Tail(outcomes: seq<bool>): seq<bool> {
    if outcomes == [] then [] else outcomes[1..]
  }

  method TakeTurn(turn: Turn, socket: Socket, daemon: Stream)
    returns (go: bool, ghost e: Effect, ghost partial: seq<Byte>, ghost lost: seq<Byte>)
    modifies socket, daemon
    ensures go <==> !Ends(turn, old(AheadOf(socket, daemon)))
    ensures go ==>
      && AheadOf(socket, daemon) == Next(turn, old(AheadOf(socket, daemon)))
      && Proper(turn, e) && partial == lost == [] && socket.sent == With(old(socket.sent), e.answer)
      && daemon.written == old(daemon.written) + e.toDaemon && daemon.taken == old(daemon.taken) + e.fromDaemon
    ensures !go ==>
      && daemon.written == old(daemon.written) + partial && daemon.taken == old(daemon.taken) + lost
      && Leftover(turn, partial, lost)
      && socket.sent == old(socket.sent) + Goodbye(turn, old(AheadOf(socket, daemon)))
  {
    go, e, partial, lost := false, Effect(None, [], []), [], [];
    match turn {
      case FromDaemon =>
        var read := daemon.Read(MAX_CONSOLE_WIRE_BYTES);
        match read {
          case Data(data) =>
            go := socket.Send(Binary(data));
            if go { e := Effect(Some(Binary(data)), [], data); } else { lost := data; }
          case Blocked => go := true;
          case Retry => var _ := socket.Send(Closing);
          case End => var _ := socket.Send(Closing);
          case Fault(_) => var _ := socket.Send(Closing);
        }
      case FromBrowser(None) => var _ := socket.Send(Closing);
      case FromBrowser(Some(m)) =>
        if m.Binary? && |m.payload| <= MAX_CONSOLE_WIRE_BYTES {
          var fault := WriteAllRetry(daemon, m.payload);
          go := fault.None?;
          if go { e := Effect(None, m.payload, []); } else { partial := daemon.written[|old(daemon.written)|..]; }
        } else if m.Ping? {
          go := socket.Send(Pong(m.payload));
          e := Effect(Some(Pong(m.payload)), [], []);
        } else if m.Pong? {
          go := true;
        } else {
          var _ := socket.Send(Closing);
        }
    }
  }

  predicate PassesAt(turns: seq<Turn>, trace: seq<Ahead>, j: nat) {
    j < |turns| && j + 1 < |trace| && !Ends(turns[j], trace[j]) && trace[j + 1] == Next(turns[j], trace[j])
  }

  /**
   The course of the relay: `trace` lists what was ahead before each turn. Turn after turn is taken while it does not
   end the relay, and the first one that does is the last.
   */
  ghost predicate Course(turns: seq<Turn>, trace: seq<Ahead>) {
    && 1 <= |trace| <= |turns| + 1
    && (forall j: nat {:trigger PassesAt(turns, trace, j)} :: j + 1 < |trace| ==> PassesAt(turns, trace, j))
    && (|trace| <= |turns| ==> Ends(turns[|trace| - 1], trace[|trace| - 1]))
  }

  /**
   Relays until either side ends. Every byte read from the daemon went out in binary messages of at most one frame on
   the wire, in order, apart from `lost`, the read whose send failed; the daemon received the payloads of the browser's
   binary messages, in order, apart from `partial`, the prefix of the one whose write failed.
   */
  method Bridge(turns: seq<Turn>, socket: Socket, daemon: Stream)
    returns (ghost trace: seq<Ahead>, ghost relayed: seq<Message>, ghost toDaemon: seq<Byte>, ghost fromDaemon: seq<Byte>,
             ghost partial: seq<Byte>, ghost lost: seq<Byte>)
    requires socket.sent == []
    modifies socket, daemon
    ensures Course(turns, trace) && trace[0] == old(AheadOf(socket, daemon))
    ensures Relays(turns, |trace| - 1, relayed, toDaemon, fromDaemon)
    ensures daemon.written == old(daemon.written) + toDaemon + partial
    ensures daemon.taken == old(daemon.taken) + fromDaemon + lost
    ensures if |trace| <= |turns| then
              && Leftover(turns[|trace| - 1], partial, lost)
              && socket.sent == relayed + Goodbye(turns[|trace| - 1], trace[|trace| - 1])
            else partial == lost == [] && socket.sent == relayed
  {
    relayed, toDaemon, fromDaemon, partial, lost := [], [], [], [], [];
    trace := [AheadOf(socket, daemon)];
    var k := 0;
    while k < |turns|
      invariant 0 <= k <= |turns| && |trace| == k + 1 && relayed == socket.sent && partial == lost == []
      invariant trace[0] == old(AheadOf(socket, daemon)) && trace[k] == AheadOf(socket, daemon)
      invariant forall j: nat {:trigger PassesAt(turns, trace, j)} :: j < k ==> PassesAt(turns, trace, j)
      invariant Relays(turns, k, relayed, toDaemon, fromDaemon)
      invariant daemon.written == old(daemon.written) + toDaemon
      invariant daemon.taken == old(daemon.taken) + fromDaemon
    {
      var go;
      ghost var e;
      go, e, partial, lost := TakeTurn(turns[k], socket, daemon);
      if !go { return; }
      ProperKeeps(turns, k, relayed, toDaemon, fromDaemon, e);
      Assoc(old(daemon.written), toDaemon, e.toDaemon);
      Assoc(old(daemon.taken), fromDaemon, e.fromDaemon);
      CourseSnoc(turns, trace, AheadOf(socket, daemon));
      trace := trace + [AheadOf(socket, daemon)];
      toDaemon, fromDaemon, relayed := toDaemon + e.toDaemon, fromDaemon + e.fromDaemon, With(relayed, e.answer);
      k := k + 1;
    }
  }

  lemma CourseSnoc(turns: seq<Turn>, trace: seq<Ahead>, next: Ahead)
    requires 1 <= |trace| <= |turns|
    requires forall j: nat {:trigger PassesAt(turns, trace, j)} :: j + 1 < |trace| ==> PassesAt(turns, trace, j)
    requires !Ends(turns[|trace| - 1], trace[|trace| - 1]) && next == Next(turns[|trace| - 1], trace[|trace| - 1])
    ensures forall j: nat {:trigger PassesAt(turns, trace + [next], j)} :: j < |trace| ==> PassesAt(turns, trace + [next], j)
  {
    forall j: nat | j < |trace| ensures PassesAt(turns, trace + [next], j) {
      if j + 1 < |trace| { assert PassesAt(turns, trace, j); }
    }
  }
}
