/** Whole console visits, from the browser's frames to the device and back. */
module ConsoleVisits {
  import opened Prelude
  import opened ConsoleFrames
  import opened ConsoleStreams
  import opened ConsoleLeases
  import opened ConsoleSessions
  import opened ConsoleWire
  import opened ConsoleServer

  /** Where a visit stands, as far as the two streams are concerned. */
  ghost function VisitNow(client: Stream, device: Stream, maxFrame: nat, closed: Option<CloseReason>): Moment
    reads client, device
  {
    Moment(Scene(maxFrame, closed, Faults(device.inbound), device.outbound, client.outbound),
           Traffic(client.taken, client.written, device.written, device.taken), Arriving(client.inbound), Stop(client.inbound))
  }

  /** The moment after the device was told the instance. */
  function AfterSelector(first: Moment, id: nat): Moment {
    first.(traffic := first.traffic.(toDevice := first.traffic.toDevice + Selector(id)))
  }

  /**
   Attach, serve, drop. Whatever goes wrong, the lease is back afterwards. A visit is attached exactly when the instance
   is valid and free and the device opens and takes the selector at once; otherwise the error says which of these failed,
   the client hears nothing and the device has received at most a part of the selector. Once attached, the device has
   received the selector, and from then on the session is served.
   */
  method ServeInstance(client: Stream, table: LeaseTable, device: Result<Stream, IoError>, id: U32, maxFrame: nat, codec: Codec)
    returns (attached: Option<ConsoleError>, r: Result<CloseReason, ProtocolError>,
             ghost greeted: bool, ghost greeting: seq<Byte>, ghost t: Transcript)
    requires 0 < maxFrame <= U32_MAX && (device.Ok? ==> device.value != client)
    modifies client, table
    modifies if device.Ok? then {device.value} else {}
    ensures table.attached == old(table.attached)
    ensures attached.None? <==>
      && ValidInstance(id) && id !in old(table.attached)
      && device.Ok? && TakesWhole(old(device.value.outbound), |Selector(id)|)
    ensures attached == Some(InvalidInstance) <==> !ValidInstance(id)
    ensures attached == Some(AlreadyAttached) <==> ValidInstance(id) && id in old(table.attached)
    ensures attached.Some? && ValidInstance(id) && id !in old(table.attached) ==>
      if device.Err? then attached.value == DeviceError(device.error)
      else WriteRefused(old(device.value.outbound), device.value.outbound, attached.value, true)
    ensures attached.Some? ==> client.taken == old(client.taken) && client.written == old(client.written)
    ensures attached.Some? && device.Ok? ==>
      && old(device.value.written) <= device.value.written <= old(device.value.written) + Selector(id)
      && device.value.taken == old(device.value.taken)
    ensures attached.None? ==>
      Served(codec, AfterSelector(old(VisitNow(client, device.value, maxFrame, None)), id),
             VisitNow(client, device.value, maxFrame, if r.Ok? then Some(r.value) else None), greeted, greeting, t, r)
  {
    r, greeted, greeting, t := Err(InvalidFrame), false, [], NOTHING_YET;
    var session := Attach(table, device, id, maxFrame);
    if session.Err? {
      attached := Some(session.error);
      return;
    }
    attached := None;
    ghost var before := VisitNow(client, device.value, maxFrame, None);
    r, greeted, greeting, t := Visit(client, session.value, codec);
    ghost var last := VisitNow(client, device.value, maxFrame, if r.Ok? then Some(r.value) else None);
    SameVisit(codec, AfterSelector(old(VisitNow(client, device.value, maxFrame, None)), id), before, last, last,
              greeted, greeting, t, r);
  }

  /** Serves an attached session and lets go of it. */
  method Visit(client: Stream, session: ConsoleSession, codec: Codec)
    returns (r: Result<CloseReason, ProtocolError>, ghost greeted: bool, ghost greeting: seq<Byte>, ghost t: Transcript)
    requires session.Valid() && session.closed == None && client != session.device
    modifies client, session, session.device, session.table
    ensures session.table.attached == old(session.table.attached) - {session.id}
    ensures Served(codec, old(VisitNow(client, session.device, session.maxFrame, None)),
                   VisitNow(client, session.device, session.maxFrame, if r.Ok? then Some(r.value) else None),
                   greeted, greeting, t, r)
  {
    ghost var first := Now(client, session);
    r, greeted, greeting, t := ServeFramedConsole(client, session, codec);
    ghost var last := Now(client, session);
    session.Drop();
    SameVisit(codec, first, first, last,
              VisitNow(client, session.device, session.maxFrame, if r.Ok? then Some(r.value) else None), greeted, greeting, t, r);
  }

  /** A visit may be told from before the selector on, and to after the session is gone. */
  lemma SameVisit(codec: Codec, first: Moment, before: Moment, last: Moment, after: Moment,
                  greeted: bool, greeting: seq<Byte>, t: Transcript, r: Result<CloseReason, ProtocolError>)
    requires Served(codec, before, last, greeted, greeting, t, r)
    requires Onward(first.scene, before.scene) && before.scene.closed == first.scene.closed
    requires first.traffic == before.traffic && first.arriving == before.arriving && first.stop == before.stop
    requires after.traffic == last.traffic && last.scene.(closed := after.scene.closed) == after.scene
    requires r.Ok? ==> after.scene.closed == Some(r.value)
    ensures Served(codec, first, after, greeted, greeting, t, r)
  {
    LaterScenes(first.scene, before.scene, last.scene);
    if greeted {
      EndedEarlier(codec, AfterGreeting(first, greeting), AfterGreeting(before, greeting), last, t, r);
    } else {
      var attachment := Frame(FRAME_ATTACHMENT, codec.attachment);
      UnsentLater(first.scene, before.scene, last.scene, r.error, Exchange(attachment, attachment));
    }
  }

  /** What the daemon handled is what the browser sent: the first frames of its stream, in order, none altered. */
  lemma {:induction false} DaemonSeesRequests(sent: seq<Frame>, handled: seq<Frame>, requests: seq<Byte>)
    requires Sendable(sent, U32_MAX) && Sendable(handled, U32_MAX)
    requires EncodeAll(handled) <= requests <= EncodeAll(sent)
    ensures handled <= sent
  {
    if handled != [] {
      var all, done := EncodeAll(sent), EncodeAll(handled);
      assert all == done + all[|done|..];
      assert |done| >= 5;
      assert sent != [];
      var x, y := EncodeAll(handled[1..]) + all[|done|..], EncodeAll(sent[1..]);
      Assoc(Encode(handled[0]), EncodeAll(handled[1..]), all[|done|..]);
      PrefixFree(handled[0], x, sent[0], y);
      DaemonSeesRequests(sent[1..], handled[1..], EncodeAll(handled[1..]));
      assert sent == [sent[0]] + sent[1..] && handled == [handled[0]] + handled[1..];
    }
  }

  /** What a browser typed: the payloads of its input frames, in order. */
  function Typed(frames: seq<Frame>): seq<Byte> {
    if frames == [] then []
    else
      var last := frames[|frames| - 1];
      Typed(frames[..|frames| - 1]) + (if last.kind == FRAME_INPUT then last.payload else [])
  }

  lemma {:induction false} TypedPrefix(frames: seq<Frame>, n: nat)
    requires n <= |frames|
    ensures Typed(frames[..n]) <= Typed(frames)
    decreases |frames|
  {
    if n == |frames| {
      assert frames[..n] == frames;
    } else {
      TypedPrefix(frames[..|frames| - 1], n);
      assert frames[..|frames| - 1][..n] == frames[..n];
    }
  }

  lemma TypedSnoc(frames: seq<Frame>, f: Frame)
    ensures Typed(frames + [f]) == Typed(frames) + (if f.kind == FRAME_INPUT then f.payload else [])
  {
    assert (frames + [f])[..|frames|] == frames;
  }

  /** While a session goes on, every input is acknowledged. */
  lemma {:induction false} AllAcknowledged(terms: Terms, log: seq<Exchange>)
    requires AllProper(terms, log) && AllContinue(log)
    ensures Inputs(log) == Typed(Requests(log))
  {
    if log != [] {
      var n := |log| - 1;
      AllAcknowledged(terms, log[..n]);
      assert Requests(log)[..n] == Requests(log[..n]);
      assert log[n] in log;
    }
  }

  /** The requests of a run that were read and understood, answered or not. */
  function Received(t: Transcript): seq<Frame> {
    if t.cut.exchange.Some? then Requests(t.log) + [t.cut.exchange.value.request] else Requests(t.log)
  }

  /** They are at the front of what the client sent. */
  lemma ReceivedBytes(terms: Terms, t: Transcript)
    requires Transparent(terms, t)
    ensures Sendable(Received(t), U32_MAX) && EncodeAll(Received(t)) <= t.moved.requests
  {
    RequestsFit(terms, t);
    if t.cut.exchange.Some? { EncodeAllSnoc(Requests(t.log), t.cut.exchange.value.request); }
  }

  /** What a run sends the device is what its requests typed, up to the place where it was cut. */
  lemma DeviceInput(terms: Terms, t: Transcript)
    requires Transparent(terms, t)
    ensures t.moved.toDevice <= Typed(Received(t))
  {
    if t.cut.request != [] {
      AllAcknowledged(terms, t.log);
      if t.cut.exchange.Some? { TypedSnoc(Requests(t.log), t.cut.exchange.value.request); }
    } else if t.log != [] {
      var n := |t.log| - 1;
      AllAcknowledged(terms, t.log[..n]);
      assert Requests(t.log)[..n] == Requests(t.log[..n]);
      assert t.log[n] in t.log;
      LastInput(terms, Typed(Requests(t.log[..n])), t.log[n], t.cut);
    }
  }

  lemma LastInput(terms: Terms, typed: seq<Byte>, last: Exchange, cut: Cut)
    requires Answers(last) && Bounded(terms, cut, Some(last)) && cut.request == []
    ensures typed + InputOf(last) + cut.input <= typed + InputAtRisk(last)
  {
    if cut.input == [] {
      assert typed + InputOf(last) + cut.input == typed + InputOf(last);
    } else {
      assert typed + InputOf(last) + cut.input == typed + cut.input;
    }
  }

  lemma RunSendsWhatWasTyped(terms: Terms, sent: seq<Frame>, t: Transcript)
    requires Transparent(terms, t) && Sendable(sent, U32_MAX) && t.moved.requests <= EncodeAll(sent)
    ensures t.moved.toDevice <= Typed(sent)
  {
    ReceivedBytes(terms, t);
    DaemonSeesRequests(sent, Received(t), t.moved.requests);
    DeviceInput(terms, t);
    TypedPrefix(sent, |Received(t)|);
    assert sent[..|Received(t)|] == Received(t);
  }

  /** Whatever happens on the way, the device has received the beginning of what the browser typed, and nothing else. */
  lemma DeviceGetsWhatWasTyped(codec: Codec, first: Moment, last: Moment, greeted: bool, greeting: seq<Byte>, t: Transcript,
                               r: Result<CloseReason, ProtocolError>, sent: seq<Frame>)
    requires Served(codec, first, last, greeted, greeting, t, r)
    requires Sendable(sent, U32_MAX) && first.arriving <= EncodeAll(sent)
    ensures t.moved.toDevice <= Typed(sent)
  {
    ServedIsTransparent(codec, first, last, greeted, greeting, t, r);
    RunSendsWhatWasTyped(Terms(codec, first.scene.maxFrame), sent, t);
  }

  /** And when it consumed everything that arrived, it handled every frame. */
  lemma DaemonHearsAll(sent: seq<Frame>, handled: seq<Frame>)
    requires Sendable(sent, U32_MAX) && Sendable(handled, U32_MAX) && EncodeAll(handled) == EncodeAll(sent)
    ensures handled == sent
  {
    DaemonSeesRequests(sent, handled, EncodeAll(sent));
    DaemonSeesRequests(handled, sent, EncodeAll(sent));
  }

  // ------------------------------------------------------------- what the browser sees

  /** What a browser shows: the payloads of the output frames, in order. */
  function Shown(frames: seq<Frame>): seq<Byte> {
    if frames == [] then []
    else
      var last := frames[|frames| - 1];
      Shown(frames[..|frames| - 1]) + (if last.kind == FRAME_OUTPUT then last.payload else [])
  }

  lemma {:induction false} ShownPrefix(frames: seq<Frame>, n: nat)
    requires n <= |frames|
    ensures Shown(frames[..n]) <= Shown(frames)
    decreases |frames|
  {
    if n == |frames| {
      assert frames[..n] == frames;
    } else {
      ShownPrefix(frames[..|frames| - 1], n);
      assert frames[..|frames| - 1][..n] == frames[..n];
    }
  }

  lemma ShownSnoc(frames: seq<Frame>, f: Frame)
    ensures Shown(frames + [f]) == Shown(frames) + (if f.kind == FRAME_OUTPUT then f.payload else [])
  {
    assert (frames + [f])[..|frames|] == frames;
  }

  /** The attachment, the replies, and the reply that was cut off, if one was. */
  function Sent(codec: Codec, t: Transcript): seq<Frame> {
    var whole := [Frame(FRAME_ATTACHMENT, codec.attachment)] + Replies(t.log);
    if t.cut.exchange.Some? then whole + [t.cut.exchange.value.reply] else whole
  }

  lemma {:induction false} ShownReplies(codec: Codec, log: seq<Exchange>)
    ensures Shown([Frame(FRAME_ATTACHMENT, codec.attachment)] + Replies(log)) == Outputs(log)
  {
    var first := Frame(FRAME_ATTACHMENT, codec.attachment);
    if log == [] {
      assert [first] + Replies(log) == [] + [first];
      ShownSnoc([], first);
    } else {
      var n := |log| - 1;
      ShownReplies(codec, log[..n]);
      assert [first] + Replies(log) == ([first] + Replies(log[..n])) + [log[n].reply];
      ShownSnoc([first] + Replies(log[..n]), log[n].reply);
    }
  }

  /** All that can be shown of a run is what the device produced in it. */
  lemma ShownIsProduced(terms: Terms, t: Transcript)
    requires Transparent(terms, t)
    ensures Shown(Sent(terms.codec, t)) == t.moved.fromDevice
  {
    ShownReplies(terms.codec, t.log);
    if t.cut.exchange.Some? {
      ShownSnoc([Frame(FRAME_ATTACHMENT, terms.codec.attachment)] + Replies(t.log), t.cut.exchange.value.reply);
    }
  }

  /** The metadata and the JSON replies fit the browser's frame limit, and so does the session's own limit. */
  ghost predicate FitsBrowser(terms: Terms) {
    && |terms.codec.attachment| <= MAX_CONSOLE_PAYLOAD && terms.maxFrame <= MAX_CONSOLE_PAYLOAD
    && (forall e: ConsoleError :: |terms.codec.errorJson(e)| <= MAX_CONSOLE_PAYLOAD)
    && (forall reason: CloseReason :: |terms.codec.closeJson(reason)| <= MAX_CONSOLE_PAYLOAD)
  }

  lemma ReplyFits(terms: Terms, e: Exchange)
    requires FitsBrowser(terms) && Proper(terms, e)
    ensures |e.reply.payload| <= MAX_CONSOLE_PAYLOAD
  {
  }

  lemma SentFits(terms: Terms, t: Transcript)
    requires FitsBrowser(terms) && Transparent(terms, t)
    ensures Sendable(Sent(terms.codec, t), MAX_CONSOLE_PAYLOAD)
  {
    forall f | f in Sent(terms.codec, t) ensures |f.payload| <= MAX_CONSOLE_PAYLOAD {
      if f in Replies(t.log) {
        var k :| 0 <= k < |t.log| && t.log[k].reply == f;
        assert t.log[k] in t.log;
        ReplyFits(terms, t.log[k]);
      } else if t.cut.exchange.Some? && f == t.cut.exchange.value.reply {
        ReplyFits(terms, t.cut.exchange.value);
      }
    }
  }

  /** What the client's stream took in a session is at the front of the attachment and the replies. */
  lemma SentBytes(terms: Terms, greeted: bool, greeting: seq<Byte>, t: Transcript)
    requires FitsBrowser(terms) && Transparent(terms, t)
    requires var attachment := Frame(FRAME_ATTACHMENT, terms.codec.attachment);
      if greeted then greeting == Encode(attachment) else t == NOTHING_YET && greeting <= Encode(attachment)
    ensures Sendable(Sent(terms.codec, t), MAX_CONSOLE_PAYLOAD)
    ensures greeting + t.moved.replies <= EncodeAll(Sent(terms.codec, t))
  {
    var attachment := Frame(FRAME_ATTACHMENT, terms.codec.attachment);
    var whole := [attachment] + Replies(t.log);
    SentFits(terms, t);
    assert Sendable(whole, U32_MAX) by {
      assert forall f :: f in whole ==> f in Sent(terms.codec, t);
    }
    assert whole[1..] == Replies(t.log);
    assert EncodeAll(whole) == Encode(attachment) + EncodeAll(Replies(t.log));
    if t.cut.exchange.Some? {
      var reply := t.cut.exchange.value.reply;
      assert reply in Sent(terms.codec, t);
      EncodeAllSnoc(whole, reply);
    }
    Assoc(greeting, EncodeAll(Replies(t.log)), t.cut.reply);
  }

  /** Whole frames come out of any beginning of a stream of frames, and no others. */
  lemma {:induction false} DecodePrefix(frames: seq<Frame>, bytes: seq<Byte>)
    requires Sendable(frames, MAX_CONSOLE_PAYLOAD) && bytes <= EncodeAll(frames)
    ensures Decode(bytes).Decoded? && Decode(bytes).frames <= frames
  {
    if frames != [] {
      var f, rest := frames[0], frames[1..];
      var all := Encode(f) + EncodeAll(rest);
      if |bytes| >= |Encode(f)| {
        var tail := bytes[|Encode(f)|..];
        assert bytes == Encode(f) + tail by { assert bytes[..|Encode(f)|] == all[..|Encode(f)|] == Encode(f); }
        assert tail == all[|Encode(f)|..|bytes|] && all[|Encode(f)|..] == EncodeAll(rest);
        DecodePrefix(rest, tail);
        assert [f][1..] == [];
        assert EncodeAll([f]) == Encode(f) + EncodeAll([]) == Encode(f);
        AfterFrames([f], tail);
        assert frames == [f] + rest;
      } else if |bytes| >= 5 {
        BigEndianRoundTrip(|f.payload|);
        assert bytes[1..5] == all[1..5] == BigEndian(|f.payload|);
      }
    }
  }

  lemma ServedIsTransparent(codec: Codec, first: Moment, last: Moment, greeted: bool, greeting: seq<Byte>, t: Transcript,
                            r: Result<CloseReason, ProtocolError>)
    requires Served(codec, first, last, greeted, greeting, t, r)
    ensures Transparent(Terms(codec, first.scene.maxFrame), t) && t.moved.requests <= first.arriving
  {
  }

  /**
   In any session, failing or not, and however the relay cuts what the client's stream took so far: the browser decodes
   the beginning of the attachment and the replies, and shows the beginning of what the device produced; and all of it,
   once a clean session has come through.
   */
  lemma BrowserShowsWhatWasProduced(codec: Codec, first: Moment, last: Moment, greeted: bool, greeting: seq<Byte>, t: Transcript,
                                    r: Result<CloseReason, ProtocolError>, chunks: seq<seq<Byte>>)
    requires Served(codec, first, last, greeted, greeting, t, r) && FitsBrowser(Terms(codec, first.scene.maxFrame))
    requires Relayed(chunks) && Flatten(chunks) <= greeting + t.moved.replies
    ensures var seen := Feed([], chunks);
      && seen.Ok? && seen.value.0 <= Sent(codec, t)
      && Shown(seen.value.0) <= t.moved.fromDevice
      && (r.Ok? && Flatten(chunks) == greeting + t.moved.replies ==>
            seen.value == (Sent(codec, t), []) && Shown(seen.value.0) == t.moved.fromDevice)
  {
    var terms, sent := Terms(codec, first.scene.maxFrame), Sent(codec, t);
    ServedIsTransparent(codec, first, last, greeted, greeting, t, r);
    SentBytes(terms, greeted, greeting, t);
    FeedIsDecode(chunks);
    DecodePrefix(sent, Flatten(chunks));
    var seen := Decode(Flatten(chunks)).frames;
    ShownPrefix(sent, |seen|);
    assert sent[..|seen|] == seen;
    ShownIsProduced(terms, t);
    if r.Ok? && Flatten(chunks) == greeting + t.moved.replies {
      WholeSession(terms, greeting, t);
      DecodeEncodeAll(sent);
    }
  }

  lemma WholeSession(terms: Terms, greeting: seq<Byte>, t: Transcript)
    requires FitsBrowser(terms) && Transparent(terms, t) && t.cut == NOTHING_CUT
    requires greeting == Encode(Frame(FRAME_ATTACHMENT, terms.codec.attachment))
    ensures Sendable(Sent(terms.codec, t), MAX_CONSOLE_PAYLOAD) && greeting + t.moved.replies == EncodeAll(Sent(terms.codec, t))
  {
    SentFits(terms, t);
    assert Sent(terms.codec, t)[1..] == Replies(t.log);
  }

  /** The bytes that a run took from the client are its requests and the beginning of one more frame at most. */
  lemma ClientBytesAreFrames(terms: Terms, t: Transcript) returns (f: Frame)
    requires Transparent(terms, t)
    ensures |f.payload| <= U32_MAX && Sendable(Requests(t.log), U32_MAX) && Sendable(Requests(t.log) + [f], U32_MAX)
    ensures EncodeAll(Requests(t.log)) <= t.moved.requests <= EncodeAll(Requests(t.log) + [f])
  {
    if t.cut.exchange.Some? {
      f := t.cut.exchange.value.request;
    } else {
      f := FragmentOfFrame(t.cut.request);
    }
    assert Sendable(Requests(t.log), U32_MAX) by { RequestsFit(terms, t); }
    EncodeAllSnoc(Requests(t.log), f);
  }

  lemma RequestsFit(terms: Terms, t: Transcript)
    requires Transparent(terms, t)
    ensures Sendable(Requests(t.log), U32_MAX)
  {
    forall f | f in Requests(t.log) ensures |f.payload| <= U32_MAX {
      var k :| 0 <= k < |t.log| && t.log[k].request == f;
      assert t.log[k] in t.log;
    }
  }
}
