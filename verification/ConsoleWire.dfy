/** The daemon's frame reader and writer, against the browser's encoder and decoder. */
module ConsoleWire {
  import opened Prelude
  import opened ConsoleFrames
  import opened ConsoleStreams
  import opened ConsoleSessions

  datatype ProtocolError = Io(io: IoError) | Console(console: ConsoleError) | InvalidFrame

  /**
   The daemon's writer puts the same bytes on the wire as the browser's encoder. Only a payload whose length does not fit
   the header, or a stream that refuses, cuts them short.
   */
  method WriteProtocolFrame(s: Stream, f: Frame) returns (error: Option<ProtocolError>)
    modifies s`outbound, s`written
    ensures error == Some(InvalidFrame) <==> |f.payload| > U32_MAX
    ensures Later(old(s.outbound), s.outbound)
    ensures |f.payload| > U32_MAX ==> s.written == old(s.written)
    ensures |f.payload| <= U32_MAX ==> old(s.written) <= s.written <= old(s.written) + Encode(f)
    ensures error.None? ==> |f.payload| <= U32_MAX && s.written == old(s.written) + Encode(f)
    ensures error.Some? && |f.payload| <= U32_MAX ==>
      error.value.Io? && Refused(old(s.outbound), s.outbound, error.value.io, false)
  {
    if |f.payload| > U32_MAX { return Some(InvalidFrame); }
    var length := BigEndian(|f.payload|);
    ghost var base := s.written;
    var fault := WriteAllRetry(s, [f.kind]);
    if fault.Some? {
      Within(base, [], [f.kind], length + f.payload, s.written);
      assert [] + [f.kind] + (length + f.payload) == Encode(f);
      return Some(Io(fault.value));
    }
    ghost var first := s.outbound;
    fault := WriteAllRetry(s, length);
    LaterLater(old(s.outbound), first, s.outbound);
    if fault.Some? {
      Within(base, [f.kind], length, f.payload, s.written);
      RefusedLater(old(s.outbound), first, s.outbound, fault.value, false);
      return Some(Io(fault.value));
    }
    Assoc(base, [f.kind], length);
    ghost var second := s.outbound;
    fault := WriteAllRetry(s, f.payload);
    LaterLater(old(s.outbound), second, s.outbound);
    if fault.Some? {
      Within(base, [f.kind] + length, f.payload, [], s.written);
      assert [f.kind] + length + f.payload + [] == Encode(f);
      RefusedLater(old(s.outbound), second, s.outbound, fault.value, false);
      return Some(Io(fault.value));
    }
    Assoc(base, [f.kind] + length, f.payload);
    return None;
  }

  /** Stopping inside a part stops inside the whole. */
  lemma Within(base: seq<Byte>, front: seq<Byte>, part: seq<Byte>, back: seq<Byte>, now: seq<Byte>)
    requires base + front <= now <= base + front + part
    ensures base <= now <= base + (front + part + back)
  {
    assert base + (front + part + back) == (base + front + part) + back;
  }

  /** What the bytes that arrive, and what follows them, mean to a reader. */
  function Parsed(bytes: seq<Byte>, stop: ReadOutcome, max: nat): Result<Option<Frame>, ProtocolError> {
    if bytes == [] && stop == End then Ok(None)
    else if |bytes| < 5 then Err(Io(StopError(stop)))
    else
      var length := FromBigEndian(bytes[1..5]);
      if length > max then Err(InvalidFrame)
      else if |bytes| < 5 + length then Err(Io(StopError(stop)))
      else Ok(Some(Frame(bytes[0], bytes[5..5 + length])))
  }

  /** What a failed read took: the header of an oversized frame, or all there was of an incomplete one. */
  function Consumed(bytes: seq<Byte>, error: ProtocolError): (r: seq<Byte>)
    ensures r <= bytes
  {
    if error == InvalidFrame && |bytes| >= 5 then bytes[..5] else bytes
  }

  /** At most the bytes of one frame. */
  predicate Fragment(bytes: seq<Byte>) {
    |bytes| < 5 || |bytes| <= 5 + FromBigEndian(bytes[1..5])
  }

  /** A fragment is the beginning of some frame, or all of it. */
  lemma FragmentOfFrame(bytes: seq<Byte>) returns (f: Frame)
    requires Fragment(bytes)
    ensures |f.payload| <= U32_MAX && bytes <= Encode(f)
  {
    var whole := if |bytes| < 5 then bytes + seq(5 - |bytes|, _ => 0) else bytes;
    var header, start := whole[1..5], whole[5..];
    var length := FromBigEndian(header);
    FromBigEndianRoundTrip(header);
    f := Frame(whole[0], start + seq(length - |start|, _ => 0));
    assert Encode(f) == [whole[0]] + header + f.payload;
    assert whole <= Encode(f);
  }

  lemma ConsumedIsFragment(bytes: seq<Byte>, stop: ReadOutcome, max: nat)
    requires Parsed(bytes, stop, max).Err?
    ensures Fragment(Consumed(bytes, Parsed(bytes, stop, max).error))
  {
  }

  /** The daemon's reader: decided by the bytes alone, and consuming exactly the frame that it returns. */
  method ReadProtocolFrame(s: Stream, max: nat) returns (r: Result<Option<Frame>, ProtocolError>)
    requires max <= U32_MAX
    modifies s`inbound, s`taken
    ensures r == Parsed(Arriving(old(s.inbound)), Stop(old(s.inbound)), max)
    ensures r == Ok(None) ==> s.taken == old(s.taken)
    ensures r.Err? ==> s.taken == old(s.taken) + Consumed(Arriving(old(s.inbound)), r.error)
    ensures r.Ok? && r.value.Some? ==>
      && |r.value.value.payload| <= max
      && s.taken == old(s.taken) + Encode(r.value.value)
      && Arriving(old(s.inbound)) == Encode(r.value.value) + Arriving(s.inbound)
      && Stop(s.inbound) == Stop(old(s.inbound))
      && Budget(s.inbound) < Budget(old(s.inbound))
  {
    ghost var stop := Stop(s.inbound);
    var kind, fault := ReadKind(s);
    if fault.Some? { return if fault.value == End then Ok(None) else Err(Io(StopError(fault.value))); }
    ghost var after := Arriving(s.inbound);
    var header, error := ReadExact(s, 4);
    if error.Some? {
      Assoc(old(s.taken), [kind], after);
      return Err(Io(error.value));
    }
    ghost var rest := Arriving(s.inbound);
    Assoc(old(s.taken), [kind], header);
    Assoc([kind], header, rest);
    ParsedFrame(kind, header, rest, stop, max);
    var length := FromBigEndian(header);
    if length > max {
      assert ([kind] + header + rest)[..5] == [kind] + header;
      return Err(InvalidFrame);
    }
    var payload;
    payload, error := ReadExact(s, length);
    if error.Some? {
      Assoc(old(s.taken), [kind] + header, rest);
      return Err(Io(error.value));
    }
    assert rest[..length] == payload && rest[length..] == Arriving(s.inbound);
    Assoc(old(s.taken), [kind] + header, payload);
    return Ok(Some(Frame(kind, payload)));
  }

  lemma ParsedFrame(kind: Byte, header: seq<Byte>, rest: seq<Byte>, stop: ReadOutcome, max: nat)
    requires |header| == 4
    ensures var bytes := [kind] + (header + rest);
      var length := FromBigEndian(header);
      && Parsed(bytes, stop, max) ==
           (if length > max then Err(InvalidFrame)
            else if |rest| < length then Err(Io(StopError(stop)))
            else Ok(Some(Frame(kind, rest[..length]))))
      && (length <= |rest| ==>
            && Encode(Frame(kind, rest[..length])) == [kind] + header + rest[..length]
            && bytes == Encode(Frame(kind, rest[..length])) + rest[length..])
  {
    var bytes := [kind] + (header + rest);
    var length := FromBigEndian(header);
    FromBigEndianRoundTrip(header);
    assert bytes[1..5] == header;
    if length <= |rest| {
      assert bytes[5..5 + length] == rest[..length];
      assert rest == rest[..length] + rest[length..];
    }
  }

  /** The first byte, past any interruptions. */
  method ReadKind(s: Stream) returns (kind: Byte, fault: Option<ReadOutcome>)
    modifies s`inbound, s`taken
    ensures fault.Some? ==>
      s.taken == old(s.taken) && Arriving(old(s.inbound)) == [] && fault.value == Stop(old(s.inbound))
    ensures fault.None? ==>
      && s.taken == old(s.taken) + [kind] && Arriving(old(s.inbound)) == [kind] + Arriving(s.inbound)
      && Stop(s.inbound) == Stop(old(s.inbound)) && Budget(s.inbound) < Budget(old(s.inbound))
  {
    kind := 0;
    while true
      invariant s.taken == old(s.taken) && Arriving(s.inbound) == Arriving(old(s.inbound))
      invariant Stop(s.inbound) == Stop(old(s.inbound)) && Budget(s.inbound) <= Budget(old(s.inbound))
      decreases Budget(s.inbound)
    {
      var first := s.Read(1);
      if first.Data? {
        assert first.data == [first.data[0]];
        return first.data[0], None;
      }
      if !first.Retry? { return kind, Some(first); }
    }
  }

  /** Reading frame after frame: the frames, and the error that ended it, if any. */
  function ReadAll(bytes: seq<Byte>, stop: ReadOutcome, max: nat): (seq<Frame>, Option<ProtocolError>) {
    match Parsed(bytes, stop, max)
    case Err(error) => ([], Some(error))
    case Ok(None) => ([], None)
    case Ok(Some(f)) =>
      var (frames, error) := ReadAll(bytes[5 + |f.payload|..], stop, max);
      ([f] + frames, error)
  }

  /** The same frames; and the same fault, where an incomplete frame is the reader's own kind of fault. */
  predicate Agreement(read: (seq<Frame>, Option<ProtocolError>), decoding: Decoding, stop: ReadOutcome) {
    match decoding
    case Oversized => read.1 == Some(InvalidFrame)
    case Decoded(frames, rest) =>
      && read.0 == frames
      && read.1 == if rest == [] && stop == End then None else Some(Io(StopError(stop)))
  }

  lemma AgreementPrepends(f: Frame, read: (seq<Frame>, Option<ProtocolError>), decoding: Decoding, stop: ReadOutcome)
    requires Agreement(read, decoding, stop)
    ensures Agreement(([f] + read.0, read.1), Prepend([f], decoding), stop)
  {
  }

  lemma AgreementAtEnd(bytes: seq<Byte>, stop: ReadOutcome)
    requires var first := Parsed(bytes, stop, MAX_CONSOLE_PAYLOAD); first.Err? || first.value.None?
    ensures Agreement(ReadAll(bytes, stop, MAX_CONSOLE_PAYLOAD), Decode(bytes), stop)
  {
  }

  /** On every byte string the daemon's reader and the browser's decoder find the same frames and the same fault. */
  lemma {:induction false} DecodersAgree(bytes: seq<Byte>, stop: ReadOutcome)
    ensures Agreement(ReadAll(bytes, stop, MAX_CONSOLE_PAYLOAD), Decode(bytes), stop)
  {
    var first := Parsed(bytes, stop, MAX_CONSOLE_PAYLOAD);
    if first.Err? || first.value.None? {
      AgreementAtEnd(bytes, stop);
    } else {
      var f := first.value.value;
      var tail := bytes[5 + |f.payload|..];
      FirstFrame(bytes);
      DecodersAgree(tail, stop);
      AgreementPrepends(f, ReadAll(tail, stop, MAX_CONSOLE_PAYLOAD), Decode(tail), stop);
    }
  }
}
