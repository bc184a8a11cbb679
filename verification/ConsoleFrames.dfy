/** The private console frame format: a kind byte, a big-endian 32-bit length, the payload. */
module ConsoleFrames {
  import opened Prelude

  const MAX_CONSOLE_PAYLOAD: int := 65536
  const BUFFER_LIMIT: int := MAX_CONSOLE_PAYLOAD * 2 + 10

  datatype Frame = Frame(kind: Byte, payload: seq<Byte>)

  // ------------------------------------------------------------------ encoding

  function BigEndian(n: U32): (b: seq<Byte>)
    ensures |b| == 4
  {
    [n / 256 / 256 / 256, n / 256 / 256 % 256, n / 256 % 256, n % 256]
  }

  function FromBigEndian(b: seq<Byte>): (n: U32)
    requires |b| == 4
  {
    (((b[0] as int) * 256 + b[1]) * 256 + b[2]) * 256 + b[3]
  }

  lemma Digit(q: nat, d: Byte)
    ensures (q * 256 + d) / 256 == q && (q * 256 + d) % 256 == d
  {
  }

  lemma BigEndianRoundTrip(n: U32)
    ensures FromBigEndian(BigEndian(n)) == n
  {
    var a, b := n / 256, n / 256 / 256;
    assert n == a * 256 + n % 256 && a == b * 256 + a % 256 && b == b / 256 * 256 + b % 256;
  }

  lemma FromBigEndianRoundTrip(b: seq<Byte>)
    requires |b| == 4
    ensures BigEndian(FromBigEndian(b)) == b
  {
    var x := (b[0] as int) * 256 + b[1];
    var y := x * 256 + b[2];
    Digit(b[0], b[1]);
    Digit(x, b[2]);
    Digit(y, b[3]);
  }

  function Encode(f: Frame): (bytes: seq<Byte>)
    requires |f.payload| <= U32_MAX
    ensures |bytes| == 5 + |f.payload|
  {
    [f.kind] + BigEndian(|f.payload|) + f.payload
  }

  ghost predicate Sendable(frames: seq<Frame>, limit: nat) {
    forall f :: f in frames ==> |f.payload| <= limit
  }

  function EncodeAll(frames: seq<Frame>): seq<Byte>
    requires forall f :: f in frames ==> |f.payload| <= U32_MAX
  {
    if frames == [] then [] else Encode(frames[0]) + EncodeAll(frames[1..])
  }

  lemma {:induction false} EncodeAllAppend(a: seq<Frame>, b: seq<Frame>)
    requires Sendable(a, U32_MAX) && Sendable(b, U32_MAX)
    ensures EncodeAll(a + b) == EncodeAll(a) + EncodeAll(b)
  {
    if a == [] {
      assert a + b == b;
    } else {
      var rest := a[1..];
      EncodeAllAppend(rest, b);
      assert (a + b)[0] == a[0] && (a + b)[1..] == rest + b;
      Assoc(Encode(a[0]), EncodeAll(rest), EncodeAll(b));
    }
  }

  lemma EncodeAllSnoc(frames: seq<Frame>, f: Frame)
    requires Sendable(frames, U32_MAX) && |f.payload| <= U32_MAX
    ensures EncodeAll(frames + [f]) == EncodeAll(frames) + Encode(f)
  {
    EncodeAllAppend(frames, [f]);
    assert [f][1..] == [];
    assert EncodeAll([f]) == Encode(f) + [];
  }

  /** The browser's encoder: fills a fresh buffer; storing the kind in a byte array keeps its low eight bits. */
  method EncodeFrame(kind: int, payload: seq<Byte>) returns (frame: Option<array<Byte>>)
    ensures frame.Some? <==> |payload| <= MAX_CONSOLE_PAYLOAD
    ensures frame.Some? ==> fresh(frame.value) && frame.value[..] == Encode(Frame(kind % 256, payload))
  {
    if |payload| > MAX_CONSOLE_PAYLOAD { return None; }
    var buffer := new Byte[5 + |payload|](_ => 0);
    buffer[0] := kind % 256;
    Set(buffer, BigEndian(|payload|), 1);
    Set(buffer, payload, 5);
    assert buffer[..] == buffer[..1] + buffer[1..5] + buffer[5..];
    return Some(buffer);
  }

  /** `Uint8Array.set`: copies the source into the buffer at an offset. */
  method Set(buffer: array<Byte>, source: seq<Byte>, offset: nat)
    requires offset + |source| <= buffer.Length
    modifies buffer
    ensures buffer[..offset] == old(buffer[..offset])
    ensures buffer[offset..offset + |source|] == source
    ensures buffer[offset + |source|..] == old(buffer[offset + |source|..])
  {
    for i := 0 to |source|
      invariant forall j :: 0 <= j < i ==> buffer[offset + j] == source[j]
      invariant forall j :: 0 <= j < buffer.Length && !(offset <= j < offset + i) ==> buffer[j] == old(buffer[j])
    {
      buffer[offset + i] := source[i];
    }
  }

  /** The format is prefix-free: the bytes a reader consumed determine the frame that was written. */
  lemma PrefixFree(f: Frame, x: seq<Byte>, g: Frame, y: seq<Byte>)
    requires |f.payload| <= U32_MAX && |g.payload| <= U32_MAX
    requires Encode(f) + x == Encode(g) + y
    ensures f == g && x == y
  {
    var bytes := Encode(f) + x;
    assert bytes[0] == f.kind && bytes[0] == g.kind;
    assert bytes[1..5] == BigEndian(|f.payload|) && bytes[1..5] == BigEndian(|g.payload|);
    BigEndianRoundTrip(|f.payload|);
    BigEndianRoundTrip(|g.payload|);
    assert bytes[5..5 + |f.payload|] == f.payload && bytes[5..5 + |g.payload|] == g.payload;
    assert x == bytes[5 + |f.payload|..] && y == bytes[5 + |g.payload|..];
  }

  // ------------------------------------------------------------------ decoding

  datatype Decoding = Decoded(frames: seq<Frame>, rest: seq<Byte>) | Oversized

  /** Frames at the front of a byte string, and the incomplete remainder. */
  function Decode(bytes: seq<Byte>): (d: Decoding)
    ensures d.Decoded? ==> |d.rest| <= |bytes|
  {
    if |bytes| < 5 then Decoded([], bytes)
    else
      var length := FromBigEndian(bytes[1..5]);
      if length > MAX_CONSOLE_PAYLOAD then Oversized
      else if |bytes| < 5 + length then Decoded([], bytes)
      else
        match Decode(bytes[5 + length..])
        case Oversized => Oversized
        case Decoded(frames, rest) => Decoded([Frame(bytes[0], bytes[5..5 + length])] + frames, rest)
  }

  /** What is left over is always an incomplete frame, shorter than the largest one. */
  lemma {:induction false} RestIsIncomplete(bytes: seq<Byte>)
    requires Decode(bytes).Decoded?
    ensures Decode(Decode(bytes).rest) == Decoded([], Decode(bytes).rest)
    ensures |Decode(bytes).rest| <= MAX_CONSOLE_PAYLOAD + 4
  {
    if |bytes| >= 5 {
      var length := FromBigEndian(bytes[1..5]);
      if |bytes| >= 5 + length { RestIsIncomplete(bytes[5 + length..]); }
    }
  }

  /** Puts already decoded frames in front. */
  function Prepend(frames: seq<Frame>, d: Decoding): Decoding {
    match d
    case Oversized => Oversized
    case Decoded(more, rest) => Decoded(frames + more, rest)
  }

  lemma FirstFrame(bytes: seq<Byte>)
    requires |bytes| >= 5 && FromBigEndian(bytes[1..5]) <= MAX_CONSOLE_PAYLOAD
    requires |bytes| >= 5 + FromBigEndian(bytes[1..5])
    ensures var length := FromBigEndian(bytes[1..5]);
      Decode(bytes) == Prepend([Frame(bytes[0], bytes[5..5 + length])], Decode(bytes[5 + length..]))
  {
  }

  lemma PrependTwice(a: seq<Frame>, b: seq<Frame>, d: Decoding)
    ensures Prepend(a, Prepend(b, d)) == Prepend(a + b, d)
  {
    if d.Decoded? { assert a + (b + d.frames) == (a + b) + d.frames; }
  }

  lemma PrependNone(d: Decoding)
    ensures Prepend([], d) == d
  {
    if d.Decoded? { assert [] + d.frames == d.frames; }
  }

  /** Decoding may stop anywhere and go on with what was left over. */
  lemma {:induction false} DecodeAppend(a: seq<Byte>, b: seq<Byte>)
    ensures Decode(a + b) ==
      if Decode(a).Oversized? then Oversized else Prepend(Decode(a).frames, Decode(Decode(a).rest + b))
  {
    if |a| >= 5 { assert (a + b)[1..5] == a[1..5]; }
    if |a| >= 5 && FromBigEndian(a[1..5]) <= MAX_CONSOLE_PAYLOAD && |a| >= 5 + FromBigEndian(a[1..5]) {
      var end := 5 + FromBigEndian(a[1..5]);
      var tail, first := a[end..], [Frame(a[0], a[5..end])];
      DecodeAppend(tail, b);
      assert (a + b)[end..] == tail + b && (a + b)[5..end] == a[5..end];
      FirstFrame(a);
      FirstFrame(a + b);
      if Decode(tail).Decoded? { PrependTwice(first, Decode(tail).frames, Decode(Decode(tail).rest + b)); }
    } else {
      PrependNone(Decode(a + b));
    }
  }

  /** Decoding inverts encoding. */
  lemma {:induction false} DecodeEncodeAll(frames: seq<Frame>)
    requires Sendable(frames, MAX_CONSOLE_PAYLOAD)
    ensures Decode(EncodeAll(frames)) == Decoded(frames, [])
  {
    if frames != [] {
      var f, rest := frames[0], frames[1..];
      DecodeEncodeAll(rest);
      var bytes := Encode(f) + EncodeAll(rest);
      BigEndianRoundTrip(|f.payload|);
      assert bytes[1..5] == BigEndian(|f.payload|);
      assert bytes[5..5 + |f.payload|] == f.payload;
      assert bytes[5 + |f.payload|..] == EncodeAll(rest);
      assert frames == [f] + rest;
    }
  }

  /** Less than a frame. */
  predicate Incomplete(bytes: seq<Byte>) {
    |bytes| < 5 || |bytes| < 5 + FromBigEndian(bytes[1..5]) <= 5 + MAX_CONSOLE_PAYLOAD
  }

  predicate TooBig(bytes: seq<Byte>) {
    |bytes| >= 5 && FromBigEndian(bytes[1..5]) > MAX_CONSOLE_PAYLOAD
  }

  /** What comes after whole frames is decoded as if they were not there. */
  lemma AfterFrames(frames: seq<Frame>, rest: seq<Byte>)
    requires Sendable(frames, MAX_CONSOLE_PAYLOAD)
    ensures Decode(EncodeAll(frames) + rest) == Prepend(frames, Decode(rest))
  {
    DecodeEncodeAll(frames);
    DecodeAppend(EncodeAll(frames), rest);
    assert [] + rest == rest;
  }

  lemma StopsWithin(frames: seq<Frame>, rest: seq<Byte>)
    requires Sendable(frames, MAX_CONSOLE_PAYLOAD)
    ensures Incomplete(rest) ==> Decode(EncodeAll(frames) + rest) == Decoded(frames, rest)
    ensures TooBig(rest) ==> Decode(EncodeAll(frames) + rest) == Oversized
  {
    AfterFrames(frames, rest);
    assert frames + [] == frames;
  }

  lemma OneMore(combined: seq<Byte>, frames: seq<Frame>, f: Frame, left: seq<Byte>, rest: seq<Byte>)
    requires Sendable(frames, MAX_CONSOLE_PAYLOAD) && |f.payload| <= MAX_CONSOLE_PAYLOAD
    requires combined == EncodeAll(frames) + left && left == Encode(f) + rest
    ensures Sendable(frames + [f], MAX_CONSOLE_PAYLOAD) && combined == EncodeAll(frames + [f]) + rest
  {
    EncodeAllSnoc(frames, f);
    Assoc(EncodeAll(frames), Encode(f), rest);
  }

  lemma FrameAt(combined: seq<Byte>, offset: nat, length: nat)
    requires offset + 5 + length <= |combined|
    requires length == FromBigEndian(combined[offset + 1..offset + 5])
    ensures var f := Frame(combined[offset], combined[offset + 5..offset + 5 + length]);
      combined[offset..] == Encode(f) + combined[offset + 5 + length..]
  {
    FromBigEndianRoundTrip(combined[offset + 1..offset + 5]);
    assert combined[offset..] ==
      [combined[offset]] + combined[offset + 1..offset + 5] + combined[offset + 5..offset + 5 + length]
      + combined[offset + 5 + length..];
  }

  // ---------------------------------------------------------- the browser side

  datatype DecodeError = BufferExceeded | FrameTooLarge

  /** One push: the new buffer and the frames handed out, or an error that leaves the buffer as it was. */
  function Pushed(buffered: seq<Byte>, chunk: seq<Byte>): (seq<Byte>, Result<seq<Frame>, DecodeError>) {
    if |buffered| + |chunk| > BUFFER_LIMIT then (buffered, Err(BufferExceeded))
    else
      match Decode(buffered + chunk)
      case Oversized => (buffered, Err(FrameTooLarge))
      case Decoded(frames, rest) => (rest, Ok(frames))
  }

  class ConsoleFrameDecoder {
    var buffered: seq<Byte>

    constructor ()
      ensures buffered == []
    {
      buffered := [];
    }

    method Push(chunk: seq<Byte>) returns (r: Result<seq<Frame>, DecodeError>)
      modifies this
      ensures (buffered, r) == Pushed(old(buffered), chunk)
    {
      if |buffered| + |chunk| > BUFFER_LIMIT { return Err(BufferExceeded); }
      var decoding := Scan(buffered + chunk);
      if decoding.Oversized? { return Err(FrameTooLarge); }
      buffered := decoding.rest;
      return Ok(decoding.frames);
    }

    /** The loop of a push: move an offset over the combined bytes and collect whole frames. */
    static method Scan(combined: seq<Byte>) returns (d: Decoding)
      ensures d == Decode(combined)
    {
      var frames: seq<Frame> := [];
      var offset := 0;
      while |combined| - offset >= 5
        invariant 0 <= offset <= |combined|
        invariant Sendable(frames, MAX_CONSOLE_PAYLOAD) && combined == EncodeAll(frames) + combined[offset..]
        decreases |combined| - offset
      {
        var next := FrameFrom(combined, offset);
        if next.Err? {
          StopsWithin(frames, combined[offset..]);
          return Oversized;
        }
        if next.value.None? { break; }
        var frame := next.value.value;
        OneMore(combined, frames, frame, combined[offset..], combined[offset + 5 + |frame.payload|..]);
        frames := frames + [frame];
        offset := offset + 5 + |frame.payload|;
      }
      StopsWithin(frames, combined[offset..]);
      return Decoded(frames, combined[offset..]);
    }

    /** One turn of the loop: the frame at the offset, nothing yet, or an oversized length. */
    static method FrameFrom(combined: seq<Byte>, offset: nat) returns (r: Result<Option<Frame>, DecodeError>)
      requires offset + 5 <= |combined|
      ensures r.Err? ==> TooBig(combined[offset..])
      ensures r == Ok(None) ==> Incomplete(combined[offset..])
      ensures r.Ok? && r.value.Some? ==>
        var f := r.value.value;
        && |f.payload| <= MAX_CONSOLE_PAYLOAD && offset + 5 + |f.payload| <= |combined|
        && combined[offset..] == Encode(f) + combined[offset + 5 + |f.payload|..]
    {
      var length := FromBigEndian(combined[offset + 1..offset + 5]);
      assert combined[offset..][1..5] == combined[offset + 1..offset + 5];
      if length > MAX_CONSOLE_PAYLOAD { return Err(FrameTooLarge); }
      if |combined| - offset < 5 + length { return Ok(None); }
      FrameAt(combined, offset, length);
      return Ok(Some(Frame(combined[offset], combined[offset + 5..offset + 5 + length])));
    }
  }

  /** Pushing chunk after chunk: everything handed out so far, or the first error. */
  function Feed(buffered: seq<Byte>, chunks: seq<seq<Byte>>): Result<(seq<Frame>, seq<Byte>), DecodeError> {
    if chunks == [] then Ok(([], buffered))
    else
      match Feed(buffered, chunks[..|chunks| - 1])
      case Err(error) => Err(error)
      case Ok((frames, rest)) =>
        match Pushed(rest, chunks[|chunks| - 1])
        case (_, Err(error)) => Err(error)
        case (rest', Ok(more)) => Ok((frames + more, rest'))
  }

  /** The bridge relays reads of at most this many bytes. */
  const MAX_CONSOLE_WIRE_BYTES: int := MAX_CONSOLE_PAYLOAD + 5

  ghost predicate Relayed(chunks: seq<seq<Byte>>) {
    forall c :: c in chunks ==> |c| <= MAX_CONSOLE_WIRE_BYTES
  }

  /** After any accepted push the buffer holds less than one frame, so no relayed chunk can reach the limit. */
  lemma BufferBoundIsNeverHit(buffered: seq<Byte>, chunk: seq<Byte>, next: seq<Byte>)
    requires Pushed(buffered, chunk).1.Ok? && |next| <= MAX_CONSOLE_WIRE_BYTES
    ensures |Pushed(buffered, chunk).0| <= MAX_CONSOLE_PAYLOAD + 4
    ensures Pushed(Pushed(buffered, chunk).0, next).1 != Err(BufferExceeded)
  {
    RestIsIncomplete(buffered + chunk);
  }

  /** However a byte stream is cut into relayed chunks, the pushes hand out what decoding the whole stream gives. */
  lemma {:induction false} FeedIsDecode(chunks: seq<seq<Byte>>)
    requires Relayed(chunks)
    ensures Feed([], chunks) ==
      match Decode(Flatten(chunks))
      case Oversized => Err(FrameTooLarge)
      case Decoded(frames, rest) => Ok((frames, rest))
  {
    if chunks != [] {
      var n := |chunks| - 1;
      var init, last := chunks[..n], chunks[n];
      assert chunks == init + [last];
      FeedIsDecode(init);
      FlattenSnoc(init, last);
      DecodeAppend(Flatten(init), last);
      if Decode(Flatten(init)).Decoded? { RestIsIncomplete(Flatten(init)); }
    }
  }

  /** Chunk-invariant round trip: every split of the encoded frames is decoded to exactly those frames. */
  lemma ChunkedRoundTrip(frames: seq<Frame>, chunks: seq<seq<Byte>>)
    requires Sendable(frames, MAX_CONSOLE_PAYLOAD) && Relayed(chunks)
    requires Flatten(chunks) == EncodeAll(frames)
    ensures Feed([], chunks) == Ok((frames, []))
  {
    FeedIsDecode(chunks);
    DecodeEncodeAll(frames);
  }
}
