/** The client's response reader: the framing of section 6.3 of RFC 9112 restricted to a declared content length. */
module HttpResponses {
  import opened Prelude

  datatype Head = Head(status: nat, contentLength: nat)

  datatype Response = Response(status: nat, body: seq<Byte>)

  datatype ClientError =
    | HeadersTooLong | EndedInHeaders | BadHead | BodyTooLong | TrailingBytes | EndedInBody | BadJson | Transport

  /** How a response head is read; `None` rejects it. */
  type HeadParser = seq<Byte> -> Option<Head>

  /** How a response is judged: its head, whether its body is JSON, and the limits. */
  datatype Rules = Rules(parse: HeadParser, json: seq<Byte> -> bool, maxHeader: nat, maxBody: nat)

  /** Everything a connection delivers, and whether it then fails instead of ending. */
  datatype Wire = Wire(bytes: seq<Byte>, fails: bool)

  const TERMINATOR: seq<Byte> := [13, 10, 13, 10]

  predicate EndsAt(bytes: seq<Byte>, p: nat) {
    p + 4 <= |bytes| && bytes[p..p + 4] == TERMINATOR
  }

  /** The first blank line. */
  ghost predicate HeadEnds(bytes: seq<Byte>, p: nat) {
    EndsAt(bytes, p) && forall q: nat :: q < p ==> !EndsAt(bytes, q)
  }

  ghost predicate Endless(bytes: seq<Byte>) {
    forall q: nat :: !EndsAt(bytes, q)
  }

  /** One head within the limit, followed by exactly its declared body, which is JSON, and then the end. */
  ghost predicate Complete(rules: Rules, wire: Wire, response: Response) {
    exists p: nat :: HeadEnds(wire.bytes, p) && CompleteAt(rules, wire, response, p)
  }

  predicate CompleteAt(rules: Rules, wire: Wire, response: Response, p: nat) {
    && !wire.fails && p + 4 <= |wire.bytes| && p + 4 <= rules.maxHeader
    && rules.parse(wire.bytes[..p]).Some?
    && rules.parse(wire.bytes[..p]).value.status == response.status
    && rules.parse(wire.bytes[..p]).value.contentLength == |response.body| <= rules.maxBody
    && wire.bytes[p + 4..] == response.body && rules.json(response.body)
  }

  /** Why what a connection delivers is not one complete response. */
  ghost predicate Faulty(rules: Rules, wire: Wire, e: ClientError) {
    match e
    case EndedInHeaders => Endless(wire.bytes) && |wire.bytes| < rules.maxHeader && !wire.fails
    case HeadersTooLong =>
      || (Endless(wire.bytes) && |wire.bytes| >= rules.maxHeader)
      || exists p: nat :: HeadEnds(wire.bytes, p) && p + 4 > rules.maxHeader
    case Transport =>
      || (Endless(wire.bytes) && |wire.bytes| < rules.maxHeader && wire.fails)
      || exists p: nat :: HeadEnds(wire.bytes, p) && FaultyBody(rules, wire, e, p)
    case _ => exists p: nat :: HeadEnds(wire.bytes, p) && FaultyBody(rules, wire, e, p)
  }

  predicate FaultyBody(rules: Rules, wire: Wire, e: ClientError, p: nat) {
    && p + 4 <= |wire.bytes| && p + 4 <= rules.maxHeader
    && var head := rules.parse(wire.bytes[..p]);
    && (e == BadHead <==> head.None?)
    && (head.Some? ==>
          var length, received := head.value.contentLength, |wire.bytes| - (p + 4);
          match e
          case BodyTooLong => length > rules.maxBody
          case TrailingBytes => length <= rules.maxBody && received > length
          case EndedInBody => length <= rules.maxBody && received < length && !wire.fails
          case Transport => length <= rules.maxBody && received <= length && wire.fails
          case BadJson => length <= rules.maxBody && received == length && !wire.fails && !rules.json(wire.bytes[p + 4..])
          case _ => false)
  }

  /** A result that fits what a connection delivers. */
  ghost predicate Fits(rules: Rules, wire: Wire, r: Result<Response, ClientError>) {
    if r.Ok? then Complete(rules, wire, r.value) else Faulty(rules, wire, r.error)
  }

  /** A connection: a fixed byte string handed out in reads of arbitrary nonzero size, and then its end or its failure. */
  class Connection {
    const data: seq<Byte>
    const fails: bool
    var position: nat

    ghost predicate Valid()
      reads this
    {
      position <= |data|
    }

    constructor (data: seq<Byte>, fails: bool)
      ensures Valid() && position == 0 && this.data == data && this.fails == fails
    {
      this.data, this.fails, position := data, fails, 0;
    }

    /** At most `max` bytes; none only once everything was delivered. How many is up to the transport. */
    method Read(max: nat) returns (chunk: seq<Byte>, failed: bool)
      requires Valid() && max > 0
      modifies this
      ensures Valid() && old(position) <= position && chunk == data[old(position)..position]
      ensures |chunk| <= max && (chunk == [] <==> old(position) == |data|)
      ensures failed <==> chunk == [] && fails
    {
      if position == |data| { return [], fails; }
      var count :| 1 <= count <= max && count <= |data| - position;
      chunk, failed := data[position..position + count], false;
      position := position + count;
    }
  }

  lemma UniqueEnd(bytes: seq<Byte>, p: nat, q: nat)
    requires HeadEnds(bytes, p) && HeadEnds(bytes, q)
    ensures p == q
  {
  }

  lemma PrefixEnds(bytes: seq<Byte>, n: nat, q: nat)
    requires n <= |bytes|
    ensures EndsAt(bytes[..n], q) <==> EndsAt(bytes, q) && q + 4 <= n
  {
    if q + 4 <= n { assert bytes[..n][q..q + 4] == bytes[q..q + 4]; }
  }

  /** The head found in what has arrived so far is the head of the whole stream. */
  lemma PrefixHead(bytes: seq<Byte>, n: nat, p: nat)
    requires n <= |bytes| && HeadEnds(bytes[..n], p)
    ensures HeadEnds(bytes, p) && p + 4 <= n
  {
    PrefixEnds(bytes, n, p);
    forall q: nat | q < p ensures !EndsAt(bytes, q) {
      PrefixEnds(bytes, n, q);
    }
  }

  /** No blank line yet in `n` bytes means that the head cannot end within them. */
  lemma PrefixEndless(bytes: seq<Byte>, n: nat)
    requires n <= |bytes| && Endless(bytes[..n])
    ensures forall q: nat :: EndsAt(bytes, q) ==> q + 4 > n
  {
    forall q: nat | EndsAt(bytes, q) ensures q + 4 > n {
      PrefixEnds(bytes, n, q);
    }
  }

  lemma {:induction false} FirstEnd(bytes: seq<Byte>, k: nat) returns (p: nat)
    requires EndsAt(bytes, k)
    ensures p <= k && HeadEnds(bytes, p)
  {
    if q: nat :| q < k && EndsAt(bytes, q) { p := FirstEnd(bytes, q); } else { p := k; }
  }

  method FindTerminator(received: seq<Byte>) returns (position: Option<nat>)
    ensures position.Some? ==> HeadEnds(received, position.value)
    ensures position.None? ==> Endless(received)
  {
    var p := 0;
    while p + 4 <= |received|
      invariant forall q: nat :: q < p ==> !EndsAt(received, q)
    {
      if received[p..p + 4] == TERMINATOR { return Some(p); }
      p := p + 1;
    }
    return None;
  }

  /** Reads until the head has arrived or cannot arrive any more. */
  method ReadHead(stream: Connection, maxHeader: nat)
    returns (received: seq<Byte>, position: Option<nat>, error: Option<ClientError>)
    requires stream.Valid() && stream.position == 0
    modifies stream
    ensures stream.Valid() && received == stream.data[..stream.position]
    ensures position.Some? <==> error.None?
    ensures position.Some? ==> HeadEnds(stream.data, position.value) && position.value + 4 <= |received|
    ensures error.Some? ==> NoHead(stream.data, stream.fails, maxHeader, error.value)
  {
    received := [];
    while true
      invariant stream.Valid() && received == stream.data[..stream.position]
      decreases |stream.data| - stream.position
    {
      position := FindTerminator(received);
      if position.Some? {
        PrefixHead(stream.data, stream.position, position.value);
        return received, position, None;
      }
      PrefixEndless(stream.data, stream.position);
      if |received| >= maxHeader { return received, None, Some(HeadersTooLong); }
      var chunk, failed := stream.Read(4096);
      if chunk == [] {
        assert stream.data[..stream.position] == stream.data;
        return received, None, Some(if failed then Transport else EndedInHeaders);
      }
      received := received + chunk;
    }
  }

  /** Why no head could be read. */
  ghost predicate NoHead(bytes: seq<Byte>, fails: bool, maxHeader: nat, e: ClientError) {
    if e == HeadersTooLong then maxHeader <= |bytes| && forall q: nat :: EndsAt(bytes, q) ==> q + 4 > maxHeader
    else Endless(bytes) && |bytes| < maxHeader && e == if fails then Transport else EndedInHeaders
  }

  /** `read_exact` on the connection: as many bytes as asked for, or all there are. */
  method ReadExact(stream: Connection, n: nat) returns (data: seq<Byte>, failed: bool)
    requires stream.Valid()
    modifies stream
    ensures stream.Valid() && old(stream.position) <= stream.position
    ensures data == stream.data[old(stream.position)..stream.position]
    ensures |data| <= n && (|data| < n ==> stream.position == |stream.data|)
    ensures failed <==> |data| < n && stream.fails
  {
    data, failed := [], false;
    while |data| < n
      invariant stream.Valid() && old(stream.position) <= stream.position && !failed
      invariant data == stream.data[old(stream.position)..stream.position] && |data| <= n
      decreases |stream.data| - stream.position
    {
      var chunk;
      chunk, failed := stream.Read(n - |data|);
      if chunk == [] { return; }
      data := data + chunk;
    }
  }

  /** Reads one response; the outcome depends on what the connection delivers alone, not on how it arrives. */
  method ReadResponse(stream: Connection, rules: Rules) returns (r: Result<Response, ClientError>)
    requires stream.Valid() && stream.position == 0
    modifies stream
    ensures Fits(rules, Wire(stream.data, stream.fails), r)
  {
    var received, position, error := ReadHead(stream, rules.maxHeader);
    if error.Some? {
      HeadError(rules, Wire(stream.data, stream.fails), error.value);
      return Err(error.value);
    }
    var p := position.value;
    if p + 4 > rules.maxHeader { return Err(HeadersTooLong); }
    assert received[..p] == stream.data[..p];
    var head := rules.parse(received[..p]);
    if head.None? {
      Blame(rules, Wire(stream.data, stream.fails), BadHead, p);
      return Err(BadHead);
    }
    var length := head.value.contentLength;
    if length > rules.maxBody {
      Blame(rules, Wire(stream.data, stream.fails), BodyTooLong, p);
      return Err(BodyTooLong);
    }
    r := ReadBody(stream, rules, p, head.value, received[p + 4..]);
  }

  /** The body after its head, of which `start` has arrived already. */
  method ReadBody(stream: Connection, rules: Rules, p: nat, head: Head, start: seq<Byte>)
    returns (r: Result<Response, ClientError>)
    requires stream.Valid() && HeadEnds(stream.data, p) && p + 4 <= stream.position && p + 4 <= rules.maxHeader
    requires rules.parse(stream.data[..p]) == Some(head) && head.contentLength <= rules.maxBody
    requires start == stream.data[p + 4..stream.position]
    modifies stream
    ensures Fits(rules, Wire(stream.data, stream.fails), r)
  {
    ghost var wire := Wire(stream.data, stream.fails);
    var length := head.contentLength;
    if |start| > length {
      Blame(rules, wire, TrailingBytes, p);
      return Err(TrailingBytes);
    }
    var rest, failed := ReadExact(stream, length - |start|);
    var body := start + rest;
    assert body == stream.data[p + 4..stream.position];
    if |body| < length {
      Blame(rules, wire, if failed then Transport else EndedInBody, p);
      return Err(if failed then Transport else EndedInBody);
    }
    var extra;
    extra, failed := stream.Read(1);
    if extra != [] {
      Blame(rules, wire, TrailingBytes, p);
      return Err(TrailingBytes);
    }
    assert stream.data[p + 4..] == body;
    if failed {
      Blame(rules, wire, Transport, p);
      return Err(Transport);
    }
    if !rules.json(body) {
      Blame(rules, wire, BadJson, p);
      return Err(BadJson);
    }
    assert CompleteAt(rules, wire, Response(head.status, body), p);
    return Ok(Response(head.status, body));
  }

  lemma Blame(rules: Rules, wire: Wire, e: ClientError, p: nat)
    requires HeadEnds(wire.bytes, p) && FaultyBody(rules, wire, e, p)
    ensures Faulty(rules, wire, e)
  {
  }

  lemma HeadError(rules: Rules, wire: Wire, e: ClientError)
    requires NoHead(wire.bytes, wire.fails, rules.maxHeader, e)
    ensures Faulty(rules, wire, e)
  {
    if q: nat :| EndsAt(wire.bytes, q) { var p := FirstEnd(wire.bytes, q); }
  }

  /** Acceptance and the accepted response are determined by what was delivered: no two outcomes fit the same wire. */
  lemma OutcomeIsDetermined(rules: Rules, wire: Wire, a: Result<Response, ClientError>, b: Result<Response, ClientError>)
    requires Fits(rules, wire, a) && Fits(rules, wire, b)
    ensures a == b
  {
    if p: nat :| EndsAt(wire.bytes, p) {
      var q := FirstEnd(wire.bytes, p);
      forall x: nat | HeadEnds(wire.bytes, x) ensures x == q { UniqueEnd(wire.bytes, x, q); }
      Pinned(rules, wire, a, q);
      Pinned(rules, wire, b, q);
    }
  }

  lemma Pinned(rules: Rules, wire: Wire, a: Result<Response, ClientError>, q: nat)
    requires Fits(rules, wire, a) && HeadEnds(wire.bytes, q)
    ensures q + 4 > rules.maxHeader <==> a == Err(HeadersTooLong)
    ensures q + 4 <= rules.maxHeader ==>
      if a.Ok? then CompleteAt(rules, wire, a.value, q) else FaultyBody(rules, wire, a.error, q)
  {
    forall x: nat | HeadEnds(wire.bytes, x) ensures x == q { UniqueEnd(wire.bytes, x, q); }
  }
}
