/**
 Byte streams with partial, interrupted and failing I/O, and the loops that read and write console frames on them.
 What a stream will do is a finite script, so an arbitrary script is an arbitrary finite run.
 */
module ConsoleStreams {
  import opened Prelude
  import opened ConsoleFrames

  /** `NoDevice` and `NotConnected` are the raw OS errors 19 and 107. */
  datatype IoError =
    | NotFound | NoDevice | NotConnected | BrokenPipe | ConnectionAborted | ConnectionReset
    | UnexpectedEof | WriteZero | OtherError

  datatype ReadEvent = Ready(first: Byte, more: seq<Byte>) | EndOfStream | WouldBlock | Interrupted | ReadFails(error: IoError)

  datatype WriteEvent = Accepts(count: nat) | WriteInterrupted | WriteFails(error: IoError)

  /** What is left of a read script: strictly less after every read that is not the final end of stream. */
  function Budget(script: seq<ReadEvent>): nat {
    if script == [] then 0
    else 1 + (if script[0].Ready? then 1 + |script[0].more| else 0) + Budget(script[1..])
  }

  datatype ReadOutcome = Data(data: seq<Byte>) | End | Blocked | Retry | Fault(error: IoError)

  datatype WriteOutcome = Wrote(count: nat) | RetryWrite | WriteFault(error: IoError)

  /** The bytes that arrive before the stream ends, blocks or fails; interruptions do not matter. */
  function Arriving(script: seq<ReadEvent>): seq<Byte> {
    if script == [] then []
    else
      match script[0]
      case Ready(first, more) => [first] + more + Arriving(script[1..])
      case Interrupted => Arriving(script[1..])
      case _ => []
  }

  /** What comes after them. */
  function Stop(script: seq<ReadEvent>): ReadOutcome {
    if script == [] then End
    else
      match script[0]
      case Ready(_, _) => Stop(script[1..])
      case Interrupted => Stop(script[1..])
      case EndOfStream => End
      case WouldBlock => Blocked
      case ReadFails(error) => Fault(error)
  }

  /** The read errors still to come. */
  function Faults(script: seq<ReadEvent>): set<IoError> {
    set event | event in script && event.ReadFails? :: event.error
  }

  lemma {:induction false} StopIsAFault(script: seq<ReadEvent>)
    ensures Stop(script).Fault? ==> Stop(script).error in Faults(script)
  {
    if script != [] {
      StopIsAFault(script[1..]);
      assert Faults(script[1..]) <= Faults(script);
      if script[0].ReadFails? { assert script[0] in script; }
    }
  }

  /** The error of a reader that still wanted bytes. */
  function StopError(stop: ReadOutcome): IoError {
    match stop
    case Fault(error) => error
    case End => UnexpectedEof
    case _ => OtherError
  }

  /** Why a writer may give up: the event that refused it, or a script that is used up. */
  predicate Refused(before: seq<WriteEvent>, after: seq<WriteEvent>, error: IoError, partly: bool) {
    || (after == [] && error == BrokenPipe)
    || (|after| < |before| &&
          match before[|before| - |after| - 1]
          case WriteFails(fault) => error == fault
          case Accepts(count) => error == WriteZero && (partly || count == 0)
          case WriteInterrupted => false)
  }

  predicate Later(before: seq<WriteEvent>, after: seq<WriteEvent>) {
    |after| <= |before| && after == before[|before| - |after|..]
  }

  lemma RefusedLater(first: seq<WriteEvent>, before: seq<WriteEvent>, after: seq<WriteEvent>, error: IoError, partly: bool)
    requires Later(first, before) && Later(before, after) && Refused(before, after, error, partly)
    ensures Refused(first, after, error, partly)
  {
  }

  lemma LaterLater(first: seq<WriteEvent>, before: seq<WriteEvent>, after: seq<WriteEvent>)
    requires Later(first, before) && Later(before, after)
    ensures Later(first, after)
  {
  }

  lemma Cut(first: Byte, more: seq<Byte>, max: nat, rest: seq<Byte>)
    requires max <= |more|
    ensures var all := [first] + more;
      [first] + more + rest == all[..max] + ([all[max]] + all[max + 1..] + rest)
  {
    var all := [first] + more;
    assert [all[max]] + all[max + 1..] == all[max..];
    assert all == all[..max] + all[max..];
    Assoc(all[..max], all[max..], rest);
  }

  /** What one read of at most `max` bytes returns, and what it leaves. */
  function ReadStep(script: seq<ReadEvent>, max: nat): (ReadOutcome, seq<ReadEvent>)
    requires max > 0
  {
    if script == [] then (End, [])
    else
      match script[0]
      case Ready(first, more) =>
        var all := [first] + more;
        if |all| <= max then (Data(all), script[1..])
        else (Data(all[..max]), [Ready(all[max], all[max + 1..])] + script[1..])
      case EndOfStream => (End, script[1..])
      case WouldBlock => (Blocked, script[1..])
      case Interrupted => (Retry, script[1..])
      case ReadFails(error) => (Fault(error), script[1..])
  }

  /** Why a stream does not take `n` bytes in the end, however it cuts and interrupts them; or nothing, if it does. */
  function Refusal(script: seq<WriteEvent>, n: nat): Option<IoError> {
    if n == 0 then None
    else if script == [] then Some(BrokenPipe)
    else
      match script[0]
      case Accepts(count) =>
        if count == 0 then Some(WriteZero) else if count >= n then None else Refusal(script[1..], n - count)
      case WriteInterrupted => Refusal(script[1..], n)
      case WriteFails(error) => Some(error)
  }

  /** Whether the first write that gets through takes all `n` bytes at once. */
  predicate TakesWhole(script: seq<WriteEvent>, n: nat) {
    script != [] &&
      match script[0]
      case Accepts(count) => count >= n
      case WriteInterrupted => TakesWhole(script[1..], n)
      case WriteFails(_) => false
  }

  /** What is left of the script once it has taken them. */
  function Remaining(script: seq<WriteEvent>, n: nat): seq<WriteEvent> {
    if n == 0 || script == [] then script
    else
      match script[0]
      case Accepts(count) => if count >= n then script[1..] else Remaining(script[1..], n - count)
      case _ => Remaining(script[1..], n)
  }

  class Stream {
    var inbound: seq<ReadEvent>
    var outbound: seq<WriteEvent>
    var taken: seq<Byte>     // every byte handed to the reader
    var written: seq<Byte>   // every byte accepted from the writer

    constructor (inbound: seq<ReadEvent>, outbound: seq<WriteEvent>)
      ensures this.inbound == inbound && this.outbound == outbound && taken == [] && written == []
    {
      this.inbound, this.outbound, taken, written := inbound, outbound, [], [];
    }

    /** One `read` call: at most `max` bytes of what has arrived. An exhausted script is an end of stream. */
    method Read(max: nat) returns (r: ReadOutcome)
      requires max > 0
      modifies this`inbound, this`taken
      ensures r.Data? ==> 0 < |r.data| <= max && taken == old(taken) + r.data
      ensures !r.Data? ==> taken == old(taken)
      ensures Budget(inbound) <= Budget(old(inbound))
      ensures r.Retry? || r.Data? ==> Budget(inbound) < Budget(old(inbound)) && Stop(inbound) == Stop(old(inbound))
      ensures r.Data? ==> Arriving(old(inbound)) == r.data + Arriving(inbound)
      ensures r.Retry? ==> Arriving(inbound) == Arriving(old(inbound))
      ensures !r.Data? && !r.Retry? ==> Arriving(old(inbound)) == [] && r == Stop(old(inbound))
      ensures Faults(inbound) <= Faults(old(inbound))
      ensures (r, inbound) == ReadStep(old(inbound), max)
    {
      if inbound == [] { return End; }
      var event := inbound[0];
      match event {
        case Ready(first, more) =>
          var all := [first] + more;
          if |all| <= max {
            inbound := inbound[1..];
            r := Data(all);
          } else {
            inbound := [Ready(all[max], all[max + 1..])] + inbound[1..];
            assert inbound[1..] == old(inbound)[1..];
            r := Data(all[..max]);
            Cut(first, more, max, Arriving(inbound[1..]));
          }
          taken := taken + r.data;
        case EndOfStream => inbound := inbound[1..]; r := End;
        case WouldBlock => inbound := inbound[1..]; r := Blocked;
        case Interrupted => inbound := inbound[1..]; r := Retry;
        case ReadFails(error) => inbound := inbound[1..]; r := Fault(error);
      }
    }

    /** One `write` call: accepts a prefix. An exhausted script is a broken pipe. */
    method Write(data: seq<Byte>) returns (r: WriteOutcome)
      modifies this`outbound, this`written
      ensures r.Wrote? ==> r.count <= |data| && written == old(written) + data[..r.count]
      ensures !r.Wrote? ==> written == old(written)
      ensures !r.WriteFault? ==> |outbound| < |old(outbound)|
      ensures Later(old(outbound), outbound)
      ensures r.WriteFault? ==> Refused(old(outbound), outbound, r.error, false)
      ensures r.Wrote? && r.count < |data| ==> old(outbound)[0] == Accepts(r.count) && |outbound| == |old(outbound)| - 1
      ensures |data| > 0 ==>
        match r
        case Wrote(count) =>
          && Refusal(old(outbound), |data|) == (if count == 0 then Some(WriteZero) else Refusal(outbound, |data| - count))
          && (count > 0 ==> Remaining(old(outbound), |data|) == Remaining(outbound, |data| - count))
        case RetryWrite =>
          && Refusal(old(outbound), |data|) == Refusal(outbound, |data|)
          && Remaining(old(outbound), |data|) == Remaining(outbound, |data|)
        case WriteFault(error) => Refusal(old(outbound), |data|) == Some(error)
      ensures
        match r
        case Wrote(count) => TakesWhole(old(outbound), |data|) <==> count == |data|
        case RetryWrite => TakesWhole(old(outbound), |data|) == TakesWhole(outbound, |data|)
        case WriteFault(_) => !TakesWhole(old(outbound), |data|)
    {
      if outbound == [] { return WriteFault(BrokenPipe); }
      var event := outbound[0];
      outbound := outbound[1..];
      match event {
        case Accepts(count) =>
          r := Wrote(if count <= |data| then count else |data|);
          written := written + data[..r.count];
        case WriteInterrupted => r := RetryWrite;
        case WriteFails(error) => r := WriteFault(error);
      }
    }
  }

  /** `write_all_retry`: everything, or an error after some prefix. */
  method WriteAllRetry(s: Stream, data: seq<Byte>) returns (error: Option<IoError>)
    modifies s`outbound, s`written
    ensures error.None? ==> s.written == old(s.written) + data
    ensures old(s.written) <= s.written <= old(s.written) + data
    ensures Later(old(s.outbound), s.outbound)
    ensures error == Refusal(old(s.outbound), |data|)
    ensures error.None? ==> s.outbound == Remaining(old(s.outbound), |data|)
    ensures error.Some? ==> Refused(old(s.outbound), s.outbound, error.value, false)
  {
    var done := 0;
    while done < |data|
      invariant 0 <= done <= |data|
      invariant s.written == old(s.written) + data[..done]
      invariant Later(old(s.outbound), s.outbound)
      invariant Refusal(old(s.outbound), |data|) == Refusal(s.outbound, |data| - done)
      invariant Remaining(old(s.outbound), |data|) == Remaining(s.outbound, |data| - done)
      decreases |s.outbound|
    {
      ghost var before := s.outbound;
      var r := s.Write(data[done..]);
      LaterLater(old(s.outbound), before, s.outbound);
      match r {
        case Wrote(count) =>
          if count == 0 {
            RefusedLater(old(s.outbound), before, s.outbound, WriteZero, false);
            return Some(WriteZero);
          }
          TakeMore(data, done, count);
          done := done + count;
        case RetryWrite =>
        case WriteFault(fault) =>
          RefusedLater(old(s.outbound), before, s.outbound, fault, false);
          return Some(fault);
      }
    }
    return None;
  }

  /** `write_selector`: one write must take the whole selector. */
  method WriteSelector(s: Stream, data: seq<Byte>) returns (error: Option<IoError>)
    modifies s`outbound, s`written
    ensures error.None? ==> s.written == old(s.written) + data
    ensures old(s.written) <= s.written <= old(s.written) + data
    ensures error.Some? ==> Refused(old(s.outbound), s.outbound, error.value, true)
    ensures Later(old(s.outbound), s.outbound)
    ensures error.None? <==> TakesWhole(old(s.outbound), |data|)
  {
    while true
      invariant s.written == old(s.written)
      invariant Later(old(s.outbound), s.outbound)
      invariant TakesWhole(old(s.outbound), |data|) == TakesWhole(s.outbound, |data|)
      decreases |s.outbound|
    {
      ghost var before := s.outbound;
      var r := s.Write(data);
      LaterLater(old(s.outbound), before, s.outbound);
      match r {
        case Wrote(count) =>
          if count == |data| { return None; }
          RefusedLater(old(s.outbound), before, s.outbound, WriteZero, true);
          return Some(WriteZero);
        case RetryWrite =>
        case WriteFault(fault) =>
          RefusedLater(old(s.outbound), before, s.outbound, fault, false);
          return Some(fault);
      }
    }
  }

  /** `read_exact`: what arrives decides alone, not how it is cut or interrupted. */
  method ReadExact(s: Stream, n: nat) returns (data: seq<Byte>, error: Option<IoError>)
    modifies s`inbound, s`taken
    ensures s.taken == old(s.taken) + data
    ensures error == if |Arriving(old(s.inbound))| < n then Some(StopError(Stop(old(s.inbound)))) else None
    ensures error.Some? ==> data == Arriving(old(s.inbound))
    ensures error.None? ==> |data| == n && Arriving(old(s.inbound)) == data + Arriving(s.inbound)
    ensures error.None? ==> Stop(s.inbound) == Stop(old(s.inbound))
    ensures Budget(s.inbound) <= Budget(old(s.inbound))
  {
    data := [];
    while |data| < n
      invariant |data| <= n && s.taken == old(s.taken) + data
      invariant Arriving(old(s.inbound)) == data + Arriving(s.inbound) && Stop(s.inbound) == Stop(old(s.inbound))
      invariant Budget(s.inbound) <= Budget(old(s.inbound))
      decreases Budget(s.inbound)
    {
      var r := s.Read(n - |data|);
      match r {
        case Data(part) =>
          Assoc(data, part, Arriving(s.inbound));
          data := data + part;
        case Retry =>
        case End => return data, Some(UnexpectedEof);
        case Blocked => return data, Some(OtherError);
        case Fault(fault) => return data, Some(fault);
      }
    }
    return data, None;
  }
}
