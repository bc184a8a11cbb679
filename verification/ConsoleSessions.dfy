/** Exclusive console sessions: a lease on the instance, a device that was told the instance, a first close reason. */
module ConsoleSessions {
  import opened Prelude
  import opened ConsoleStreams
  import opened ConsoleLeases

  datatype ConsoleError =
    | InvalidInstance | AlreadyAttached | TooLarge | ResizeUnsupported | SessionClosed(reason: CloseReason)
    | DeviceMissing | DeviceFailed

  function DeviceError(e: IoError): ConsoleError {
    if e in {NotFound, NoDevice} then DeviceMissing else DeviceFailed
  }

  function ReasonFor(e: IoError): CloseReason {
    if e in {BrokenPipe, ConnectionAborted, ConnectionReset, UnexpectedEof, NoDevice, NotConnected} then InstanceStopped
    else if e == NotFound then DeviceUnavailable
    else TransportError
  }

  datatype ConsoleRead = ReadData(data: seq<Byte>) | Pending | ReadClosed(reason: CloseReason) | ReadError(error: ConsoleError)

  /** An open session reports data while some arrives, and otherwise what stopped it. */
  predicate Reports(arriving: seq<Byte>, stop: ReadOutcome, r: ConsoleRead) {
    if arriving != [] then r.ReadData? && r.data <= arriving
    else
      match stop
      case End => r == ReadClosed(DeviceEnded)
      case Blocked => r == Pending
      case Fault(error) => r == ReadError(DeviceError(error))
      case _ => false
  }

  /** Each device error as it is reported, and the reason that it closes a session with. */
  lemma ErrorsMean(e: IoError)
    ensures DeviceError(e) in {DeviceMissing, DeviceFailed}
    ensures DeviceError(e) == DeviceFailed <==>
      e in {NotConnected, BrokenPipe, ConnectionAborted, ConnectionReset, UnexpectedEof, WriteZero, OtherError}
    ensures ReasonFor(e) in {InstanceStopped, DeviceUnavailable, TransportError}
    ensures ReasonFor(e) == TransportError <==> e in {WriteZero, OtherError}
    ensures ReasonFor(e) == DeviceUnavailable <==> e == NotFound
  {
  }

  /** The device itself refused the write, with the error that is reported. */
  ghost predicate WriteRefused(before: seq<WriteEvent>, after: seq<WriteEvent>, error: ConsoleError, partly: bool) {
    exists e: IoError :: error == DeviceError(e) && Refused(before, after, e, partly)
  }

  /** The session and the table now, given whether the session held its lease and who was attached before. */
  ghost predicate Follows(session: ConsoleSession, held: bool, before: set<U32>)
    reads session, session.table
  {
    && (session.holding ==> held)
    && session.table.attached == if held && !session.holding then before - {session.id} else before
  }

  /** The device and the lease are held exactly while no close reason is recorded. */
  class ConsoleSession {
    const device: Stream
    const maxFrame: nat
    const table: LeaseTable
    const id: U32
    var open: bool
    var holding: bool
    var closed: Option<CloseReason>

    ghost predicate Valid()
      reads this
    {
      0 < maxFrame <= U32_MAX && (open <==> closed.None?) && (holding <==> closed.None?)
    }

    /** The session as the model of all runs sees it. */
    ghost function View(): Session
      reads this
    {
      Session(id, false, holding, closed)
    }

    constructor (device: Stream, maxFrame: nat, table: LeaseTable, id: U32)
      requires 0 < maxFrame <= U32_MAX
      ensures Valid() && closed == None
      ensures this.device == device && this.maxFrame == maxFrame && this.table == table && this.id == id
    {
      this.device, this.maxFrame, this.table, this.id := device, maxFrame, table, id;
      open, holding, closed := true, true, None;
    }

    /** The first reason wins; the lease goes back with it. */
    method Close(reason: CloseReason) returns (final: CloseReason)
      requires Valid()
      modifies this, table
      ensures Valid() && closed == Some(final)
      ensures final == old(closed).Or(reason)
      ensures Proxy(table.attached, [View()]) == Next(Proxy(old(table.attached), [old(View())]), Event.Close(0, reason))
    {
      if closed.Some? { return closed.value; }
      open := false;
      if holding { table.Release(id); }
      holding := false;
      closed := Some(reason);
      return reason;
    }

    /** The end of the session's life: a lease still held goes back, one already given back is left alone. */
    method Drop()
      requires Valid()
      modifies this, table
      ensures Proxy(table.attached, [View()]) == Next(Proxy(old(table.attached), [old(View())]), Event.Drop(0))
    {
      open := false;
      if holding { table.Release(id); }
      holding := false;
    }

    method ReadFrame() returns (r: ConsoleRead)
      requires Valid()
      modifies this, table, device`inbound, device`taken
      ensures Valid() && Follows(this, old(holding), old(table.attached))
      ensures r.ReadData? ==> 0 < |r.data| <= maxFrame && device.taken == old(device.taken) + r.data && closed == None
      ensures !r.ReadData? ==> device.taken == old(device.taken)
      ensures r.Pending? ==> closed == None
      ensures r.ReadClosed? ==> r.reason == old(closed).Or(DeviceEnded) && closed == Some(r.reason)
      ensures r.ReadError? ==>
        && old(closed).None? && Stop(old(device.inbound)).Fault?
        && closed == Some(ReasonFor(Stop(old(device.inbound)).error))
      ensures old(closed).Some? ==> r.ReadClosed?
      ensures old(closed).None? ==> Reports(Arriving(old(device.inbound)), Stop(old(device.inbound)), r)
      ensures Faults(device.inbound) <= Faults(old(device.inbound))
    {
      if closed.Some? { return ReadClosed(closed.value); }
      while true
        invariant device.taken == old(device.taken) && Valid() && closed.None? && table.attached == old(table.attached)
        invariant Arriving(device.inbound) == Arriving(old(device.inbound)) && Stop(device.inbound) == Stop(old(device.inbound))
        invariant Faults(device.inbound) <= Faults(old(device.inbound))
        decreases Budget(device.inbound)
      {
        var read := device.Read(maxFrame);
        match read {
          case Data(data) => return ReadData(data);
          case Retry =>
          case Blocked => return Pending;
          case End =>
            var reason := Close(DeviceEnded);
            return ReadClosed(reason);
          case Fault(fault) =>
            var _ := Close(ReasonFor(fault));
            return ReadError(DeviceError(fault));
        }
      }
    }

    method WriteFrame(data: seq<Byte>) returns (error: Option<ConsoleError>)
      requires Valid()
      modifies this, table, device`outbound, device`written
      ensures Valid() && Follows(this, old(holding), old(table.attached))
      ensures old(device.written) <= device.written <= old(device.written) + data
      ensures Later(old(device.outbound), device.outbound)
      ensures error.None? ==> |data| <= maxFrame && device.written == old(device.written) + data && closed == None
      ensures |data| > maxFrame ==> error == Some(TooLarge)
      ensures |data| <= maxFrame && old(closed).Some? ==> error == Some(SessionClosed(old(closed).value))
      ensures |data| > maxFrame || old(closed).Some? ==> device.written == old(device.written) && closed == old(closed)
      ensures |data| <= maxFrame && old(closed).None? ==>
        match Refusal(old(device.outbound), |data|)
        case None => error.None?
        case Some(e) => error == Some(DeviceError(e)) && closed == Some(ReasonFor(e))
      ensures |data| <= maxFrame && old(closed).None? && error.Some? ==>
        WriteRefused(old(device.outbound), device.outbound, error.value, false)
    {
      if |data| > maxFrame { return Some(TooLarge); }
      if closed.Some? { return Some(SessionClosed(closed.value)); }
      var fault := WriteAllRetry(device, data);
      if fault.Some? {
        var _ := Close(ReasonFor(fault.value));
        return Some(DeviceError(fault.value));
      }
      return None;
    }
  }

  // ------------------------------------------------------------------- attaching

  function Decimal(n: nat): seq<Byte> {
    if n < 10 then [48 + n] else Decimal(n / 10) + [48 + n % 10]
  }

  function FromDecimal(digits: seq<Byte>): int {
    if digits == [] then 0 else FromDecimal(digits[..|digits| - 1]) * 10 + (digits[|digits| - 1] as int - 48)
  }

  /** The line that selects an instance on a freshly opened device. */
  function Selector(id: nat): seq<Byte> {
    Decimal(id) + [10]
  }

  /** The selector names one instance: it ends at its only newline and reads back as the number. */
  lemma {:induction false} SelectorNames(id: nat)
    ensures FromDecimal(Selector(id)[..|Selector(id)| - 1]) == id
    ensures forall i :: 0 <= i < |Selector(id)| ==> (Selector(id)[i] == 10 <==> i == |Selector(id)| - 1)
  {
    assert Selector(id)[..|Selector(id)| - 1] == Decimal(id);
    if id >= 10 {
      var n := |Decimal(id / 10)|;
      SelectorNames(id / 10);
      assert Selector(id / 10)[..n] == Decimal(id / 10) && Decimal(id)[..n] == Decimal(id / 10);
      forall i | 0 <= i < n ensures Selector(id)[i] != 10 { assert Selector(id)[i] == Selector(id / 10)[i]; }
    }
  }

  /**
   The lease comes first; a device that cannot be opened or selected gives it back. A proxy only ever has a positive
   frame limit of at most 32 bits.
   */
  method Attach(table: LeaseTable, device: Result<Stream, IoError>, id: U32, maxFrame: nat)
    returns (r: Result<ConsoleSession, ConsoleError>)
    requires 0 < maxFrame <= U32_MAX
    modifies table
    modifies if device.Ok? then {device.value} else {}
    ensures r.Ok? ==>
      && fresh(r.value) && r.value.Valid() && r.value.closed == None && r.value.id == id && r.value.table == table
      && r.value.maxFrame == maxFrame && device == Ok(r.value.device)
      && ValidInstance(id) && id !in old(table.attached) && table.attached == old(table.attached) + {id}
      && device.value.written == old(device.value.written) + Selector(id)
    ensures device.Ok? ==>
      && device.value.taken == old(device.value.taken) && device.value.inbound == old(device.value.inbound)
      && Later(old(device.value.outbound), device.value.outbound)
    ensures r.Ok? <==>
      && ValidInstance(id) && id !in old(table.attached)
      && device.Ok? && TakesWhole(old(device.value.outbound), |Selector(id)|)
    ensures r.Err? ==> table.attached == old(table.attached)
    ensures r.Err? && device.Ok? ==>
      old(device.value.written) <= device.value.written <= old(device.value.written) + Selector(id)
    ensures r.Err? && ValidInstance(id) && id !in old(table.attached) ==>
      if device.Err? then r.error == DeviceError(device.error)
      else WriteRefused(old(device.value.outbound), device.value.outbound, r.error, true)
    ensures r == Err(InvalidInstance) <==> !ValidInstance(id)
    ensures r == Err(AlreadyAttached) <==> ValidInstance(id) && id in old(table.attached)
  {
    if !ValidInstance(id) { return Err(InvalidInstance); }
    var acquired := table.Acquire(id);
    if !acquired { return Err(AlreadyAttached); }
    if device.Err? {
      table.Release(id);
      return Err(DeviceError(device.error));
    }
    var fault := WriteSelector(device.value, Selector(id));
    if fault.Some? {
      table.Release(id);
      return Err(DeviceError(fault.value));
    }
    var session := new ConsoleSession(device.value, maxFrame, table, id);
    return Ok(session);
  }
}
