/** Exclusive console attachment: at most one session per instance holds the lease, whatever order things end in. */
module ConsoleLeases {
  import opened Prelude

  const MAX_INSTANCE_ID: int := 511

  datatype CloseReason = ClientDetached | DeviceEnded | InstanceStopped | DeviceUnavailable | TransportError

  predicate ValidInstance(id: U32) {
    1 <= id <= MAX_INSTANCE_ID
  }

  // ---------------------------------------------------------------- the objects

  /** The set of attached instances, shared by the proxy and every lease. */
  class LeaseTable {
    var attached: set<U32>

    constructor ()
      ensures attached == {}
    {
      attached := {};
    }

    method Acquire(id: U32) returns (acquired: bool)
      modifies this
      ensures acquired <==> id !in old(attached)
      ensures attached == old(attached) + {id}
    {
      acquired := id !in attached;
      attached := attached + {id};
    }

    method Release(id: U32)
      modifies this
      ensures attached == old(attached) - {id}
    {
      attached := attached - {id};
    }
  }

  // ------------------------------------------------------------------- all runs

  /** A session as the proxy's threads see it; `opening` until the device is open and selected. */
  datatype Session = Session(id: U32, opening: bool, holding: bool, closed: Option<CloseReason>)

  datatype Proxy = Proxy(attached: set<U32>, sessions: seq<Session>)

  /** Threads interleave between taking the lease and finishing the attachment. */
  datatype Event =
    | Acquire(id: U32)
    | Established(k: nat)
    | AttachFails(k: nat)
    | Close(k: nat, reason: CloseReason)
    | Drop(k: nat)

  /** Gives the lease back if the session still holds it. */
  function Released(p: Proxy, k: nat, s: Session): Proxy
    requires k < |p.sessions|
  {
    Proxy(if p.sessions[k].holding then p.attached - {s.id} else p.attached, p.sessions[k := s.(holding := false)])
  }

  function Next(p: Proxy, e: Event): Proxy {
    match e
    case Acquire(id) =>
      if !ValidInstance(id) || id in p.attached then p
      else Proxy(p.attached + {id}, p.sessions + [Session(id, true, true, None)])
    case Established(k) =>
      if k < |p.sessions| && p.sessions[k].opening
      then p.(sessions := p.sessions[k := p.sessions[k].(opening := false)]) else p
    case AttachFails(k) =>
      if k < |p.sessions| && p.sessions[k].opening then Released(p, k, p.sessions[k].(opening := false)) else p
    case Close(k, reason) =>
      if k < |p.sessions| && !p.sessions[k].opening && p.sessions[k].closed.None?
      then Released(p, k, p.sessions[k].(closed := Some(reason))) else p
    case Drop(k) =>
      if k < |p.sessions| && !p.sessions[k].opening then Released(p, k, p.sessions[k]) else p
  }

  function After(events: seq<Event>): Proxy {
    if events == [] then Proxy({}, []) else Next(After(events[..|events| - 1]), events[|events| - 1])
  }

  ghost predicate Attached(p: Proxy, id: U32) {
    id in p.attached <==> exists k :: 0 <= k < |p.sessions| && Holds(p, k, id)
  }

  predicate Holds(p: Proxy, k: nat, id: U32) {
    k < |p.sessions| && p.sessions[k].holding && p.sessions[k].id == id
  }

  ghost predicate HoldsAlone(p: Proxy, i: nat, j: nat, id: U32) {
    Holds(p, i, id) && Holds(p, j, id) ==> i == j
  }

  /** The attached set is the set of leases held, no instance has two, and a closed session holds none. */
  ghost predicate Exclusive(p: Proxy) {
    && (forall id: U32 {:trigger Attached(p, id)} :: Attached(p, id))
    && (forall i: nat, j: nat, id: U32 {:trigger HoldsAlone(p, i, j, id)} :: HoldsAlone(p, i, j, id))
    && (forall k :: 0 <= k < |p.sessions| ==> (p.sessions[k].closed.Some? ==> !p.sessions[k].holding))
  }

  lemma ReleaseKeeps(p: Proxy, k: nat, s: Session)
    requires Exclusive(p) && k < |p.sessions| && s.id == p.sessions[k].id
    ensures Exclusive(Released(p, k, s))
  {
    var q := Released(p, k, s);
    forall j: nat, id: U32 ensures Holds(q, j, id) <==> Holds(p, j, id) && j != k {
    }
    forall id: U32 ensures Attached(q, id) {
      assert Attached(p, id);
      if p.sessions[k].holding && id == s.id {
        forall j | 0 <= j < |q.sessions| ensures !Holds(q, j, id) {
          assert Holds(p, k, id) && HoldsAlone(p, j, k, id);
        }
      } else if id in q.attached {
        var j :| 0 <= j < |p.sessions| && Holds(p, j, id);
        assert Holds(q, j, id);
      }
    }
    forall i: nat, j: nat, id: U32 ensures HoldsAlone(q, i, j, id) {
      assert HoldsAlone(p, i, j, id);
    }
  }

  lemma AcquireKeeps(p: Proxy, id: U32)
    requires Exclusive(p)
    ensures Exclusive(Next(p, Acquire(id)))
  {
    var q := Next(p, Acquire(id));
    if q != p {
      var n := |p.sessions|;
      forall j: nat, x: U32 ensures Holds(q, j, x) <==> Holds(p, j, x) || (j == n && x == id) {
      }
      forall x: U32 ensures Attached(q, x) {
        assert Attached(p, x);
        if x == id { assert Holds(q, n, x); }
        if x in p.attached {
          var j :| 0 <= j < |p.sessions| && Holds(p, j, x);
          assert Holds(q, j, x);
        }
      }
      forall i: nat, j: nat, x: U32 ensures HoldsAlone(q, i, j, x) {
        assert HoldsAlone(p, i, j, x) && Attached(p, id);
      }
    }
  }

  lemma EstablishedKeeps(p: Proxy, k: nat)
    requires Exclusive(p)
    ensures Exclusive(Next(p, Established(k)))
  {
    var q := Next(p, Established(k));
    forall j: nat, x: U32 ensures Holds(q, j, x) <==> Holds(p, j, x) {
    }
    forall x: U32 ensures Attached(q, x) {
      assert Attached(p, x);
      if x in p.attached {
        var j :| 0 <= j < |p.sessions| && Holds(p, j, x);
        assert Holds(q, j, x);
      }
    }
    forall i: nat, j: nat, x: U32 ensures HoldsAlone(q, i, j, x) {
      assert HoldsAlone(p, i, j, x);
    }
  }

  lemma NextKeeps(p: Proxy, e: Event)
    requires Exclusive(p)
    ensures Exclusive(Next(p, e))
  {
    match e {
      case Acquire(id) => AcquireKeeps(p, id);
      case Established(k) => EstablishedKeeps(p, k);
      case AttachFails(k) =>
        if k < |p.sessions| && p.sessions[k].opening { ReleaseKeeps(p, k, p.sessions[k].(opening := false)); }
      case Close(k, reason) =>
        if k < |p.sessions| && !p.sessions[k].opening && p.sessions[k].closed.None? {
          ReleaseKeeps(p, k, p.sessions[k].(closed := Some(reason)));
        }
      case Drop(k) =>
        if k < |p.sessions| && !p.sessions[k].opening { ReleaseKeeps(p, k, p.sessions[k]); }
    }
  }

  /** The lease is exclusive in every reachable state. */
  lemma {:induction false} RunsAreExclusive(events: seq<Event>)
    ensures Exclusive(After(events))
  {
    if events != [] {
      RunsAreExclusive(events[..|events| - 1]);
      NextKeeps(After(events[..|events| - 1]), events[|events| - 1]);
    }
  }

  lemma AfterSnoc(events: seq<Event>, e: Event)
    ensures After(events + [e]) == Next(After(events), e)
  {
    assert (events + [e])[..|events|] == events;
  }

  /** Over every run an attempt gets a lease, and a session of its own, exactly when the instance is valid and nobody holds it. */
  lemma AcquiredIff(events: seq<Event>, id: U32)
    ensures var p, q := After(events), After(events + [Acquire(id)]);
      if 1 <= id <= 511 && forall k :: !Holds(p, k, id)
      then q.sessions == p.sessions + [Session(id, true, true, None)] && id in q.attached
      else q == p
  {
    AfterSnoc(events, Acquire(id));
    RunsAreExclusive(events);
    assert Attached(After(events), id);
  }

  /** The event ends a session: its attachment fails, or it is closed or dropped once it is established. */
  predicate EndsSession(s: Session, k: nat, e: Event) {
    || (e == AttachFails(k) && s.opening)
    || (e.Close? && e.k == k && !s.opening && s.closed.None?)
    || (e == Drop(k) && !s.opening)
  }

  /** However a session ends, its lease is free again, and a closed session keeps the reason. */
  lemma LeaseGoesBack(events: seq<Event>, k: nat, e: Event)
    requires k < |After(events).sessions| && After(events).sessions[k].holding && EndsSession(After(events).sessions[k], k, e)
    ensures var q := After(events + [e]);
      && k < |q.sessions| && !q.sessions[k].holding && (forall j :: !Holds(q, j, After(events).sessions[k].id))
      && (e.Close? ==> q.sessions[k].closed == Some(e.reason))
  {
    var p, id := After(events), After(events).sessions[k].id;
    AfterSnoc(events, e);
    RunsAreExclusive(events);
    RunsAreExclusive(events + [e]);
    assert Holds(p, k, id);
    forall j: nat ensures !Holds(After(events + [e]), j, id) {
      assert HoldsAlone(p, j, k, id);
    }
  }

  lemma EventKeepsReason(p: Proxy, e: Event, k: nat)
    requires k < |p.sessions|
    ensures k < |Next(p, e).sessions|
    ensures p.sessions[k].closed.Some? ==> Next(p, e).sessions[k].closed == p.sessions[k].closed
    ensures Next(p, e).sessions[k].holding ==> p.sessions[k].holding
    ensures Next(p, e).sessions[k].id == p.sessions[k].id
  {
  }

  /** Whatever happens later, a session keeps its instance and its first close reason, and no lease comes back to it. */
  lemma {:induction false} FirstReasonKept(events: seq<Event>, more: seq<Event>, k: nat)
    requires k < |After(events).sessions|
    ensures k < |After(events + more).sessions|
    ensures var before, after := After(events).sessions[k], After(events + more).sessions[k];
      && after.id == before.id
      && (before.closed.Some? ==> after.closed == before.closed && !after.holding)
      && (after.holding ==> before.holding)
  {
    RunsAreExclusive(events);
    if more == [] {
      assert events + more == events;
    } else {
      var n := |more| - 1;
      FirstReasonKept(events, more[..n], k);
      assert (events + more)[..|events + more| - 1] == events + more[..n];
      EventKeepsReason(After(events + more[..n]), more[n], k);
    }
  }

  /** Dropping a closed session, in any reachable state, leaves every lease alone: a successor's included. */
  lemma DropAfterCloseIsHarmless(events: seq<Event>, k: nat)
    requires k < |After(events).sessions| && After(events).sessions[k].closed.Some?
    ensures After(events + [Drop(k)]).attached == After(events).attached
    ensures forall j: nat, id: U32 :: Holds(After(events + [Drop(k)]), j, id) <==> Holds(After(events), j, id)
  {
    RunsAreExclusive(events);
    assert (events + [Drop(k)])[..|events|] == events;
  }

  /** What one session does to the proxy depends on that session alone, and touches no other session. */
  lemma EventsAreLocal(p: Proxy, k: nat, reason: CloseReason)
    requires k < |p.sessions|
    ensures var alone := Proxy(p.attached, [p.sessions[k]]);
      && Embedded(Next(p, Close(k, reason)), p, k, Next(alone, Close(0, reason)))
      && Embedded(Next(p, Drop(k)), p, k, Next(alone, Drop(0)))
      && Embedded(Next(p, AttachFails(k)), p, k, Next(alone, AttachFails(0)))
  {
  }

  predicate Embedded(q: Proxy, p: Proxy, k: nat, alone: Proxy)
    requires k < |p.sessions|
  {
    |alone.sessions| == 1 && q == Proxy(alone.attached, p.sessions[k := alone.sessions[0]])
  }
}
