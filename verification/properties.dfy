/** Properties of the pool that relate several calls: idempotence of
    reconciliation, peek/take agreement, FIFO hand-out, and the invariant
    of every allocator reachable from a fresh one. */
module PoolProperties {
  import opened Wrappers
  import opened Servers
  import opened Sessions
  import opened PortAllocator

  /** One call a client can make on the allocator. */
  datatype Call =
    | SetConfigurationCall(stun: ServerAddresses, turn: RelayServers, size: int)
    | TakePooledSessionCall(contentName: string, component: int, iceUfrag: string, icePwd: string)

  /** The allocator after a fresh one has served `calls`, in order. */
  function Run(calls: seq<Call>): Allocator
  {
    if |calls| == 0 then Init() else Step(Run(calls[..|calls| - 1]), calls[|calls| - 1])
  }

  function Step(a: Allocator, c: Call): Allocator
  {
    match c
    case SetConfigurationCall(stun, turn, size) => SetConfiguration(a, stun, turn, size)
    case TakePooledSessionCall(name, component, ufrag, pwd) =>
      TakePooledSession(a, name, component, ufrag, pwd).allocator
  }

  /** Every allocator a client can reach keeps the pool invariant: pooled
      sessions are unclaimed, configured once, bound to the current servers
      and queued in creation order, and the count sits at the target unless
      a shrink was blocked by sessions already taken. */
  lemma {:induction false} ReachableIsValid(calls: seq<Call>)
    ensures Valid(Run(calls))
  {
    if |calls| > 0 {
      ReachableIsValid(calls[..|calls| - 1]);
    }
  }

  /** Repeating a configuration call with the same arguments changes
      nothing. */
  lemma SetConfigurationIdempotent(a: Allocator, stun: ServerAddresses, turn: RelayServers, size: int)
    ensures var r := SetConfiguration(a, stun, turn, size);
            SetConfiguration(r, stun, turn, size) == r
  {
  }

  /** With the servers held fixed, a size-only call creates sessions exactly
      when the new target exceeds the count, appending them behind the
      sessions already pooled; otherwise it only destroys pooled sessions,
      never creating one. */
  lemma SizeOnlyChange(a: Allocator, size: int)
    ensures var r := SetConfiguration(a, a.stunServers, a.turnServers, size);
            && (r.allocatedPooledSessionCount > a.allocatedPooledSessionCount <==>
                ClampPoolSize(size) > a.allocatedPooledSessionCount)
            && (ClampPoolSize(size) > a.allocatedPooledSessionCount ==>
                  && r.allocatedPooledSessionCount == ClampPoolSize(size)
                  && a.pooledSessions <= r.pooledSessions)
            && (ClampPoolSize(size) <= a.allocatedPooledSessionCount ==>
                  && r.nextSessionId == a.nextSessionId
                  && multiset(r.pooledSessions) <= multiset(a.pooledSessions))
  {
    var r := SetConfiguration(a, a.stunServers, a.turnServers, size);
    if ClampPoolSize(size) <= a.allocatedPooledSessionCount {
      var k := |r.pooledSessions|;
      assert r.pooledSessions == a.pooledSessions[..k];
      assert a.pooledSessions == a.pooledSessions[..k] + a.pooledSessions[k..];
    }
  }

  /** The session a peek shows is the session the next take hands out,
      now carrying the ICE parameters; an empty peek means an empty take. */
  lemma PeekMatchesTake(a: Allocator, contentName: string, component: int, iceUfrag: string, icePwd: string)
    ensures var t := TakePooledSession(a, contentName, component, iceUfrag, icePwd);
            match GetPooledSession(a)
            case None => t.session.None?
            case Some(s) =>
              && t.session.Some?
              && t.session.value.id == s.id
              && t.session.value == SetIceParameters(s, IceParameters(contentName, component, iceUfrag, icePwd))
  {
  }

  /** Take hands out sessions in the order they were created. */
  lemma TakeInCreationOrder(a: Allocator, p: IceParameters, q: IceParameters)
    requires Valid(a)
    ensures var t1 := TakePooledSession(a, p.contentName, p.component, p.iceUfrag, p.icePwd);
            var t2 := TakePooledSession(t1.allocator, q.contentName, q.component, q.iceUfrag, q.icePwd);
            t1.session.Some? && t2.session.Some? ==> t1.session.value.id < t2.session.value.id
  {
  }

  /** A pooled session has seen no transport-info update; the one a take
      hands out has seen exactly one, carries the four given fields, and is
      still bound to the allocator's servers and configured once. */
  lemma TakeUpdatesIceParameters(a: Allocator, contentName: string, component: int, iceUfrag: string, icePwd: string)
    requires Valid(a)
    requires |a.pooledSessions| > 0
    ensures GetPooledSession(a).Some? && GetPooledSession(a).value.transportInfoUpdateCount == 0
    ensures var t := TakePooledSession(a, contentName, component, iceUfrag, icePwd);
            && t.session.Some?
            && t.session.value.transportInfoUpdateCount == 1
            && t.session.value.ice == Some(IceParameters(contentName, component, iceUfrag, icePwd))
            && t.session.value.portConfigCount == 1
            && t.session.value.stunServers == a.stunServers
            && t.session.value.turnServers == a.turnServers
  {
  }
}
