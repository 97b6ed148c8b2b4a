/** The candidate-session pool of the port allocator as a sequential state
    machine: `SetConfiguration` reconciles the pool with the requested
    servers and size, `GetPooledSession` peeks at the next session and
    `TakePooledSession` hands it out. */
module PortAllocator {
  import opened Wrappers
  import opened Servers
  import opened Sessions

  /** `allocatedPooledSessionCount` counts every session created under the
      current servers, whether still pooled or already taken; the pool is a
      FIFO queue, oldest at index 0. `nextSessionId` is the source of fresh
      session identities. */
  datatype Allocator = Allocator(
    stunServers: ServerAddresses,
    turnServers: RelayServers,
    candidatePoolSize: nat,
    pooledSessions: seq<Session>,
    allocatedPooledSessionCount: nat,
    nextSessionId: nat)

  function Max(x: int, y: int): int { if x < y then y else x }

  function Min(x: int, y: int): int { if x < y then x else y }

  /** A negative requested pool size is taken as zero. */
  function ClampPoolSize(size: int): (n: nat)
    ensures n >= size && (size >= 0 ==> n == size)
    ensures n > 0 ==> n == size
  {
    if size < 0 then 0 else size
  }

  /** Sessions created under the current servers that have been taken out
      of the pool. */
  function Claimed(a: Allocator): int
  {
    a.allocatedPooledSessionCount - |a.pooledSessions|
  }

  /** The invariant every reachable allocator keeps. */
  predicate Valid(a: Allocator)
  {
    // the pool never holds more than was created, and taken sessions
    // remain counted
    && |a.pooledSessions| <= a.allocatedPooledSessionCount
    // the count never stays below the target
    && a.candidatePoolSize <= a.allocatedPooledSessionCount
    // the count exceeds the target only when a shrink ran out of pooled
    // sessions to destroy
    && (|a.pooledSessions| > 0 ==> a.allocatedPooledSessionCount == a.candidatePoolSize)
    // pooled sessions are unclaimed, started once, and bound to the
    // current servers
    && (forall i :: 0 <= i < |a.pooledSessions| ==>
          Pristine(a.pooledSessions[i], a.stunServers, a.turnServers)
          && a.pooledSessions[i].id < a.nextSessionId)
    // FIFO: the queue is in creation order
    && (forall i, j :: 0 <= i < j < |a.pooledSessions| ==>
          a.pooledSessions[i].id < a.pooledSessions[j].id)
  }

  /** A freshly constructed allocator. */
  function Init(): (a: Allocator)
    ensures Valid(a)
    ensures |a.stunServers| == 0 && |a.turnServers| == 0
    ensures a.candidatePoolSize == 0 && a.pooledSessions == []
  {
    Allocator({}, [], 0, [], 0, 0)
  }

  /** `n` started sessions bound to the given servers, with consecutive
      fresh ids from `firstId`. */
  function NewSessions(stun: ServerAddresses, turn: RelayServers, firstId: nat, n: nat): (ss: seq<Session>)
    ensures |ss| == n
    ensures forall i :: 0 <= i < n ==> ss[i].id == firstId + i && Pristine(ss[i], stun, turn)
  {
    if n == 0 then []
    else NewSessions(stun, turn, firstId, n - 1) + [NewPooledSession(firstId + n - 1, stun, turn)]
  }

  /** Stores the servers and the (clamped) pool size, then reconciles the
      pool: a server change discards every pooled session and restarts the
      count; the pool then grows with new sessions bound to the servers
      until the count reaches the target, or loses pooled sessions (newest
      first) while the count is above it. Taken sessions are never recalled,
      so the count may stay above the target. */
  function SetConfiguration(a: Allocator, stun: ServerAddresses, turn: RelayServers, size: int): (r: Allocator)
    ensures r.stunServers == stun && r.turnServers == turn
    ensures r.candidatePoolSize == ClampPoolSize(size)
    ensures r.nextSessionId >= a.nextSessionId
    // a server change leaves no old session in the pool
    ensures ServersChanged(a.stunServers, a.turnServers, stun, turn) ==>
              forall i :: 0 <= i < |r.pooledSessions| ==> r.pooledSessions[i].id >= a.nextSessionId
    // otherwise every pooled session was already pooled or is new
    ensures !ServersChanged(a.stunServers, a.turnServers, stun, turn) ==>
              forall i :: 0 <= i < |r.pooledSessions| ==>
                r.pooledSessions[i] in a.pooledSessions || r.pooledSessions[i].id >= a.nextSessionId
    ensures Valid(a) ==> Valid(r)
    // taken sessions keep counting toward the target
    ensures Valid(a) ==>
              Claimed(r) == (if ServersChanged(a.stunServers, a.turnServers, stun, turn) then 0 else Claimed(a))
    ensures Valid(a) ==> |r.pooledSessions| == Max(0, r.candidatePoolSize - Claimed(r))
  {
    var target := ClampPoolSize(size);
    var changed := ServersChanged(a.stunServers, a.turnServers, stun, turn);
    var pooled := if changed then [] else a.pooledSessions;
    var count := if changed then 0 else a.allocatedPooledSessionCount;
    if count < target then
      var added := NewSessions(stun, turn, a.nextSessionId, target - count);
      Allocator(stun, turn, target, pooled + added, target, a.nextSessionId + (target - count))
    else
      var removable := Min(count - target, |pooled|);
      Allocator(stun, turn, target, pooled[..|pooled| - removable], count - removable, a.nextSessionId)
  }

  /** The next session a take would hand out, if any; nothing changes. */
  function GetPooledSession(a: Allocator): (s: Option<Session>)
    ensures s.None? <==> |a.pooledSessions| == 0
    ensures s.Some? ==> s.value in a.pooledSessions
    ensures Valid(a) && s.Some? ==>
              forall i :: 0 <= i < |a.pooledSessions| ==> s.value.id <= a.pooledSessions[i].id
  {
    if |a.pooledSessions| == 0 then None else Some(a.pooledSessions[0])
  }

  /** The allocator after a take, and the session handed to the caller. */
  datatype TakeResult = TakeResult(allocator: Allocator, session: Option<Session>)

  /** Removes the oldest pooled session, gives it the ICE parameters and
      hands it out; an empty pool yields nothing. The count is not lowered:
      the taken session still counts toward the target. */
  function TakePooledSession(a: Allocator, contentName: string, component: int,
                             iceUfrag: string, icePwd: string): (r: TakeResult)
    ensures r.session.None? <==> |a.pooledSessions| == 0
    ensures r.session.None? ==> r.allocator == a
    ensures r.session.Some? ==>
              && |r.allocator.pooledSessions| + 1 == |a.pooledSessions|
              && r.session.value.ice == Some(IceParameters(contentName, component, iceUfrag, icePwd))
    // claiming happens at the head: the session handed out is the front of
    // the queue, and the rest of the queue is left as it was
    ensures r.session.Some? ==>
              && a.pooledSessions[0].id == r.session.value.id
              && a.pooledSessions == [a.pooledSessions[0]] + r.allocator.pooledSessions
    ensures r.allocator.nextSessionId == a.nextSessionId
    ensures r.allocator.allocatedPooledSessionCount == a.allocatedPooledSessionCount
    ensures r.allocator.stunServers == a.stunServers && r.allocator.turnServers == a.turnServers
    ensures r.allocator.candidatePoolSize == a.candidatePoolSize
    ensures Valid(a) ==> Valid(r.allocator)
    ensures Valid(a) && r.session.Some? ==> Claimed(r.allocator) == Claimed(a) + 1
    // the handed-out session is no longer pooled
    ensures Valid(a) && r.session.Some? ==>
              forall i :: 0 <= i < |r.allocator.pooledSessions| ==>
                r.allocator.pooledSessions[i].id != r.session.value.id
  {
    if |a.pooledSessions| == 0 then
      TakeResult(a, None)
    else
      var p := IceParameters(contentName, component, iceUfrag, icePwd);
      TakeResult(a.(pooledSessions := a.pooledSessions[1..]),
                 Some(SetIceParameters(a.pooledSessions[0], p)))
  }
}
