/** The allocator's unit-test scenarios, each replayed on the model from a
    fresh allocator and stated as a lemma. */
module PortAllocatorTest {
  import opened Wrappers
  import opened Servers
  import opened Sessions
  import opened PortAllocator

  const kContentName: string := "test content"
  const kIceUfrag: string := "TESTICEUFRAG0000"
  const kIcePwd: string := "TESTICEPWD00000000000000"
  const kTurnUsername: string := "test"
  const kTurnPassword: string := "test"

  const stunServer1: SocketAddress := SocketAddress("11.11.11.11", 3478)
  const stunServer2: SocketAddress := SocketAddress("22.22.22.22", 3478)
  const turnServer1: RelayServerConfig :=
    RelayServerConfig("11.11.11.11", 3478, kTurnUsername, kTurnPassword, ProtoUdp, false)
  const turnServer2: RelayServerConfig :=
    RelayServerConfig("22.22.22.22", 3478, kTurnUsername, kTurnPassword, ProtoUdp, false)

  /** A configuration call with no servers, changing only the pool size. */
  function SetConfigurationWithPoolSize(a: Allocator, size: int): (r: Allocator)
    ensures |r.stunServers| == 0 && |r.turnServers| == 0
    ensures r.candidatePoolSize == ClampPoolSize(size)
    ensures Valid(a) && a.stunServers == {} && a.turnServers == [] ==>
              Valid(r) && Claimed(r) == Claimed(a)
  {
    SetConfiguration(a, {}, [], size)
  }

  /** Takes with the fixture's identity (component 0). */
  function Take(a: Allocator): (r: TakeResult)
    ensures r.session.None? <==> |a.pooledSessions| == 0
    ensures r.session.Some? ==>
              r.session.value.ice == Some(IceParameters(kContentName, 0, kIceUfrag, kIcePwd))
    ensures |r.allocator.pooledSessions| == if |a.pooledSessions| == 0 then 0 else |a.pooledSessions| - 1
  {
    TakePooledSession(a, kContentName, 0, kIceUfrag, kIcePwd)
  }

  /** Takes until a peek comes back empty; yields how many takes that was
      and the allocator afterwards. */
  function GetAllPooledSessionsReturnCount(a: Allocator): (r: (nat, Allocator))
    ensures r.0 == |a.pooledSessions|
    ensures r.1.pooledSessions == []
    ensures r.1.allocatedPooledSessionCount == a.allocatedPooledSessionCount
    ensures r.1.stunServers == a.stunServers && r.1.turnServers == a.turnServers
    ensures r.1.candidatePoolSize == a.candidatePoolSize
    decreases |a.pooledSessions|
  {
    match GetPooledSession(a)
    case None => (0, a)
    case Some(_) =>
      var rest := GetAllPooledSessionsReturnCount(Take(a).allocator);
      (rest.0 + 1, rest.1)
  }

  /** A fresh allocator has no servers, pool size 0 and nothing pooled. */
  lemma TestDefaults()
    ensures |Init().stunServers| == 0 && |Init().turnServers| == 0
    ensures Init().candidatePoolSize == 0
    ensures GetAllPooledSessionsReturnCount(Init()).0 == 0
  {
  }

  /** The server accessors report exactly what was last configured. */
  lemma SetConfigurationUpdatesIceServers()
    ensures var a1 := SetConfiguration(Init(), {stunServer1}, [turnServer1], 0);
            var a2 := SetConfiguration(a1, {stunServer2}, [turnServer2], 0);
            && a1.stunServers == {stunServer1} && a1.turnServers == [turnServer1]
            && a2.stunServers == {stunServer2} && a2.turnServers == [turnServer2]
  {
  }

  /** The pool-size accessor reports the last requested size, up or down. */
  lemma SetConfigurationUpdatesCandidatePoolSize()
    ensures var a1 := SetConfigurationWithPoolSize(Init(), 2);
            var a2 := SetConfigurationWithPoolSize(a1, 3);
            var a3 := SetConfigurationWithPoolSize(a2, 1);
            var a4 := SetConfigurationWithPoolSize(a3, 4);
            a1.candidatePoolSize == 2 && a2.candidatePoolSize == 3
            && a3.candidatePoolSize == 1 && a4.candidatePoolSize == 4
  {
  }

  /** A negative size is served like zero. */
  lemma SetConfigurationWithNegativePoolSizeDoesntCrash()
    ensures var a := SetConfigurationWithPoolSize(Init(), -1);
            a.candidatePoolSize == 0 && a.pooledSessions == [] && Valid(a)
  {
  }

  /** A pool of two yields two sessions, each configured once, and then
      nothing more. */
  lemma SetConfigurationCreatesPooledSessions()
    ensures var a := SetConfigurationWithPoolSize(Init(), 2);
            var t1 := Take(a);
            var t2 := Take(t1.allocator);
            && t1.session.Some? && t2.session.Some?
            && t1.session.value.portConfigCount == 1
            && t2.session.value.portConfigCount == 1
            && GetAllPooledSessionsReturnCount(t2.allocator).0 == 0
  {
  }

  /** Growing the pool from one to two leaves two pooled sessions. */
  lemma SetConfigurationCreatesMorePooledSessions()
    ensures var a := SetConfigurationWithPoolSize(SetConfigurationWithPoolSize(Init(), 1), 2);
            GetAllPooledSessionsReturnCount(a).0 == 2
  {
  }

  /** Shrinking the pool from two to one leaves one pooled session. */
  lemma SetConfigurationDestroysPooledSessions()
    ensures var a := SetConfigurationWithPoolSize(SetConfigurationWithPoolSize(Init(), 2), 1);
            GetAllPooledSessionsReturnCount(a).0 == 1
  {
  }

  /** A taken session keeps counting: size 1, take, size 0, size 1 leaves
      nothing pooled, because no replacement is created. */
  lemma SetConfigurationDoesntCreateExtraSessions()
    ensures var a1 := SetConfigurationWithPoolSize(Init(), 1);
            var a2 := Take(a1).allocator;
            var a3 := SetConfigurationWithPoolSize(a2, 0);
            var a4 := SetConfigurationWithPoolSize(a3, 1);
            GetAllPooledSessionsReturnCount(a4).0 == 0
  {
  }

  /** New servers (together with a new size) replace the pool by sessions
      bound to the new servers. */
  lemma SetConfigurationRecreatesPooledSessionsWhenIceServersChange()
    ensures var a1 := SetConfiguration(Init(), {stunServer1}, [turnServer1], 1);
            var a2 := SetConfiguration(a1, {stunServer2}, [turnServer2], 2);
            var t1 := Take(a2);
            var t2 := Take(t1.allocator);
            && a1.stunServers == {stunServer1} && a1.turnServers == [turnServer1]
            && a2.stunServers == {stunServer2} && a2.turnServers == [turnServer2]
            && t1.session.Some? && t2.session.Some?
            && t1.session.value.stunServers == {stunServer2}
            && t1.session.value.turnServers == [turnServer2]
            && t2.session.value.stunServers == {stunServer2}
            && t2.session.value.turnServers == [turnServer2]
            && GetAllPooledSessionsReturnCount(t2.allocator).0 == 0
  {
  }

  /** Each peek shows the session the following take hands out. */
  lemma GetPooledSessionReturnsNextSession()
    ensures var a := SetConfigurationWithPoolSize(Init(), 2);
            var p1 := GetPooledSession(a);
            var t1 := Take(a);
            var p2 := GetPooledSession(t1.allocator);
            var t2 := Take(t1.allocator);
            && p1.Some? && t1.session.Some? && t1.session.value.id == p1.value.id
            && p2.Some? && t2.session.Some? && t2.session.value.id == p2.value.id
            && p1.value.id != p2.value.id
  {
  }

  /** Taking calls the session's update hook once and stores the four
      identity fields. */
  lemma TakePooledSessionUpdatesIceParameters()
    ensures var a := SetConfigurationWithPoolSize(Init(), 1);
            var peeked := GetPooledSession(a);
            var t := TakePooledSession(a, kContentName, 1, kIceUfrag, kIcePwd);
            && peeked.Some? && peeked.value.transportInfoUpdateCount == 0
            && t.session.Some? && t.session.value.transportInfoUpdateCount == 1
            && t.session.value.ice == Some(IceParameters(kContentName, 1, kIceUfrag, kIcePwd))
  {
  }
}
