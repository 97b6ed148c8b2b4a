# Candidate-session pool of the WebRTC port allocator

This project is a Dafny model of the ICE candidate pool kept by the WebRTC
`PortAllocator`. The allocator holds a server configuration: a set of STUN
addresses and an ordered list of TURN relay configurations. It also holds a
target pool size (`candidate_pool_size`) and a FIFO queue of pre-created
gathering sessions. It counts the sessions created under the current servers
(`allocated_pooled_session_count`), and taken sessions stay in that count.
Three operations act on this state:

- `SetConfiguration(stun, turn, size)` stores the servers and the size, with a
  negative size clamped to 0. It then reconciles the pool:
  - if either server list changed, every pooled session is discarded and the
    count restarts at 0. JSEP (RFC 8829) requires this when the ICE servers
    change;
  - below the target, new sessions bound to the servers are started and
    appended;
  - above it, pooled sessions are destroyed. Sessions already taken are never
    recalled, so the count can stay above the target.
- `GetPooledSession` peeks at the oldest pooled session.
- `TakePooledSession(content, component, ufrag, pwd)` removes the oldest pooled
  session and gives it the four ICE fields. It runs the session's update hook
  once and hands the session to the caller.

The state is an immutable `Allocator` record and the operations are pure
functions. A session is a record with:

- an `id`, standing for its object identity;
- the servers it was created with;
- its ICE parameters, if it has them;
- the two counters the test double exposes, `port_config_count` and
  `transport_info_update_count`.

Modules:

- `Servers`: addresses, relay configurations, and the change test.
- `Sessions`: the session record, its start, and its ICE-parameter hook.
- `PortAllocator`: the allocator state, its invariant `Valid`, and the three
  operations.
- `PoolProperties`: properties relating several calls, including the
  invariant of every allocator reachable from a fresh one.
- `PortAllocatorTest`: each unit test replayed on the model as a lemma.

The central fact is stated on `SetConfiguration`. Let `Claimed` be the number
of created sessions that have been taken. `Claimed` stays the same when the
servers stay the same, and drops to 0 when they change. The number of pooled
sessions is always `max(0, target - Claimed)`.

## Model

| member | source | states |
|---|---|---|
| PortAllocator.Init | webrtc/p2p/base/portallocator_unittest.cc:72-77 | A fresh allocator has no STUN servers, no TURN servers, pool size 0 and an empty pool, and it satisfies the pool invariant |
| PortAllocator.ClampPoolSize | webrtc/p2p/base/portallocator_unittest.cc:105-109 | A negative requested size is served as 0; any other size is kept as requested |
| PortAllocator.NewSessions | webrtc/p2p/base/portallocator_unittest.cc:111-122 | The sessions created for the pool are as many as requested, have consecutive fresh ids, are bound to the given servers, and were each configured exactly once |
| PortAllocator.SetConfiguration | webrtc/p2p/base/portallocator_unittest.cc:79-176 | The accessors report exactly the servers passed and the clamped size. A server change leaves no old session pooled. Otherwise each pooled session was pooled before or is new. The invariant is preserved. Taken sessions keep counting, or drop out of the count on a server change. The pool ends with max(0, target - taken) sessions |
| PortAllocator.GetPooledSession | webrtc/p2p/base/portallocator_unittest.cc:178-186 | The peek is empty exactly when the pool is. Otherwise it shows a pooled session, and on a valid allocator that is the oldest one |
| PortAllocator.TakePooledSession | webrtc/p2p/base/portallocator_unittest.cc:188-205 | An empty pool yields nothing and changes nothing. Otherwise the session handed out is the head of the queue, carrying the four given ICE fields, and the queue left behind is the old queue without its head. No session is created, and the handed-out one is no longer in the pool. The count, servers and size are unchanged, the taken count rises by one, and the invariant is preserved |
| Sessions.CreateSession | webrtc/p2p/base/portallocator_unittest.cc:111-112 | A created session carries the given id and servers, has no ICE parameters, and has neither configured ports nor seen an update |
| Sessions.NewPooledSession | webrtc/p2p/base/portallocator_unittest.cc:111-122 | A pooled session is bound to the given servers, has no ICE parameters, no transport-info update, and one port configuration |
| Sessions.StartGettingPorts | webrtc/p2p/base/portallocator_unittest.cc:111-112 | Starting a session configures its ports once more and changes nothing else |
| Sessions.SetIceParameters | webrtc/p2p/base/portallocator_unittest.cc:188-205 | Claiming stores the four ICE fields and raises the update count by one. Id, servers and port configuration are kept |
| Sessions.UpdateIceParametersInternal | webrtc/p2p/base/portallocator_unittest.cc:188-190 | The test double's hook raises its transport-info update count by one and changes nothing else |
| PoolProperties.ReachableIsValid | webrtc/p2p/base/portallocator_unittest.cc:111-176 | After any sequence of configuration and take calls from a fresh allocator, all of the following hold. Pooled sessions are unclaimed, configured once and bound to the current servers. They are queued in creation order. The count never drops below the target, and it exceeds the target only when the pool is empty |
| PoolProperties.SetConfigurationIdempotent | webrtc/p2p/base/portallocator_unittest.cc:124-149 | Repeating a configuration call with the same arguments creates and destroys nothing |
| PoolProperties.SizeOnlyChange | webrtc/p2p/base/portallocator_unittest.cc:124-149 | With the servers fixed, the count grows exactly when the new size exceeds it. Growth appends behind the sessions already pooled. Otherwise the call creates nothing and only removes pooled sessions |
| PoolProperties.PeekMatchesTake | webrtc/p2p/base/portallocator_unittest.cc:178-186 | The next take hands out the session the peek shows, now carrying the ICE fields. An empty peek means an empty take |
| PoolProperties.TakeInCreationOrder | webrtc/p2p/base/portallocator_unittest.cc:178-186 | Two successive takes hand out sessions in creation order |
| PoolProperties.TakeUpdatesIceParameters | webrtc/p2p/base/portallocator_unittest.cc:188-205 | A peeked session has seen no update. The taken one has seen exactly one, carries the four given fields, is still bound to the allocator's servers, and was configured once |
| PortAllocatorTest.SetConfigurationWithPoolSize | webrtc/p2p/base/portallocator_unittest.cc:34-38 | The fixture's size-only call leaves no STUN or TURN servers and reports the clamped size. From a valid server-less allocator it keeps the allocator valid and the taken count unchanged |
| PortAllocatorTest.Take | webrtc/p2p/base/portallocator_unittest.cc:45-50 | The fixture's take yields a session exactly when the pool is non-empty. That session carries the fixture's content name, component 0, ufrag and password, and the pool shrinks by one |
| PortAllocatorTest.GetAllPooledSessionsReturnCount | webrtc/p2p/base/portallocator_unittest.cc:52-59 | Taking until the peek is empty takes exactly as many sessions as were pooled. It leaves the pool empty and the count, servers and size unchanged |
| PortAllocatorTest.TestDefaults | webrtc/p2p/base/portallocator_unittest.cc:72-77 | A fresh allocator reports no servers, size 0 and no pooled sessions |
| PortAllocatorTest.SetConfigurationUpdatesIceServers | webrtc/p2p/base/portallocator_unittest.cc:79-92 | The server accessors equal the first configuration, then the second |
| PortAllocatorTest.SetConfigurationUpdatesCandidatePoolSize | webrtc/p2p/base/portallocator_unittest.cc:94-103 | The sizes 2, 3, 1, 4 are each reported back after being set |
| PortAllocatorTest.SetConfigurationWithNegativePoolSizeDoesntCrash | webrtc/p2p/base/portallocator_unittest.cc:105-109 | Size -1 gives size 0, an empty pool and a valid allocator |
| PortAllocatorTest.SetConfigurationCreatesPooledSessions | webrtc/p2p/base/portallocator_unittest.cc:111-122 | Size 2 yields two sessions, each configured once, and then nothing |
| PortAllocatorTest.SetConfigurationCreatesMorePooledSessions | webrtc/p2p/base/portallocator_unittest.cc:124-130 | Sizes 1 then 2 leave two pooled sessions |
| PortAllocatorTest.SetConfigurationDestroysPooledSessions | webrtc/p2p/base/portallocator_unittest.cc:132-138 | Sizes 2 then 1 leave one pooled session |
| PortAllocatorTest.SetConfigurationDoesntCreateExtraSessions | webrtc/p2p/base/portallocator_unittest.cc:140-149 | Size 1, take, size 0, size 1 leaves no pooled session |
| PortAllocatorTest.SetConfigurationRecreatesPooledSessionsWhenIceServersChange | webrtc/p2p/base/portallocator_unittest.cc:151-176 | After a server change with size 2, both sessions taken report the new servers and nothing else is pooled |
| PortAllocatorTest.GetPooledSessionReturnsNextSession | webrtc/p2p/base/portallocator_unittest.cc:178-186 | Each of two peeks shows the session the following take hands out, and the two are different sessions |
| PortAllocatorTest.TakePooledSessionUpdatesIceParameters | webrtc/p2p/base/portallocator_unittest.cc:188-205 | The peeked session has update count 0. The taken one has update count 1 and the given content name, component 1, ufrag and password |

## Left out

- The allocator implementation is not part of this model. This covers `webrtc/p2p/base/portallocator.cc` and the test double in `webrtc/p2p/base/fakeportallocator.h`. Their observable behaviour is modelled as the unit test pins it down. Where the test is silent, the line below names the choice made.
- PortAllocator.SetConfiguration: the tests pin only how many sessions a shrink destroys, not which ones. The model destroys the newest pooled sessions first, so the oldest stay at the head where takes happen. No contract or lemma depends on that choice: they say only that the surviving sessions were already pooled (`SizeOnlyChange` states a sub-multiset).
- PortAllocator.ClampPoolSize: the test for a negative size asserts nothing. Its comment (portallocator_unittest.cc:105) says a negative size is treated as zero, and the model also reports 0 from `candidate_pool_size()`.
- Integer widths: the pool size and the counts are unbounded integers. A C++ `int` pool size near 2^31 is not modelled.
- Candidate gathering, sockets and the STUN/TURN protocols: network I/O. Starting a session is modelled only as the one port configuration it records.
- Threads and signals (`rtc::Thread`, `sigslot::has_slots`): the model is a single-threaded sequence of calls.
- `unique_ptr` ownership and `static_cast` downcasts: a hand-off is modelled as removing the session from the pool and returning it. A destroyed session is modelled as one that is no longer in the pool.
