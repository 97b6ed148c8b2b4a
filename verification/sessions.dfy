/** A candidate-gathering session as the allocator sees it: bound at
    creation to one server configuration, configured once when it starts
    gathering, and given its ICE parameters once when it is handed out. */
module Sessions {
  import opened Wrappers
  import opened Servers

  /** The four identity fields a session receives when it is claimed. */
  datatype IceParameters = IceParameters(
    contentName: string,
    component: int,
    iceUfrag: string,
    icePwd: string)

  /** `id` stands for the object identity of the session (two sessions are
      the same session exactly when their ids agree); the two counters are
      the ones the test double exposes. */
  datatype Session = Session(
    id: nat,
    stunServers: ServerAddresses,
    turnServers: RelayServers,
    ice: Option<IceParameters>,
    portConfigCount: nat,
    transportInfoUpdateCount: nat)

  /** A session fresh from the allocator: bound to the given servers, no
      ICE parameters yet, and not yet gathering. */
  function CreateSession(id: nat, stun: ServerAddresses, turn: RelayServers): (s: Session)
    ensures s.id == id && s.stunServers == stun && s.turnServers == turn
    ensures s.ice.None? && s.portConfigCount == 0 && s.transportInfoUpdateCount == 0
  {
    Session(id, stun, turn, None, 0, 0)
  }

  /** Starting to gather configures the session's ports once; nothing
      else about the session changes. */
  function StartGettingPorts(s: Session): (r: Session)
    ensures r.portConfigCount == s.portConfigCount + 1
    ensures r.(portConfigCount := s.portConfigCount) == s
  {
    s.(portConfigCount := s.portConfigCount + 1)
  }

  /** The state every session sitting in the pool is in: bound to the
      allocator's current servers, configured exactly once, and neither
      given ICE parameters nor told about them. */
  predicate Pristine(s: Session, stun: ServerAddresses, turn: RelayServers)
  {
    && s.stunServers == stun
    && s.turnServers == turn
    && s.ice.None?
    && s.portConfigCount == 1
    && s.transportInfoUpdateCount == 0
  }

  /** What the allocator puts into the pool: a created session that has
      been started. */
  function NewPooledSession(id: nat, stun: ServerAddresses, turn: RelayServers): (s: Session)
    ensures s.id == id && Pristine(s, stun, turn)
  {
    StartGettingPorts(CreateSession(id, stun, turn))
  }

  /** Assigns the session its identity and then runs the session's own
      reaction to it; for the test double that reaction is to count one
      transport-info update. Id, servers and port configuration are kept. */
  function SetIceParameters(s: Session, p: IceParameters): (r: Session)
    ensures r.ice == Some(p)
    ensures r.transportInfoUpdateCount == s.transportInfoUpdateCount + 1
    ensures r.id == s.id && r.stunServers == s.stunServers && r.turnServers == s.turnServers
    ensures r.portConfigCount == s.portConfigCount
  {
    UpdateIceParametersInternal(s.(ice := Some(p)))
  }

  /** The per-claim hook of the test double. */
  function UpdateIceParametersInternal(s: Session): (r: Session)
    ensures r.transportInfoUpdateCount == s.transportInfoUpdateCount + 1
    ensures r.(transportInfoUpdateCount := s.transportInfoUpdateCount) == s
  {
    s.(transportInfoUpdateCount := s.transportInfoUpdateCount + 1)
  }
}
