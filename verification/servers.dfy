/** The ICE server configuration an allocator holds and every session it
    creates is bound to: a set of STUN addresses and an ordered list of
    TURN (relay) server configurations. */
module Servers {

  /** A host name or literal IP address together with a port. */
  datatype SocketAddress = SocketAddress(hostname: string, port: int)

  /** The transport a relay server is reached over. */
  datatype ProtocolType = ProtoUdp | ProtoTcp | ProtoSslTcp

  /** One TURN server: where it is, the credentials to use with it, and
      the transport to reach it over. */
  datatype RelayServerConfig = RelayServerConfig(
    address: string,
    port: int,
    username: string,
    password: string,
    protocol: ProtocolType,
    secure: bool)

  /** STUN servers form an unordered set of addresses. */
  type ServerAddresses = set<SocketAddress>

  /** TURN servers form an ordered list; order matters to equality. */
  type RelayServers = seq<RelayServerConfig>

  /** A configuration change is all-or-nothing: either list differing is a
      change, and there is no finer notion of a partial change. */
  predicate ServersChanged(oldStun: ServerAddresses, oldTurn: RelayServers,
                           newStun: ServerAddresses, newTurn: RelayServers)
  {
    oldStun != newStun || oldTurn != newTurn
  }
}
