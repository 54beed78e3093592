/** The connection metadata `handle` writes into the ECS entry: the socket's
    address family and kind, the peer address, and the `source` and `network`
    fields derived from them. */
module Metadata {
  import opened Wrappers

  /** `socket.family`: the two families `handle` recognises, and any other. */
  datatype Family = AfInet | AfInet6 | OtherFamily(number: int)

  /** `socket.type`: the two kinds `handle` recognises, and any other. */
  datatype SocketKind = SockStream | SockDgram | OtherKind(number: int)

  /** What `handle` reads from the socket behind the connection. */
  datatype SocketInfo = SocketInfo(family: Family, kind: SocketKind, proto: int)

  /** The peer's IP address and port. */
  datatype Endpoint = Endpoint(ip: string, port: int)

  /** The ECS `source` namespace; `others` stands for the fields `handle`
      does not touch. */
  datatype Source = Source(ip: Option<string>, address: Option<string>, port: Option<int>, others: map<string, string>)

  /** The ECS `network` namespace; `others` stands for the fields `handle`
      does not touch. */
  datatype Network = Network(
    direction: Option<string>,
    networkType: Option<string>,
    transport: Option<string>,
    ianaNumber: Option<int>,
    protocol: Option<string>,
    others: map<string, string>)

  /** An ECS entry as the entry builder returns it; `others` stands for every
      namespace besides `source` and `network`. */
  datatype Entry = Entry(source: Option<Source>, network: Option<Network>, others: map<string, string>)

  /** The three network fields `handle` derives from the socket. */
  datatype SocketFields = SocketFields(networkType: Option<string>, transport: Option<string>, ianaNumber: Option<int>)

  const EmptySource := Source(None, None, None, map[])
  const EmptyNetwork := Network(None, None, None, None, None, map[])

  /** `network.type` for a socket family. */
  function NetworkType(f: Family): (t: Option<string>)
    ensures t == Some("ipv4") <==> f == AfInet
    ensures t == Some("ipv6") <==> f == AfInet6
    ensures t == None <==> f.OtherFamily?
  {
    match f
    case AfInet => Some("ipv4")
    case AfInet6 => Some("ipv6")
    case OtherFamily(_) => None
  }

  /** `network.transport` for a socket kind. */
  function Transport(k: SocketKind): (t: Option<string>)
    ensures t == Some("tcp") <==> k == SockStream
    ensures t == Some("udp") <==> k == SockDgram
    ensures t == None <==> k.OtherKind?
  {
    match k
    case SockStream => Some("tcp")
    case SockDgram => Some("udp")
    case OtherKind(_) => None
  }

  /** The network fields `handle` derives from the socket, if it obtained
      one: without a socket all three are unset. */
  function FieldsFromSocket(socket: Option<SocketInfo>): (m: SocketFields)
    ensures m.ianaNumber.Some? <==> socket.Some?
    ensures socket.Some? ==> m.ianaNumber == Some(socket.value.proto)
    ensures m.networkType == Some("ipv4") <==> socket.Some? && socket.value.family == AfInet
    ensures m.networkType == Some("ipv6") <==> socket.Some? && socket.value.family == AfInet6
    ensures m.networkType.Some? ==> m.networkType == Some("ipv4") || m.networkType == Some("ipv6")
    ensures m.transport == Some("tcp") <==> socket.Some? && socket.value.kind == SockStream
    ensures m.transport == Some("udp") <==> socket.Some? && socket.value.kind == SockDgram
    ensures m.transport.Some? ==> m.transport == Some("tcp") || m.transport == Some("udp")
  {
    match socket
    case None => SocketFields(None, None, None)
    case Some(s) => SocketFields(NetworkType(s.family), Transport(s.kind), Some(s.proto))
  }

  /** The `source` fields `handle` sets when it obtained the peer's address:
      `ip` and `address` both become the peer IP and `port` the peer port;
      the namespace is created if the entry lacked it. Without a peer
      address the entry is returned as it is. */
  function WithSource(e: Entry, peer: Option<Endpoint>): (r: Entry)
    ensures peer.None? ==> r == e
    ensures peer.Some? ==> (
      && r.source.Some?
      && r.source.value.ip == Some(peer.value.ip)
      && r.source.value.address == Some(peer.value.ip)
      && r.source.value.port == Some(peer.value.port))
    ensures peer.Some? ==> r.source.value.others == (if e.source.Some? then e.source.value.others else map[])
    ensures r.network == e.network && r.others == e.others
  {
    match peer
    case None => e
    case Some(p) =>
      var s := if e.source.Some? then e.source.value else EmptySource;
      e.(source := Some(s.(ip := Some(p.ip), address := Some(p.ip), port := Some(p.port))))
  }

  /** The `network` fields `handle` always sets: direction `ingress`,
      protocol `http`, and the socket-derived type, transport and IANA
      number, each overwritten even when it is unset; the namespace is
      created if the entry lacked it. */
  function WithNetwork(e: Entry, fields: SocketFields): (r: Entry)
    ensures r.network.Some?
    ensures r.network.value.direction == Some("ingress")
    ensures r.network.value.protocol == Some("http")
    ensures r.network.value.networkType == fields.networkType
    ensures r.network.value.transport == fields.transport
    ensures r.network.value.ianaNumber == fields.ianaNumber
    ensures r.network.value.others == (if e.network.Some? then e.network.value.others else map[])
    ensures r.source == e.source && r.others == e.others
  {
    var n := if e.network.Some? then e.network.value else EmptyNetwork;
    e.(network := Some(n.(
      direction := Some("ingress"),
      networkType := fields.networkType,
      transport := fields.transport,
      ianaNumber := fields.ianaNumber,
      protocol := Some("http"))))
  }
}
