/** `handle`, the per-connection callback of the mirror server: it reads one
    raw HTTP request off the connection, closes the writer, has the entry
    builder turn the request into an ECS entry, sets the entry's `source` and
    `network` fields from the connection, and logs it. Any exception is
    logged and swallowed. */
module Handler {
  import opened Wrappers
  import opened Streams
  import opened Framing
  import opened Metadata

  /** `writer.get_extra_info('peername')` of a TCP connection: a 2-tuple
      (host, port) on an AF_INET socket and a 4-tuple (host, port, flowinfo,
      scope_id) on an AF_INET6 socket. */
  datatype PeerName = Inet4Peer(host: string, port: int) | Inet6Peer(host: string, port: int, flowInfo: int, scopeId: int)

  /** The external `entry_from_http_request`, given the request line, the raw
      headers and the body, with the suffix trie and the flags `handle`
      passes it fixed; an exception it raises is an `Err` with its message. */
  type EntryBuilder = (seq<Byte>, seq<Byte>, seq<Byte>) -> Result<Entry, string>

  /** The exceptions `handle` catches. */
  datatype HandleError = PeerNameUnpackError | BuilderError(message: string)

  /** What one call of `handle` leaves behind: one logged entry, or one
      logged and swallowed exception. */
  datatype Outcome = Logged(entry: Entry) | Swallowed(error: HandleError)

  /** The asyncio StreamWriter of the connection, as far as `handle` uses it:
      the extra information it reports and whether it has been closed. */
  class StreamWriter {
    const peerName: Option<PeerName>
    const socket: Option<SocketInfo>
    var closed: bool

    constructor (peerName: Option<PeerName>, socket: Option<SocketInfo>)
      ensures this.peerName == peerName && this.socket == socket && !closed
    {
      this.peerName := peerName;
      this.socket := socket;
      closed := false;
    }

    /** `writer.close()`. */
    method Close()
      modifies this
      ensures closed
    {
      closed := true;
    }
  }

  /** `source_ip, source_port = peer_name` as written: the unpacking succeeds
      only for a 2-tuple, so it raises for every AF_INET6 peer name. */
  function UnpackPeerName(p: PeerName): (r: Result<Endpoint, HandleError>)
    ensures r.Ok? <==> p.Inet4Peer?
    ensures r.Ok? ==> r.value.ip == p.host && r.value.port == p.port
    ensures r.Err? ==> r.error == PeerNameUnpackError
  {
    match p
    case Inet4Peer(host, port) => Ok(Endpoint(host, port))
    case Inet6Peer(_, _, _, _) => Err(PeerNameUnpackError)
  }

  /** The peer's IP and port, taken from the first two items of the peer
      name whichever family it belongs to. */
  function PeerEndpoint(p: PeerName): (e: Endpoint)
    ensures e.ip == p.host && e.port == p.port
    ensures UnpackPeerName(p).Ok? ==> UnpackPeerName(p).value == e
  {
    Endpoint(p.host, p.port)
  }

  /** The peer endpoint `handle` records, if a peer name was obtained. */
  function PeerOf(peerName: Option<PeerName>): (peer: Option<Endpoint>)
    ensures peer.Some? <==> peerName.Some?
  {
    match peerName
    case None => None
    case Some(p) => Some(PeerEndpoint(p))
  }

  /** What `handle` produces for a connection whose peer sent `stream` and
      closed: the entry is built from the framed request and, if building
      succeeds, gets its `source` and `network` fields from the peer name
      and the socket. */
  function ConnectionOutcome(stream: seq<Byte>, peerName: Option<PeerName>, socket: Option<SocketInfo>, build: EntryBuilder): (o: Outcome)
    ensures var req := Frame(stream);
      var built := build(req.requestLine, req.rawHeaders, req.body);
      && (o.Logged? <==> built.Ok?)
      && (built.Err? ==> o.error == BuilderError(built.error))
      && (built.Ok? ==> o.entry.others == built.value.others)
    ensures o.Logged? ==> (
      && o.entry.network.Some?
      && o.entry.network.value.direction == Some("ingress")
      && o.entry.network.value.protocol == Some("http"))
    ensures o.Logged? && peerName.Some? ==> (
      && o.entry.source.Some?
      && o.entry.source.value.ip == Some(peerName.value.host)
      && o.entry.source.value.address == Some(peerName.value.host)
      && o.entry.source.value.port == Some(peerName.value.port))
  {
    var req := Frame(stream);
    match build(req.requestLine, req.rawHeaders, req.body)
    case Err(message) => Swallowed(BuilderError(message))
    case Ok(e) => Logged(WithNetwork(WithSource(e, PeerOf(peerName)), FieldsFromSocket(socket)))
  }

  /** The logged entry's socket-derived network fields follow the socket, and
      without a peer name its `source` is the builder's. */
  lemma LoggedEntryMetadata(stream: seq<Byte>, peerName: Option<PeerName>, socket: Option<SocketInfo>, build: EntryBuilder)
    requires ConnectionOutcome(stream, peerName, socket, build).Logged?
    ensures var req := Frame(stream);
      var e := ConnectionOutcome(stream, peerName, socket, build).entry;
      && e.network.value.networkType == FieldsFromSocket(socket).networkType
      && e.network.value.transport == FieldsFromSocket(socket).transport
      && e.network.value.ianaNumber == FieldsFromSocket(socket).ianaNumber
      && (peerName.None? ==> e.source == build(req.requestLine, req.rawHeaders, req.body).value.source)
  {
  }

  /** What `handle` produces as written: the peer name is unpacked before
      anything is read, and the exception this raises for an AF_INET6 peer
      name is swallowed. */
  function ConnectionOutcomeAsWritten(stream: seq<Byte>, peerName: Option<PeerName>, socket: Option<SocketInfo>, build: EntryBuilder): (o: Outcome)
    ensures peerName.Some? && peerName.value.Inet6Peer? ==> o == Swallowed(PeerNameUnpackError)
    ensures peerName.None? || peerName.value.Inet4Peer? ==> o == ConnectionOutcome(stream, peerName, socket, build)
  {
    if peerName.Some? && UnpackPeerName(peerName.value).Err? then Swallowed(PeerNameUnpackError)
    else ConnectionOutcome(stream, peerName, socket, build)
  }

  /** As written, a connection from an IPv6 peer is never logged, even when
      the entry builder succeeds. */
  lemma Inet6PeerNeverLoggedAsWritten(stream: seq<Byte>, host: string, port: int, flowInfo: int, scopeId: int, socket: Option<SocketInfo>, build: EntryBuilder)
    ensures !ConnectionOutcomeAsWritten(stream, Some(Inet6Peer(host, port, flowInfo, scopeId)), socket, build).Logged?
  {
  }

  /** With the peer endpoint taken from the first two items, a connection
      from an IPv6 peer is logged whenever the entry builder succeeds, with
      `network.type` `ipv6` on an AF_INET6 socket and the peer's address as
      its source. */
  lemma Inet6PeerLogged(stream: seq<Byte>, host: string, port: int, flowInfo: int, scopeId: int, socket: SocketInfo, build: EntryBuilder)
    requires socket.family == AfInet6
    requires var req := Frame(stream); build(req.requestLine, req.rawHeaders, req.body).Ok?
    ensures var o := ConnectionOutcome(stream, Some(Inet6Peer(host, port, flowInfo, scopeId)), Some(socket), build);
      && o.Logged?
      && o.entry.network.value.networkType == Some("ipv6")
      && o.entry.source.value.ip == Some(host)
      && o.entry.source.value.port == Some(port)
  {
  }

  /** `handle(reader, writer, trie)`: the body of its `while True` loop, which
      ends in `break` and so runs once, inside the `try` whose bare `except`
      swallows every exception. */
  method Handle(reader: StreamReader, writer: StreamWriter, build: EntryBuilder) returns (outcome: Outcome)
    requires reader.Valid()
    modifies reader, writer
    ensures reader.Valid() && reader.Remaining() == []
    ensures writer.closed
    ensures outcome == ConnectionOutcome(old(reader.Remaining()), writer.peerName, writer.socket, build)
  {
    var peer := PeerOf(writer.peerName);
    var fields := FieldsFromSocket(writer.socket);
    var req := ReadRawRequest(reader);
    writer.Close();
    var built := build(req.requestLine, req.rawHeaders, req.body);
    match built {
      case Err(message) =>
        outcome := Swallowed(BuilderError(message));
      case Ok(e) =>
        outcome := Logged(WithNetwork(WithSource(e, peer), fields));
    }
  }
}
