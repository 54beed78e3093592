# http_mirror_server: a Dafny model of the connection handler

This project models `handle` in `http_mirror_server/__init__.py`, the asyncio
callback that the HTTP mirror server runs for each accepted TCP connection. The
handler does the following:

1. It reads the peer name and the socket from the stream writer.
2. It reads one HTTP request line off the stream reader.
3. It appends header lines to `raw_headers` until end of stream or until a
   line whose `rstrip()` is empty. That blank line is appended too.
4. It reads the rest of the stream as the body, then closes the writer.
5. It calls the external entry builder `entry_from_http_request` on the three
   parts.
6. It sets the ECS `source` fields from the peer name and the `network` fields
   from the socket (`direction` is `ingress`, `protocol` is `http`).
7. It logs the entry.

Any exception is logged and swallowed.

Modules:

- `Wrappers` (wrappers.dfy): `Option` and `Result`.
- `Streams` (streams.dfy): bytes and lines. `LineEnd` is where `readline()`
  stops. `FirstLine` is what it returns. `RStrip` is `bytes.rstrip()`.
  `IsBlank` is the header loop's stop test. The `StreamReader` class holds the
  bytes the peer sent and a cursor, and has `ReadLine` and `Read`.
- `Framing` (framing.dfy): the framer. `Frame` is the reference split of a
  stream into request line, raw headers and body. `HeaderLines` is the list of
  lines the header loop appends. `ReadHeaders` and `ReadRawRequest` are the
  loop itself, on the reader. Each is proved equal to `Frame`.
- `Metadata` (metadata.dfy): the socket family and kind, the ECS `source` and
  `network` records, the family/kind mapping, and the two field assignments.
- `Handler` (handler.dfy): the `StreamWriter` class, `Handle`, the function
  `ConnectionOutcome` that specifies `Handle`, and the peer-name unpacking as
  written and as corrected (see Findings).

Exceptions become values. The entry builder is a parameter of type
`EntryBuilder` that returns `Err(message)` where the Python function would
raise. `Handle` returns `Logged(entry)` or `Swallowed(error)`, so one call
yields at most one entry and no error leaves it.

Framing facts the model keeps from the code:

- Headers end at any line that is empty or all ASCII whitespace after
  `rstrip()`. The CRLF blank line of section 2.1 of RFC 9112 is one such
  line, but a line of spaces or a bare LF ends the headers too.
- A stream that ends inside the headers is not an error. The headers are then
  the rest of the stream and the body is empty.
- The `while True` loop in `handle` runs its body once, because it ends in
  `break`. So one request is framed per connection. `Handle` is straight-line
  code for that one pass.

## Model

| member | source | states |
|---|---|---|
| `Streams.LineEnd` | http_mirror_server/__init__.py:55 | `readline()` consumes at least one byte unless at end of stream, and stops just past an LF or at end of stream |
| `Streams.LineEndIsFirstLF` | http_mirror_server/__init__.py:55 | the line `readline()` returns holds no LF before its last byte |
| `Streams.FirstLineShape` | http_mirror_server/__init__.py:55 | the returned line is a prefix of the stream. It is empty exactly at end of stream, ends in the first LF when there is one, and is the whole stream otherwise |
| `Streams.FirstLineUnique` | http_mirror_server/__init__.py:55 | those properties determine the returned line: any prefix with them equals `FirstLine` |
| `Streams.ReadLineIsFirstLine` | http_mirror_server/__init__.py:59 | reading a line at any cursor returns the first line of the unread bytes |
| `Streams.StreamReader.ReadLine` | http_mirror_server/__init__.py:55 | `readline()` returns the bytes from the cursor to `LineEnd` and advances the cursor there |
| `Streams.StreamReader.Read` | http_mirror_server/__init__.py:65 | `read()` returns every unread byte and leaves the reader at end of stream |
| `Streams.RStrip` | http_mirror_server/__init__.py:61 | `rstrip()` returns a prefix of its argument |
| `Streams.RStripShape` | http_mirror_server/__init__.py:61 | `rstrip()` removes only ASCII whitespace, and what it keeps is empty or ends in a non-whitespace byte |
| `Streams.RStripEmptyIffBlank` | http_mirror_server/__init__.py:61 | `not line.rstrip()` holds exactly when every byte of the line is ASCII whitespace |
| `Framing.HeaderStop` | http_mirror_server/__init__.py:58-62 | the header loop never moves backwards and never passes end of stream |
| `Framing.HeaderLinesSpanHeaderStop` | http_mirror_server/__init__.py:58-62 | the header lines, concatenated, are exactly the bytes the header loop consumes |
| `Framing.Frame` | http_mirror_server/__init__.py:55-65 | request line, raw headers and body concatenate back to the stream: nothing is dropped, duplicated or reordered |
| `Framing.FrameParts` | http_mirror_server/__init__.py:55-62 | the request line is the stream's first line, and the raw headers are the concatenated header lines that follow it |
| `Framing.HeaderLinesAreLines` | http_mirror_server/__init__.py:59-60 | every header line appended is a non-empty line of the stream with no LF before its end, and the last one ends in LF unless the headers run to the end of the stream |
| `Framing.LastHeaderLineComplete` | http_mirror_server/__init__.py:59-62 | the last header line read ends in LF unless the stream ended inside the headers |
| `Framing.HeaderLinesBlankOnlyLast` | http_mirror_server/__init__.py:59-62 | every header line before the last ends in LF and is not blank, so the loop stops at the first blank line |
| `Framing.HeaderLinesEndBlankOrAtEof` | http_mirror_server/__init__.py:59-62 | the loop either appended a blank line last or read to end of stream |
| `Framing.UnterminatedHeadersTakeRest` | http_mirror_server/__init__.py:59-65 | with no blank line, the raw headers are all bytes after the request line and the body is empty |
| `Framing.ReadHeaders` | http_mirror_server/__init__.py:58-62 | the header loop on the reader leaves the cursor at `HeaderStop` and returns exactly the bytes it passed |
| `Framing.ReadRawRequest` | http_mirror_server/__init__.py:54-65 | reading request line, headers and body yields `Frame` of the unread bytes and leaves the reader at end of stream |
| `Metadata.NetworkType` | http_mirror_server/__init__.py:38-44 | `network.type` is `ipv4` exactly for AF_INET, `ipv6` exactly for AF_INET6, and unset for any other family |
| `Metadata.Transport` | http_mirror_server/__init__.py:46-52 | `network.transport` is `tcp` exactly for SOCK_STREAM, `udp` exactly for SOCK_DGRAM, and unset for any other kind |
| `Metadata.FieldsFromSocket` | http_mirror_server/__init__.py:29-52 | with no socket, type, transport and IANA number are all unset. With a socket, the IANA number is its `proto` and type and transport follow the two mappings |
| `Metadata.WithSource` | http_mirror_server/__init__.py:80-83 | with a peer, `source.ip` and `source.address` become the peer IP and `source.port` the peer port, and the other source fields are kept. Without a peer the entry is unchanged |
| `Metadata.WithNetwork` | http_mirror_server/__init__.py:85-90 | `network.direction` is `ingress` and `network.protocol` is `http`. Type, transport and IANA number are overwritten, even when unset. Other network fields and the rest of the entry are kept |
| `Handler.UnpackPeerName` | http_mirror_server/__init__.py:24-27 | as written, unpacking the peer name succeeds exactly for an AF_INET 2-tuple and raises for an AF_INET6 4-tuple |
| `Handler.PeerEndpoint` | http_mirror_server/__init__.py:19-27 | corrected unpacking: the IP and port are the peer name's first two items, and they agree with the written unpacking wherever that succeeds |
| `Handler.ConnectionOutcome` | http_mirror_server/__init__.py:17-99 | an entry is logged exactly when the builder succeeds, and a builder failure is swallowed with its message. A logged entry has direction `ingress`, protocol `http`, the builder's other namespaces, and, when a peer name was obtained, the peer's IP and port as source |
| `Handler.LoggedEntryMetadata` | http_mirror_server/__init__.py:80-90 | the logged entry's type, transport and IANA number follow the socket, and without a peer name its source is the builder's |
| `Handler.ConnectionOutcomeAsWritten` | http_mirror_server/__init__.py:17-27 | as written, an AF_INET6 peer name always ends in a swallowed unpacking error. Otherwise the outcome is the corrected one |
| `Handler.Inet6PeerNeverLoggedAsWritten` | http_mirror_server/__init__.py:27 | as written, no connection from an IPv6 peer is ever logged |
| `Handler.Inet6PeerLogged` | http_mirror_server/__init__.py:22-42 | corrected, an IPv6 connection whose entry builds is logged with `network.type` `ipv6` and the peer's IP and port |
| `Handler.StreamWriter.Close` | http_mirror_server/__init__.py:66 | `writer.close()` marks the writer closed |
| `Handler.Handle` | http_mirror_server/__init__.py:13-99 | one pass of `handle` reads the whole stream and closes the writer. Its outcome is `ConnectionOutcome` of the bytes the peer sent |

## Left out

- Scheduling: asyncio scheduling, `start_server`/`serve_forever` and the await points are not modelled. `readline()` and `read()` act on a reader that already holds everything the peer sent before closing.
- Read failures: asyncio's line-length limit for `readline()` (`LimitOverrunError`/`ValueError`) and connection read errors are library behaviour the handler does not show. The modelled reader cannot fail.
- Entry builder: `entry_from_http_request` (HTTP parsing, Host and Forwarded headers, body decompression) and the public-suffix trie it receives are foreign code. The builder is a parameter that returns an entry or an error message.
- Namespaces: `get_field_value(create_namespaces=True)` is modelled as "the existing namespace, or a new empty one". ECS fields other than those `handle` assigns are an uninterpreted `others` map.
- Logging: the `LOG.debug`/`warning`/`info`/`exception` calls, `entry.to_dict()` and the log handlers are I/O sinks. `Logged(entry)` stands for the `LOG.info` call, which the model assumes succeeds.
- Other exceptions: exceptions from `get_extra_info`, `writer.close()` or the logger are not modelled.
- Unix sockets: peer names of non-TCP sockets (AF_UNIX paths) are not modelled. The server listens on a TCP host and port only.
- Handler.ConnectionOutcomeAsWritten: does not model the writer state. As written, an IPv6 connection is never closed by `handle`, because the exception is raised before `writer.close()`.
- Handler.Handle: uses the corrected peer-name unpacking of the Findings below, not the written one.
- Context files: http_mirror_server.py (server bootstrap), http_mirror_server/cli.py (argument parsing), http_mirror_server/environ.py (environment variables) and setup.py (packaging) are not part of this model.

## Findings

| source | as written | input that shows it | evidently intended | confidence | as-written member | corrected member |
|---|---|---|---|---|---|---|
| http_mirror_server/__init__.py:27 | `source_ip, source_port = peer_name` unpacks exactly two items. The bare `except` swallows the `ValueError`, and the writer is left open | a connection on an AF_INET6 socket (the default host `localhost` often resolves to `::1`), whose peer name is `(host, port, flowinfo, scope_id)` | take IP and port from the first two items and log the entry, with `network.type` `ipv6` as lines 41-42 provide | high; not executed | `Handler.ConnectionOutcomeAsWritten` (shown by `Handler.Inet6PeerNeverLoggedAsWritten`) | `Handler.PeerEndpoint` (proved by `Handler.Inet6PeerLogged`) |
