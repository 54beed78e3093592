/** The direct-capture framer of `handle`: one request line, then header lines
    up to and including the first blank one, then the rest of the stream as
    the body. */
module Framing {
  import opened Streams

  /** The three parts `handle` passes on to the entry builder. */
  datatype RawRequest = RawRequest(requestLine: seq<Byte>, rawHeaders: seq<Byte>, body: seq<Byte>)

  /** Where the header loop leaves the cursor when it starts at `pos`: it reads
      lines until end of stream, or until it has read a blank line. */
  function HeaderStop(data: seq<Byte>, pos: nat): (e: nat)
    requires pos <= |data|
    ensures pos <= e <= |data|
    decreases |data| - pos
  {
    var e := LineEnd(data, pos);
    if e == pos then pos
    else if IsBlank(data[pos..e]) then e
    else HeaderStop(data, e)
  }

  /** The lines the header loop appends to `raw_headers`, one by one, when it
      starts at `pos`. */
  function HeaderLines(data: seq<Byte>, pos: nat): seq<seq<Byte>>
    requires pos <= |data|
    decreases |data| - pos
  {
    var e := LineEnd(data, pos);
    if e == pos then []
    else if IsBlank(data[pos..e]) then [data[pos..e]]
    else [data[pos..e]] + HeaderLines(data, e)
  }

  /** The header lines, concatenated, are exactly the bytes the header loop
      consumes. */
  lemma {:induction false} HeaderLinesSpanHeaderStop(data: seq<Byte>, pos: nat)
    requires pos <= |data|
    ensures Concat(HeaderLines(data, pos)) == data[pos..HeaderStop(data, pos)]
    decreases |data| - pos
  {
    var e := LineEnd(data, pos);
    if e != pos && !IsBlank(data[pos..e]) {
      HeaderLinesSpanHeaderStop(data, e);
      var hs := HeaderLines(data, pos);
      assert hs[1..] == HeaderLines(data, e);
      assert data[pos..HeaderStop(data, pos)] == data[pos..e] + data[e..HeaderStop(data, e)];
    }
  }

  /** How the framer splits the bytes `s` of a connection. */
  function Frame(s: seq<Byte>): (r: RawRequest)
    ensures r.requestLine + r.rawHeaders + r.body == s
  {
    var lineEnd := LineEnd(s, 0);
    var headerEnd := HeaderStop(s, lineEnd);
    assert s == s[..lineEnd] + s[lineEnd..headerEnd] + s[headerEnd..];
    RawRequest(s[..lineEnd], s[lineEnd..headerEnd], s[headerEnd..])
  }

  /** The request line is the stream's first line (empty for an empty stream,
      all of it when it holds no LF, up to its first LF otherwise), and the
      raw headers are the header lines that follow it. */
  lemma FrameParts(s: seq<Byte>)
    ensures Frame(s).requestLine == FirstLine(s)
    ensures Frame(s).rawHeaders == Concat(HeaderLines(s, |FirstLine(s)|))
  {
    HeaderLinesSpanHeaderStop(s, LineEnd(s, 0));
  }

  /** Each header line is a line of the stream: non-empty, with no LF before
      its last byte, and ending in LF unless the stream ran out. */
  lemma {:induction false} HeaderLinesAreLines(data: seq<Byte>, pos: nat)
    requires pos <= |data|
    ensures var hs := HeaderLines(data, pos);
      forall i :: 0 <= i < |hs| ==> hs[i] != [] && NoInnerLF(hs[i])
    ensures HeaderLines(data, pos) != [] ==>
      EndsInLF(HeaderLines(data, pos)[|HeaderLines(data, pos)| - 1]) || HeaderStop(data, pos) == |data|
    decreases |data| - pos
  {
    var e := LineEnd(data, pos);
    LineEndIsFirstLF(data, pos);
    if e != pos && !IsBlank(data[pos..e]) {
      HeaderLinesAreLines(data, e);
      var hs := HeaderLines(data, pos);
      assert forall i :: 1 <= i < |hs| ==> hs[i] == HeaderLines(data, e)[i - 1];
    }
    LastHeaderLineComplete(data, pos);
  }

  /** The last header line read ends in LF, unless the stream ended first. */
  lemma {:induction false} LastHeaderLineComplete(data: seq<Byte>, pos: nat)
    requires pos <= |data|
    ensures HeaderLines(data, pos) != [] ==>
      EndsInLF(HeaderLines(data, pos)[|HeaderLines(data, pos)| - 1]) || HeaderStop(data, pos) == |data|
    decreases |data| - pos
  {
    var e := LineEnd(data, pos);
    if e != pos && !IsBlank(data[pos..e]) {
      LastHeaderLineComplete(data, e);
      var ts := HeaderLines(data, e);
      if ts == [] {
        assert HeaderStop(data, pos) == |data|;
      } else {
        assert HeaderLines(data, pos)[|HeaderLines(data, pos)| - 1] == ts[|ts| - 1];
      }
    }
  }

  /** Header accumulation stops at the first blank line: every header line
      before the last ends in LF and is not blank. */
  lemma {:induction false} HeaderLinesBlankOnlyLast(data: seq<Byte>, pos: nat)
    requires pos <= |data|
    ensures forall i :: 0 <= i < |HeaderLines(data, pos)| - 1 ==>
      EndsInLF(HeaderLines(data, pos)[i]) && !IsBlank(HeaderLines(data, pos)[i])
    decreases |data| - pos
  {
    var e := LineEnd(data, pos);
    if e != pos && !IsBlank(data[pos..e]) {
      HeaderLinesBlankOnlyLast(data, e);
      var hs := HeaderLines(data, pos);
      var ts := HeaderLines(data, e);
      assert hs == [data[pos..e]] + ts;
      if ts != [] {
        assert e < |data|;
        assert hs[0] == data[pos..e];
        assert EndsInLF(hs[0]);
      }
      assert forall i :: 1 <= i < |hs| ==> hs[i] == ts[i - 1];
    }
  }

  /** The header loop stops early only on a blank line: either the last
      header line is blank, or the loop read to end of stream. */
  lemma {:induction false} HeaderLinesEndBlankOrAtEof(data: seq<Byte>, pos: nat)
    requires pos <= |data|
    ensures var hs := HeaderLines(data, pos);
      (hs != [] && IsBlank(hs[|hs| - 1])) || HeaderStop(data, pos) == |data|
    decreases |data| - pos
  {
    var e := LineEnd(data, pos);
    if e != pos && !IsBlank(data[pos..e]) {
      HeaderLinesEndBlankOrAtEof(data, e);
      var hs := HeaderLines(data, pos);
      assert hs[1..] == HeaderLines(data, e);
    }
  }

  /** When the stream ends before any blank line, the raw headers are
      everything after the request line and the body is empty. */
  lemma UnterminatedHeadersTakeRest(s: seq<Byte>)
    requires var hs := HeaderLines(s, |FirstLine(s)|);
      hs == [] || !IsBlank(hs[|hs| - 1])
    ensures Frame(s).rawHeaders == s[|FirstLine(s)|..]
    ensures Frame(s).body == []
  {
    HeaderLinesEndBlankOrAtEof(s, LineEnd(s, 0));
  }

  /** The header loop of `handle`: lines are appended to `raw_headers` until
      end of stream or until a blank line, which is appended too. */
  method ReadHeaders(reader: StreamReader) returns (rawHeaders: seq<Byte>)
    requires reader.Valid()
    modifies reader
    ensures reader.Valid()
    ensures reader.pos == HeaderStop(reader.data, old(reader.pos))
    ensures rawHeaders == reader.data[old(reader.pos)..reader.pos]
  {
    ghost var start := reader.pos;
    rawHeaders := [];
    while true
      invariant reader.Valid() && start <= reader.pos
      invariant rawHeaders == reader.data[start..reader.pos]
      invariant HeaderStop(reader.data, start) == HeaderStop(reader.data, reader.pos)
      decreases |reader.data| - reader.pos
    {
      var line := reader.ReadLine();
      if line == [] {
        break;
      }
      rawHeaders := rawHeaders + line;
      if IsBlank(line) {
        break;
      }
    }
  }

  /** The reading part of `handle`: the request line, the header loop and the
      read to end of stream. */
  method ReadRawRequest(reader: StreamReader) returns (req: RawRequest)
    requires reader.Valid()
    modifies reader
    ensures reader.Valid() && reader.Remaining() == []
    ensures req == Frame(old(reader.Remaining()))
  {
    ghost var start := reader.pos;
    var requestLine := reader.ReadLine();
    var rawHeaders := ReadHeaders(reader);
    var body := reader.Read();
    req := RawRequest(requestLine, rawHeaders, body);
    FrameAt(reader.data, start);
  }

  /** Framing the unread bytes of a stream, in terms of the cursor. */
  lemma FrameAt(data: seq<Byte>, start: nat)
    requires start <= |data|
    ensures var lineEnd := LineEnd(data, start);
      var headerEnd := HeaderStop(data, lineEnd);
      Frame(data[start..]) == RawRequest(data[start..lineEnd], data[lineEnd..headerEnd], data[headerEnd..])
  {
    var lineEnd := LineEnd(data, start);
    var headerEnd := HeaderStop(data, lineEnd);
    RequestLineEndShift(data, start);
    HeaderEndShift(data, start);
    SlicesShift(data, start, lineEnd, headerEnd);
  }

  /** The request line end found in the unread bytes, shifted back by the
      cursor. */
  lemma RequestLineEndShift(data: seq<Byte>, start: nat)
    requires start <= |data|
    ensures LineEnd(data[start..], 0) + start == LineEnd(data, start)
  {
    LineEndShift(data, start, start);
  }

  /** The header end found in the unread bytes, shifted back by the cursor. */
  lemma HeaderEndShift(data: seq<Byte>, start: nat)
    requires start <= |data|
    ensures HeaderStop(data[start..], LineEnd(data[start..], 0)) + start == HeaderStop(data, LineEnd(data, start))
  {
    var lineEnd := LineEnd(data, start);
    RequestLineEndShift(data, start);
    assert LineEnd(data[start..], 0) == lineEnd - start;
    HeaderStopShift(data, start, lineEnd);
  }

  lemma SlicesShift(data: seq<Byte>, start: nat, i: nat, j: nat)
    requires start <= i <= j <= |data|
    ensures data[start..][..i - start] == data[start..i]
    ensures data[start..][i - start..j - start] == data[i..j]
    ensures data[start..][j - start..] == data[j..]
  {
  }

  /** Where the header loop stops does not depend on the bytes before `k`. */
  lemma {:induction false} HeaderStopShift(data: seq<Byte>, k: nat, pos: nat)
    requires k <= pos <= |data|
    ensures HeaderStop(data, pos) == k + HeaderStop(data[k..], pos - k)
    decreases |data| - pos
  {
    var e := LineEnd(data, pos);
    LineEndShift(data, k, pos);
    assert data[k..][pos - k..e - k] == data[pos..e];
    if e != pos && !IsBlank(data[pos..e]) {
      HeaderStopShift(data, k, e);
    }
  }
}
