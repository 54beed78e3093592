/** The byte streams the connection handler reads from: an asyncio StreamReader
    over a fixed input, its `readline()` and `read()`, and the blank-line test
    `not line.rstrip()` that the header loop applies. */
module Streams {

  newtype Byte = b: int | 0 <= b < 256

  /** The line terminator `readline()` looks for, b'\n'. */
  const LF: Byte := 10

  /** ASCII whitespace as Python's bytes methods define it:
      space, \t, \n, \r, \x0b and \x0c. */
  predicate IsAsciiSpace(b: Byte) {
    b == 32 || b == 9 || b == 10 || b == 13 || b == 11 || b == 12
  }

  /** The concatenation of a list of byte strings. */
  function Concat(parts: seq<seq<Byte>>): seq<Byte> {
    if parts == [] then [] else parts[0] + Concat(parts[1..])
  }

  /** A line ends in LF. */
  predicate EndsInLF(line: seq<Byte>) {
    line != [] && line[|line| - 1] == LF
  }

  /** A line holds no LF before its last byte. */
  predicate NoInnerLF(line: seq<Byte>) {
    forall j :: 0 <= j < |line| - 1 ==> line[j] != LF
  }

  /** Where the line that starts at `pos` in `data` ends: just past the first
      LF at or after `pos`, or at the end of `data` when there is none. */
  function LineEnd(data: seq<Byte>, pos: nat): (e: nat)
    requires pos <= |data|
    ensures pos <= e <= |data|
    ensures e == pos <==> pos == |data|
    ensures e == |data| || data[e - 1] == LF
    decreases |data| - pos
  {
    if pos == |data| then pos
    else if data[pos] == LF then pos + 1
    else LineEnd(data, pos + 1)
  }

  /** The line from `pos` to `LineEnd(data, pos)` holds no LF before its last
      byte. */
  lemma {:induction false} LineEndIsFirstLF(data: seq<Byte>, pos: nat)
    requires pos <= |data|
    ensures forall j :: pos <= j < LineEnd(data, pos) - 1 ==> data[j] != LF
    decreases |data| - pos
  {
    if pos < |data| && data[pos] != LF {
      LineEndIsFirstLF(data, pos + 1);
    }
  }

  /** Where a line ends does not depend on the bytes before `k`. */
  lemma {:induction false} LineEndShift(data: seq<Byte>, k: nat, pos: nat)
    requires k <= pos <= |data|
    ensures LineEnd(data, pos) == k + LineEnd(data[k..], pos - k)
    decreases |data| - pos
  {
    if pos < |data| && data[pos] != LF {
      LineEndShift(data, k, pos + 1);
    }
  }

  /** What `readline()` returns from a stream whose unread bytes are `s`. */
  function FirstLine(s: seq<Byte>): seq<Byte> {
    s[..LineEnd(s, 0)]
  }

  /** The line `readline()` returns is a prefix of the stream that is empty
      only at end of stream; it runs up to and including the first LF, or is
      all of `s` when `s` holds no LF. */
  lemma FirstLineShape(s: seq<Byte>)
    ensures var line := FirstLine(s);
      && line <= s
      && (line == [] <==> s == [])
      && NoInnerLF(line)
      && (LF in s ==> EndsInLF(line))
      && (LF !in s ==> line == s)
  {
    LineEndIsFirstLF(s, 0);
  }

  /** A prefix of `s` that is empty only at end of stream, holds no LF before
      its last byte, and either ends in LF or is all of `s`, is exactly the
      line `readline()` returns. */
  lemma FirstLineUnique(s: seq<Byte>, line: seq<Byte>)
    requires line <= s
    requires line == [] <==> s == []
    requires line == s || EndsInLF(line)
    requires NoInnerLF(line)
    ensures line == FirstLine(s)
  {
    LineEndIsFirstLF(s, 0);
  }

  /** Reading a line at cursor `pos` returns the first line of the unread
      bytes. */
  lemma ReadLineIsFirstLine(data: seq<Byte>, pos: nat)
    requires pos <= |data|
    ensures data[pos..LineEnd(data, pos)] == FirstLine(data[pos..])
  {
    LineEndShift(data, pos, pos);
  }

  /** `bytes.rstrip()` with no argument: `s` without its trailing ASCII
      whitespace. */
  function RStrip(s: seq<Byte>): (r: seq<Byte>)
    ensures r <= s
  {
    if s != [] && IsAsciiSpace(s[|s| - 1]) then RStrip(s[..|s| - 1]) else s
  }

  /** What `rstrip()` removes is whitespace, and what it keeps is empty or
      ends in a non-whitespace byte. */
  lemma {:induction false} RStripShape(s: seq<Byte>)
    ensures var r := RStrip(s);
      && (r == [] || !IsAsciiSpace(r[|r| - 1]))
      && forall j :: |r| <= j < |s| ==> IsAsciiSpace(s[j])
  {
    if s != [] && IsAsciiSpace(s[|s| - 1]) {
      RStripShape(s[..|s| - 1]);
    }
  }

  /** A header line that ends the headers: every byte is ASCII whitespace,
      which includes the empty line. */
  predicate IsBlank(line: seq<Byte>) {
    forall j :: 0 <= j < |line| ==> IsAsciiSpace(line[j])
  }

  /** The header loop's test `not line.rstrip()` holds exactly of blank
      lines. */
  lemma RStripEmptyIffBlank(line: seq<Byte>)
    ensures RStrip(line) == [] <==> IsBlank(line)
  {
  }

  /** An asyncio StreamReader whose peer has sent `data` and closed the
      connection: the cursor `pos` marks how much has been read. */
  class StreamReader {
    const data: seq<Byte>
    var pos: nat

    ghost predicate Valid()
      reads this
    {
      pos <= |data|
    }

    /** The bytes not yet read. */
    function Remaining(): seq<Byte>
      reads this
      requires Valid()
    {
      data[pos..]
    }

    constructor (data: seq<Byte>)
      ensures Valid() && this.data == data && pos == 0
    {
      this.data := data;
      pos := 0;
    }

    /** `await reader.readline()`: the unread bytes up to and including the
        next LF, or all of them when no LF is left. */
    method ReadLine() returns (line: seq<Byte>)
      requires Valid()
      modifies this
      ensures Valid()
      ensures pos == LineEnd(data, old(pos))
      ensures line == data[old(pos)..pos]
    {
      var e := LineEnd(data, pos);
      line := data[pos..e];
      pos := e;
    }

    /** `await reader.read()`: everything up to end of stream. */
    method Read() returns (rest: seq<Byte>)
      requires Valid()
      modifies this
      ensures Valid()
      ensures rest == old(Remaining()) && pos == |data|
    {
      rest := data[pos..];
      pos := |data|;
    }
  }
}
