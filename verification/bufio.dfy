/**
 * The connection's buffered reader, reduced to the one call the dispatcher
 * makes: `ReadString('\n')`. A connection is the characters still to arrive
 * plus the way the stream ends once they are used up.
 */
module Bufio {
  import opened Wrappers

  /** How the stream ends after its last character: a clean end of stream
      (`io.EOF`) or any other read error. Once reached, every later read
      reports the same end. */
  datatype StreamEnd = Eof | Broken

  datatype Input = Input(data: string, end: StreamEnd)

  /** Outcome of `ReadString('\n')`: the line up to and including the
      delimiter and the input after it, or the fragment read before the
      stream ended together with the error. */
  datatype ReadResult =
    | Line(line: string, rest: Input)
    | Failed(partial: string, err: StreamEnd)

  /** `s` holds no newline. */
  predicate NewlineFree(s: string) {
    forall k :: 0 <= k < |s| ==> s[k] != '\n'
  }

  /** A complete line: non-empty, and its last character is its only '\n'. */
  predicate IsLine(c: string) {
    |c| > 0 && c[|c| - 1] == '\n' && forall k :: 0 <= k < |c| - 1 ==> c[k] != '\n'
  }

  /** Position of the first '\n' of `s` at or after `i`, if there is one. */
  function NewlineFrom(s: string, i: nat): (r: Option<nat>)
    requires i <= |s|
    ensures r.None? ==> forall k :: i <= k < |s| ==> s[k] != '\n'
    ensures r.Some? ==> i <= r.value < |s| && s[r.value] == '\n'
    ensures r.Some? ==> forall k :: i <= k < r.value ==> s[k] != '\n'
    decreases |s| - i
  {
    if i == |s| then None
    else if s[i] == '\n' then Some(i)
    else NewlineFrom(s, i + 1)
  }

  /** `rw.ReadString('\n')`: the prefix through the first newline, or, when
      no newline remains, everything left as a fragment and the stream's end
      as the error. */
  function ReadString(conn: Input): (r: ReadResult)
    ensures r.Line? ==> IsLine(r.line) && conn.data == r.line + r.rest.data && r.rest.end == conn.end
    ensures r.Failed? ==> NewlineFree(conn.data) && r.partial == conn.data && r.err == conn.end
  {
    match NewlineFrom(conn.data, 0) {
      case None => Failed(conn.data, conn.end)
      case Some(i) =>
        assert conn.data == conn.data[..i + 1] + conn.data[i + 1..];
        Line(conn.data[..i + 1], Input(conn.data[i + 1..], conn.end))
    }
  }

  /** A complete line at the front of the input is exactly what the next
      read returns, and the reader is left at the first character after it. */
  lemma ReadStringLine(line: string, more: string, end: StreamEnd)
    requires IsLine(line)
    ensures ReadString(Input(line + more, end)) == Line(line, Input(more, end))
  {
    var s := line + more;
    assert s[|line| - 1] == '\n';
    assert forall k :: 0 <= k < |line| - 1 ==> s[k] != '\n';
    var r := ReadString(Input(s, end));
    var n := |r.line|;
    // both are lines at the front of s, so they end at the same newline
    assert forall k :: 0 <= k < n - 1 ==> s[k] != '\n';
    assert n == |line|;
    assert r.line == s[..n];
    assert s[..|line|] == line;
  }
}
