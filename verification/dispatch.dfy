/**
 * The per-connection command loop (`Endpoint.handleMessages`) and the two
 * handlers it can dispatch to. A connection is served by repeatedly reading
 * a command line, trimming it, looking it up and running the handler found;
 * it closes at the end of the stream, on a read error, or on the first
 * command that is not registered.
 */
module Dispatch {
  import opened Wrappers
  import opened Bufio
  import opened Trimming
  import opened Registry

  /** The fixed reply `handleStrings` writes for every STRING command. */
  const Ack: string := "Thank you. \n"

  /** The GOB decoder, whose wire format is not modelled: given the input
      waiting on the connection, how many characters decoding one record
      reads from it. */
  type Decoder = string -> nat

  /** What one handler invocation did: the STRING handler logs the trimmed
      payload line, the GOB handler decodes (and logs) one record from the
      characters it read. */
  datatype Served = StringServed(payload: string) | GobServed(record: string)

  /** One handler invocation: what it did, the characters it read, what it
      wrote, and the input left behind. */
  datatype Step = Step(served: Served, consumed: string, output: string, rest: Input)

  /** Why the connection was closed. */
  datatype Outcome = ClosedAtEof | ClosedOnReadError | ClosedUnregistered(command: string)

  /** A whole connection: everything written to the peer, every handler
      invocation in order, why it closed, and the input never read. */
  datatype Session = Session(output: string, served: seq<Served>, outcome: Outcome, unread: string)

  /** `consumed` is what one `ReadString('\n')` takes from `conn`: a complete
      line, or, when no newline is left, all the rest. */
  ghost predicate ReadsOneLine(conn: Input, consumed: string, rest: Input) {
    && conn.data == consumed + rest.data
    && rest.end == conn.end
    && (IsLine(consumed) || (NewlineFree(conn.data) && consumed == conn.data))
  }

  /** `handleStrings`: read one payload line, log it trimmed, reply with the
      acknowledgement. A failed read is only logged, so the reply is written
      even then, and the trimmed fragment is what gets logged. */
  function HandleStrings(conn: Input): (st: Step)
    ensures ReadsOneLine(conn, st.consumed, st.rest)
    ensures st.served == StringServed(Trim(st.consumed))
    ensures st.output == Ack
  {
    match ReadString(conn) {
      case Line(line, rest) => Step(StringServed(Trim(line)), line, Ack, rest)
      case Failed(partial, err) => Step(StringServed(Trim(partial)), partial, Ack, Input([], err))
    }
  }

  /** `handleGob`: the decoder reads what it needs (never more than is there)
      and nothing is written back. */
  function HandleGob(conn: Input, gob: Decoder): (st: Step)
    ensures conn.data == st.consumed + st.rest.data && st.rest.end == conn.end
    ensures gob(conn.data) <= |conn.data| ==> |st.consumed| == gob(conn.data)
    ensures gob(conn.data) > |conn.data| ==> st.rest.data == []
    ensures st.served == GobServed(st.consumed) && st.output == []
  {
    var n := if gob(conn.data) <= |conn.data| then gob(conn.data) else |conn.data|;
    assert conn.data == conn.data[..n] + conn.data[n..];
    Step(GobServed(conn.data[..n]), conn.data[..n], [], Input(conn.data[n..], conn.end))
  }

  /** `handleCommand(rw)`: run the registered handler on the connection. */
  function Handle(h: Handler, conn: Input, gob: Decoder): (st: Step)
    ensures conn.data == st.consumed + st.rest.data && st.rest.end == conn.end
    ensures h == StringH ==> ReadsOneLine(conn, st.consumed, st.rest)
    ensures st.served.StringServed? <==> h == StringH
    ensures st.output == if h == StringH then Ack else []
  {
    match h {
      case StringH => HandleStrings(conn)
      case GobH => HandleGob(conn, gob)
    }
  }

  /** How a failed command read closes the connection. */
  function ClosedBy(end: StreamEnd): Outcome {
    match end {
      case Eof => ClosedAtEof
      case Broken => ClosedOnReadError
    }
  }

  /** `s` preceded by output and invocations that happened before it. */
  function Prepend(output: string, served: seq<Served>, s: Session): Session {
    Session(output + s.output, served + s.served, s.outcome, s.unread)
  }

  /** `handleMessages`: the whole life of one connection. Every round reads a
      command line, which holds at least its newline, so the loop ends. */
  function Serve(e: Endpoint, conn: Input, gob: Decoder): Session
    decreases |conn.data|
  {
    match ReadString(conn) {
      case Failed(_, err) => Session([], [], ClosedBy(err), [])
      case Line(line, rest) =>
        var cmd := Trim(line);
        match Lookup(e, cmd) {
          case None => Session([], [], ClosedUnregistered(cmd), rest.data)
          case Some(h) =>
            var st := Handle(h, rest, gob);
            Prepend(st.output, [st.served], Serve(e, st.rest, gob))
        }
    }
  }

  /** The `for` loop of `handleMessages` itself, computing what `Serve`
      describes. */
  method HandleMessages(e: Endpoint, conn: Input, gob: Decoder) returns (s: Session)
    ensures s == Serve(e, conn, gob)
  {
    var cur := conn;
    var output: string := [];
    var served: seq<Served> := [];
    var open := true;
    s := Session([], [], ClosedAtEof, []);
    PrependNothing(Serve(e, conn, gob));
    while open
      invariant open ==> Serve(e, conn, gob) == Prepend(output, served, Serve(e, cur, gob))
      invariant !open ==> s == Serve(e, conn, gob)
      decreases open, |cur.data|
    {
      var r := ReadString(cur);
      if r.Failed? {
        assert output + [] == output && served + [] == served;
        s := Session(output, served, ClosedBy(r.err), []);
        open := false;
      } else {
        var cmd := Trim(r.line);
        var found := Lookup(e, cmd);
        if found.None? {
          assert output + [] == output && served + [] == served;
          s := Session(output, served, ClosedUnregistered(cmd), r.rest.data);
          open := false;
        } else {
          var st := Handle(found.value, r.rest, gob);
          ghost var tail := Serve(e, st.rest, gob);
          assert Serve(e, cur, gob) == Prepend(st.output, [st.served], tail);
          PrependTwice(output, served, st.output, [st.served], tail);
          output := output + st.output;
          served := served + [st.served];
          cur := st.rest;
        }
      }
    }
  }

  lemma PrependNothing(s: Session)
    ensures Prepend([], [], s) == s
  {
    assert [] + s.output == s.output && [] + s.served == s.served;
  }

  lemma PrependTwice(o1: string, s1: seq<Served>, o2: string, s2: seq<Served>, t: Session)
    ensures Prepend(o1, s1, Prepend(o2, s2, t)) == Prepend(o1 + o2, s1 + s2, t)
  {
    assert o1 + (o2 + t.output) == (o1 + o2) + t.output;
    assert s1 + (s2 + t.served) == (s1 + s2) + t.served;
  }

  /** With no newline left to read, the connection closes without running a
      handler and without writing anything, even if a fragment is waiting. */
  lemma NoNewlineCloses(e: Endpoint, conn: Input, gob: Decoder)
    requires NewlineFree(conn.data)
    ensures Serve(e, conn, gob) == Session([], [], ClosedBy(conn.end), [])
  {
  }

  /** An unregistered command closes the connection: no handler runs, nothing
      is written, and nothing after the command line is read. */
  lemma UnregisteredCloses(e: Endpoint, line: string, more: string, end: StreamEnd, gob: Decoder)
    requires IsLine(line) && Lookup(e, Trim(line)) == None
    ensures Serve(e, Input(line + more, end), gob)
         == Session([], [], ClosedUnregistered(Trim(line)), more)
  {
    ReadStringLine(line, more, end);
  }

  /** A registered command runs its handler once on the input after the
      command line, and the loop then starts over on whatever the handler
      left unread. */
  lemma RegisteredRunsOnceThenLoops(e: Endpoint, line: string, more: string, end: StreamEnd,
                                    gob: Decoder, h: Handler)
    requires IsLine(line) && Lookup(e, Trim(line)) == Some(h)
    ensures var st := Handle(h, Input(more, end), gob);
      Serve(e, Input(line + more, end), gob) == Prepend(st.output, [st.served], Serve(e, st.rest, gob))
  {
    ReadStringLine(line, more, end);
  }

  /** A STRING command with a complete payload line: the payload is logged
      trimmed, exactly one acknowledgement is written, and the connection goes
      on serving whatever follows. */
  lemma StringCommandThenContinue(e: Endpoint, line: string, payload: string, more: string,
                                  end: StreamEnd, gob: Decoder)
    requires IsLine(line) && Lookup(e, Trim(line)) == Some(StringH)
    requires IsLine(payload)
    ensures Serve(e, Input(line + payload + more, end), gob)
         == Prepend(Ack, [StringServed(Trim(payload))], Serve(e, Input(more, end), gob))
  {
    assert line + payload + more == line + (payload + more);
    RegisteredRunsOnceThenLoops(e, line, payload + more, end, gob, StringH);
    ReadStringLine(payload, more, end);
  }

  /** A connection carrying one STRING command and its payload line, and
      nothing more, writes one acknowledgement and then closes the way the
      stream ends. */
  lemma SingleStringRequest(e: Endpoint, line: string, payload: string, end: StreamEnd, gob: Decoder)
    requires IsLine(line) && Lookup(e, Trim(line)) == Some(StringH)
    requires IsLine(payload)
    ensures Serve(e, Input(line + payload, end), gob)
         == Session(Ack, [StringServed(Trim(payload))], ClosedBy(end), [])
  {
    var after := Serve(e, Input([], end), gob);
    assert Serve(e, Input(line + payload, end), gob)
        == Prepend(Ack, [StringServed(Trim(payload))], after) by {
      assert line + payload + [] == line + payload;
      StringCommandThenContinue(e, line, payload, [], end, gob);
    }
    assert after == Session([], [], ClosedBy(end), []) by {
      NoNewlineCloses(e, Input([], end), gob);
    }
    assert Ack + [] == Ack;
  }

  /** A decoder that reads the whole of what is waiting leaves nothing
      behind and writes nothing. */
  lemma GobReadsWholeRecord(record: string, end: StreamEnd, gob: Decoder)
    requires gob(record) == |record|
    ensures Handle(GobH, Input(record, end), gob) == Step(GobServed(record), record, [], Input([], end))
  {
    assert record[..|record|] == record;
  }

  /** A GOB command whose decoder reads everything after the command line:
      the record is decoded, nothing is written, and the next command read
      closes the connection the way the stream ended. */
  lemma SingleGobRequest(e: Endpoint, line: string, record: string, end: StreamEnd, gob: Decoder)
    requires IsLine(line) && Lookup(e, Trim(line)) == Some(GobH)
    requires gob(record) == |record|
    ensures Serve(e, Input(line + record, end), gob)
         == Session([], [GobServed(record)], ClosedBy(end), [])
  {
    assert Serve(e, Input(line + record, end), gob)
        == Prepend([], [GobServed(record)], Serve(e, Input([], end), gob)) by {
      GobReadsWholeRecord(record, end, gob);
      RegisteredRunsOnceThenLoops(e, line, record, end, gob, GobH);
    }
    NoNewlineCloses(e, Input([], end), gob);
  }

  /** A STRING request followed on the same connection by a GOB request are
      served as two rounds, in order, and only the first writes anything. */
  lemma StringThenGobRequests(e: Endpoint, cmd: string, payload: string, gobLine: string,
                              record: string, end: StreamEnd, gob: Decoder)
    requires IsLine(cmd) && Lookup(e, Trim(cmd)) == Some(StringH) && IsLine(payload)
    requires IsLine(gobLine) && Lookup(e, Trim(gobLine)) == Some(GobH)
    requires gob(record) == |record|
    ensures Serve(e, Input(cmd + payload + (gobLine + record), end), gob)
         == Session(Ack, [StringServed(Trim(payload)), GobServed(record)], ClosedBy(end), [])
  {
    assert Ack + [] == Ack;
    assert [StringServed(Trim(payload))] + [GobServed(record)] == [StringServed(Trim(payload)), GobServed(record)];
    var more := gobLine + record;
    StringCommandThenContinue(e, cmd, payload, more, end, gob);
    SingleGobRequest(e, gobLine, record, end, gob);
    PrependClosed(Serve(e, Input(cmd + payload + more, end), gob), Ack, [StringServed(Trim(payload))],
                  Serve(e, Input(more, end), gob), [], [GobServed(record)], ClosedBy(end));
  }

  /** Putting earlier rounds in front of a session that closed having read
      everything. */
  lemma PrependClosed(s: Session, output: string, served: seq<Served>, tail: Session,
                      tailOutput: string, tailServed: seq<Served>, outcome: Outcome)
    requires s == Prepend(output, served, tail)
    requires tail == Session(tailOutput, tailServed, outcome, [])
    ensures s == Session(output + tailOutput, served + tailServed, outcome, [])
  {
  }

  /** A STRING command whose payload never gets its newline: the failed read
      is only logged, so the fragment is logged trimmed and the
      acknowledgement is still written, and the next command read then
      closes the connection the way the stream ended. */
  lemma StringPayloadAtEnd(e: Endpoint, line: string, fragment: string, end: StreamEnd, gob: Decoder)
    requires IsLine(line) && Lookup(e, Trim(line)) == Some(StringH)
    requires NewlineFree(fragment)
    ensures Serve(e, Input(line + fragment, end), gob)
         == Session(Ack, [StringServed(Trim(fragment))], ClosedBy(end), [])
  {
    assert Ack + [] == Ack;
    assert [StringServed(Trim(fragment))] + [] == [StringServed(Trim(fragment))];
    assert Handle(StringH, Input(fragment, end), gob)
        == Step(StringServed(Trim(fragment)), fragment, Ack, Input([], end));
    RegisteredRunsOnceThenLoops(e, line, fragment, end, gob, StringH);
    NoNewlineCloses(e, Input([], end), gob);
    PrependClosed(Serve(e, Input(line + fragment, end), gob), Ack, [StringServed(Trim(fragment))],
                  Serve(e, Input([], end), gob), [], [], ClosedBy(end));
  }

  /** Number of STRING invocations among `served`. */
  function CountStrings(served: seq<Served>): nat {
    if served == [] then 0
    else (if served[0].StringServed? then 1 else 0) + CountStrings(served[1..])
  }

  /** `n` acknowledgements back to back. */
  function Acks(n: nat): string {
    if n == 0 then [] else Ack + Acks(n - 1)
  }

  lemma CountStringsAppend(a: seq<Served>, b: seq<Served>)
    ensures CountStrings(a + b) == CountStrings(a) + CountStrings(b)
  {
    if a != [] {
      assert (a + b)[0] == a[0];
      assert (a + b)[1..] == a[1..] + b;
      CountStringsAppend(a[1..], b);
    } else {
      assert a + b == b;
    }
  }

  lemma {:induction false} AcksAppend(m: nat, n: nat)
    ensures Acks(m) + Acks(n) == Acks(m + n)
  {
    if m > 0 {
      AcksAppend(m - 1, n);
      assert Acks(m) + Acks(n) == Ack + (Acks(m - 1) + Acks(n));
    }
  }

  /** The acknowledgement count is kept when one session is put after
      writes that already hold one acknowledgement per STRING invocation. */
  lemma PrependKeepsAcks(output: string, served: seq<Served>, tail: Session)
    requires output == Acks(CountStrings(served))
    requires tail.output == Acks(CountStrings(tail.served))
    ensures Prepend(output, served, tail).output == Acks(CountStrings(Prepend(output, served, tail).served))
  {
    CountStringsAppend(served, tail.served);
    AcksAppend(CountStrings(served), CountStrings(tail.served));
  }

  /** Everything a connection ever writes is one acknowledgement per STRING
      command served, and nothing else: GOB writes nothing and the dispatcher
      itself never writes. */
  lemma {:induction false} OutputIsOneAckPerString(e: Endpoint, conn: Input, gob: Decoder)
    ensures Serve(e, conn, gob).output == Acks(CountStrings(Serve(e, conn, gob).served))
    decreases |conn.data|
  {
    match ReadString(conn) {
      case Failed(_, _) =>
      case Line(line, rest) =>
        match Lookup(e, Trim(line)) {
          case None =>
          case Some(h) =>
            var st := Handle(h, rest, gob);
            OutputIsOneAckPerString(e, st.rest, gob);
            assert st.output == Acks(CountStrings([st.served]));
            PrependKeepsAcks(st.output, [st.served], Serve(e, st.rest, gob));
        }
    }
  }

  /** A command line followed by anything holds at least one more newline
      than what remains after both. */
  lemma LineThenRestNewlines(line: string, consumed: string, rest: string)
    requires IsLine(line)
    ensures multiset(line + consumed + rest)['\n'] >= 1 + multiset(rest)['\n']
  {
    assert line == line[..|line| - 1] + ['\n'];
    assert multiset(line)['\n'] >= 1;
    assert multiset(line + consumed + rest) == multiset(line) + multiset(consumed) + multiset(rest);
  }

  /** `u` is what is left of `s` after some prefix of it. */
  predicate IsSuffix(u: string, s: string) {
    |u| <= |s| && u == s[|s| - |u|..]
  }

  /** One served round keeps the suffix property: a session put after a
      round that read `front` leaves unread a suffix of the whole input. */
  lemma UnreadAfterRound(whole: string, line: string, mid: string, consumed: string, rest: string,
                          tail: Session, s: Session)
    requires whole == line + mid && mid == consumed + rest
    requires IsSuffix(tail.unread, rest)
    requires s.unread == tail.unread
    ensures IsSuffix(s.unread, whole)
  {
    assert whole == (line + consumed) + rest;
    assert whole[|whole| - |s.unread|..] == rest[|rest| - |s.unread|..];
  }

  /** The server reads its input strictly front to back: what it leaves
      unread is a suffix of the input, and only an unregistered command leaves
      anything unread. */
  lemma {:induction false} UnreadIsSuffix(e: Endpoint, conn: Input, gob: Decoder)
    ensures IsSuffix(Serve(e, conn, gob).unread, conn.data)
    ensures !Serve(e, conn, gob).outcome.ClosedUnregistered? ==> Serve(e, conn, gob).unread == []
    decreases |conn.data|
  {
    match ReadString(conn) {
      case Failed(_, _) =>
      case Line(line, rest) =>
        match Lookup(e, Trim(line)) {
          case None =>
            UnreadAfterRound(conn.data, line, rest.data, [], rest.data, Serve(e, conn, gob), Serve(e, conn, gob));
          case Some(h) =>
            var st := Handle(h, rest, gob);
            UnreadIsSuffix(e, st.rest, gob);
            UnreadAfterRound(conn.data, line, rest.data, st.consumed, st.rest.data,
                             Serve(e, st.rest, gob), Serve(e, conn, gob));
        }
    }
  }

  /** A connection runs at most one handler per newline in its input: each
      round's command line holds one. */
  lemma {:induction false} ServedAtMostNewlines(e: Endpoint, conn: Input, gob: Decoder)
    ensures |Serve(e, conn, gob).served| <= multiset(conn.data)['\n']
    decreases |conn.data|
  {
    match ReadString(conn) {
      case Failed(_, _) =>
      case Line(line, rest) =>
        match Lookup(e, Trim(line)) {
          case None =>
          case Some(h) =>
            var st := Handle(h, rest, gob);
            ServedAtMostNewlines(e, st.rest, gob);
            LineThenRestNewlines(line, st.consumed, st.rest.data);
        }
    }
  }
}
