/**
 * Concrete connections against the endpoint `server` builds, including the
 * exact bytes the demonstration client sends.
 */
module Scenarios {
  import opened Bufio
  import opened Trimming
  import opened Registry
  import opened Dispatch

  /** Spaces around the command word are dropped before the lookup. */
  lemma SpacesAroundCommandTrimmed()
    ensures Trim(" STRING \n") == "STRING"
  {
    TrimUnique(" STRING \n", 1, 7);
  }

  /** A carriage return is not in the cut set, so a CRLF-terminated command
      keeps it and is no longer "STRING". */
  lemma CarriageReturnKept()
    ensures Trim("STRING\r\n") == "STRING\r"
  {
    TrimUnique("STRING\r\n", 0, 7);
  }

  /** `"STRING\r\n"` is therefore an unregistered command: the connection is
      closed with nothing written and the rest of the input unread. */
  lemma CarriageReturnCommandCloses(more: string, end: StreamEnd, gob: Decoder)
    ensures Serve(ServerEndpoint(), Input("STRING\r\n" + more, end), gob)
         == Session([], [], ClosedUnregistered("STRING\r"), more)
  {
    CarriageReturnKept();
    assert "STRING\r\n"[..7] == "STRING\r";
    UnregisteredCloses(ServerEndpoint(), "STRING\r\n", more, end, gob);
  }

  /** "STRING\n" is a complete line naming the STRING command. */
  lemma StringCommandLine()
    ensures IsLine("STRING\n") && Trim("STRING\n") == "STRING"
  {
    TrimUnique("STRING\n", 0, 6);
    assert "STRING\n"[..6] == "STRING";
  }

  /** "GOB\n" is a complete line naming the GOB command. */
  lemma GobCommandLine()
    ensures IsLine("GOB\n") && Trim("GOB\n") == "GOB"
  {
    TrimUnique("GOB\n", 0, 3);
    assert "GOB\n"[..3] == "GOB";
  }

  /** A word followed by spaces and a newline is a line that trims back to
      the word, provided the word itself neither starts nor ends with a cut
      character and holds no newline. */
  lemma PaddedWordLine(word: string, pad: string)
    requires |word| > 0 && !IsCut(word[0]) && !IsCut(word[|word| - 1]) && NewlineFree(word)
    requires forall k :: 0 <= k < |pad| ==> pad[k] == ' '
    ensures IsLine(word + pad + "\n") && Trim(word + pad + "\n") == word
  {
    var s := word + pad + "\n";
    assert forall k :: 0 <= k < |s| - 1 ==> s[k] != '\n' by {
      forall k | 0 <= k < |s| - 1 ensures s[k] != '\n' {
        if k < |word| { assert s[k] == word[k]; } else { assert s[k] == pad[k - |word|]; }
      }
    }
    assert TrimmedAt(s, 0, |word|);
    TrimUnique(s, 0, |word|);
    assert s[..|word|] == word;
  }

  /** The client's payload line loses its trailing space and newline. */
  lemma ClientPayloadLine()
    ensures IsLine("Additional data. \n") && Trim("Additional data. \n") == "Additional data."
  {
    PaddedWordLine("Additional data.", " ");
    assert "Additional data." + " " + "\n" == "Additional data. \n";
  }

  /** The client's STRING request: the payload is logged without its trailing
      space, exactly one acknowledgement is written, and the connection then
      closes at the end of the stream. */
  lemma ClientStringRequest(gob: Decoder)
    ensures Serve(ServerEndpoint(), Input("STRING\n" + "Additional data. \n", Eof), gob)
         == Session(Ack, [StringServed("Additional data.")], ClosedAtEof, [])
  {
    StringCommandLine();
    ClientPayloadLine();
    SingleStringRequest(ServerEndpoint(), "STRING\n", "Additional data. \n", Eof, gob);
  }

  /** The client's whole session: its STRING request and then "GOB" with the
      encoded record, on one connection. The two are served as independent
      rounds and only the first writes anything. */
  lemma StringThenGob(record: string, gob: Decoder)
    requires gob(record) == |record|
    ensures Serve(ServerEndpoint(), Input("STRING\n" + "Additional data. \n" + ("GOB\n" + record), Eof), gob)
         == Session(Ack, [StringServed("Additional data."), GobServed(record)], ClosedAtEof, [])
  {
    StringCommandLine();
    GobCommandLine();
    ClientPayloadLine();
    StringThenGobRequests(ServerEndpoint(), "STRING\n", "Additional data. \n", "GOB\n", record, Eof, gob);
  }

  /** The cut-short payload has no newline and trims to its word. */
  lemma PartialFragment()
    ensures NewlineFree("partial ") && Trim("partial ") == "partial"
  {
    TrimUnique("partial ", 0, 7);
    assert "partial "[..7] == "partial";
  }

  /** The payload line may be cut short by the end of the stream: the
      acknowledgement is written all the same. */
  lemma StringPayloadCutShort(gob: Decoder)
    ensures Serve(ServerEndpoint(), Input("STRING\n" + "partial ", Eof), gob)
         == Session(Ack, [StringServed("partial")], ClosedAtEof, [])
  {
    StringCommandLine();
    PartialFragment();
    StringPayloadAtEnd(ServerEndpoint(), "STRING\n", "partial ", Eof, gob);
  }
}
