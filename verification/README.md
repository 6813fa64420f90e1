# TCP command server: a Dafny model of the dispatcher

The program is a small TCP server with a demonstration client. The server
keeps an `Endpoint` that maps command names to handler functions. It
registers two of them, "STRING" and "GOB". Every accepted connection gets
its own `handleMessages` loop, which does the following each round:

1. read a command line with `ReadString('\n')`;
2. trim newlines and spaces off both ends with `strings.Trim(cmd, "\n ")`;
3. look the result up in the registry;
4. run the handler on the same buffered reader/writer.

The loop stops in three cases:

- the read hits the end of the stream;
- the read fails with any other error;
- the command is not registered.

The STRING handler reads one payload line, logs it trimmed and writes
`"Thank you. \n"`. If that read fails, it writes the reply anyway. The GOB
handler decodes one record from the connection and writes nothing.

The model covers all of this as pure functions over the input waiting on a
connection:

| module | file | contents |
|---|---|---|
| `Wrappers` | `wrappers.dfy` | `Option` |
| `Bufio` | `bufio.dfy` | A connection's input is an `Input`: the characters still to arrive plus how the stream ends (`Eof`, or `Broken` for any other read error). `ReadString` is `rw.ReadString('\n')` on it. |
| `Trimming` | `trimming.dfy` | `strings.Trim` with the cut set `"\n "`. It is characterised by `TrimmedAt`, which says that only the maximal runs of cut characters at the two ends are removed. |
| `Registry` | `registry.dfy` | The handler map with `NewEndpoint` and `AddHandleFunc`. `ServerEndpoint` holds the two registrations `server` makes. |
| `Dispatch` | `dispatch.dfy` | The two handlers and the per-connection loop. |
| `Scenarios` | `scenarios.dfy` | Concrete connections against the server's endpoint, including the client's STRING request. |

In `Dispatch`:

- `Serve` describes a whole connection as a `Session`. A session records:
  - every character written back;
  - every handler invocation, in order;
  - why the connection closed;
  - the input left unread.
- `HandleMessages` is the loop itself. It is proved to compute `Serve`.
- The GOB wire format is not modelled. The decoder is a parameter (`Decoder`)
  that says how many characters decoding one record reads from what is
  waiting. The model clamps that count to what is actually there.

Two consequences of the code worth stating plainly:

- A connection is not limited to one command. The loop keeps dispatching
  until one of its three exits.
- The trimming is not general whitespace trimming. Only `'\n'` and `' '`
  are cut, so a CRLF command line keeps its `'\r'`, becomes `"STRING\r"`,
  and is rejected as unregistered (`Scenarios.CarriageReturnCommandCloses`).

## Model

| member | source | states |
|---|---|---|
| Registry.NewEndpoint | main.go:70-74 | A fresh endpoint finds no handler under any name. |
| Registry.Lookup | main.go:117-119 | `e.handler[cmd]` with its `ok` flag: a handler is found exactly when the name is registered, and it is the registered one. |
| Registry.AddHandleFunc | main.go:76-80 | After registration, the name finds the new handler whatever it found before. Every other name finds what it found before. The set of registered names grows by exactly that name. |
| Registry.AddHandleFuncOverwrites | main.go:78 | Registering a name twice leaves the endpoint as if only the second registration had happened. |
| Registry.ServerEndpoint | main.go:214-217 | The server's endpoint knows exactly the two commands "STRING" and "GOB", bound to the STRING and GOB handlers. |
| Bufio.ReadString | main.go:106 | If a newline is waiting, the read returns the shortest prefix that ends in a newline and holds no other newline. That prefix followed by the rest is the input. If no newline is waiting, the read fails: the fragment is everything that was waiting and the error is the stream's end. |
| Bufio.ReadStringLine | main.go:106 | A complete line at the front of the input is exactly what the next read returns. The reader is left at the first character after it. |
| Trimming.Trim | main.go:115 | The result is the slice of the input between the leading run and the trailing run of `'\n'`/`' '`. Everything outside it is a cut character. A non-empty result neither starts nor ends with one. |
| Trimming.TrimUnique | main.go:115 | Any slice that meets this description is the trimmed string, so nothing but the two end runs is removed. |
| Trimming.TrimIdempotent | main.go:134 | `strings.Trim` with this cut set is idempotent: trimming its result again changes nothing. |
| Dispatch.HandleStrings | main.go:128-144 | It reads exactly one line, or all that is left if no newline comes. It logs that input trimmed. It writes the acknowledgement in both cases. |
| Dispatch.HandleGob | main.go:146-157 | The decoder's characters are consumed from the front of the input, never more than are waiting. What was read is the decoded record. Nothing is written. |
| Dispatch.Handle | main.go:118-124 | The registered handler runs on the input after the command line and consumes a prefix of it. STRING reads exactly one line (or all that is left when no newline comes). Only STRING writes, and it writes exactly the acknowledgement. |
| Dispatch.Serve | main.go:101-126 | The whole life of one connection, round by round. It has no contract of its own: its properties are stated by `Dispatch.HandleMessages` and the lemmas below (`NoNewlineCloses`, `UnregisteredCloses`, `RegisteredRunsOnceThenLoops`, `OutputIsOneAckPerString`, `UnreadIsSuffix`, `ServedAtMostNewlines`). |
| Dispatch.HandleMessages | main.go:101-126 | The `for` loop produces exactly the session that `Serve` defines round by round. |
| Dispatch.NoNewlineCloses | main.go:104-113 | With no newline left, the connection closes without a handler, without output and with nothing unread. It closes at the end of the stream or on a read error, according to how the stream ends. |
| Dispatch.UnregisteredCloses | main.go:115-123 | A command line whose trimmed text is not registered closes the connection. No handler runs, nothing is written, and the whole input after that line stays unread. |
| Dispatch.RegisteredRunsOnceThenLoops | main.go:104-125 | A registered command runs its handler once on the input after the command line. The loop then starts over on exactly what the handler left. |
| Dispatch.StringCommandThenContinue | main.go:118-136 | A STRING command with a complete payload line logs the trimmed payload and writes one acknowledgement. The connection goes on serving what follows. |
| Dispatch.SingleStringRequest | main.go:101-144 | A connection carrying one STRING command and one payload line writes one acknowledgement, then closes the way the stream ends. |
| Dispatch.StringPayloadAtEnd | main.go:130-136 | If the payload read fails, the fragment is still logged trimmed and the acknowledgement is still written. The next command read then closes the connection. |
| Dispatch.GobReadsWholeRecord | main.go:149-150 | A decoder that reads all that is waiting yields that whole input as its record and leaves nothing behind. |
| Dispatch.SingleGobRequest | main.go:146-157 | A GOB command followed by one record is decoded without writing anything. The next command read closes the connection. |
| Dispatch.StringThenGobRequests | main.go:101-157 | A STRING request and then a GOB request on one connection are served as two rounds, in order. Only the first writes anything. |
| Dispatch.OutputIsOneAckPerString | main.go:136 | On every connection, the whole output is one acknowledgement per STRING invocation, back to back, and nothing else. |
| Dispatch.UnreadIsSuffix | main.go:101-126 | The input is read strictly front to back: what is left unread is a suffix of it. Only an unregistered command leaves anything unread. |
| Dispatch.ServedAtMostNewlines | main.go:104-124 | No connection runs more handlers than its input has newlines, because every round's command line holds one. |
| Scenarios.SpacesAroundCommandTrimmed | main.go:115 | `" STRING \n"` trims to the command name "STRING". |
| Scenarios.CarriageReturnKept | main.go:115 | `"STRING\r\n"` trims to `"STRING\r"`: a carriage return is not cut. |
| Scenarios.CarriageReturnCommandCloses | main.go:115-122 | On the server's endpoint, a CRLF-terminated "STRING" command closes the connection as unregistered. Nothing is written and the rest stays unread. |
| Scenarios.ClientStringRequest | main.go:176-180 | The client's exact STRING request gets one acknowledgement. The server logs "Additional data." without the trailing space. The connection closes at the end of the stream. |
| Scenarios.StringThenGob | main.go:176-203 | The client's bytes, its STRING request with "Additional data. \n" and then "GOB" with the encoded record, are served in two rounds. "Additional data." is logged, one acknowledgement is written, the record is decoded, and the connection closes at the end of the stream. |
| Scenarios.StringPayloadCutShort | main.go:130-136 | A payload cut short by the end of the stream is logged trimmed and still acknowledged. |

## Left out

- Networking is not modelled: `Listen`, `Accept`, `Open`, `net.Dial`, the port constant and the goroutine per connection. The model starts from the characters one connection delivers.
- The `sync.RWMutex` around the handler map is not modelled. Registration happens before `Listen`, so dispatch only reads the map. Concurrent registration is outside the model.
- Logging is not modelled. The only logged value kept is the one the handlers compute: the trimmed STRING payload and the decoded GOB record.
- Write and flush errors in the STRING handler are not modelled. They are only logged and do not change what the loop does next, so every write is taken to succeed.
- The gob codec and `dataObject` are not modelled. The encoding is abstracted by the `Decoder` parameter.
- Dispatch.HandleGob: a failed decode and a successful one are not told apart. Both read some characters, write nothing and go back to the loop, as the source does.
- Dispatch.HandleGob: a decoder that asks for more characters than are waiting is clamped to what is there. The blocking read that would wait for more data is not modelled.
- Bufio.ReadString: the end of the stream is sticky. After the first failed read, every later read reports the same end. Go's `bufio.Reader` hands an error out once and then asks the connection again. A closed TCP connection answers the same way again, but a transient error might not.
- `main`, `init`, the command-line flag and `client` are not modelled. Only the bytes the client writes are used, as input in the `Scenarios` module.
- The nil dereference in `Listen`'s error path (the error message reads the address of a listener that failed to open) is outside the modelled core.
- Only connections that eventually end are modelled. There are no read timeouts, so a peer that never sends a newline and never closes blocks `ReadString` forever; the model's input always has an end.
- Characters stand for bytes. The cut set and every delimiter are ASCII, so trimming and line splitting do not depend on the multi-byte encoding.
