/**
 * The endpoint's command registry (`Endpoint.handler` in main.go): command
 * names mapped to handlers. Registration inserts or overwrites; nothing is
 * ever removed. The listener and the read/write lock are not modelled, so
 * the endpoint is just its map.
 */
module Registry {
  import opened Wrappers

  /** The two handler functions main.go registers: `handleStrings` and
      `handleGob`. */
  datatype Handler = StringH | GobH

  datatype Endpoint = Endpoint(handlers: map<string, Handler>)

  /** `NewEndpoint`: no command is registered yet. */
  function NewEndpoint(): (e: Endpoint)
    ensures forall name :: Lookup(e, name) == None
  {
    Endpoint(map[])
  }

  /** `e.handler[cmd]` with its `ok` flag. */
  function Lookup(e: Endpoint, name: string): (r: Option<Handler>)
    ensures r.Some? <==> name in e.handlers.Keys
    ensures r.Some? ==> e.handlers[name] == r.value
  {
    if name in e.handlers then Some(e.handlers[name]) else None
  }

  /** `AddHandleFunc(name, f)`: afterwards `name` finds `f`, whatever it found
      before, and every other name finds what it found before. */
  function AddHandleFunc(e: Endpoint, name: string, f: Handler): (e': Endpoint)
    ensures Lookup(e', name) == Some(f)
    ensures forall other :: other != name ==> Lookup(e', other) == Lookup(e, other)
    ensures e'.handlers.Keys == e.handlers.Keys + {name}
  {
    Endpoint(e.handlers[name := f])
  }

  /** Registering a name a second time replaces the first registration. */
  lemma AddHandleFuncOverwrites(e: Endpoint, name: string, f: Handler, g: Handler)
    ensures AddHandleFunc(AddHandleFunc(e, name, f), name, g) == AddHandleFunc(e, name, g)
  {
    assert AddHandleFunc(AddHandleFunc(e, name, f), name, g).handlers
        == AddHandleFunc(e, name, g).handlers;
  }

  /** `server`'s registrations: "STRING" runs `handleStrings`, "GOB" runs
      `handleGob`, and no other command is known. */
  function ServerEndpoint(): (e: Endpoint)
    ensures e.handlers.Keys == {"STRING", "GOB"}
    ensures Lookup(e, "STRING") == Some(StringH)
    ensures Lookup(e, "GOB") == Some(GobH)
  {
    AddHandleFunc(AddHandleFunc(NewEndpoint(), "STRING", StringH), "GOB", GobH)
  }
}
