/** `execute_command` (`src/main.rs`): fill the request template with the
    dispatch context, send it, and report success only for a 2xx status.
    Template resolution and the HTTP exchange are foreign code; they appear
    here as a `Client` function that returns what happened. */
module Dispatcher {
  import opened Wrappers
  import opened Policy

  /** What resolving the template and sending the request produced. */
  datatype Exchange =
    | BadTemplate               // `ParsedRequest::load` or `build_reqwest` failed
    | NoResponse                // `send` failed: connection, DNS, ...
    | Response(status: nat)     // a response arrived with this status code

  /** Template resolution plus transport, as seen by the dispatcher. */
  type Client = (string, map<string, string>) -> Exchange

  datatype DispatchError =
    | TemplateError
    | TransportError
    | RequestFailed(status: nat)

  /** `StatusCode::is_success`: the 2xx range. */
  predicate IsSuccess(status: nat) {
    200 <= status <= 299
  }

  /** `execute_command(command, mac_address, event_key)`. */
  function ExecuteCommand(command: string, mac: string, eventKey: string, client: Client): (r: Outcome<DispatchError>)
    ensures var x := client(command, DispatchContext(mac, eventKey));
      r.Pass? <==> x.Response? && 200 <= x.status < 300
    ensures var x := client(command, DispatchContext(mac, eventKey));
      x.Response? && !(200 <= x.status < 300) ==> r == Fail(RequestFailed(x.status))
    ensures var x := client(command, DispatchContext(mac, eventKey));
      && (x.BadTemplate? ==> r == Fail(TemplateError))
      && (x.NoResponse? ==> r == Fail(TransportError))
  {
    match client(command, DispatchContext(mac, eventKey))
    case BadTemplate => Fail(TemplateError)
    case NoResponse => Fail(TransportError)
    case Response(status) => if IsSuccess(status) then Pass else Fail(RequestFailed(status))
  }

  /** The outcome depends on the request only through what the client does
      with it: two clients that answer this request alike give the same
      outcome. */
  lemma OutcomeDependsOnlyOnExchange(command: string, mac: string, eventKey: string, c1: Client, c2: Client)
    requires c1(command, DispatchContext(mac, eventKey)) == c2(command, DispatchContext(mac, eventKey))
    ensures ExecuteCommand(command, mac, eventKey, c1) == ExecuteCommand(command, mac, eventKey, c2)
  {
  }
}
