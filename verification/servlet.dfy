/** The values and the per-request object that every part of the transport
    shares: optional values, protocol messages as their JSON text, and the
    asynchronous servlet exchange, reduced to the record of what was done
    to it. */
module Servlet {

  datatype Option<+T> = None | Some(value: T)

  /** A Bayeux message. Only its JSON text (`getJSON()`) matters to the
      transport; producing and parsing that text is not modelled. */
  datatype Message = Message(json: string)

  /** The HTTP status the transport uses for every failure it reports. */
  const SC_INTERNAL_SERVER_ERROR: int := 500

  /** What happened to one exchange, in order. `Dispatched` records the
      batch handed to message processing together with the request context
      that processing could see at that moment. */
  datatype Event =
    | Dispatched(batch: seq<Message>, transportSet: bool, request: Option<nat>)
    | ParseErrorHandled(json: string)
    | Completed
    | Error(code: int)

  /** The servlet `AsyncContext` of one request. */
  class Exchange {
    /** Identity of the request this exchange serves. */
    const request: nat
    var events: seq<Event>

    constructor (request: nat)
      ensures this.request == request && events == []
    {
      this.request := request;
      events := [];
    }

    /** `asyncContext.complete()`. */
    method Complete()
      modifies this
      ensures events == old(events) + [Completed]
    {
      events := events + [Completed];
    }

    /** The transport's `error(asyncContext, code)`: the failure is
        reported with the given status. */
    method Fail(code: int)
      modifies this
      ensures events == old(events) + [Error(code)]
    {
      events := events + [Error(code)];
    }
  }
}
