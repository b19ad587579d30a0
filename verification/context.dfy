/** The "current transport" and "current request" that message processing
    can look up while a batch is dispatched. */
module Context {
  import opened Servlet

  /** The part of the Bayeux server that holds the current transport. */
  class Bayeux {
    var currentTransport: Transport?

    constructor ()
      ensures currentTransport == null
    {
      currentTransport := null;
    }

    method SetCurrentTransport(t: Transport?)
      modifies this
      ensures currentTransport == t
    {
      currentTransport := t;
    }
  }

  /** The long-polling transport, reduced to its request context and the
      settings the writer reads. */
  class Transport {
    const bayeux: Bayeux
    /** The request being processed, by identity. */
    var currentRequest: Option<nat>
    /** The session interval timeout (`getInterval()`). */
    const interval: int

    constructor (bayeux: Bayeux, interval: int)
      ensures this.bayeux == bayeux && this.interval == interval
      ensures currentRequest == None
    {
      this.bayeux := bayeux;
      this.interval := interval;
      currentRequest := None;
    }

    method SetCurrentRequest(request: Option<nat>)
      modifies this
      ensures currentRequest == request
    {
      currentRequest := request;
    }
  }
}
