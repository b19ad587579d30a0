/** `AsyncJSONTransport` itself: which requests it accepts, how `handle`
    picks the reader for the request body, and how `write` installs the
    writer for the response. */
module AsyncJson {
  import opened Servlet
  import opened Context
  import opened Readers
  import opened WriterSpec
  import opened Writers

  /** `Character.toUpperCase` on the characters that can upper-case to a
      letter of "POST": the ASCII lower-case letters, and U+017F (long s),
      whose upper case is 'S'. Every other character is left as it is. */
  function Upper(c: char): char {
    if 'a' <= c <= 'z' then (c as int - 32) as char
    else if c == 'ſ' then 'S'
    else c
  }

  /** `"POST".equalsIgnoreCase(request.getMethod())`: the request method is
      POST in any mixture of cases, the 'S' possibly written as a long s. */
  function Accept(verb: string): (r: bool)
    ensures r <==>
      |verb| == 4 && verb[0] in "Pp" && verb[1] in "Oo" &&
      verb[2] in "Ssſ" && verb[3] in "Tt"
  {
    |verb| == |"POST"| && forall i :: 0 <= i < |verb| ==> Upper(verb[i]) == "POST"[i]
  }

  /** The character encoding `handle` uses: the request's own, or UTF-8
      when the request names none. */
  function EffectiveEncoding(requested: Option<string>): (e: string)
    ensures requested.Some? ==> e == requested.value
    ensures requested.None? ==> e == "UTF-8"
  {
    match requested
    case None => "UTF-8"
    case Some(name) => name
  }

  /** How the body is read: decoded as it arrives (UTF-8), or buffered and
      decoded at the end with the named charset. */
  datatype Strategy = Streaming | Buffered(charset: string)

  /** `Charset.forName(encoding)` then the choice of reader. `forName`
      gives the canonical name of a supported charset, and None where
      `forName` throws (the exception leaves `handle`). */
  function SelectStrategy(requested: Option<string>, forName: string -> Option<string>): (s: Option<Strategy>)
    ensures s.None? <==> forName(EffectiveEncoding(requested)).None?
    ensures s == Some(Streaming) <==> forName(EffectiveEncoding(requested)) == Some("UTF-8")
    ensures s.Some? && s.value.Buffered? ==>
      forName(EffectiveEncoding(requested)) == Some(s.value.charset) && s.value.charset != "UTF-8"
  {
    match forName(EffectiveEncoding(requested))
    case None => None
    case Some(name) => Some(if name == "UTF-8" then Streaming else Buffered(name))
  }

  /** The choice depends on the charset, not on how the request spells
      it: two encodings naming the same charset get the same reader. */
  lemma AliasesAgree(a: Option<string>, b: Option<string>, forName: string -> Option<string>)
    requires forName(EffectiveEncoding(a)) == forName(EffectiveEncoding(b))
    ensures SelectStrategy(a, forName) == SelectStrategy(b, forName)
  {
  }

  /** A request that names no encoding is read as UTF-8, as it arrives,
      whenever UTF-8 is known under its canonical name. */
  lemma DefaultStreams(forName: string -> Option<string>)
    requires forName("UTF-8") == Some("UTF-8")
    ensures SelectStrategy(None, forName) == Some(Streaming)
  {
  }

  /** The request, as far as the transport touches it. */
  class Request {
    const verb: string
    var characterEncoding: Option<string>
    var asyncStarted: bool
    /** The async timeout; 0 disables it. */
    var asyncTimeout: int
    /** The read listener installed on the input stream. */
    var readListener: Reader?

    constructor (verb: string, characterEncoding: Option<string>)
      ensures this.verb == verb && this.characterEncoding == characterEncoding
      ensures !asyncStarted && readListener == null
    {
      this.verb := verb;
      this.characterEncoding := characterEncoding;
      asyncStarted := false;
      asyncTimeout := -1;
      readListener := null;
    }
  }

  /** The response, as far as the transport touches it. `outputAvailable`
      says whether `getOutputStream()` succeeds. */
  class Response {
    const output: Output
    const outputAvailable: bool
    var contentType: Option<string>
    /** The write listener installed on the output stream. */
    var writeListener: Writer?

    constructor (output: Output, outputAvailable: bool)
      ensures this.output == output && this.outputAvailable == outputAvailable
      ensures contentType == None && writeListener == null
    {
      this.output := output;
      this.outputAvailable := outputAvailable;
      contentType := None;
      writeListener := null;
    }
  }

  /** `handle`: sets the effective encoding on the request, starts async
      processing with the timeout disabled, and installs the reader the
      charset calls for. `reader` is null when the charset is not
      supported; `forName` then throws and no listener is installed. */
  method Handle(request: Request, exchange: Exchange, transport: Transport,
                forName: string -> Option<string>) returns (reader: Reader?)
    modifies request
    ensures request.characterEncoding == Some(EffectiveEncoding(old(request.characterEncoding)))
    ensures request.asyncStarted && request.asyncTimeout == 0
    ensures var s := SelectStrategy(old(request.characterEncoding), forName);
      match s
      case None => reader == null && request.readListener == old(request.readListener)
      case Some(strategy) =>
        reader != null && fresh(reader) && reader.Valid() && fresh(reader.Repr) &&
        reader.exchange == exchange && reader.transport == transport && reader.body == [] &&
        request.readListener == reader &&
        (reader.streaming != null <==> strategy == Streaming) &&
        (strategy.Buffered? ==> reader.buffered != null && reader.buffered.charset == strategy.charset)
  {
    var encoding := request.characterEncoding;
    if encoding == None {
      encoding := Some("UTF-8");
    }
    request.characterEncoding := encoding;
    request.asyncStarted := true;
    request.asyncTimeout := 0;
    var charset := forName(encoding.value);
    if charset == None {
      return null;
    }
    if charset.value == "UTF-8" {
      reader := new Reader.Utf8(exchange, transport);
    } else {
      reader := new Reader.WithCharset(exchange, transport, charset.value);
    }
    request.readListener := reader;
  }

  /** The content type every response gets. */
  const CONTENT_TYPE: string := "application/json;charset=UTF-8"

  /** `write`: sets the content type and installs a new writer, at the
      start of the response, as the output's write listener; when the
      output stream cannot be obtained, reports error 500 on the exchange
      instead. */
  method Write(response: Response, exchange: Exchange, transport: Transport, session: Session?,
               startInterval: bool, messages: seq<Message>, replies: seq<Option<Message>>)
    returns (writer: Writer?)
    modifies response, exchange
    ensures response.contentType == Some(CONTENT_TYPE)
    ensures response.outputAvailable ==>
      writer != null && fresh(writer) && writer.Valid() && writer.Position() == Initial &&
      writer.exchange == exchange && writer.transport == transport && writer.output == response.output &&
      writer.session == session && writer.startInterval == startInterval &&
      writer.messages == messages && writer.replies == replies &&
      response.writeListener == writer && exchange.events == old(exchange.events)
    ensures !response.outputAvailable ==>
      writer == null && response.writeListener == old(response.writeListener) &&
      exchange.events == old(exchange.events) + [Error(SC_INTERNAL_SERVER_ERROR)]
  {
    response.contentType := Some(CONTENT_TYPE);
    if !response.outputAvailable {
      exchange.Fail(SC_INTERNAL_SERVER_ERROR);
      return null;
    }
    writer := new Writer(exchange, transport, response.output, session, startInterval, messages, replies);
    response.writeListener := writer;
  }
}
