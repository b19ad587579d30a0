/** The request-body readers: `AbstractReader` with its two strategies
    (`UTF8Reader` and `CharsetReader`) as one class whose strategy is fixed
    at construction, the drain loop run on each "data available"
    notification, and the dispatch of the decoded body. */
module Readers {
  import opened JavaInt
  import opened Servlet
  import opened Sequences
  import opened Context
  import opened InputStream
  import opened CharsetBuffer
  import opened Utf8Buffer

  /** What parsing the decoded body gives: a batch of messages, or a parse
      error. */
  datatype ParseResult = Parsed(batch: seq<Message>) | Malformed

  /** How `process` ends: normally, with an exception raised by message
      processing (which propagates to the caller), or with a parse error
      that was handled. */
  datatype ProcessOutcome = Processed | Raised | ParseFailed

  /** The calls one evaluation of the loop test makes. */
  function TestLog(ready: bool, finished: bool): seq<Call> {
    if ready then [ReadyQuery(true), FinishedQuery(finished)] else [ReadyQuery(false)]
  }

  class Reader {
    const exchange: Exchange
    const transport: Transport
    /** The buffer each read fills. */
    const buffer: array<byte>
    /** The UTF-8 strategy, or null. */
    const streaming: Utf8Reader?
    /** The buffer-then-decode strategy, or null. */
    const buffered: CharsetReader?

    /** The objects the reader uses, and the body bytes its strategy holds. */
    ghost var Repr: set<object>
    ghost var body: seq<byte>

    ghost predicate Valid()
      reads this, Repr
    {
      this in Repr && buffer !in Repr && buffer.Length == CAPACITY &&
      (streaming == null) != (buffered == null) &&
      (streaming != null ==> streaming in Repr && body == streaming.content) &&
      (buffered != null ==>
         buffered in Repr && buffered.content in Repr && buffered.Valid() &&
         body == buffered.Contents())
    }

    /** The text the strategy produces from the body. */
    ghost function Text(decodeUtf8: seq<byte> -> string, decode: (string, seq<byte>) -> string): string
      reads this, Repr
      requires Valid()
    {
      if streaming != null then decodeUtf8(body) else decode(buffered.charset, body)
    }

    /** `new UTF8Reader(asyncContext)`. */
    constructor Utf8(exchange: Exchange, transport: Transport)
      ensures Valid() && fresh(Repr) && fresh(buffer)
      ensures this.exchange == exchange && this.transport == transport
      ensures streaming != null && body == []
    {
      this.exchange := exchange;
      this.transport := transport;
      buffer := new byte[CAPACITY];
      var s := new Utf8Reader();
      streaming := s;
      buffered := null;
      Repr := {this, s};
      body := [];
    }

    /** `new CharsetReader(asyncContext, charset)`. */
    constructor WithCharset(exchange: Exchange, transport: Transport, charset: string)
      ensures Valid() && fresh(Repr) && fresh(buffer)
      ensures this.exchange == exchange && this.transport == transport
      ensures buffered != null && buffered.charset == charset && body == []
    {
      this.exchange := exchange;
      this.transport := transport;
      buffer := new byte[CAPACITY];
      streaming := null;
      var b := new CharsetReader(charset);
      buffered := b;
      Repr := {this, b, b.content};
      body := [];
    }

    /** `append(buffer, 0, length)`, dispatched to the strategy. Only the
        charset strategy can fail. */
    method Append(length: int) returns (outcome: AppendOutcome)
      requires Valid() && 0 <= length <= CAPACITY
      modifies Repr
      ensures Valid() && fresh(Repr - old(Repr))
      ensures outcome == Appended ==> body == old(body) + old(buffer[..length])
      ensures outcome == MessageTooLarge ==> buffered != null && body == old(body)
      ensures outcome == MessageTooLarge ==> |body| + length > 0x4000_0000
    {
      if streaming != null {
        streaming.Append(buffer, 0, length);
        body := streaming.content;
        outcome := Appended;
      } else {
        ghost var size0, count0 := buffered.content.Length, buffered.count;
        GrowthStep(size0, count0, length);
        OneDoubling(size0);
        outcome := buffered.Append(buffer, 0, length);
        Repr := Repr + {buffered.content};
        body := buffered.Contents();
      }
    }

    /** The loop test of `onDataAvailable` at line 123,
        `isReady() && !isFinished()`: the readiness check comes first, the
        finished check only when ready. */
    static method LoopTest(input: Input) returns (ready: bool, finished: bool)
      modifies input
      ensures input.calls == old(input.calls) + TestLog(ready, finished)
      ensures !ready ==> !finished
      ensures input.readResults == old(input.readResults)
      ensures |input.readyAnswers| + (if ready then 1 else 0) <= |old(input.readyAnswers)|
    {
      ready := input.IsReady();
      finished := false;
      if ready {
        finished := input.IsFinished();
      }
    }

    /** What holds at each evaluation of the drain loop's test: the calls
        since the drain began are `calls0` followed by one pass per read
        (`taken` are the results of those reads) and this test, and the body
        grew by what those reads returned. */
    ghost predicate Draining(input: Input, taken: seq<ReadResult>, calls0: seq<Call>, body0: seq<byte>,
                             ready: bool, finished: bool)
      reads this, input
    {
      input.calls == calls0 + RoundsLog(taken) + TestLog(ready, finished) &&
      body == body0 + Received(taken)
    }

    /** One pass of the drain loop after a test that let it through: read
        into the buffer, append unless the read returned -1, and, unless the
        append failed, evaluate the loop test again. */
    method Pass(input: Input, ghost taken0: seq<ReadResult>, ghost calls0: seq<Call>, ghost body0: seq<byte>)
      returns (outcome: AppendOutcome, ready: bool, finished: bool, ghost taken: seq<ReadResult>)
      requires Valid() && input !in Repr
      requires Draining(input, taken0, calls0, body0, true, false)
      modifies input, buffer, Repr
      ensures Valid() && fresh(Repr - old(Repr))
      ensures |taken| == |taken0| + 1 && taken[..|taken0|] == taken0
      ensures outcome == Appended ==> Draining(input, taken, calls0, body0, ready, finished)
      ensures outcome == Appended ==> |input.readyAnswers| + (if ready then 1 else 0) <= |old(input.readyAnswers)|
      ensures outcome == MessageTooLarge ==>
        buffered != null && taken[|taken0|].Bytes? &&
        input.calls == calls0 + RoundsLog(taken) && body == body0 + Received(taken0) &&
        |body| + |taken[|taken0|].data| > 0x4000_0000
    {
      ghost var pre := calls0 + RoundsLog(taken0);
      ghost var r := First(input.readResults, EndOfStream);
      var n := input.Read(buffer);
      taken := taken0 + [r];
      assert input.calls == pre + Round(r) by {
        SeqAssoc(pre, TestLog(true, false), [ReadCall(r)]);
      }
      assert input.calls == calls0 + RoundsLog(taken) by {
        RoundsLogAppend(taken0, r);
        SeqAssoc(calls0, RoundsLog(taken0), Round(r));
      }
      outcome := Appended;
      if n >= 0 {
        outcome := Append(n);
      }
      if outcome == Appended {
        assert body == body0 + Received(taken) by {
          ReceivedAppend(taken0, r);
          SeqAssoc(body0, Received(taken0), if r.Bytes? then r.data else []);
        }
        ready, finished := LoopTest(input);
      } else {
        ready, finished := false, false;
      }
    }

    /** `onDataAvailable()`: while the input is ready and not finished,
        read into the buffer and append what a read returned, unless it
        returned -1. `taken` are the results of the reads and `end` the
        calls after the last read. A failed append ends the drain with the
        error. */
    method OnDataAvailable(input: Input) returns (outcome: AppendOutcome, ghost taken: seq<ReadResult>, ghost end: seq<Call>)
      requires Valid() && input !in Repr
      modifies input, buffer, Repr
      ensures Valid() && fresh(Repr - old(Repr))
      ensures input.calls == old(input.calls) + RoundsLog(taken) + end
      ensures outcome == Appended ==> IsDrainEnd(end) && body == old(body) + Received(taken)
      ensures outcome == MessageTooLarge ==>
        end == [] && buffered != null && taken != [] && taken[|taken| - 1].Bytes? &&
        body == old(body) + Received(taken[..|taken| - 1]) &&
        |body| + |taken[|taken| - 1].data| > 0x4000_0000
    {
      ghost var calls0, body0 := input.calls, body;
      taken := [];
      outcome := Appended;
      var ready, finished := LoopTest(input);
      while ready && !finished
        invariant Valid() && input !in Repr && fresh(Repr - old(Repr))
        invariant outcome == Appended && Draining(input, taken, calls0, body0, ready, finished)
        decreases |input.readyAnswers| + (if ready then 1 else 0)
      {
        ghost var taken0 := taken;
        outcome, ready, finished, taken := Pass(input, taken, calls0, body0);
        if outcome == MessageTooLarge {
          end := [];
          assert taken[..|taken| - 1] == taken0;
          assert input.calls == calls0 + RoundsLog(taken) + end;
          return;
        }
      }
      // `onDataAvailable` asks `isFinished()` once more after the loop, at line 130 (only to log).
      ghost var pre := calls0 + RoundsLog(taken);
      var finishedAfter := input.IsFinished();
      end := TestLog(ready, finished) + [FinishedQuery(finishedAfter)];
      assert input.calls == pre + end by {
        SeqAssoc(pre, TestLog(ready, finished), [FinishedQuery(finishedAfter)]);
      }
    }

    /** `finish()`: the text of the whole body, decoded by the strategy. */
    method Finish(decodeUtf8: seq<byte> -> string, decode: (string, seq<byte>) -> string) returns (json: string)
      requires Valid()
      ensures json == Text(decodeUtf8, decode)
    {
      if streaming != null {
        json := streaming.Finish(decodeUtf8);
      } else {
        json := buffered.Finish(decode);
      }
    }

    /** `process(json)`: makes the transport and the request current,
        parses the body and dispatches the batch, or handles the parse error
        and completes the exchange; in every case, exception or not, it
        clears both again. `raises` says whether message processing throws
        (the exception then propagates to the container). */
    method Process(json: string, parse: string -> ParseResult, raises: bool) returns (outcome: ProcessOutcome)
      modifies exchange, transport, transport.bayeux
      ensures transport.bayeux.currentTransport == null && transport.currentRequest == None
      ensures parse(json).Parsed? ==>
        exchange.events == old(exchange.events) + [Dispatched(parse(json).batch, true, Some(exchange.request))] &&
        outcome == (if raises then Raised else Processed)
      ensures parse(json).Malformed? ==>
        exchange.events == old(exchange.events) + [ParseErrorHandled(json), Completed] &&
        outcome == ParseFailed
    {
      transport.bayeux.SetCurrentTransport(transport);
      transport.SetCurrentRequest(Some(exchange.request));
      match parse(json) {
        case Parsed(batch) =>
          exchange.events := exchange.events +
            [Dispatched(batch, transport.bayeux.currentTransport == transport, transport.currentRequest)];
          outcome := if raises then Raised else Processed;
        case Malformed =>
          exchange.events := exchange.events + [ParseErrorHandled(json)];
          exchange.Complete();
          outcome := ParseFailed;
      }
      transport.SetCurrentRequest(None);
      transport.bayeux.SetCurrentTransport(null);
    }

    /** `onAllDataRead()`: decodes the whole body and processes it. */
    method OnAllDataRead(decodeUtf8: seq<byte> -> string, decode: (string, seq<byte>) -> string,
                         parse: string -> ParseResult, raises: bool) returns (outcome: ProcessOutcome)
      requires Valid()
      modifies exchange, transport, transport.bayeux
      ensures transport.bayeux.currentTransport == null && transport.currentRequest == None
      ensures var json := old(Text(decodeUtf8, decode));
        match parse(json)
        case Parsed(batch) =>
          exchange.events == old(exchange.events) + [Dispatched(batch, true, Some(exchange.request))] &&
          outcome == (if raises then Raised else Processed)
        case Malformed =>
          exchange.events == old(exchange.events) + [ParseErrorHandled(json), Completed] &&
          outcome == ParseFailed
    {
      var json := Finish(decodeUtf8, decode);
      assert json == old(Text(decodeUtf8, decode));
      outcome := Process(json, parse, raises);
    }
  }
}
