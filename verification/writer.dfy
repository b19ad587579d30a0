/** The `Writer` write listener as written: it keeps its position between
    calls in `messageIndex`, `replyIndex` and `buffer`, and each
    `onWritePossible()` does what `WriterSpec.OnWritePossible` says. */
module Writers {
  import opened Servlet
  import opened Sequences
  import opened Context
  import opened WriterSpec

  /** The session the response goes to, as far as the writer uses it. */
  class Session {
    var connected: bool
    /** The intervals `startIntervalTimeout` was called with, in order. */
    var intervalTimeouts: seq<int>

    constructor (connected: bool)
      ensures this.connected == connected && intervalTimeouts == []
    {
      this.connected := connected;
      intervalTimeouts := [];
    }

    method IsConnected() returns (c: bool)
      ensures c == connected
    {
      c := connected;
    }

    method StartIntervalTimeout(interval: int)
      modifies this
      ensures connected == old(connected)
      ensures intervalTimeouts == old(intervalTimeouts) + [interval]
    {
      intervalTimeouts := intervalTimeouts + [interval];
    }
  }

  /** The servlet output stream: the chunks written so far, and the answers
      `isReady()` will give (ready once they are used up). */
  class Output {
    var chunks: seq<string>
    var readiness: seq<bool>

    constructor (readiness: seq<bool>)
      ensures chunks == [] && this.readiness == readiness
    {
      chunks := [];
      this.readiness := readiness;
    }

    method Write(chunk: string)
      modifies this
      ensures chunks == old(chunks) + [chunk] && readiness == old(readiness)
    {
      chunks := chunks + [chunk];
    }

    method IsReady() returns (ready: bool)
      modifies this
      ensures ready == Ready(old(readiness)) && readiness == Next(old(readiness))
      ensures chunks == old(chunks)
    {
      ready := Ready(readiness);
      readiness := Next(readiness);
    }
  }

  /** A pass that follows the chunks `done`. */
  function After(done: seq<string>, p: Pass): Pass {
    p.(written := done + p.written)
  }

  /** One turn of the messages loop, after the chunks `done`. */
  lemma MessageStep(messages: seq<Message>, i: nat, buffer: string, readiness: seq<bool>, done: seq<string>)
    requires i < |messages|
    ensures var chunk := buffer + (if i > 0 then "," else "") + messages[i].json;
      After(done, WriteMessages(messages, i, buffer, readiness)) ==
        if Ready(readiness) then After(done + [chunk], WriteMessages(messages, i + 1, "", Next(readiness)))
        else Pass(i + 1, "", done + [chunk], Next(readiness), true)
  {
    var chunk := buffer + (if i > 0 then "," else "") + messages[i].json;
    var rest := WriteMessages(messages, i + 1, "", Next(readiness));
    assert done + ([chunk] + rest.written) == done + [chunk] + rest.written;
  }

  /** One turn of the replies loop, after the chunks `done`. */
  lemma ReplyStep(replies: seq<Option<Message>>, j: nat, buffer: string, needsComma: bool,
                  readiness: seq<bool>, done: seq<string>)
    requires j < |replies|
    ensures replies[j].None? ==>
      After(done, WriteReplies(replies, j, buffer, needsComma, readiness)) ==
      After(done, WriteReplies(replies, j + 1, buffer, needsComma, readiness))
    ensures replies[j].Some? ==>
      var chunk := buffer + (if needsComma then "," else "") + replies[j].value.json +
                   (if j + 1 == |replies| then "]" else "");
      After(done, WriteReplies(replies, j, buffer, needsComma, readiness)) ==
        if Ready(readiness) then After(done + [chunk], WriteReplies(replies, j + 1, "", true, Next(readiness)))
        else Pass(j + 1, "", done + [chunk], Next(readiness), true)
  {
    if replies[j].Some? {
      var chunk := buffer + (if needsComma then "," else "") + replies[j].value.json +
                   (if j + 1 == |replies| then "]" else "");
      var rest := WriteReplies(replies, j + 1, "", true, Next(readiness));
      assert done + ([chunk] + rest.written) == done + [chunk] + rest.written;
    }
  }

  class Writer {
    const exchange: Exchange
    const transport: Transport
    const output: Output
    const session: Session?
    const startInterval: bool
    const messages: seq<Message>
    const replies: seq<Option<Message>>
    var messageIndex: int
    var replyIndex: int
    var buffer: string

    ghost function Position(): Cursor
      reads this
    {
      Cursor(messageIndex, replyIndex, buffer)
    }

    ghost predicate Valid()
      reads this
    {
      messageIndex <= |messages| && 0 <= replyIndex <= |replies|
    }

    /** Whether a call would start the interval if no reply had been
        written yet. */
    ghost function Armable(): bool
      reads this, session
    {
      startInterval && session != null && session.connected
    }

    constructor (exchange: Exchange, transport: Transport, output: Output, session: Session?,
                 startInterval: bool, messages: seq<Message>, replies: seq<Option<Message>>)
      ensures Valid() && Position() == Initial
      ensures this.exchange == exchange && this.transport == transport && this.output == output
      ensures this.session == session && this.startInterval == startInterval
      ensures this.messages == messages && this.replies == replies
    {
      this.exchange := exchange;
      this.transport := transport;
      this.output := output;
      this.session := session;
      this.startInterval := startInterval;
      this.messages := messages;
      this.replies := replies;
      messageIndex := -1;
      replyIndex := 0;
      buffer := "";
    }

    /** Writes the buffer as one chunk, empties it and asks the output
        whether it is still ready. */
    method Flush() returns (ready: bool)
      modifies this`buffer, output
      ensures buffer == "" && output.chunks == old(output.chunks) + [old(buffer)]
      ensures ready == Ready(old(output.readiness)) && output.readiness == Next(old(output.readiness))
    {
      output.Write(buffer);
      buffer := "";
      ready := output.IsReady();
    }

    /** The messages loop: returns whether it stopped because the output
        was not ready. */
    method WriteMessageChunks() returns (paused: bool)
      requires 0 <= messageIndex <= |messages|
      modifies this, output
      ensures replyIndex == old(replyIndex)
      ensures var p := WriteMessages(messages, old(messageIndex), old(buffer), old(output.readiness));
        messageIndex == p.index && buffer == p.buffer && paused == p.paused &&
        output.chunks == old(output.chunks) + p.written && output.readiness == p.readiness
    {
      ghost var spec := WriteMessages(messages, messageIndex, buffer, output.readiness);
      ghost var chunks0 := output.chunks;
      ghost var done: seq<string> := [];
      paused := false;
      while messageIndex < |messages| && !paused
        invariant old(messageIndex) <= messageIndex <= |messages| && replyIndex == old(replyIndex)
        invariant output.chunks == chunks0 + done
        invariant !paused ==> spec == After(done, WriteMessages(messages, messageIndex, buffer, output.readiness))
        invariant paused ==> spec == Pass(messageIndex, buffer, done, output.readiness, true)
        decreases |messages| - messageIndex, if paused then 0 else 1
      {
        MessageStep(messages, messageIndex, buffer, output.readiness, done);
        ghost var chunk := buffer + (if messageIndex > 0 then "," else "") + messages[messageIndex].json;
        if messageIndex > 0 {
          buffer := buffer + ",";
        } else {
          assert buffer + "" == buffer;
        }
        buffer := buffer + messages[messageIndex].json;
        messageIndex := messageIndex + 1;
        assert buffer == chunk;
        var ready := Flush();
        SeqAssoc(chunks0, done, [chunk]);
        done := done + [chunk];
        paused := !ready;
      }
    }

    /** The replies loop as written. */
    method WriteReplyChunks(needsComma0: bool) returns (paused: bool)
      requires 0 <= replyIndex <= |replies|
      modifies this, output
      ensures messageIndex == old(messageIndex)
      ensures var p := WriteReplies(replies, old(replyIndex), old(buffer), needsComma0, old(output.readiness));
        replyIndex == p.index && buffer == p.buffer && paused == p.paused &&
        output.chunks == old(output.chunks) + p.written && output.readiness == p.readiness
    {
      ghost var spec := WriteReplies(replies, replyIndex, buffer, needsComma0, output.readiness);
      ghost var chunks0 := output.chunks;
      ghost var done: seq<string> := [];
      var needsComma := needsComma0;
      paused := false;
      while replyIndex < |replies| && !paused
        invariant old(replyIndex) <= replyIndex <= |replies| && messageIndex == old(messageIndex)
        invariant output.chunks == chunks0 + done
        invariant !paused ==> spec == After(done, WriteReplies(replies, replyIndex, buffer, needsComma, output.readiness))
        invariant paused ==> spec == Pass(replyIndex, buffer, done, output.readiness, true)
        decreases |replies| - replyIndex, if paused then 0 else 1
      {
        ReplyStep(replies, replyIndex, buffer, needsComma, output.readiness, done);
        var reply := replies[replyIndex];
        replyIndex := replyIndex + 1;
        if reply.Some? {
          ghost var chunk := buffer + (if needsComma then "," else "") + reply.value.json +
                             (if replyIndex == |replies| then "]" else "");
          if needsComma {
            buffer := buffer + ",";
          } else {
            assert buffer + "" == buffer;
          }
          needsComma := true;
          buffer := buffer + reply.value.json;
          if replyIndex == |replies| {
            buffer := buffer + "]";
          } else {
            assert buffer + "" == buffer;
          }
          assert buffer == chunk;
          var ready := Flush();
          SeqAssoc(chunks0, done, [chunk]);
          done := done + [chunk];
          paused := !ready;
        }
      }
    }

    /** The `finally` block of the messages loop: the session's interval
        is started when no reply has been written yet. */
    method StartInterval()
      modifies session
      ensures session != null ==>
        session.connected == old(session.connected) &&
        session.intervalTimeouts ==
          old(session.intervalTimeouts) + (if replyIndex == 0 && old(Armable()) then [transport.interval] else [])
    {
      if replyIndex == 0 && startInterval && session != null {
        var connected := session.IsConnected();
        if connected {
          session.StartIntervalTimeout(transport.interval);
        }
      }
    }

    /** `onWritePossible()`: opens the array on the first call, writes
        messages, starts the session's interval when no reply has been
        written yet, then writes replies, and completes the exchange unless
        it returned because the output was not ready. */
    method OnWritePossible()
      requires Valid()
      modifies this, output, exchange, session
      ensures Valid()
      ensures var s := WriterSpec.OnWritePossible(messages, replies, old(Position()), old(output.readiness), old(Armable()));
        Position() == s.cursor &&
        output.chunks == old(output.chunks) + s.written && output.readiness == s.readiness &&
        (session != null ==>
           session.connected == old(session.connected) &&
           session.intervalTimeouts == old(session.intervalTimeouts) + (if s.armed then [transport.interval] else [])) &&
        exchange.events == old(exchange.events) + (if s.completed then [Completed] else [])
    {
      ghost var c0, readiness0, armable0, chunks0 := Position(), output.readiness, Armable(), output.chunks;
      ghost var s := WriterSpec.OnWritePossible(messages, replies, c0, readiness0, armable0);
      if messageIndex < 0 {
        messageIndex := 0;
        buffer := buffer + "[";
      }
      ghost var m := WriteMessages(messages, messageIndex, buffer, readiness0);
      var paused := WriteMessageChunks();
      assert output.chunks == chunks0 + m.written;
      StartInterval();
      if paused {
        return;
      }
      ghost var r := WriteReplies(replies, replyIndex, buffer, messageIndex > 0, output.readiness);
      paused := WriteReplyChunks(messageIndex > 0);
      SeqAssoc(chunks0, m.written, r.written);
      assert output.chunks == chunks0 + s.written;
      if !paused {
        exchange.Complete();
      }
    }
  }
}
