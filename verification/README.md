# CometD asynchronous JSON long-polling transport, in Dafny

`AsyncJSONTransport` is the CometD server transport that carries Bayeux
messages over HTTP POST using the non-blocking I/O of Servlet 3.1. It
accepts any request whose method is POST, regardless of case. `handle`
starts asynchronous processing and installs a read listener on the request
body. A UTF-8 body is decoded as it arrives (`UTF8Reader`). Any other
charset is collected in a growable byte array and decoded once at the end
(`CharsetReader`). When the whole body is in, the reader parses it into a
batch of messages and dispatches it. While the batch is dispatched, the
transport and the request are made "current", and they are cleared again
however processing ends.

The answer goes out through a write listener (`Writer`). It writes a JSON
array: first the queued messages, then the non-null replies, one chunk per
output write. It returns whenever the output is not ready and resumes from
its cursors (`messageIndex`, `replyIndex`) when the container calls it
again. After the messages loop it may start the session's interval
timeout. After the last reply slot it completes the exchange.

The model is imperative where the code is:

- `CharsetBuffer.CharsetReader` keeps an `array` and a `count`, and has the
  doubling loop in Java `int` arithmetic (`JavaInt`).
- `Readers.Reader` has the drain loop over an input stream whose answers
  are oracles (`InputStream.Input`).
- `Writers.Writer` keeps its cursor fields and has the two write loops.

Each of these methods is proved against functions:

- `CharsetBuffer.GrowTo` for the array growth.
- `InputStream.RoundsLog` and `InputStream.Received` for the drain.
- `WriterSpec.OnWritePossible` and `WriterSpec.Run` for the writer.

Lemmas about those functions prove the properties: the order of input
calls, the text a whole response is made of, the interval start, and
progress. `FixedWriter` is the writer with the defects listed under
"Findings" corrected. For that version the response is proved to be the
intended JSON array for every input and every readiness pattern.

I/O, the clock and foreign code are parameters:

- `isReady`, `isFinished` and `read` of the input are sequences of answers.
- `isReady` of the output is a sequence of answers, and ready once they are
  used up.
- Charset decoding is a function parameter, and so is `Charset.forName`,
  which gives the canonical name or None where it throws.
- JSON parsing is a function parameter. Message processing is reduced to
  recording the dispatched batch, with a flag saying whether it throws.

All line references below are to
`cometd-java/cometd-java-server/src/main/java/org/cometd/server/transport/AsyncJSONTransport.java`.

## Model

| member | source | states |
|---|---|---|
| JavaInt.Wrap | cometd-java/cometd-java-server/src/main/java/org/cometd/server/transport/AsyncJSONTransport.java:217-218 | Java `int` arithmetic wraps modulo 2^32 into [-2^31, 2^31) and leaves in-range values alone |
| JavaInt.ShiftLeft1 | cometd-java/cometd-java-server/src/main/java/org/cometd/server/transport/AsyncJSONTransport.java:218 | `newSize <<= 1` doubles a size up to 2^30 - 1 and turns 2^30 into `Integer.MIN_VALUE` |
| JavaInt.Minus | cometd-java/cometd-java-server/src/main/java/org/cometd/server/transport/AsyncJSONTransport.java:217 | `newSize - count` is exact for non-negative operands and wraps when `newSize` is `Integer.MIN_VALUE` |
| CharsetBuffer.GrowTo | cometd-java/cometd-java-server/src/main/java/org/cometd/server/transport/AsyncJSONTransport.java:215-218 | the grown length leaves room for `length` more bytes after `count`, and equals the old length exactly when room already existed |
| CharsetBuffer.GrowToFewest | cometd-java/cometd-java-server/src/main/java/org/cometd/server/transport/AsyncJSONTransport.java:217-218 | the array is doubled the fewest times needed: half of a grown length would not have left room |
| CharsetBuffer.GrowToCapacity | cometd-java/cometd-java-server/src/main/java/org/cometd/server/transport/AsyncJSONTransport.java:202-218 | growth keeps the array length 512 doubled some number of times |
| CharsetBuffer.Doubled | cometd-java/cometd-java-server/src/main/java/org/cometd/server/transport/AsyncJSONTransport.java:218 | doubling a length the array can have gives a length it can have |
| CharsetBuffer.CapacityGap | cometd-java/cometd-java-server/src/main/java/org/cometd/server/transport/AsyncJSONTransport.java:202-218 | two different array lengths are at least a factor of two apart |
| CharsetBuffer.LargestCapacity | cometd-java/cometd-java-server/src/main/java/org/cometd/server/transport/AsyncJSONTransport.java:202-218 | 2^30 is a length the array can reach by doubling 512 |
| CharsetBuffer.OneDoubling | cometd-java/cometd-java-server/src/main/java/org/cometd/server/transport/AsyncJSONTransport.java:215-221 | one doubling of an `int`-sized array length stays in range unless that length is 2^30 |
| CharsetBuffer.GrowthStep | cometd-java/cometd-java-server/src/main/java/org/cometd/server/transport/AsyncJSONTransport.java:215-220 | for a chunk of at most 512 bytes, the Java loop doubles at most once, and the result is negative exactly when the true size exceeds `Integer.MAX_VALUE` |
| CharsetBuffer.ArrayCopy | cometd-java/cometd-java-server/src/main/java/org/cometd/server/transport/AsyncJSONTransport.java:223-230 | `System.arraycopy` puts the source range at `at` and leaves the destination before `at` and after the copied range as it was |
| Servlet.Exchange.Complete | cometd-java/cometd-java-server/src/main/java/org/cometd/server/transport/AsyncJSONTransport.java:320 | `asyncContext.complete()` records one completion after what happened before |
| Servlet.Exchange.Fail | cometd-java/cometd-java-server/src/main/java/org/cometd/server/transport/AsyncJSONTransport.java:99-102 | `error(asyncContext, code)` records one failure with the given status after what happened before |
| Context.Bayeux.SetCurrentTransport | cometd-java/cometd-java-server/src/main/java/org/cometd/server/transport/AsyncJSONTransport.java:151 | `setCurrentTransport` makes the given transport (or none) current |
| Context.Transport.SetCurrentRequest | cometd-java/cometd-java-server/src/main/java/org/cometd/server/transport/AsyncJSONTransport.java:152 | `setCurrentRequest` makes the given request (or none) current |
| CharsetBuffer.CharsetReader.Contents | cometd-java/cometd-java-server/src/main/java/org/cometd/server/transport/AsyncJSONTransport.java:202-204 | the appended bytes are the first `count` bytes of the array |
| CharsetBuffer.CharsetReader.constructor | cometd-java/cometd-java-server/src/main/java/org/cometd/server/transport/AsyncJSONTransport.java:202-210 | a new reader has a fresh 512-byte array, no content, and the given charset |
| CharsetBuffer.CharsetReader.NewSize | cometd-java/cometd-java-server/src/main/java/org/cometd/server/transport/AsyncJSONTransport.java:215-218 | the doubling loop in `int` arithmetic gives `GrowTo` when that fits an `int`, and a negative size otherwise |
| CharsetBuffer.CharsetReader.Append | cometd-java/cometd-java-server/src/main/java/org/cometd/server/transport/AsyncJSONTransport.java:212-232 | it fails ("Message too large") exactly when the grown size overflows, and then leaves array, count and bytes untouched. Otherwise the array length is `GrowTo` of the old one, the array is the old one or a fresh one, and the contents are the old contents followed by the new bytes |
| CharsetBuffer.CharsetReader.Finish | cometd-java/cometd-java-server/src/main/java/org/cometd/server/transport/AsyncJSONTransport.java:234-238 | the text is the reader's charset decoding of exactly the `count` bytes appended |
| Utf8Buffer.Utf8Reader.Append | cometd-java/cometd-java-server/src/main/java/org/cometd/server/transport/AsyncJSONTransport.java:187-191 | the decoder has received the old bytes followed by the new ones |
| Utf8Buffer.Utf8Reader.Finish | cometd-java/cometd-java-server/src/main/java/org/cometd/server/transport/AsyncJSONTransport.java:193-197 | the text is the UTF-8 decoding of all bytes received |
| InputStream.RoundsLog | cometd-java/cometd-java-server/src/main/java/org/cometd/server/transport/AsyncJSONTransport.java:123-125 | each read pass makes three calls: ready (yes), finished (no), read |
| InputStream.Received | cometd-java/cometd-java-server/src/main/java/org/cometd/server/transport/AsyncJSONTransport.java:125-128 | only reads that returned a count contribute bytes; a drain of -1 results contributes none |
| InputStream.ReceivedAppend | cometd-java/cometd-java-server/src/main/java/org/cometd/server/transport/AsyncJSONTransport.java:125-128 | one more read adds its bytes after the earlier ones, in arrival order |
| InputStream.RoundsLogAppend | cometd-java/cometd-java-server/src/main/java/org/cometd/server/transport/AsyncJSONTransport.java:123-125 | one more read pass adds its three calls at the end |
| InputStream.ReadsGuardedStep | cometd-java/cometd-java-server/src/main/java/org/cometd/server/transport/AsyncJSONTransport.java:123-125 | a read pass before a log whose reads are guarded keeps every read guarded by "ready, not finished" |
| InputStream.FinishedAfterReadyStep | cometd-java/cometd-java-server/src/main/java/org/cometd/server/transport/AsyncJSONTransport.java:121-123 | a read pass keeps every finished check right after a readiness check, or right after the finished check that ended the loop (the check at line 130 follows a loop test that ended on `isFinished()`) |
| InputStream.NoReadAfterStopStep | cometd-java/cometd-java-server/src/main/java/org/cometd/server/transport/AsyncJSONTransport.java:123 | a read pass keeps "no read after not-ready or finished" |
| InputStream.DrainEndOrder | cometd-java/cometd-java-server/src/main/java/org/cometd/server/transport/AsyncJSONTransport.java:123-131 | the calls ending a drain (the failing loop test, then the check after the loop) contain no read and start with a readiness check |
| InputStream.DrainOrder | cometd-java/cometd-java-server/src/main/java/org/cometd/server/transport/AsyncJSONTransport.java:121-130 | in the calls of a whole drain, every read follows "ready, not finished"; every finished check follows a readiness check, or the finished check that ended the loop; nothing is read after "not ready" or "finished"; the first call is a readiness check |
| InputStream.Input.IsReady | cometd-java/cometd-java-server/src/main/java/org/cometd/server/transport/AsyncJSONTransport.java:123 | `isReady()` gives the next answer (not ready once they are used up), consumes it and logs the call; a "yes" uses up an answer |
| InputStream.Input.IsFinished | cometd-java/cometd-java-server/src/main/java/org/cometd/server/transport/AsyncJSONTransport.java:130 | `isFinished()` gives the next answer (not finished once they are used up), consumes it and logs the call |
| InputStream.Input.Read | cometd-java/cometd-java-server/src/main/java/org/cometd/server/transport/AsyncJSONTransport.java:125 | `read(buffer)` copies the next result's bytes to the buffer front and returns their count, or returns -1, and logs the call |
| Readers.Reader.Utf8 | cometd-java/cometd-java-server/src/main/java/org/cometd/server/transport/AsyncJSONTransport.java:178-185 | a UTF-8 reader has a fresh 512-byte read buffer, the streaming strategy and an empty body |
| Readers.Reader.WithCharset | cometd-java/cometd-java-server/src/main/java/org/cometd/server/transport/AsyncJSONTransport.java:200-210 | a charset reader has a fresh 512-byte read buffer, the buffering strategy with the given charset, and an empty body |
| Readers.Reader.Append | cometd-java/cometd-java-server/src/main/java/org/cometd/server/transport/AsyncJSONTransport.java:127-128 | appending dispatches to the strategy. On success the body grows by the read bytes. Only the charset strategy can fail, only when the body and the chunk together exceed 2^30 bytes, and it then leaves the body as it was |
| Readers.Reader.LoopTest | cometd-java/cometd-java-server/src/main/java/org/cometd/server/transport/AsyncJSONTransport.java:121-123 | the loop test asks `isReady()` first and `isFinished()` only when ready |
| Readers.Reader.Pass | cometd-java/cometd-java-server/src/main/java/org/cometd/server/transport/AsyncJSONTransport.java:123-129 | one pass reads once, appends unless the read gave -1, and tests the loop again. A failed append ends the pass with the body as before that read, and that body plus the read chunk exceeds 2^30 bytes |
| Readers.Reader.OnDataAvailable | cometd-java/cometd-java-server/src/main/java/org/cometd/server/transport/AsyncJSONTransport.java:116-132 | the input calls are the read passes followed by a drain end (or nothing, when an append failed). The body grows by the bytes of exactly the reads made, in order. A failure is only the charset strategy rejecting the last read, when the body plus that chunk exceeds 2^30 bytes |
| Readers.Reader.Finish | cometd-java/cometd-java-server/src/main/java/org/cometd/server/transport/AsyncJSONTransport.java:140 | the text is the body decoded by the reader's strategy |
| Readers.Reader.Process | cometd-java/cometd-java-server/src/main/java/org/cometd/server/transport/AsyncJSONTransport.java:147-169 | a parsed batch is dispatched while the transport and this request are current; a parse error is handled and the exchange completed; either way, exception or not, both are cleared afterwards |
| Readers.Reader.OnAllDataRead | cometd-java/cometd-java-server/src/main/java/org/cometd/server/transport/AsyncJSONTransport.java:136-143 | the decoded body is processed as `Process` says |
| WriterSpec.WriteMessages | cometd-java/cometd-java-server/src/main/java/org/cometd/server/transport/AsyncJSONTransport.java:276-286 | the messages loop moves `messageIndex` forward only and stops at the end or after a write the output is not ready for. It writes one chunk per message taken and empties the buffer |
| WriterSpec.WriteReplies | cometd-java/cometd-java-server/src/main/java/org/cometd/server/transport/AsyncJSONTransport.java:298-318 | the replies loop moves `replyIndex` forward only. A return for "not ready" follows a write and leaves the buffer empty |
| WriterSpec.OnWritePossible | cometd-java/cometd-java-server/src/main/java/org/cometd/server/transport/AsyncJSONTransport.java:261-321 | the cursors never decrease and stay in range. Replies are taken only after all messages. The exchange is completed only with both cursors at the end. The interval is started exactly when it is armable and no reply slot has been taken, also after an early return |
| WriterSpec.Run | cometd-java/cometd-java-server/src/main/java/org/cometd/server/transport/AsyncJSONTransport.java:261-321 | every resumption sequence ends with a completing call, after at least one call. The interval is started at most once per call, never when it is not armable, and at least once in a response that starts armable |
| ResponseText.Shape | cometd-java/cometd-java-server/src/main/java/org/cometd/server/transport/AsyncJSONTransport.java:269-320 | the intended response: `[`, the JSON of the messages and of the non-null replies separated by commas, `]`; with nothing to send it is `[]` |
| WriterProofs.MessagesText | cometd-java/cometd-java-server/src/main/java/org/cometd/server/transport/AsyncJSONTransport.java:276-286 | the text the messages loop writes from message `i` on: nothing past the end, and a leading comma for every message but the first |
| WriterProofs.RepliesText | cometd-java/cometd-java-server/src/main/java/org/cometd/server/transport/AsyncJSONTransport.java:298-318 | the text the replies loop writes from slot `j` on: null slots add nothing, and with a reply in the last slot the text ends with `]` |
| WriterProofs.MessagesTextIsCommas | cometd-java/cometd-java-server/src/main/java/org/cometd/server/transport/AsyncJSONTransport.java:278-281 | the messages loop text is the messages' JSON separated by commas |
| WriterProofs.RepliesTextIsCommas | cometd-java/cometd-java-server/src/main/java/org/cometd/server/transport/AsyncJSONTransport.java:301-312 | with a reply in the last slot, the replies text is the non-null replies separated by commas, then `]` |
| WriterProofs.MessagesWritten | cometd-java/cometd-java-server/src/main/java/org/cometd/server/transport/AsyncJSONTransport.java:276-286 | the chunks written plus what is left equal the buffer plus the remaining messages' text: nothing lost or repeated across a return |
| WriterProofs.RepliesWritten | cometd-java/cometd-java-server/src/main/java/org/cometd/server/transport/AsyncJSONTransport.java:299-318 | the same for the replies loop |
| WriterProofs.StepWritten | cometd-java/cometd-java-server/src/main/java/org/cometd/server/transport/AsyncJSONTransport.java:261-321 | with at least one message, one call writes a prefix of what is pending and leaves exactly the rest pending |
| WriterProofs.RunWritten | cometd-java/cometd-java-server/src/main/java/org/cometd/server/transport/AsyncJSONTransport.java:261-321 | with at least one message, the calls until completion write exactly what was pending: each element once, in order |
| WriterProofs.ResponseShape | cometd-java/cometd-java-server/src/main/java/org/cometd/server/transport/AsyncJSONTransport.java:269-320 | with at least one message and a reply in the last slot, the response is `[`, the messages and the non-null replies separated by commas, `]`, whatever the readiness pattern (the no-message case is `WriterProofs.SingleReplyShape`) |
| WriterProofs.LoneReplyWritten | cometd-java/cometd-java-server/src/main/java/org/cometd/server/transport/AsyncJSONTransport.java:297-318 | from a slot on, with every slot null but the last, the replies loop writes the last reply, closed by `]`, as one chunk, and stops paused exactly when the output is not ready after it |
| WriterProofs.SingleReplyShape | cometd-java/cometd-java-server/src/main/java/org/cometd/server/transport/AsyncJSONTransport.java:269-320 | with no messages and a single reply, in the last slot, the response is exactly `[reply]`, written as one chunk, in one call, or in two when the output was not ready after that chunk, whatever the readiness pattern |
| WriterProofs.MissingClosingBracket | cometd-java/cometd-java-server/src/main/java/org/cometd/server/transport/AsyncJSONTransport.java:311-312 | with replies `[a, null]` the response is `[a`, not `[a]` |
| WriterProofs.EmptyResponse | cometd-java/cometd-java-server/src/main/java/org/cometd/server/transport/AsyncJSONTransport.java:269-320 | with no messages and only a null reply, nothing is written and the exchange is completed, while `[]` was due |
| WriterProofs.MissingComma | cometd-java/cometd-java-server/src/main/java/org/cometd/server/transport/AsyncJSONTransport.java:298 | with no messages and a return after the first of two replies, the response is `[ab]`, not `[a,b]` |
| WriterProofs.IntervalStartedTwice | cometd-java/cometd-java-server/src/main/java/org/cometd/server/transport/AsyncJSONTransport.java:288-295 | with a return inside the messages loop, the interval timeout is started by both calls of one response |
| Writers.Session.StartIntervalTimeout | cometd-java/cometd-java-server/src/main/java/org/cometd/server/transport/AsyncJSONTransport.java:294 | one more interval start is recorded, with the given interval |
| Writers.Session.IsConnected | cometd-java/cometd-java-server/src/main/java/org/cometd/server/transport/AsyncJSONTransport.java:293 | `session.isConnected()` reports the session's connection state |
| Writers.Output.IsReady | cometd-java/cometd-java-server/src/main/java/org/cometd/server/transport/AsyncJSONTransport.java:284 | `isReady()` gives the next answer (ready once they are used up) and consumes it |
| Writers.Output.Write | cometd-java/cometd-java-server/src/main/java/org/cometd/server/transport/AsyncJSONTransport.java:282 | `output.write` adds one chunk after those written and leaves the readiness answers alone |
| Writers.Writer.constructor | cometd-java/cometd-java-server/src/main/java/org/cometd/server/transport/AsyncJSONTransport.java:242-259 | a new writer is at the initial position: `messageIndex` -1, `replyIndex` 0, empty buffer |
| Writers.Writer.Flush | cometd-java/cometd-java-server/src/main/java/org/cometd/server/transport/AsyncJSONTransport.java:282-284 | the buffer is written as one chunk and emptied, and the output is asked whether it is still ready |
| Writers.Writer.WriteMessageChunks | cometd-java/cometd-java-server/src/main/java/org/cometd/server/transport/AsyncJSONTransport.java:276-286 | the messages loop leaves the cursor, buffer, chunks and readiness that `WriteMessages` gives |
| Writers.Writer.WriteReplyChunks | cometd-java/cometd-java-server/src/main/java/org/cometd/server/transport/AsyncJSONTransport.java:298-318 | the replies loop leaves the cursor, buffer, chunks and readiness that `WriteReplies` gives |
| Writers.Writer.StartInterval | cometd-java/cometd-java-server/src/main/java/org/cometd/server/transport/AsyncJSONTransport.java:288-295 | the interval is started, with the transport's interval, exactly when `replyIndex == 0`, `startInterval`, the session is non-null and it is connected |
| Writers.Writer.OnWritePossible | cometd-java/cometd-java-server/src/main/java/org/cometd/server/transport/AsyncJSONTransport.java:261-321 | the call leaves the position, chunks, readiness, interval starts and exchange events that `WriterSpec.OnWritePossible` gives |
| FixedWriter.FixedOnWritePossible | cometd-java/cometd-java-server/src/main/java/org/cometd/server/transport/AsyncJSONTransport.java:261-321 | the corrected call keeps the cursor and interval properties of the original. A completing call has written something, and a returning call leaves the buffer empty |
| FixedWriter.FixedRun | cometd-java/cometd-java-server/src/main/java/org/cometd/server/transport/AsyncJSONTransport.java:261-321 | the corrected calls end with a completing call; the interval is started at most once per call, and at least once in a response that starts armable |
| FixedWriter.FixedReplies | cometd-java/cometd-java-server/src/main/java/org/cometd/server/transport/AsyncJSONTransport.java:298-318 | the corrected replies loop (no `]` inside it): `replyIndex` moves forward only, a return for "not ready" follows a write and leaves the buffer empty |
| FixedWriter.FixedRepliesTextIsCommas | cometd-java/cometd-java-server/src/main/java/org/cometd/server/transport/AsyncJSONTransport.java:299-312 | the corrected replies text is the non-null replies separated by commas, for any reply slots |
| FixedWriter.FixedRepliesWritten | cometd-java/cometd-java-server/src/main/java/org/cometd/server/transport/AsyncJSONTransport.java:299-318 | the corrected replies loop loses and repeats nothing across a return |
| FixedWriter.FixedStepWritten | cometd-java/cometd-java-server/src/main/java/org/cometd/server/transport/AsyncJSONTransport.java:261-321 | a corrected call writes a prefix of what is pending and leaves exactly the rest pending, with no condition on the messages |
| FixedWriter.FixedRunWritten | cometd-java/cometd-java-server/src/main/java/org/cometd/server/transport/AsyncJSONTransport.java:261-321 | the corrected calls until completion write exactly what was pending |
| FixedWriter.FixedResponseShape | cometd-java/cometd-java-server/src/main/java/org/cometd/server/transport/AsyncJSONTransport.java:269-320 | corrected, every response is `[`, the messages and the non-null replies separated by commas, `]`, for all messages, reply slots and readiness patterns |
| AsyncJson.Accept | cometd-java/cometd-java-server/src/main/java/org/cometd/server/transport/AsyncJSONTransport.java:47-51 | a request is accepted exactly when its method is the four letters P, O, S, T in any case (the S also as U+017F, which upper-cases to S) |
| AsyncJson.EffectiveEncoding | cometd-java/cometd-java-server/src/main/java/org/cometd/server/transport/AsyncJSONTransport.java:56-58 | the request's encoding, or UTF-8 when it names none |
| AsyncJson.SelectStrategy | cometd-java/cometd-java-server/src/main/java/org/cometd/server/transport/AsyncJSONTransport.java:64-65 | no reader when the charset is unsupported. Otherwise the streaming reader exactly when the canonical charset name is `UTF-8`, and the buffering reader with that canonical charset |
| AsyncJson.AliasesAgree | cometd-java/cometd-java-server/src/main/java/org/cometd/server/transport/AsyncJSONTransport.java:64-65 | two encodings naming the same charset get the same reader |
| AsyncJson.DefaultStreams | cometd-java/cometd-java-server/src/main/java/org/cometd/server/transport/AsyncJSONTransport.java:56-65 | a request without an encoding gets the streaming reader |
| AsyncJson.Handle | cometd-java/cometd-java-server/src/main/java/org/cometd/server/transport/AsyncJSONTransport.java:53-68 | the effective encoding is set on the request, async processing is started with the timeout disabled, and the reader `SelectStrategy` calls for is installed fresh with an empty body. With an unsupported charset no listener is installed |
| AsyncJson.Write | cometd-java/cometd-java-server/src/main/java/org/cometd/server/transport/AsyncJSONTransport.java:81-97 | the content type is set, and a writer at the initial position over the given session, messages and replies is installed. When the output stream cannot be obtained, error 500 is reported instead |

## Left out

- `onError` of the readers and of the writer (lines 171-175, 323-327) only call the base class's `error`. That base class is not part of this model; `write`'s failure path is modelled as recording `Error(500)` on the exchange.
- `AsyncLongPollScheduler`, `suspend` and `newHttpScheduler` (lines 70-79, 330-350) delegate to scheduling code that is not part of this model.
- Logging is left out. So are the output stream's own lookup in `onWritePossible` (line 267) and `request.startAsync` beyond recording that it happened.
- Charset decoding (`new String(bytes, charset)`, the incremental UTF-8 decoder) and the UTF-8 encoding of written chunks are foreign library code. Decoding is a function parameter, and chunks are kept as strings. Because decoding is a total function, any rejection of malformed UTF-8 by the incremental decoder is not modelled; this is why only the charset strategy can fail in `Readers.Reader.Append`.
- JSON parsing, `processMessages`, `handleJSONParseException` and `getJSON()` are in classes not part of this model. Parsing is a function parameter. Processing records the dispatched batch and whether it throws. Messages are their JSON text.
- InputStream.Input.Read: an `IOException` from `input.read(buffer)` (line 125), which would end the drain midway and leave `onDataAvailable`, is not modelled; the input's answers never fail. The same holds for `isReady()` and `isFinished()`.
- Exceptions from `output.write` or `getJSON()` inside `onWritePossible` are not modelled. The interval start in the `finally` block is modelled for the normal and early-return paths only.
- AsyncJson.Accept: Java's case folding is modelled for the characters that can fold onto the letters of "POST" (ASCII and U+017F); other characters compare unequal, as they do in Java.
- CharsetBuffer.CharsetReader.Append: requires a chunk of at most 512 bytes, the size of the only caller's read buffer. For larger chunks the Java doubling loop can wrap to 0 and never end.
- Readers.Reader.OnDataAvailable: a rejected append is modelled as ending the drain with an outcome, where Java throws `IllegalArgumentException` out of `onDataAvailable`.
- WriterSpec.Run: whether the interval can be started (`startInterval`, a session, `session.isConnected()`) is fixed for the whole response, where line 293 asks `isConnected()` again on each call; `Writers.Writer.OnWritePossible` does read the session's state on each call.
- Concurrency between the container's read and write callbacks is not modelled; each callback runs to its end before the next.

## Findings

| source | as written | input that shows it | evidently intended | confidence | as-written member | corrected member |
|---|---|---|---|---|---|---|
| cometd-java/cometd-java-server/src/main/java/org/cometd/server/transport/AsyncJSONTransport.java:311-312 | `]` is appended only to a reply in the last slot | no messages, replies `[a, null]`: the response is `[a` | the array is always closed | not executed | WriterProofs.MissingClosingBracket | FixedWriter.FixedResponseShape |
| cometd-java/cometd-java-server/src/main/java/org/cometd/server/transport/AsyncJSONTransport.java:269-320 | `[` stays in the buffer when nothing is written after it | no messages, replies `[null]`: nothing is written and the exchange completes | the response is `[]` | not executed | WriterProofs.EmptyResponse | FixedWriter.FixedResponseShape |
| cometd-java/cometd-java-server/src/main/java/org/cometd/server/transport/AsyncJSONTransport.java:298 | `needsComma` is recomputed from `messageIndex > 0` on every call | no messages, replies `[a, b]`, output not ready after `[a`: the response is `[ab]` | a comma before every reply after the first element | not executed | WriterProofs.MissingComma | FixedWriter.FixedResponseShape |
