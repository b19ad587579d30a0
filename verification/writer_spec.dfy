/** What `Writer.onWritePossible()` does, as functions of the writer's
    position: the response is written as a JSON array, first the queued
    messages and then the non-null replies, one chunk per output write;
    whenever the output stops being ready the call returns, and the
    container calls it again once writing is possible. The answers of
    `isReady()` are an oracle; once it is used up the output is ready. */
module WriterSpec {
  import opened Servlet

  /** Where a writer stands between two calls: `messageIndex` (-1 before
      the first call), `replyIndex`, and the text not written yet. */
  datatype Cursor = Cursor(messageIndex: int, replyIndex: int, buffer: string)

  const Initial: Cursor := Cursor(-1, 0, "")

  /** What one of the two write loops did: where it stopped, the text left
      in the buffer, the chunks it wrote, the readiness answers left, and
      whether it returned because the output was not ready. */
  datatype Pass = Pass(index: int, buffer: string, written: seq<string>, readiness: seq<bool>, paused: bool)

  /** What one call did. `armed`: the session's interval timeout was
      started; `completed`: the exchange was completed. */
  datatype Step = Step(cursor: Cursor, written: seq<string>, readiness: seq<bool>, armed: bool, completed: bool)

  /** `output.isReady()`. */
  function Ready(readiness: seq<bool>): bool {
    readiness == [] || readiness[0]
  }

  function Next(readiness: seq<bool>): seq<bool> {
    if readiness == [] then [] else readiness[1..]
  }

  /** The messages loop, from message `i` with `buffer` pending: a comma
      before every message but the first of the response, one write per
      message, and a return after any write the output is not ready for. */
  function WriteMessages(messages: seq<Message>, i: nat, buffer: string, readiness: seq<bool>): (p: Pass)
    ensures i <= |messages| ==> i <= p.index <= |messages|
    ensures i >= |messages| ==> p == Pass(i, buffer, [], readiness, false)
    ensures !p.paused ==> p.index >= |messages|
    ensures p.paused ==> p.index > i && p.buffer == ""
    ensures i < |messages| ==> p.buffer == "" && |p.written| == p.index - i
    decreases |messages| - i
  {
    if i >= |messages| then Pass(i, buffer, [], readiness, false)
    else
      var chunk := buffer + (if i > 0 then "," else "") + messages[i].json;
      if !Ready(readiness) then Pass(i + 1, "", [chunk], Next(readiness), true)
      else
        var rest := WriteMessages(messages, i + 1, "", Next(readiness));
        rest.(written := [chunk] + rest.written)
  }

  /** The replies loop as written, from slot `j`: null slots are skipped
      without a write, a comma goes before a reply when `needsComma`, which
      becomes true after the first reply written, and `]` is appended to
      the reply in the last slot only. */
  function WriteReplies(replies: seq<Option<Message>>, j: nat, buffer: string, needsComma: bool,
                        readiness: seq<bool>): (p: Pass)
    ensures j <= |replies| ==> j <= p.index <= |replies|
    ensures !p.paused ==> p.index >= |replies|
    ensures p.paused ==> p.index > j && p.buffer == "" && p.written != []
    ensures p.buffer == buffer || p.buffer == ""
    decreases |replies| - j
  {
    if j >= |replies| then Pass(j, buffer, [], readiness, false)
    else match replies[j]
      case None => WriteReplies(replies, j + 1, buffer, needsComma, readiness)
      case Some(reply) =>
        var chunk := buffer + (if needsComma then "," else "") + reply.json +
                     (if j + 1 == |replies| then "]" else "");
        if !Ready(readiness) then Pass(j + 1, "", [chunk], Next(readiness), true)
        else
          var rest := WriteReplies(replies, j + 1, "", true, Next(readiness));
          rest.(written := [chunk] + rest.written)
  }

  /** One `onWritePossible()` call as written. `armable`: the writer was
      asked to start the interval and has a session, which is connected.
      The interval is started after the messages loop whenever no reply
      has been written yet, also when that loop returned early. */
  function OnWritePossible(messages: seq<Message>, replies: seq<Option<Message>>, c: Cursor,
                           readiness: seq<bool>, armable: bool): (s: Step)
    requires c.messageIndex <= |messages| && 0 <= c.replyIndex <= |replies|
    ensures s.cursor.messageIndex >= 0 && s.cursor.messageIndex >= c.messageIndex
    ensures s.cursor.replyIndex >= c.replyIndex
    ensures s.cursor.messageIndex <= |messages| && s.cursor.replyIndex <= |replies|
    ensures s.completed ==> s.cursor.messageIndex == |messages| && s.cursor.replyIndex == |replies|
    ensures s.cursor.replyIndex > c.replyIndex ==> s.cursor.messageIndex == |messages|
    ensures s.armed <==> armable && c.replyIndex == 0
  {
    var start := if c.messageIndex < 0 then 0 else c.messageIndex;
    var buffer := if c.messageIndex < 0 then c.buffer + "[" else c.buffer;
    var m := WriteMessages(messages, start, buffer, readiness);
    var armed := armable && c.replyIndex == 0;
    if m.paused then Step(Cursor(m.index, c.replyIndex, m.buffer), m.written, m.readiness, armed, false)
    else
      var r := WriteReplies(replies, c.replyIndex, m.buffer, m.index > 0, m.readiness);
      Step(Cursor(m.index, r.index, r.buffer), m.written + r.written, r.readiness, armed, !r.paused)
  }

  /** The positions a writer can be called at: the initial one, or one a
      call returned early from, which wrote something and emptied the
      buffer. */
  predicate Resumable(messages: seq<Message>, replies: seq<Option<Message>>, c: Cursor) {
    c == Initial ||
    (0 <= c.messageIndex <= |messages| && 0 <= c.replyIndex <= |replies| && c.buffer == "" &&
     (c.replyIndex > 0 ==> c.messageIndex == |messages|) &&
     (c.messageIndex > 0 || c.replyIndex > 0))
  }

  /** The work left: messages and slots not yet taken, and the opening. */
  function Remaining(messages: seq<Message>, replies: seq<Option<Message>>, c: Cursor): int {
    (|messages| - (if c.messageIndex < 0 then -1 else c.messageIndex)) + (|replies| - c.replyIndex)
  }

  /** A call that returns early leaves the writer resumable, with less
      work left. */
  lemma StepProgress(messages: seq<Message>, replies: seq<Option<Message>>, c: Cursor,
                     readiness: seq<bool>, armable: bool)
    requires Resumable(messages, replies, c)
    ensures var s := OnWritePossible(messages, replies, c, readiness, armable);
      !s.completed ==>
        Resumable(messages, replies, s.cursor) &&
        0 <= Remaining(messages, replies, s.cursor) < Remaining(messages, replies, c)
  {
  }

  /** The whole response: the calls the container makes until the exchange
      is completed, the chunks they wrote, how many calls there were and
      how many of them started the interval. */
  datatype Outcome = Outcome(written: seq<string>, calls: nat, arms: nat)

  function Run(messages: seq<Message>, replies: seq<Option<Message>>, c: Cursor,
               readiness: seq<bool>, armable: bool): (o: Outcome)
    requires Resumable(messages, replies, c)
    ensures 1 <= o.calls && o.arms <= o.calls
    ensures !armable ==> o.arms == 0
    ensures c == Initial && armable ==> o.arms >= 1
    decreases Remaining(messages, replies, c)
  {
    var s := OnWritePossible(messages, replies, c, readiness, armable);
    var arm := if s.armed then 1 else 0;
    if s.completed then Outcome(s.written, 1, arm)
    else
      StepProgress(messages, replies, c, readiness, armable);
      var rest := Run(messages, replies, s.cursor, s.readiness, armable);
      Outcome(s.written + rest.written, rest.calls + 1, rest.arms + arm)
  }
}
