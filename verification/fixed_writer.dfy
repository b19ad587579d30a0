/** The writer with the three defects of the replies loop corrected: the
    comma before a reply is decided by whether anything precedes it in the
    response (a message, or a reply written by an earlier call), and the
    closing `]` is written once, after the loop, whatever the last slot
    holds. With these, the response is the JSON array of the batch for
    every batch and every pattern of readiness. */
module FixedWriter {
  import opened Servlet
  import opened WriterSpec
  import opened ResponseText
  import opened WriterProofs

  /** The replies loop without `]`: null slots are skipped, a comma goes
      before a reply when `needsComma`, which becomes true after the first
      reply written. */
  function FixedReplies(replies: seq<Option<Message>>, j: nat, buffer: string, needsComma: bool,
                        readiness: seq<bool>): (p: Pass)
    ensures j <= |replies| ==> j <= p.index <= |replies|
    ensures !p.paused ==> p.index >= |replies|
    ensures p.paused ==> p.index > j && p.buffer == "" && p.written != []
    ensures p.buffer == buffer || p.buffer == ""
    decreases |replies| - j
  {
    if j >= |replies| then Pass(j, buffer, [], readiness, false)
    else match replies[j]
      case None => FixedReplies(replies, j + 1, buffer, needsComma, readiness)
      case Some(reply) =>
        var chunk := buffer + (if needsComma then "," else "") + reply.json;
        if !Ready(readiness) then Pass(j + 1, "", [chunk], Next(readiness), true)
        else
          var rest := FixedReplies(replies, j + 1, "", true, Next(readiness));
          rest.(written := [chunk] + rest.written)
  }

  /** One corrected call: the messages loop as before; the replies loop
      starts with a comma pending when a message was written or a reply
      slot was taken by an earlier call; after the loop, whatever is
      buffered is written with `]`. */
  function FixedOnWritePossible(messages: seq<Message>, replies: seq<Option<Message>>, c: Cursor,
                                readiness: seq<bool>, armable: bool): (s: Step)
    requires c.messageIndex <= |messages| && 0 <= c.replyIndex <= |replies|
    ensures s.cursor.messageIndex >= 0 && s.cursor.messageIndex >= c.messageIndex
    ensures s.cursor.replyIndex >= c.replyIndex
    ensures s.cursor.messageIndex <= |messages| && s.cursor.replyIndex <= |replies|
    ensures s.completed ==> s.cursor.messageIndex == |messages| && s.cursor.replyIndex == |replies|
    ensures s.completed ==> s.written != []
    ensures s.cursor.replyIndex > c.replyIndex ==> s.cursor.messageIndex == |messages|
    ensures !s.completed ==> s.cursor.buffer == ""
    ensures s.armed <==> armable && c.replyIndex == 0
  {
    var start := if c.messageIndex < 0 then 0 else c.messageIndex;
    var buffer := if c.messageIndex < 0 then c.buffer + "[" else c.buffer;
    var m := WriteMessages(messages, start, buffer, readiness);
    var armed := armable && c.replyIndex == 0;
    if m.paused then Step(Cursor(m.index, c.replyIndex, m.buffer), m.written, m.readiness, armed, false)
    else
      var r := FixedReplies(replies, c.replyIndex, m.buffer, m.index > 0 || c.replyIndex > 0, m.readiness);
      if r.paused then Step(Cursor(m.index, r.index, r.buffer), m.written + r.written, r.readiness, armed, false)
      else Step(Cursor(m.index, r.index, ""), m.written + r.written + [r.buffer + "]"], r.readiness, armed, true)
  }

  lemma FixedStepProgress(messages: seq<Message>, replies: seq<Option<Message>>, c: Cursor,
                          readiness: seq<bool>, armable: bool)
    requires Resumable(messages, replies, c)
    ensures var s := FixedOnWritePossible(messages, replies, c, readiness, armable);
      !s.completed ==>
        Resumable(messages, replies, s.cursor) &&
        0 <= Remaining(messages, replies, s.cursor) < Remaining(messages, replies, c)
  {
  }

  /** The corrected calls until the exchange is completed. */
  function FixedRun(messages: seq<Message>, replies: seq<Option<Message>>, c: Cursor,
                    readiness: seq<bool>, armable: bool): (o: Outcome)
    requires Resumable(messages, replies, c)
    ensures 1 <= o.calls && o.arms <= o.calls
    ensures !armable ==> o.arms == 0
    ensures c == Initial && armable ==> o.arms >= 1
    decreases Remaining(messages, replies, c)
  {
    var s := FixedOnWritePossible(messages, replies, c, readiness, armable);
    var arm := if s.armed then 1 else 0;
    if s.completed then Outcome(s.written, 1, arm)
    else
      FixedStepProgress(messages, replies, c, readiness, armable);
      var rest := FixedRun(messages, replies, s.cursor, s.readiness, armable);
      Outcome(s.written + rest.written, rest.calls + 1, rest.arms + arm)
  }

  /** The replies from slot `j` on, as the corrected loop writes them. */
  function FixedRepliesText(replies: seq<Option<Message>>, j: nat, needsComma: bool): string
    decreases |replies| - j
  {
    if j >= |replies| then ""
    else match replies[j]
      case None => FixedRepliesText(replies, j + 1, needsComma)
      case Some(reply) => (if needsComma then "," else "") + reply.json + FixedRepliesText(replies, j + 1, true)
  }

  lemma {:induction false} FixedRepliesTextIsCommas(replies: seq<Option<Message>>, j: nat, needsComma: bool)
    requires j <= |replies|
    ensures FixedRepliesText(replies, j, needsComma) == Commas(Present(replies[j..]), needsComma)
    decreases |replies| - j
  {
    if j < |replies| {
      assert replies[j..][1..] == replies[j + 1..];
      FixedRepliesTextIsCommas(replies, j + 1, replies[j].Some? || needsComma);
      match replies[j]
      case None =>
        assert Present(replies[j..]) == [] + Present(replies[j + 1..]);
        assert [] + Present(replies[j + 1..]) == Present(replies[j + 1..]);
      case Some(reply) =>
        CommasCons(reply.json, Present(replies[j + 1..]), needsComma);
    } else {
      assert replies[j..] == [];
    }
  }

  /** What the corrected replies loop writes, with its buffer and, if it
      returned early, the replies left after a comma, is the buffer it
      started with followed by the replies from where it started. */
  lemma {:induction false} FixedRepliesWritten(replies: seq<Option<Message>>, j: nat, buffer: string,
                                               needsComma: bool, readiness: seq<bool>)
    requires j <= |replies|
    ensures var p := FixedReplies(replies, j, buffer, needsComma, readiness);
      Concat(p.written) + (p.buffer + (if p.paused then FixedRepliesText(replies, p.index, true) else "")) ==
      buffer + FixedRepliesText(replies, j, needsComma)
    decreases |replies| - j
  {
    if j < |replies| {
      match replies[j]
      case None =>
        FixedRepliesWritten(replies, j + 1, buffer, needsComma, readiness);
      case Some(reply) =>
        var chunk := buffer + (if needsComma then "," else "") + reply.json;
        var tail := FixedRepliesText(replies, j + 1, true);
        assert buffer + FixedRepliesText(replies, j, needsComma) == chunk + tail;
        if Ready(readiness) {
          var rest := FixedReplies(replies, j + 1, "", true, Next(readiness));
          FixedRepliesWritten(replies, j + 1, "", true, Next(readiness));
          PrependChunk(chunk, rest.written,
                       rest.buffer + (if rest.paused then FixedRepliesText(replies, rest.index, true) else ""), tail);
        } else {
          ConcatCons(chunk, []);
        }
    } else {
      assert buffer + "" == buffer;
    }
  }

  /** The text still to come from a position a call can start at: a comma
      goes before the next reply when anything precedes it. */
  function FixedPending(messages: seq<Message>, replies: seq<Option<Message>>, c: Cursor): string
    requires Resumable(messages, replies, c)
  {
    var start := if c.messageIndex < 0 then 0 else c.messageIndex;
    c.buffer + (if c.messageIndex < 0 then "[" else "") + MessagesText(messages, start) +
    (FixedRepliesText(replies, c.replyIndex, |messages| > 0 || c.replyIndex > 0) + "]")
  }

  /** The regrouping `FixedRepliesStepWritten` needs: message chunks `x`,
      reply chunks `y`, the unflushed buffer `rb`, the replies still to
      write `left` and the closing bracket give back what was pending. */
  lemma FixedReplyStepText(x: string, y: string, mb: string, rb: string, left: string,
                           buffer: string, before: string, replyText: string)
    requires x + (mb + "") == buffer + before
    requires y + (rb + left) == mb + replyText
    ensures x + y + (rb + left + "]") == buffer + before + (replyText + "]")
  {
    calc {
      x + y + (rb + left + "]");
      x + (y + (rb + left)) + "]";
      x + (mb + replyText) + "]";
      { assert mb + "" == mb; }
      buffer + before + replyText + "]";
      buffer + before + (replyText + "]");
    }
  }

  lemma FixedStepWritten(messages: seq<Message>, replies: seq<Option<Message>>, c: Cursor,
                         readiness: seq<bool>, armable: bool)
    requires Resumable(messages, replies, c)
    ensures var s := FixedOnWritePossible(messages, replies, c, readiness, armable);
      Concat(s.written) + (if s.completed then "" else FixedPending(messages, replies, s.cursor)) ==
      FixedPending(messages, replies, c)
  {
    var start := if c.messageIndex < 0 then 0 else c.messageIndex;
    var buffer := if c.messageIndex < 0 then c.buffer + "[" else c.buffer;
    var m := WriteMessages(messages, start, buffer, readiness);
    var lead := |messages| > 0 || c.replyIndex > 0;
    var replyText := FixedRepliesText(replies, c.replyIndex, lead);
    MessagesWritten(messages, start, buffer, readiness);
    if m.paused {
      PausedText(Concat(m.written), buffer, MessagesText(messages, start), MessagesText(messages, m.index),
                 replyText + "]");
    } else {
      FixedRepliesStepWritten(messages, replies, c, readiness, armable);
    }
  }

  /** `FixedStepWritten` for a call whose messages loop ran to the end. */
  lemma FixedRepliesStepWritten(messages: seq<Message>, replies: seq<Option<Message>>, c: Cursor,
                                readiness: seq<bool>, armable: bool)
    requires Resumable(messages, replies, c)
    requires !WriteMessages(messages, if c.messageIndex < 0 then 0 else c.messageIndex,
                            if c.messageIndex < 0 then c.buffer + "[" else c.buffer, readiness).paused
    ensures var s := FixedOnWritePossible(messages, replies, c, readiness, armable);
      Concat(s.written) + (if s.completed then "" else FixedPending(messages, replies, s.cursor)) ==
      FixedPending(messages, replies, c)
  {
    var start := if c.messageIndex < 0 then 0 else c.messageIndex;
    var buffer := if c.messageIndex < 0 then c.buffer + "[" else c.buffer;
    var m := WriteMessages(messages, start, buffer, readiness);
    var lead := |messages| > 0 || c.replyIndex > 0;
    var replyText := FixedRepliesText(replies, c.replyIndex, lead);
    MessagesWritten(messages, start, buffer, readiness);
    assert MessagesText(messages, m.index) == "";
    var r := FixedReplies(replies, c.replyIndex, m.buffer, lead, m.readiness);
    FixedRepliesWritten(replies, c.replyIndex, m.buffer, lead, m.readiness);
    var left := if r.paused then FixedRepliesText(replies, r.index, true) else "";
    var x, y := Concat(m.written), Concat(r.written);
    FixedReplyStepText(x, y, m.buffer, r.buffer, left, buffer, MessagesText(messages, start), replyText);
    if r.paused {
      ConcatAppend(m.written, r.written);
      assert FixedPending(messages, replies, Cursor(m.index, r.index, r.buffer)) == r.buffer + left + "]";
    } else {
      ConcatWithLast(m.written, r.written, r.buffer + "]");
      assert r.buffer + left + "]" == r.buffer + "]";
    }
  }

  lemma ConcatWithLast(a: seq<string>, b: seq<string>, last: string)
    ensures Concat(a + b + [last]) == Concat(a) + Concat(b) + last
  {
    ConcatAppend(a + b, [last]);
    ConcatAppend(a, b);
    ConcatCons(last, []);
    assert last + "" == last;
  }

  lemma {:induction false} FixedRunWritten(messages: seq<Message>, replies: seq<Option<Message>>, c: Cursor,
                                           readiness: seq<bool>, armable: bool)
    requires Resumable(messages, replies, c)
    ensures Concat(FixedRun(messages, replies, c, readiness, armable).written) == FixedPending(messages, replies, c)
    decreases Remaining(messages, replies, c)
  {
    var s := FixedOnWritePossible(messages, replies, c, readiness, armable);
    FixedStepWritten(messages, replies, c, readiness, armable);
    if !s.completed {
      FixedStepProgress(messages, replies, c, readiness, armable);
      FixedRunWritten(messages, replies, s.cursor, s.readiness, armable);
      ConcatAppend(s.written, FixedRun(messages, replies, s.cursor, s.readiness, armable).written);
    }
  }

  /** Corrected, the response is the JSON array of the messages and the
      non-null replies for every batch, including an empty one, and for
      every pattern of readiness. */
  lemma FixedResponseShape(messages: seq<Message>, replies: seq<Option<Message>>, readiness: seq<bool>,
                           armable: bool)
    ensures Concat(FixedRun(messages, replies, Initial, readiness, armable).written) == Shape(messages, replies)
  {
    FixedRunWritten(messages, replies, Initial, readiness, armable);
    var lead := |messages| > 0;
    var js, ps := Jsons(messages), Present(replies);
    assert MessagesText(messages, 0) == Commas(js, false) by {
      MessagesTextIsCommas(messages, 0);
      assert messages[0..] == messages;
    }
    assert FixedRepliesText(replies, 0, lead) == Commas(ps, lead) by {
      FixedRepliesTextIsCommas(replies, 0, lead);
      assert replies[0..] == replies;
    }
    assert Commas(js + ps, false) == Commas(js, false) + Commas(ps, lead) by {
      CommasAppend(js, ps, false);
    }
    Bracketed(Commas(js, false), Commas(ps, lead));
  }
}
