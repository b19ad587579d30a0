/** What the writer as written puts on the wire: with at least one message
    and a reply in the last slot, or with no message and a single reply in
    the last slot, the response is the JSON array of the batch however the
    writes are split over calls; otherwise, or when the messages are empty
    and a call returns between two replies, it is not. */
module WriterProofs {
  import opened Servlet
  import opened WriterSpec
  import opened ResponseText
  import opened Sequences

  /** The messages from `i` on, as the messages loop writes them. */
  function MessagesText(messages: seq<Message>, i: nat): (t: string)
    ensures i >= |messages| ==> t == ""
    ensures 0 < i < |messages| ==> t != "" && t[0] == ','
    decreases |messages| - i
  {
    if i >= |messages| then ""
    else (if i > 0 then "," else "") + messages[i].json + MessagesText(messages, i + 1)
  }

  /** The replies from slot `j` on, as the replies loop writes them: `]`
      goes with the reply in the last slot. */
  function RepliesText(replies: seq<Option<Message>>, j: nat, needsComma: bool): (t: string)
    ensures (forall k | j <= k < |replies| :: replies[k].None?) ==> t == ""
    ensures j < |replies| && replies[|replies| - 1].Some? ==> t != "" && t[|t| - 1] == ']'
    decreases |replies| - j
  {
    if j >= |replies| then ""
    else match replies[j]
      case None => RepliesText(replies, j + 1, needsComma)
      case Some(reply) =>
        (if needsComma then "," else "") + reply.json + (if j + 1 == |replies| then "]" else "") +
        RepliesText(replies, j + 1, true)
  }

  /** The messages from `i` on are those of the array, after a comma
      unless `i` is the first. */
  lemma {:induction false} MessagesTextIsCommas(messages: seq<Message>, i: nat)
    requires i <= |messages|
    ensures MessagesText(messages, i) == Commas(Jsons(messages[i..]), i > 0)
    decreases |messages| - i
  {
    if i < |messages| {
      assert messages[i..][1..] == messages[i + 1..];
      MessagesTextIsCommas(messages, i + 1);
      CommasCons(messages[i].json, Jsons(messages[i + 1..]), i > 0);
    } else {
      assert messages[i..] == [];
    }
  }

  /** With a reply in the last slot, the replies from `j` on are the
      non-null ones, comma separated, and then `]`. */
  lemma {:induction false} RepliesTextIsCommas(replies: seq<Option<Message>>, j: nat, needsComma: bool)
    requires j < |replies| && replies[|replies| - 1].Some?
    ensures RepliesText(replies, j, needsComma) == Commas(Present(replies[j..]), needsComma) + "]"
    decreases |replies| - j
  {
    assert replies[j..][1..] == replies[j + 1..];
    var sep := if needsComma then "," else "";
    match replies[j]
    case None =>
      assert Present(replies[j..]) == [] + Present(replies[j + 1..]);
      assert [] + Present(replies[j + 1..]) == Present(replies[j + 1..]);
      RepliesTextIsCommas(replies, j + 1, needsComma);
    case Some(reply) =>
      CommasCons(reply.json, Present(replies[j + 1..]), needsComma);
      if j + 1 == |replies| {
        assert replies[j + 1..] == [];
        assert RepliesText(replies, j, needsComma) == sep + reply.json + "]" + "";
      } else {
        RepliesTextIsCommas(replies, j + 1, true);
      }
  }

  /** What the messages loop writes, together with what it leaves in the
      buffer and the messages after where it stopped, is the buffer it
      started with followed by the messages from where it started. */
  lemma {:induction false} MessagesWritten(messages: seq<Message>, i: nat, buffer: string, readiness: seq<bool>)
    requires i <= |messages|
    ensures var p := WriteMessages(messages, i, buffer, readiness);
      Concat(p.written) + (p.buffer + MessagesText(messages, p.index)) ==
      buffer + MessagesText(messages, i)
    decreases |messages| - i
  {
    if i < |messages| {
      var chunk := buffer + (if i > 0 then "," else "") + messages[i].json;
      var tail := MessagesText(messages, i + 1);
      assert buffer + MessagesText(messages, i) == chunk + tail;
      if Ready(readiness) {
        var rest := WriteMessages(messages, i + 1, "", Next(readiness));
        MessagesWritten(messages, i + 1, "", Next(readiness));
        PrependChunk(chunk, rest.written, rest.buffer + MessagesText(messages, rest.index), tail);
      } else {
        ConcatCons(chunk, []);
      }
    } else {
      assert buffer + "" == buffer;
    }
  }

  /** What the replies loop writes together with its buffer and, if it
      returned early, the replies left (after a comma), is the buffer it
      started with followed by the replies from where it started. */
  lemma {:induction false} RepliesWritten(replies: seq<Option<Message>>, j: nat, buffer: string,
                                          needsComma: bool, readiness: seq<bool>)
    requires j <= |replies|
    ensures var p := WriteReplies(replies, j, buffer, needsComma, readiness);
      Concat(p.written) + (p.buffer + (if p.paused then RepliesText(replies, p.index, true) else "")) ==
      buffer + RepliesText(replies, j, needsComma)
    decreases |replies| - j
  {
    if j < |replies| {
      match replies[j]
      case None =>
        RepliesWritten(replies, j + 1, buffer, needsComma, readiness);
      case Some(reply) =>
        if Ready(readiness) {
          RepliesWritten(replies, j + 1, "", true, Next(readiness));
        }
        ReplyChunkWritten(replies, j, buffer, needsComma, readiness);
    } else {
      assert buffer + "" == buffer;
    }
  }

  /** The step of `RepliesWritten` for a reply slot: the reply's chunk,
      then what the loop writes from the next slot on. */
  lemma ReplyChunkWritten(replies: seq<Option<Message>>, j: nat, buffer: string,
                          needsComma: bool, readiness: seq<bool>)
    requires j < |replies| && replies[j].Some?
    requires var rest := WriteReplies(replies, j + 1, "", true, Next(readiness));
      Ready(readiness) ==>
        Concat(rest.written) + (rest.buffer + (if rest.paused then RepliesText(replies, rest.index, true) else "")) ==
        "" + RepliesText(replies, j + 1, true)
    ensures var p := WriteReplies(replies, j, buffer, needsComma, readiness);
      Concat(p.written) + (p.buffer + (if p.paused then RepliesText(replies, p.index, true) else "")) ==
      buffer + RepliesText(replies, j, needsComma)
  {
    var reply := replies[j].value;
    var sep, close := if needsComma then "," else "", if j + 1 == |replies| then "]" else "";
    var chunk := buffer + sep + reply.json + close;
    var tail := RepliesText(replies, j + 1, true);
    assert buffer + RepliesText(replies, j, needsComma) == chunk + tail by {
      assert RepliesText(replies, j, needsComma) == sep + reply.json + close + tail;
      SeqAssoc(buffer, sep, reply.json);
      SeqAssoc(buffer, sep + reply.json, close);
      SeqAssoc(buffer, sep + reply.json + close, tail);
    }
    var p := WriteReplies(replies, j, buffer, needsComma, readiness);
    if Ready(readiness) {
      var rest := WriteReplies(replies, j + 1, "", true, Next(readiness));
      assert p == rest.(written := [chunk] + rest.written) by {
        assert replies[j] == Some(reply);
      }
      PrependChunk(chunk, rest.written,
                   rest.buffer + (if rest.paused then RepliesText(replies, rest.index, true) else ""), tail);
    } else {
      assert p == Pass(j + 1, "", [chunk], Next(readiness), true);
      ConcatCons(chunk, []);
    }
  }

  /** The text still to come from a position a call can start at, when
      there is at least one message (so every reply follows a comma). */
  function Pending(messages: seq<Message>, replies: seq<Option<Message>>, c: Cursor): string
    requires Resumable(messages, replies, c)
  {
    var start := if c.messageIndex < 0 then 0 else c.messageIndex;
    c.buffer + (if c.messageIndex < 0 then "[" else "") +
    MessagesText(messages, start) + RepliesText(replies, c.replyIndex, true)
  }

  /** The regrouping `StepWritten` needs for a call that returned in the
      messages loop: chunks written `x`, then the messages still to write
      `after` and the replies, give back what was pending. */
  lemma PausedText(x: string, buffer: string, before: string, after: string, replyText: string)
    requires x + ("" + after) == buffer + before
    ensures x + ("" + "" + after + replyText) == buffer + before + replyText
  {
    assert "" + after == after && "" + "" + after + replyText == after + replyText;
  }

  /** The regrouping `StepWritten` needs for a call that went on to the
      replies loop: message chunks `x`, reply chunks `y` and the replies
      still to write `left` give back what was pending. */
  lemma ReplyStepText(x: string, y: string, buffer: string, before: string, left: string, replyText: string)
    requires x + ("" + "") == buffer + before
    requires y + ("" + left) == "" + replyText
    ensures x + y + left == buffer + before + replyText
  {
    assert "" + "" == "" && "" + left == left && "" + replyText == replyText;
  }

  /** One call writes the start of what is pending and leaves the rest
      pending. */
  lemma StepWritten(messages: seq<Message>, replies: seq<Option<Message>>, c: Cursor,
                    readiness: seq<bool>, armable: bool)
    requires Resumable(messages, replies, c) && messages != []
    ensures var s := OnWritePossible(messages, replies, c, readiness, armable);
      Concat(s.written) + (if s.completed then "" else Pending(messages, replies, s.cursor)) ==
      Pending(messages, replies, c)
  {
    var start := if c.messageIndex < 0 then 0 else c.messageIndex;
    var buffer := if c.messageIndex < 0 then c.buffer + "[" else c.buffer;
    var m := WriteMessages(messages, start, buffer, readiness);
    var replyText := RepliesText(replies, c.replyIndex, true);
    MessagesWritten(messages, start, buffer, readiness);
    if m.paused {
      PausedText(Concat(m.written), buffer, MessagesText(messages, start), MessagesText(messages, m.index), replyText);
    } else {
      var r := WriteReplies(replies, c.replyIndex, m.buffer, m.index > 0, m.readiness);
      RepliesWritten(replies, c.replyIndex, "", true, m.readiness);
      var left := if r.paused then RepliesText(replies, r.index, true) else "";
      ConcatAppend(m.written, r.written);
      ReplyStepText(Concat(m.written), Concat(r.written), buffer, MessagesText(messages, start), left, replyText);
      assert r.paused ==> Pending(messages, replies, Cursor(m.index, r.index, r.buffer)) == left;
    }
  }

  /** Run to completion, a writer writes what is pending. */
  lemma {:induction false} RunWritten(messages: seq<Message>, replies: seq<Option<Message>>, c: Cursor,
                                      readiness: seq<bool>, armable: bool)
    requires Resumable(messages, replies, c) && messages != []
    ensures Concat(Run(messages, replies, c, readiness, armable).written) == Pending(messages, replies, c)
    decreases Remaining(messages, replies, c)
  {
    var s := OnWritePossible(messages, replies, c, readiness, armable);
    StepWritten(messages, replies, c, readiness, armable);
    if !s.completed {
      StepProgress(messages, replies, c, readiness, armable);
      RunWritten(messages, replies, s.cursor, s.readiness, armable);
      ConcatAppend(s.written, Run(messages, replies, s.cursor, s.readiness, armable).written);
    }
  }

  /** With at least one message and a reply in the last slot, the response
      is the JSON array of the messages and the non-null replies, for every
      pattern of readiness. */
  lemma ResponseShape(messages: seq<Message>, replies: seq<Option<Message>>, readiness: seq<bool>, armable: bool)
    requires messages != [] && replies != [] && replies[|replies| - 1].Some?
    ensures Concat(Run(messages, replies, Initial, readiness, armable).written) == Shape(messages, replies)
  {
    RunWritten(messages, replies, Initial, readiness, armable);
    var js, ps := Jsons(messages), Present(replies);
    assert MessagesText(messages, 0) == Commas(js, false) by {
      MessagesTextIsCommas(messages, 0);
      assert messages[0..] == messages;
    }
    assert RepliesText(replies, 0, true) == Commas(ps, true) + "]" by {
      RepliesTextIsCommas(replies, 0, true);
      assert replies[0..] == replies;
    }
    assert Commas(js + ps, false) == Commas(js, false) + Commas(ps, true) by {
      CommasAppend(js, ps, false);
    }
    Bracketed(Commas(js, false), Commas(ps, true));
  }

  /** From slot `j`, with every slot null but the last, the replies loop
      writes the last reply, closed by `]`, as one chunk, and the non-null
      replies from `j` on are that one. */
  lemma {:induction false} LoneReplyWritten(replies: seq<Option<Message>>, j: nat, buffer: string,
                                            needsComma: bool, readiness: seq<bool>)
    requires j < |replies| && replies[|replies| - 1].Some?
    requires forall k | j <= k < |replies| - 1 :: replies[k].None?
    ensures var chunk := buffer + (if needsComma then "," else "") + replies[|replies| - 1].value.json + "]";
      WriteReplies(replies, j, buffer, needsComma, readiness) ==
        Pass(|replies|, "", [chunk], Next(readiness), !Ready(readiness))
    ensures Present(replies[j..]) == [replies[|replies| - 1].value.json]
    decreases |replies| - j
  {
    assert replies[j..][1..] == replies[j + 1..];
    if j + 1 < |replies| {
      LoneReplyWritten(replies, j + 1, buffer, needsComma, readiness);
      assert Present(replies[j..]) == [] + Present(replies[j + 1..]);
    } else {
      assert replies[j + 1..] == [];
      assert WriteReplies(replies, j + 1, "", true, Next(readiness)) == Pass(|replies|, "", [], Next(readiness), false);
    }
  }

  lemma ShapeOfOne(replies: seq<Option<Message>>, json: string)
    requires Present(replies) == [json]
    ensures Shape([], replies) == "[" + json + "]"
  {
    assert Jsons([]) + Present(replies) == [json];
    assert Commas([json], false) == json by {
      assert [json][1..] == [];
    }
  }

  /** With no messages and a single reply, in the last slot (the usual
      answer to a `/meta/connect` with nothing queued), the response is the
      JSON array of that reply, written as one chunk, whatever the
      readiness pattern: by the first call, or by the first and, when the
      output was not ready after it, a second call that finds nothing left. */
  lemma SingleReplyShape(replies: seq<Option<Message>>, readiness: seq<bool>, armable: bool)
    requires replies != [] && replies[|replies| - 1].Some?
    requires forall k | 0 <= k < |replies| - 1 :: replies[k].None?
    ensures var o := Run([], replies, Initial, readiness, armable);
      o.written == [Shape([], replies)] && o.calls == (if Ready(readiness) then 1 else 2)
    ensures Concat(Run([], replies, Initial, readiness, armable).written) == Shape([], replies)
  {
    var json := replies[|replies| - 1].value.json;
    LoneReplyWritten(replies, 0, "[", false, readiness);
    assert replies[0..] == replies;
    assert Initial.buffer + "[" == "[";
    assert WriteMessages([], 0, "[", readiness) == Pass(0, "[", [], readiness, false);
    var s := OnWritePossible([], replies, Initial, readiness, armable);
    assert s.written == [] + ["[" + "" + json + "]"];
    assert s.written == [Shape([], replies)] by {
      assert "[" + "" + json + "]" == "[" + json + "]";
      ShapeOfOne(replies, json);
    }
    if !Ready(readiness) {
      var c := Cursor(0, |replies|, "");
      assert WriteMessages([], 0, "", Next(readiness)) == Pass(0, "", [], Next(readiness), false);
      assert WriteReplies(replies, |replies|, "", false, Next(readiness)) ==
        Pass(|replies|, "", [], Next(readiness), false);
      var t := OnWritePossible([], replies, c, Next(readiness), armable);
      assert t.completed && t.written == [];
      assert s.written + t.written == s.written;
    }
    ConcatCons(Shape([], replies), []);
  }

  /** When the last reply slot is null, the closing `]` is never written:
      a single reply followed by an empty slot goes out as `[a`. */
  lemma MissingClosingBracket()
    ensures var messages, replies := [], [Some(Message("a")), None];
      Concat(Run(messages, replies, Initial, [], false).written) == "[a" &&
      Shape(messages, replies) == "[a]"
  {
    var messages: seq<Message>, replies := [], [Some(Message("a")), None];
    var rest := WriteReplies(replies, 1, "", true, []);
    assert rest == Pass(2, "", [], [], false);
    assert "[" + "" + "a" + "" == "[a";
    assert WriteReplies(replies, 0, "[", false, []) == rest.(written := ["[a"] + rest.written);
    assert Concat(["[a"]) == "[a" + Concat([]);
    assert replies[1..][1..] == [];
    assert Present(replies[1..]) == [];
    assert Present(replies) == ["a"];
    assert Jsons(messages) + Present(replies) == ["a"];
    assert Commas(["a"], false) == "a" by {
      assert ["a"][1..] == [];
    }
    assert "[" + "a" + "]" == "[a]";
  }

  /** With no messages and only null reply slots nothing is written, not
      even the `[]` of an empty array. */
  lemma EmptyResponse()
    ensures var messages, replies := [], [None];
      Run(messages, replies, Initial, [], false).written == [] &&
      Shape(messages, replies) == "[]"
  {
    var messages: seq<Message>, replies: seq<Option<Message>> := [], [None];
    assert WriteReplies(replies, 0, "[", false, []) == Pass(1, "[", [], [], false);
    assert Present(replies) == [] + Present(replies[1..]);
  }

  /** The first call of `MissingComma`: `[a`, then the output is not ready. */
  lemma MissingCommaFirstCall(replies: seq<Option<Message>>)
    requires replies == [Some(Message("a")), Some(Message("b"))]
    ensures OnWritePossible([], replies, Initial, [false], false) == Step(Cursor(0, 1, ""), ["[a"], [], false, false)
  {
    assert "[" + "" + "a" + "" == "[a";
    assert WriteReplies(replies, 0, "[", false, [false]) == Pass(1, "", ["[a"], [], true);
    assert [] + ["[a"] == ["[a"];
    assert Initial.buffer + "[" == "[";
    assert WriteMessages([], 0, "[", [false]) == Pass(0, "[", [], [false], false);
  }

  /** The second call of `MissingComma`: `b]`, without the comma. */
  lemma MissingCommaSecondCall(replies: seq<Option<Message>>)
    requires replies == [Some(Message("a")), Some(Message("b"))]
    ensures OnWritePossible([], replies, Cursor(0, 1, ""), [], false) == Step(Cursor(0, 2, ""), ["b]"], [], false, true)
  {
    var last := WriteReplies(replies, 2, "", true, []);
    assert last == Pass(2, "", [], [], false);
    assert "" + "" + "b" + "]" == "b]";
    assert WriteReplies(replies, 1, "", false, []) == last.(written := ["b]"] + last.written);
    assert [] + (["b]"] + []) == ["b]"];
    assert WriteMessages([], 0, "", []) == Pass(0, "", [], [], false);
  }

  /** With no messages, a call that returns after the first reply loses the
      comma: the next call recomputes `needsComma` from the message index,
      which is still 0, and the response becomes `[ab]`. */
  lemma MissingComma()
    ensures var messages, replies := [], [Some(Message("a")), Some(Message("b"))];
      Concat(Run(messages, replies, Initial, [false], false).written) == "[ab]" &&
      Shape(messages, replies) == "[a,b]"
  {
    var messages: seq<Message>, replies := [], [Some(Message("a")), Some(Message("b"))];
    MissingCommaFirstCall(replies);
    MissingCommaSecondCall(replies);
    assert Run(messages, replies, Cursor(0, 1, ""), [], false).written == ["b]"];
    assert Run(messages, replies, Initial, [false], false).written == ["[a"] + ["b]"];
    assert Concat(["[a"] + ["b]"]) == "[a" + "b]" by {
      ConcatCons("[a", ["b]"]);
      ConcatCons("b]", []);
    }
    assert "[a" + "b]" == "[ab]";
    ShapeOfTwo(replies);
  }

  lemma ShapeOfTwo(replies: seq<Option<Message>>)
    requires replies == [Some(Message("a")), Some(Message("b"))]
    ensures Shape([], replies) == "[a,b]"
  {
    assert Jsons([]) + Present(replies) == ["a", "b"] by {
      assert replies[1..][1..] == [];
      assert Present(replies[1..]) == ["b"];
    }
    assert Commas(["a", "b"], false) == "a,b" by {
      assert ["a", "b"][1..] == ["b"] && ["b"][1..] == [];
    }
    assert "[" + "a,b" + "]" == "[a,b]";
  }

  /** The interval timeout is started by every call that begins before any
      reply is written, so a call that returns in the messages loop and the
      call that resumes it both start it. */
  lemma IntervalStartedTwice()
    ensures var messages, replies := [Message("m1"), Message("m2")], [Some(Message("r"))];
      var o := Run(messages, replies, Initial, [false], true);
      o.calls == 2 && o.arms == 2 && Concat(o.written) == Shape(messages, replies)
  {
    var messages, replies := [Message("m1"), Message("m2")], [Some(Message("r"))];
    ResponseShape(messages, replies, [false], true);
    var first := OnWritePossible(messages, replies, Initial, [false], true);
    FirstCallPauses(messages, replies);
    var second := OnWritePossible(messages, replies, first.cursor, [], true);
    SecondCallCompletes(messages, replies);
  }

  lemma FirstCallPauses(messages: seq<Message>, replies: seq<Option<Message>>)
    requires messages == [Message("m1"), Message("m2")] && replies == [Some(Message("r"))]
    ensures var s := OnWritePossible(messages, replies, Initial, [false], true);
      s.cursor == Cursor(1, 0, "") && s.readiness == [] && s.armed && !s.completed
  {
    assert Initial.buffer + "[" == "[";
    assert WriteMessages(messages, 0, "[", [false]).paused;
  }

  lemma SecondCallCompletes(messages: seq<Message>, replies: seq<Option<Message>>)
    requires messages == [Message("m1"), Message("m2")] && replies == [Some(Message("r"))]
    ensures var s := OnWritePossible(messages, replies, Cursor(1, 0, ""), [], true);
      s.armed && s.completed
  {
    var m := WriteMessages(messages, 1, "", []);
    assert m == WriteMessages(messages, 2, "", []).(written := [",m2"] + []) by {
      assert "" + "," + "m2" == ",m2";
    }
    assert !m.paused;
  }
}
