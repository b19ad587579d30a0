/** The text of a response: the chunks written, one after the other, and
    the JSON array a batch should become. */
module ResponseText {
  import opened Servlet

  /** The chunks, written one after the other. */
  function Concat(chunks: seq<string>): string {
    if chunks == [] then "" else chunks[0] + Concat(chunks[1..])
  }

  lemma {:induction false} ConcatAppend(a: seq<string>, b: seq<string>)
    ensures Concat(a + b) == Concat(a) + Concat(b)
  {
    if a != [] {
      calc {
        Concat(a + b);
        (a + b)[0] + Concat((a + b)[1..]);
        { assert (a + b)[1..] == a[1..] + b; }
        a[0] + Concat(a[1..] + b);
        { ConcatAppend(a[1..], b); }
        a[0] + (Concat(a[1..]) + Concat(b));
        a[0] + Concat(a[1..]) + Concat(b);
        Concat(a) + Concat(b);
      }
    } else {
      assert a + b == b;
    }
  }

  /** Writing `chunk` before output that leaves `tail` pending. */
  lemma PrependChunk(chunk: string, written: seq<string>, rest: string, tail: string)
    requires Concat(written) + rest == "" + tail
    ensures Concat([chunk] + written) + rest == chunk + tail
  {
    ConcatCons(chunk, written);
    assert "" + tail == tail;
  }

  lemma ConcatCons(x: string, w: seq<string>)
    ensures Concat([x] + w) == x + Concat(w)
  {
    assert ([x] + w)[1..] == w;
  }

  /** The JSON texts of the messages. */
  function Jsons(messages: seq<Message>): (js: seq<string>)
    ensures |js| == |messages|
  {
    if messages == [] then [] else [messages[0].json] + Jsons(messages[1..])
  }

  /** The JSON texts of the replies, skipping null slots. */
  function Present(replies: seq<Option<Message>>): (js: seq<string>)
    ensures |js| <= |replies|
  {
    if replies == [] then []
    else (if replies[0].Some? then [replies[0].value.json] else []) + Present(replies[1..])
  }

  /** `items` separated by commas, with a comma before the first as well
      when `leading`. */
  function Commas(items: seq<string>, leading: bool): string {
    if items == [] then ""
    else (if leading then "," else "") + items[0] + Commas(items[1..], true)
  }

  lemma {:induction false} CommasAppend(a: seq<string>, b: seq<string>, leading: bool)
    ensures Commas(a + b, leading) == Commas(a, leading) + Commas(b, leading || a != [])
  {
    if a != [] {
      var sep := if leading then "," else "";
      calc {
        Commas(a + b, leading);
        sep + (a + b)[0] + Commas((a + b)[1..], true);
        { assert (a + b)[1..] == a[1..] + b; }
        sep + a[0] + Commas(a[1..] + b, true);
        { CommasAppend(a[1..], b, true); }
        sep + a[0] + (Commas(a[1..], true) + Commas(b, true));
        sep + a[0] + Commas(a[1..], true) + Commas(b, true);
        Commas(a, leading) + Commas(b, true);
      }
    } else {
      assert a + b == b;
    }
  }

  lemma CommasCons(x: string, items: seq<string>, leading: bool)
    ensures Commas([x] + items, leading) == (if leading then "," else "") + x + Commas(items, true)
  {
    assert ([x] + items)[1..] == items;
  }

  /** An opening bracket, two texts and a closing bracket, however the
      concatenation is grouped. */
  lemma Bracketed(a: string, b: string)
    ensures "" + "[" + a + (b + "]") == "[" + (a + b) + "]"
  {
  }

  /** The response a batch should produce: a JSON array of the messages
      followed by the non-null replies. */
  function Shape(messages: seq<Message>, replies: seq<Option<Message>>): (s: string)
    ensures |s| >= 2 && s[0] == '[' && s[|s| - 1] == ']'
    ensures messages == [] && Present(replies) == [] ==> s == "[]"
  {
    "[" + Commas(Jsons(messages) + Present(replies), false) + "]"
  }
}
