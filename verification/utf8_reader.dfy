/** The buffer of `UTF8Reader`: bytes go straight into an incremental UTF-8
    decoder, and the text is taken from it once the body is complete. */
module Utf8Buffer {
  import opened JavaInt

  class Utf8Reader {
    /** The bytes handed to the decoder so far. */
    var content: seq<byte>

    constructor ()
      ensures content == []
    {
      content := [];
    }

    /** Hands `buffer[offset..offset + length]` to the decoder. */
    method Append(buffer: array<byte>, offset: int, length: int)
      requires 0 <= offset && 0 <= length && offset + length <= buffer.Length
      modifies this
      ensures content == old(content) + buffer[offset..offset + length]
    {
      content := content + buffer[offset..offset + length];
    }

    /** The text of all bytes handed over, decoded as UTF-8. */
    method Finish(decodeUtf8: seq<byte> -> string) returns (text: string)
      ensures text == decodeUtf8(content)
    {
      text := decodeUtf8(content);
    }
  }
}
