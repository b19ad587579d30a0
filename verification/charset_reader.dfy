/** The growable byte buffer of `CharsetReader`: request bytes are collected
    in an array whose length is doubled on demand, and the whole body is
    decoded once with the request's charset when the body is complete. */
module CharsetBuffer {
  import opened JavaInt

  /** Initial size of the byte array, and size of the reader's read buffer. */
  const CAPACITY: nat := 512

  /** The lengths the byte array can have: `CAPACITY` doubled any number of times. */
  predicate IsCapacity(n: int)
    decreases n
  {
    n == CAPACITY || (n > CAPACITY && n % 2 == 0 && IsCapacity(n / 2))
  }

  /** The array length that `append` arrives at, computed without any
      overflow: `size` doubled the fewest times that leaves room for
      `length` more bytes after the first `count`. */
  function GrowTo(size: int, count: int, length: int): (r: int)
    requires 0 < size && 0 <= count <= size && 0 <= length
    ensures r >= size && r - count >= length
    ensures r == size <==> size - count >= length
    decreases length - (size - count)
  {
    if size - count >= length then size else GrowTo(2 * size, count, length)
  }

  /** `GrowTo` doubles no more than needed: half of a grown length would
      not have left room. */
  lemma {:induction false} GrowToFewest(size: int, count: int, length: int)
    requires 0 < size && 0 <= count <= size && 0 <= length
    ensures var r := GrowTo(size, count, length);
      r > size ==> r % 2 == 0 && size <= r / 2 && r / 2 - count < length
    decreases length - (size - count)
  {
    if size - count < length && 2 * size - count < length {
      GrowToFewest(2 * size, count, length);
    }
  }

  /** Doubling keeps a length one the array can have. */
  lemma Doubled(n: int)
    requires IsCapacity(n)
    ensures IsCapacity(2 * n)
  {
    assert (2 * n) / 2 == n;
  }

  /** `GrowTo` only reaches lengths the array can have. */
  lemma {:induction false} GrowToCapacity(size: int, count: int, length: int)
    requires IsCapacity(size) && 0 <= count <= size && 0 <= length
    ensures IsCapacity(GrowTo(size, count, length))
    decreases length - (size - count)
  {
    if size - count < length {
      Doubled(size);
      GrowToCapacity(2 * size, count, length);
    }
  }

  /** Two lengths the array can have are a factor of two or more apart,
      unless they are equal. */
  lemma {:induction false} CapacityGap(n: int, t: int)
    requires IsCapacity(n) && IsCapacity(t)
    ensures n <= t / 2 || n == t || n >= 2 * t
    decreases n
  {
    if n != CAPACITY && t != CAPACITY {
      CapacityGap(n / 2, t / 2);
    }
  }

  /** The largest length the array can have as a Java `int`. */
  lemma LargestCapacity()
    ensures IsCapacity(0x4000_0000)
  {
    Doubled(0x200); Doubled(0x400); Doubled(0x800); Doubled(0x1000);
    Doubled(0x2000); Doubled(0x4000); Doubled(0x8000); Doubled(0x1_0000);
    Doubled(0x2_0000); Doubled(0x4_0000); Doubled(0x8_0000); Doubled(0x10_0000);
    Doubled(0x20_0000); Doubled(0x40_0000); Doubled(0x80_0000); Doubled(0x100_0000);
    Doubled(0x200_0000); Doubled(0x400_0000); Doubled(0x800_0000); Doubled(0x1000_0000);
    Doubled(0x2000_0000);
  }

  /** From any length the array can have, one doubling either still fits an
      `int` or the length was already 2^30. */
  lemma {:induction false} OneDoubling(n: int)
    requires IsCapacity(n) && n <= INT_MAX
    ensures 2 * n <= INT_MAX || n == 0x4000_0000
  {
    LargestCapacity();
    CapacityGap(n, 0x4000_0000);
  }

  /** What the doubling loop of `append` computes in Java `int` arithmetic,
      for a chunk no larger than the read buffer: at most one doubling,
      which wraps to a negative size exactly when `GrowTo` leaves the
      `int` range. */
  lemma GrowthStep(size: int, count: int, length: int)
    requires IsCapacity(size) && size <= INT_MAX
    requires 0 <= count <= size && 0 <= length <= CAPACITY
    ensures size - count < length ==> Minus(ShiftLeft1(size), count) >= length
    ensures size - count >= length ==> GrowTo(size, count, length) == size
    ensures size - count < length ==> GrowTo(size, count, length) == 2 * size
    ensures ShiftLeft1(size) < 0 <==> 2 * size > INT_MAX
    ensures ShiftLeft1(size) >= 0 ==> ShiftLeft1(size) == 2 * size
    ensures IsCapacity(GrowTo(size, count, length))
  {
    OneDoubling(size);
    GrowToCapacity(size, count, length);
  }

  /** `System.arraycopy(src, from, dst, at, length)` for distinct arrays. */
  method ArrayCopy(src: array<byte>, from: int, dst: array<byte>, at: int, length: int)
    requires src != dst
    requires 0 <= from && 0 <= at && 0 <= length
    requires from + length <= src.Length && at + length <= dst.Length
    modifies dst
    ensures dst[..at + length] == old(dst[..at]) + src[from..from + length]
    ensures dst[at + length..] == old(dst[at + length..])
  {
    forall i | 0 <= i < length {
      dst[at + i] := src[from + i];
    }
  }

  datatype AppendOutcome = Appended | MessageTooLarge

  class CharsetReader {
    var content: array<byte>
    var count: int
    /** Name of the charset the body is decoded with. */
    const charset: string

    ghost predicate Valid()
      reads this
    {
      IsCapacity(content.Length) && content.Length <= INT_MAX &&
      0 <= count <= content.Length
    }

    /** The bytes appended so far. */
    function Contents(): (s: seq<byte>)
      reads this, content
      requires Valid()
      ensures |s| == count
    {
      content[..count]
    }

    constructor (charset: string)
      ensures Valid() && fresh(content)
      ensures content.Length == CAPACITY && Contents() == []
      ensures this.charset == charset
    {
      content := new byte[CAPACITY];
      count := 0;
      this.charset := charset;
    }

    /** The doubling loop of `append`, in Java `int` arithmetic: the new
        array length, or a negative number when doubling overflowed. */
    static method NewSize(size: int, count: int, length: int) returns (newSize: int)
      requires IsCapacity(size) && size <= INT_MAX
      requires 0 <= count <= size && 0 <= length <= CAPACITY
      ensures GrowTo(size, count, length) > INT_MAX ==> newSize < 0
      ensures GrowTo(size, count, length) <= INT_MAX ==> newSize == GrowTo(size, count, length)
      ensures newSize >= 0 ==> IsCapacity(newSize) && newSize <= INT_MAX && newSize - count >= length
    {
      newSize := size;
      GrowthStep(size, count, length);
      while Minus(newSize, count) < length
        invariant IsInt(newSize)
        invariant newSize == size || (newSize == ShiftLeft1(size) && size - count < length)
        decreases if newSize == size then 1 else 0
      {
        newSize := ShiftLeft1(newSize);
      }
    }

    /** Appends `buffer[offset..offset + length]`. The only caller hands over
        what one read put into its `CAPACITY`-byte buffer. When the doubled
        size overflows, the reader is left as it was. */
    method Append(buffer: array<byte>, offset: int, length: int) returns (outcome: AppendOutcome)
      requires Valid() && buffer != content
      requires 0 <= offset && 0 <= length && offset + length <= buffer.Length
      requires length <= CAPACITY
      modifies this, content
      ensures Valid()
      ensures outcome == MessageTooLarge <==> GrowTo(old(content.Length), old(count), length) > INT_MAX
      ensures outcome == MessageTooLarge ==>
        content == old(content) && count == old(count) && content[..] == old(content[..])
      ensures outcome == Appended ==> content.Length == GrowTo(old(content.Length), old(count), length)
      ensures outcome == Appended ==> (content == old(content) || fresh(content))
      ensures outcome == Appended ==> Contents() == old(Contents()) + old(buffer[offset..offset + length])
    {
      var newSize := NewSize(content.Length, count, length);
      if newSize < 0 {
        return MessageTooLarge;
      }
      ghost var prefix := content[..count];
      ghost var chunk := buffer[offset..offset + length];
      if newSize != content.Length {
        var newContent := new byte[newSize];
        ArrayCopy(content, 0, newContent, 0, count);
        assert newContent[..count] == prefix;
        content := newContent;
      }
      assert content[..count] == prefix;
      ArrayCopy(buffer, offset, content, count, length);
      count := count + length;
      outcome := Appended;
    }

    /** Decodes the appended bytes with the reader's charset. */
    method Finish(decode: (string, seq<byte>) -> string) returns (text: string)
      requires Valid()
      ensures text == decode(charset, Contents())
    {
      text := decode(charset, content[..count]);
    }
  }
}
