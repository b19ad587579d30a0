/** Java's 32-bit `int` arithmetic and its signed `byte`, written out over
    Dafny's unbounded integers. */
module JavaInt {

  const INT_MIN: int := -0x8000_0000
  const INT_MAX: int := 0x7fff_ffff

  /** Java's `byte`: a signed 8-bit value. */
  newtype byte = x: int | -128 <= x < 128

  predicate IsInt(x: int) {
    INT_MIN <= x <= INT_MAX
  }

  /** Two's-complement wrap-around of a mathematical integer into `int`. */
  function Wrap(x: int): (r: int)
    ensures IsInt(r)
    ensures (r - x) % 0x1_0000_0000 == 0
    ensures IsInt(x) ==> r == x
  {
    (x - INT_MIN) % 0x1_0000_0000 + INT_MIN
  }

  /** `x << 1` on a Java `int`. */
  function ShiftLeft1(x: int): (r: int)
    requires IsInt(x)
    ensures IsInt(r)
    ensures 0 <= x <= INT_MAX / 2 ==> r == 2 * x
    ensures x == 0x4000_0000 ==> r == INT_MIN
  {
    Wrap(2 * x)
  }

  /** `a - b` on Java `int`s. */
  function Minus(a: int, b: int): (r: int)
    requires IsInt(a) && IsInt(b)
    ensures IsInt(r)
    ensures 0 <= a && 0 <= b ==> r == a - b
    ensures a == INT_MIN && 0 < b <= INT_MAX ==> r == 0x8000_0000 - b
  {
    Wrap(a - b)
  }
}
