/** The few pieces of .NET runtime behaviour the headless-monitor core depends on:
    fixed-width integers, the exceptions it can raise, unchecked `uint` arithmetic,
    C# integer division and banker's rounding. */
module DotNet {

  /** C# `uint`. */
  type uint32 = x: int | 0 <= x < 0x1_0000_0000
  /** C# `ushort`, the target type of every `Convert.ToUInt16` in the core. */
  type uint16 = x: int | 0 <= x < 0x1_0000
  /** C# `int`. */
  type int32 = x: int | -0x8000_0000 <= x < 0x8000_0000

  /** The exceptions the core can throw. */
  datatype Exception =
    | OverflowException            // Convert.ToUInt16 of a value above 65535
    | ArgumentOutOfRangeException  // new string(c, count) with count < 0

  /** The value a C# expression yields, or the exception it throws. */
  datatype Result<T> = Ok(value: T) | Err(error: Exception)

  /** An unchecked `uint` addition or subtraction: the exact result reduced modulo 2^32. */
  function WrapUInt32(x: int): (r: uint32)
    ensures (r - x) % 0x1_0000_0000 == 0
  {
    x % 0x1_0000_0000
  }

  /** C# `a / 2` on `int`, which truncates toward zero. */
  function HalfTowardZero(a: int): (q: int)
    ensures a >= 0 ==> 0 <= a - 2 * q <= 1
    ensures a < 0 ==> -1 <= a - 2 * q <= 0
  {
    if a >= 0 then a / 2 else -((-a) / 2)
  }

  /** Euclidean division facts for a positive divisor, stated once so that the
      rounding proof below stays linear. */
  lemma DivMod(n: nat, d: int)
    requires d > 0
    ensures d * (n / d) + n % d == n
    ensures d * (n / d + 1) == n - n % d + d
  {
  }

  /** The nearest integer to n / d, a tie going to the even neighbour
      (`Math.Round` and `Convert.ToUInt16` on decimal and double). */
  function RoundHalfEven(n: nat, d: int): (r: nat)
    requires d > 0
    ensures -d <= 2 * (d * r - n) <= d
    ensures 2 * (d * r - n) == d || 2 * (d * r - n) == -d ==> r % 2 == 0
  {
    var q, m := n / d, n % d;
    DivMod(n, d);
    assert 0 <= m < d;
    if 2 * m < d || (2 * m == d && q % 2 == 0) then
      assert d * q - n == -m;
      q
    else
      assert d * (q + 1) - n == d - m;
      q + 1
  }

  /** `Convert.ToUInt16` of a non-negative whole number. */
  function ToUInt16(x: nat): Result<uint16>
  {
    if x < 0x1_0000 then Ok(x) else Err(OverflowException)
  }
}
