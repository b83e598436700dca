/** Go's integer conversions whose rounding differs from Dafny's built-in ones. */
module GoNumeric {

  /** Go's `int(f)` for a finite float: the integer part, truncated toward zero. */
  function TruncToInt(f: real): (n: int)
    ensures 0.0 <= f ==> 0 <= n && n as real <= f < n as real + 1.0
    ensures f < 0.0 ==> n <= 0 && n as real - 1.0 < f <= n as real
  {
    if f >= 0.0 then f.Floor else -((-f).Floor)
  }

  /** Go's `n/2` on `int`: the quotient truncated toward zero. */
  function HalfTrunc(n: int): (q: int)
    ensures 0 <= n ==> 0 <= q && 2 * q <= n <= 2 * q + 1
    ensures n < 0 ==> q <= 0 && 2 * q - 1 <= n <= 2 * q
  {
    if n >= 0 then n / 2 else -((-n) / 2)
  }

  /** A larger value never truncates to a smaller integer. */
  lemma TruncMonotone(a: real, b: real)
    requires a <= b
    ensures TruncToInt(a) <= TruncToInt(b)
  {
  }
}
