/** Go's 64-bit integers: their range, what wraps around, and division that truncates toward zero. */
module GoInts {

  const TWO63 := 0x8000_0000_0000_0000

  predicate Int64(x: int) {
    -TWO63 <= x < TWO63
  }

  /** What a 64-bit integer holds after an operation whose exact result is x. */
  function Wrap64(x: int): int {
    (x + TWO63) % (2 * TWO63) - TWO63
  }

  /** A 64-bit integer that differs from the exact result by a multiple of 2^64; there is but one. */
  lemma WrapsAround(x: int, y: int)
    ensures y == Wrap64(x) <==> Int64(y) && (x - y) % 0x1_0000_0000_0000_0000 == 0
  {
  }

  /** The quotient truncated toward zero; the remainder has the sign of the dividend. */
  function Truncated(a: int, b: int): int
    requires b > 0
  {
    if a >= 0 then a / b else -(-a / b)
  }

  function Remainder(a: int, b: int): int
    requires b > 0
  {
    a - Truncated(a, b) * b
  }

  /** Quotient and remainder make up the dividend; the remainder is smaller than the divisor and not on the other side
      of zero than the dividend. */
  lemma TruncatesTowardZero(a: int, b: int)
    requires b > 0
    ensures a == Truncated(a, b) * b + Remainder(a, b) && -b < Remainder(a, b) < b
    ensures if a >= 0 then Remainder(a, b) >= 0 && Truncated(a, b) >= 0
            else Remainder(a, b) <= 0 && Truncated(a, b) <= 0
  {
    if a >= 0 {
      Divided(a, b);
    } else {
      Divided(-a, b);
      Negated(-a / b, b);
    }
  }

  lemma Divided(n: nat, b: nat)
    requires b > 0
    ensures n / b >= 0 && n - b < n / b * b <= n
  {
    assert n == b * (n / b) + n % b;
  }

  lemma Negated(q: int, b: int)
    ensures -q * b == -(q * b)
  {
  }
}
