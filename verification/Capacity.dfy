/** Sizes: bytes in requests, GiB in the cloud, 64-bit integers in between. */
module Capacity {
  import opened GoInts

  const GIB := 1024 * 1024 * 1024

  function RoundUpSize(size: int, unit: int): int
    requires unit > 0
  {
    Truncated(size, unit) + if Remainder(size, unit) > 0 then 1 else 0
  }

  lemma RoundUpBrackets(size: int, unit: int)
    requires unit > 0
    ensures (RoundUpSize(size, unit) - 1) * unit < size <= RoundUpSize(size, unit) * unit
  {
    var q := Truncated(size, unit);
    if size >= 0 {
      assert size == unit * (size / unit) + size % unit;
    } else {
      assert -size == unit * (-size / unit) + -size % unit;
      assert q * unit == -(unit * (-size / unit));
    }
    assert (q - 1) * unit == q * unit - unit && (q + 1) * unit == q * unit + unit;
  }

  lemma {:induction false} MultiplesOrdered(a: int, b: int, unit: int)
    requires unit > 0
    ensures a <= b ==> a * unit <= b * unit
    ensures a < b ==> a * unit < b * unit
    decreases if a < b then b - a else 0
  {
    if a >= b {
    } else {
      MultiplesOrdered(a, b - 1, unit);
      assert b * unit == (b - 1) * unit + unit;
    }
  }

  /** The least number of units that hold the size, for negative sizes too. */
  lemma RoundUpIsLeast(size: int, unit: int, n: int)
    requires unit > 0
    ensures n * unit >= size <==> n >= RoundUpSize(size, unit)
  {
    var r := RoundUpSize(size, unit);
    RoundUpBrackets(size, unit);
    if n >= r { MultiplesOrdered(r, n, unit); } else { MultiplesOrdered(n, r - 1, unit); }
  }

  /** The result of rounding is again a 64-bit integer. */
  lemma RoundUpFits(size: int, unit: int)
    requires Int64(size) && unit > 0
    ensures Int64(RoundUpSize(size, unit))
  {
    RoundUpIsLeast(size, unit, TWO63 - 1);
    RoundUpIsLeast(size, unit, -TWO63 - 1);
    MultiplesOrdered(1, unit, TWO63 - 1);
    MultiplesOrdered(1, unit, TWO63 + 1);
    assert (-TWO63 - 1) * unit == -(unit * (TWO63 + 1));
  }

  /** Back in bytes, a size in GiB survives 64-bit arithmetic exactly if it is below 2^33 in magnitude. */
  lemma BytesSurviveIff(gib: int)
    ensures Wrap64(gib * GIB) == gib * GIB <==> -0x2_0000_0000 <= gib < 0x2_0000_0000
  {
  }
}
