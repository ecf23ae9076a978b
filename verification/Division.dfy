/** Division by repeated subtraction, as pages and batches are counted. */
module Division {

  /** How often the d goes into n, by taking it away. */
  function Quotient(n: nat, d: nat): nat
    requires d > 0
  {
    if n < d then 0 else 1 + Quotient(n - d, d)
  }

  lemma {:induction false} QuotientIsDivision(n: nat, d: nat)
    requires d > 0
    ensures Quotient(n, d) == n / d
  {
    if n < d {
      DivisionIs(n, d, 0, n);
    } else {
      QuotientIsDivision(n - d, d);
      var q := (n - d) / d;
      var rest := (n - d) % d;
      assert n - d == d * q + rest;
      assert d * (q + 1) == d * q + d;
      DivisionIs(n, d, q + 1, rest);
    }
  }

  lemma DivisionIs(n: nat, d: nat, q: nat, rest: nat)
    requires rest < d && n == d * q + rest
    ensures n / d == q
  {
    var p, m := n / d, n % d;
    assert n == d * p + m;
    assert d * (p - q) == d * p - d * q;
    MultipleGrows(d, p - q);
  }

  lemma MultipleGrows(d: int, x: int)
    requires d > 0
    ensures x >= 1 ==> d * x >= d
    ensures x <= -1 ==> d * x <= -d
  {
    if x >= 1 { assert d * x == d + d * (x - 1); }
    if x <= -1 { assert d * x == d * (x + 1) - d; }
  }
}
