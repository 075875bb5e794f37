/** Maximum and minimum, and division by hand where the solver does not find the quotient. */
module Arithmetic {

  function Max(a: int, b: int): int { if a < b then b else a }

  function Min(a: int, b: int): int { if a < b then a else b }

  lemma Quotient(x: int, q: int, r: int, m: int)
    requires 0 <= r < m && x == q * m + r
    ensures x / m == q && x % m == r
  {
    var k, s := x / m, x % m;
    assert x == k * m + s;
    assert (k - q) * m == r - s;
    assert k - q >= 1 ==> (k - q) * m >= m;
    assert k - q <= -1 ==> (k - q) * m <= -m;
  }

  lemma Carry(n: int, m: int)
    requires m > 0
    ensures (n + 1) / m == n / m + if (n + 1) % m == 0 then 1 else 0
  {
    var q, r := n / m, n % m;
    assert n == q * m + r;
    if r + 1 == m {
      assert (q + 1) * m == q * m + m;
      Quotient(n + 1, q + 1, 0, m);
    } else {
      Quotient(n + 1, q, r + 1, m);
    }
  }
}
