/** C's integer division, which truncates toward zero, and the quotient and remainder of a natural number. */
module CArith {

  function CDiv(a: int, b: int): (q: int)
    requires b > 0
  {
    if a >= 0 then a / b else -((-a) / b)
  }

  function CRem(a: int, b: int): (r: int)
    requires b > 0
  {
    a - b * CDiv(a, b)
  }

  lemma Euclidean(n: nat, m: nat) returns (q: nat, r: nat)
    requires m > 0
    ensures n == m * q + r && r < m && q == n / m && r == n % m
  {
    q, r := n / m, n % m;
  }

  /** A quotient and a remainder below the divisor are the quotient and the remainder. */
  lemma Divided(n: int, m: nat, q: int, r: nat)
    requires m > 0 && n == m * q + r && r < m
    ensures n / m == q && n % m == r
  {
    var e := n / m - q;
    assert n == m * (n / m) + n % m;
    assert m * (n / m) == m * q + m * e;
    SmallMultiple(m, e);
  }

  lemma SmallMultiple(m: int, e: int)
    requires m > 0 && -m < m * e < m
    ensures e == 0
  {
  }
}
