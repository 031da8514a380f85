/** Division facts for mixed-radix positions, with a divisor that is not a constant. */
module Arithmetic {
  lemma MulGrows(x: int, m: int)
    requires x >= 1 && m > 0
    ensures x * m >= m
  {
  }

  lemma MulMonotone(x: int, y: int, m: int)
    requires x <= y && m >= 0
    ensures x * m <= y * m
  {
  }

  lemma DivisionLaw(k: int, m: int)
    requires m > 0
    ensures k == (k / m) * m + k % m && 0 <= k % m < m
  {
  }

  lemma MulDistributes(a: int, b: int, m: int)
    ensures (a - b) * m == a * m - b * m && (a + b) * m == a * m + b * m
  {
  }

  lemma MulAssociates(a: int, b: int, c: int)
    ensures a * b * c == a * (b * c)
  {
  }

  lemma DivModUnique(k: int, m: int, q: int, r: int)
    requires m > 0 && k == q * m + r && 0 <= r < m
    ensures k / m == q && k % m == r
  {
    var q', r' := k / m, k % m;
    DivisionLaw(k, m);
    MulDistributes(q', q, m);
    var x := q' - q;
    assert x * m == r - r';
    if x >= 1 {
      MulGrows(x, m);
    } else if x <= -1 {
      MulGrows(-x, m);
    }
  }

  lemma RowIsInRange(k: nat, n: nat, m: nat)
    requires m > 0 && k < n * m
    ensures k / m < n
  {
    DivisionLaw(k, m);
    if n <= k / m {
      MulMonotone(n, k / m, m);
      assert false;
    }
  }

  lemma DivideTwice(k: nat, m: nat, p: nat)
    requires m > 0 && p > 0
    ensures p * m > 0 && (k / m) / p == k / (p * m)
  {
    var a, b := k / m, k % m;
    var q, r := a / p, a % p;
    DivisionLaw(k, m);
    DivisionLaw(a, p);
    MulDistributes(q * p, r, m);
    MulAssociates(q, p, m);
    MulGrows(p, m);
    var rest := r * m + b;
    assert k == q * (p * m) + rest;
    MulMonotone(r, p - 1, m);
    MulDistributes(p, 1, m);
    MulMonotone(0, r, m);
    DivModUnique(k, p * m, q, rest);
  }
}
