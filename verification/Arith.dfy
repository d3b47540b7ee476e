/** Quotients and remainders by a divisor that is not a constant. */
module Arith {

  lemma MulBounds(n: nat, k: int)
    requires n > 0
    ensures k >= 1 ==> n * k >= n
    ensures k <= -1 ==> n * k + n <= 0
  {
  }

  lemma ModUnique(x: nat, n: nat, q: nat, m: nat)
    requires m < n && x == n * q + m
    ensures x % n == m
  {
    var k: int := q - x / n;
    assert x == n * (x / n) + x % n;
    assert n * k == n * q - n * (x / n);
    MulBounds(n, k);
  }

  lemma DivUnique(x: nat, n: nat, q: nat, m: nat)
    requires m < n && x == n * q + m
    ensures x / n == q && x % n == m
  {
    ModUnique(x, n, q, m);
    assert n * (x / n) == n * q;
    var k: int := q - x / n;
    assert n * k == 0;
    MulBounds(n, k);
  }

  lemma ModAdd(x: nat, d: nat, n: nat)
    requires d < n
    ensures (x + d) % n == if x % n + d < n then x % n + d else x % n + d - n
  {
    var q, m := x / n, x % n;
    assert x == n * q + m;
    if m + d < n {
      ModUnique(x + d, n, q, m + d);
    } else {
      assert n * (q + 1) == n * q + n;
      ModUnique(x + d, n, q + 1, m + d - n);
    }
  }

  lemma DivMul(n: nat, k: nat)
    requires k > 0
    ensures n * k % k == 0 && n * k / k == n
  {
    DivUnique(n * k, k, n, 0);
  }
}
