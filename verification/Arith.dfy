/** Division with a variable divisor, which the solver is not left to guess at. */
module Arith {
  lemma Division(q: nat, r: nat, n: nat)
    requires r < n
    ensures (q * n + r) % n == r
  {
    if q > 0 {
      Division(q - 1, r, n);
      assert q * n + r == (q - 1) * n + r + n;
      AddOne((q - 1) * n + r, n);
    }
  }

  lemma AddOne(a: nat, n: nat)
    requires n > 0
    ensures (a + n) % n == a % n
  {
    var x, y, w, z := a / n, a % n, (a + n) / n, (a + n) % n;
    assert a == x * n + y && a + n == w * n + z;
    assert (w - (x + 1)) * n == y - z;
    OnlyZero(w - (x + 1), n, y - z);
  }

  lemma OnlyZero(d: int, n: int, e: int)
    requires d * n == e && -n < e < n
    ensures e == 0
  {
    assert d >= 1 ==> d * n >= n;
    assert d <= -1 ==> d * n <= -n;
  }

  lemma Multiples(r: nat, n: nat, m: nat)
    requires n > 0
    ensures (r + n * m) % n == r % n
  {
    if m > 0 {
      Multiples(r, n, m - 1);
      assert n * m == n * (m - 1) + n;
      AddOne(r + n * (m - 1), n);
    }
  }

  lemma Quotient(x: nat, r: nat, m: nat)
    requires r < m
    ensures (x * m + r) / m == x
  {
    Division(x, r, m);
    var n := x * m + r;
    var q := n / m;
    assert n == q * m + r;
    assert (q - x) * m == 0;
    SameFactor(q - x, m);
  }

  lemma SameFactor(d: int, m: int)
    requires m > 0 && d * m == 0
    ensures d == 0
  {
    assert d >= 1 ==> d * m >= m;
    assert d <= -1 ==> d * m <= -m;
  }

  lemma DivideTwice(n: nat, b: nat)
    requires b > 0
    ensures n / 256 / b == n / (256 * b)
  {
    var q := n / 256;
    var x, y := q / b, q % b;
    assert q == x * b + y;
    assert 256 * (x * b) == x * (256 * b);
    Quotient(x, 256 * y + n % 256, 256 * b);
  }
}
