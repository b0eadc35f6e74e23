/** Small facts about division and remainders that the solver does not find by itself. */
module Arith {

  lemma {:induction false} MulAtLeast(m: int, d: int)
    requires m > 0 && d >= 1
    ensures m * d >= m
  {
  }

  lemma {:induction false} MulNonNegative(a: int, b: int)
    requires a >= 0 && b >= 0
    ensures a * b >= 0
  {
  }

  lemma {:induction false} MulLess(a: int, b: int, m: int)
    requires 0 <= a < m && 0 <= b < m
    ensures 0 <= a * b < m * m
  {
    MulNonNegative(a, b);
    MulNonNegative(a, m - b);
    MulAtLeast(m, m - a);
    assert m * (m - a) == m * m - m * a;
    assert a * (m - b) == a * m - a * b;
  }

  lemma {:induction false} MulStep(n: int, s: int)
    ensures n * s == s + (n - 1) * s
  {
  }

  lemma {:induction false} QuotientUnique(m: int, q: int, r: int, q': int, r': int)
    requires m > 0 && m * q + r == m * q' + r' && 0 <= r < m && 0 <= r' < m
    ensures q == q' && r == r'
  {
    assert m * (q - q') == m * q - m * q';
    assert m * (q' - q) == m * q' - m * q;
    if q > q' {
      MulAtLeast(m, q - q');
    } else if q < q' {
      MulAtLeast(m, q' - q);
    }
  }

  lemma {:induction false} DivMod(a: int, m: int, q: int, r: int)
    requires m > 0 && a == m * q + r && 0 <= r < m
    ensures a % m == r && a / m == q
  {
    var q', r' := a / m, a % m;
    assert a == m * q' + r' && 0 <= r' < m;
    QuotientUnique(m, q, r, q', r');
  }

  /** A remainder by 256 times p, its low byte first. */
  lemma {:induction false} ModLowByte(n: nat, m: nat, r: nat, p: nat)
    requires n == 256 * m + r && r < 256 && p > 0
    ensures 256 * p > 0 && n % (256 * p) == 256 * (m % p) + r
  {
    var q, t := m / p, m % p;
    assert m == p * q + t && 0 <= t < p;
    MulByteStep(p, q);
    DivMod(n, 256 * p, q, 256 * t + r);
  }

  lemma {:induction false} MulByteStep(p: int, q: int)
    ensures 256 * p * q == 256 * (p * q)
  {
  }

  lemma {:induction false} ModShift(i: int, k: int, m: int)
    requires m > 0
    ensures (i + m * k) % m == i % m
  {
    var q, r := i / m, i % m;
    assert i == m * q + r && 0 <= r < m;
    assert m * (q + k) == m * q + m * k;
    DivMod(i + m * k, m, q + k, r);
  }

  lemma {:induction false} QuotientLess(a: nat, m: nat, n: nat)
    requires m > 0 && a < m * n
    ensures a / m < n
  {
    var q, r := a / m, a % m;
    assert a == m * q + r;
    assert m * (q - n) == m * q - m * n;
    if q > n {
      MulAtLeast(m, q - n);
    }
  }
}
