/** Remainders of products and sums. */
module Remainders {
  lemma AtLeast(d: int, m: int)
    requires 0 < m && 1 <= d
    ensures d * m >= m
  {
  }

  /** What is congruent to a number below `m` has it as its remainder. */
  lemma ModIs(x: int, r: int, k: int, m: int)
    requires 0 <= r < m && x == r + k * m
    ensures x % m == r && x / m == k
  {
    var q, s := x / m, x % m;
    assert x == q * m + s;
    assert (q - k) * m == r - s && (k - q) * m == s - r;
    if q > k {
      AtLeast(q - k, m);
    } else if k > q {
      AtLeast(k - q, m);
    }
  }

  /** Division in two steps. */
  lemma DivDiv(x: nat, a: nat, m: nat)
    requires 0 < a && 0 < m
    ensures 0 < a * m && x / a / m == x / (a * m)
  {
    AtLeast(a, m);
    var q, r, s := x / a / m, x / a % m, x % a;
    assert x / a == q * m + r && x == x / a * a + s;
    assert x / a * a == (q * m + r) * a == q * (a * m) + r * a;
    Below(r, a, m);
    ModIs(x, r * a + s, q, a * m);
  }

  lemma Below(r: nat, a: nat, m: nat)
    requires r < m && 0 < a
    ensures r * a <= a * m - a
  {
    AtLeast(m - r, a);
    assert a * m == (m - r) * a + r * a;
  }

  lemma ModPlus(x: int, k: int, m: int)
    requires 0 < m
    ensures (x + k * m) % m == x % m
  {
    var q := x / m;
    assert x + k * m == x % m + (q + k) * m;
    ModIs(x + k * m, x % m, q + k, m);
  }

  /** Factors may be reduced first. */
  lemma ModTimes(x: int, y: int, m: int)
    requires 0 < m
    ensures ((x % m) * y) % m == (x * y) % m
  {
    var q := x / m;
    assert x == q * m + x % m;
    assert x * y == (x % m) * y + (q * y) * m;
    ModPlus((x % m) * y, q * y, m);
  }

  lemma ModTimesBoth(x: int, y: int, m: int)
    requires 0 < m
    ensures ((x % m) * (y % m)) % m == (x * y) % m
  {
    ModTimes(x, y % m, m);
    ModTimes(y, x, m);
  }
}
