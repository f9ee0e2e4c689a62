/** Powers of two, and the arithmetic of numbers aligned to one.  Everything that the page
    allocators do with shifts and masks is stated in these terms. */
module Bits {

  function Pow2(k: nat): (r: nat)
    ensures r > 0
  {
    if k == 0 then 1 else 2 * Pow2(k - 1)
  }

  predicate Aligned(p: nat, k: nat) {
    p % Pow2(k) == 0
  }

  lemma Pow2Add(a: nat, b: nat)
    ensures Pow2(a + b) == Pow2(a) * Pow2(b)
  {
    if a > 0 {
      Pow2Add(a - 1, b);
    }
  }

  lemma Pow2Mono(a: nat, b: nat)
    requires a <= b
    ensures Pow2(a) <= Pow2(b)
    ensures a < b ==> 2 * Pow2(a) <= Pow2(b)
  {
    if a < b {
      Pow2Mono(a, b - 1);
    }
  }

  /** Quotient and remainder are unique. */
  lemma DivModUnique(x: nat, d: nat, q: nat, r: nat)
    requires d > 0 && r < d && x == d * q + r
    ensures x / d == q && x % d == r
  {
    var e := q - x / d;
    assert d * e == x % d - r by {
      assert x == d * (x / d) + x % d;
      assert d * e == d * q - d * (x / d);
    }
    assert e == 0 by {
      MulAtLeast(d, e);
      MulAtLeast(d, -e);
      assert d * -e == -(d * e);
    }
  }

  lemma QuotientSmall(x: nat, d: nat)
    requires d > 0
    ensures x / d == 0 <==> x < d
  {
    if x < d {
      DivModUnique(x, d, 0, x);
    }
  }

  lemma QuotientHalf(x: nat, d: nat)
    requires d > 0
    ensures x / (2 * d) == x / d / 2
  {
    QuotientParts(x, d, x / d / 2, x / d % 2, x % d);
  }

  lemma QuotientParts(x: nat, d: nat, h: nat, odd: nat, r: nat)
    requires r < d && odd < 2 && x == d * (2 * h + odd) + r
    ensures x / (2 * d) == h
  {
    assert d * (2 * h) == (2 * d) * h;
    if odd == 0 {
      DivModUnique(x, 2 * d, h, r);
    } else {
      assert d * (2 * h + 1) == d * (2 * h) + d;
      DivModUnique(x, 2 * d, h, d + r);
    }
  }

  lemma MulAtLeast(d: nat, e: int)
    ensures e >= 1 ==> d * e >= d
  {
    if e >= 1 {
      assert d * e == d + d * (e - 1);
    }
  }

  lemma MultipleOf(q: nat, d: nat)
    requires d > 0
    ensures (d * q) % d == 0 && (d * q) / d == q
  {
    DivModUnique(d * q, d, q, 0);
  }

  lemma MultipleSum(x: nat, y: nat, d: nat)
    requires d > 0 && x % d == 0 && y % d == 0
    ensures (x + y) % d == 0
    ensures x >= y ==> (x - y) % d == 0
  {
    var m, n := x / d, y / d;
    assert x == d * m && y == d * n;
    assert d * (m + n) == x + y;
    MultipleOf(m + n, d);
    if x >= y {
      assert d * (m - n) == x - y;
      MulAtLeast(d, n - m);
      assert d * (n - m) == y - x;
      MultipleOf(m - n, d);
    }
  }

  /** Two different multiples of d are at least d apart. */
  lemma MultipleGap(x: nat, y: nat, d: nat)
    requires d > 0 && x % d == 0 && y % d == 0 && x < y
    ensures x + d <= y
  {
    MultipleSum(y, x, d);
  }

  lemma AlignedDown(p: nat, j: nat, k: nat)
    requires j <= k && Aligned(p, k)
    ensures Aligned(p, j)
  {
    if j < k {
      var q := p / Pow2(k);
      assert p == Pow2(k) * q == Pow2(k - 1) * (2 * q);
      MultipleOf(2 * q, Pow2(k - 1));
      AlignedDown(p, j, k - 1);
    }
  }

  lemma Pow2Aligned(j: nat, k: nat)
    requires j <= k
    ensures Aligned(Pow2(k), j)
  {
    MultipleOf(1, Pow2(k));
    assert Aligned(Pow2(k), k);
    AlignedDown(Pow2(k), j, k);
  }

  lemma AlignedSum(p: nat, q: nat, k: nat)
    requires Aligned(p, k) && Aligned(q, k)
    ensures Aligned(p + q, k)
    ensures p >= q ==> Aligned(p - q, k)
  {
    MultipleSum(p, q, Pow2(k));
  }

  lemma MultipleParity(p: nat, d: nat, h: nat, odd: nat)
    requires d > 0 && odd < 2 && p == d * (2 * h + odd)
    ensures p % (2 * d) == d * odd
    ensures odd == 1 ==> p >= d && (p - d) % (2 * d) == 0 && (p + d) % (2 * d) == 0
  {
    var m := 2 * d;
    assert p == m * h + d * odd;
    if odd == 0 {
      DivModUnique(p, m, h, 0);
    } else {
      DivModUnique(p, m, h, d);
      DivModUnique(p - d, m, h, 0);
      assert m * (h + 1) == m * h + m;
      DivModUnique(p + d, m, h + 1, 0);
    }
  }

  /** An aligned number is aligned one order higher exactly when its block index is even. */
  lemma AlignedParity(p: nat, k: nat)
    requires Aligned(p, k)
    ensures (p / Pow2(k)) % 2 == 0 <==> Aligned(p, k + 1)
    ensures (p / Pow2(k)) % 2 == 1 ==> p >= Pow2(k) && Aligned(p - Pow2(k), k + 1)
    ensures (p / Pow2(k)) % 2 == 1 ==> Aligned(p + Pow2(k), k + 1)
  {
    var q := p / Pow2(k);
    MultipleParity(p, Pow2(k), q / 2, q % 2);
  }

  // ----- logarithms -----

  /** The largest order whose blocks fit into n pages. */
  function OrderDown(n: nat): (k: nat)
    ensures n > 0 ==> Pow2(k) <= n < Pow2(k + 1)
  {
    if n == 0 then 0 else FloorLog(n, 0)
  }

  function FloorLog(n: nat, k: nat): (r: nat)
    requires Pow2(k) <= n
    ensures Pow2(r) <= n < Pow2(r + 1)
    decreases n - Pow2(k)
  {
    if Pow2(k + 1) <= n then FloorLog(n, k + 1) else k
  }

  lemma {:induction false} OrderDownGreatest(n: nat, k: nat)
    requires n > 0
    ensures k <= OrderDown(n) <==> Pow2(k) <= n
  {
    if k <= OrderDown(n) {
      Pow2Mono(k, OrderDown(n));
    } else {
      Pow2Mono(OrderDown(n) + 1, k);
    }
  }
}
