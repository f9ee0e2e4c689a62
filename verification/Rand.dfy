/** The 48-bit linear congruential generator of rand.c. */
module Rand {
  import opened Bits

  const MULTIPLIER: nat := 0x5DEECE66D
  const INCREMENT: nat := 0xB
  const MODULUS: nat := 0x1_0000_0000_0000
  const BITS: nat := 48
  const WORD: nat := 0x1_0000_0000_0000_0000
  const RAND_MAX: nat := 2147483647

  /** One step of the generator, without the word size. */
  function Step(x: nat): nat {
    (MULTIPLIER * x + INCREMENT) % MODULUS
  }

  function Iterate(x: nat, n: nat): nat {
    if n == 0 then x else Step(Iterate(x, n - 1))
  }

  class Generator {
    var next: nat

    ghost predicate Valid()
      reads this
    {
      next < WORD
    }

    constructor ()
      ensures Valid() && next == 1
    {
      next := 1;
    }

    /** srand */
    method Seed(seed: nat)
      requires seed < 0x1_0000_0000
      modifies this
      ensures Valid() && next == seed
    {
      next := seed;
    }

    /** rand, in 64-bit arithmetic.  The do_div macro puts the whole of RAND_MAX + 1 after a cast and a %,
        so that the remainder is taken by RAND_MAX and then 1 is added. */
    method Next() returns (r: nat)
      requires Valid()
      modifies this
      ensures Valid() && next == Step(old(next)) == (25214903917 * old(next) + 11) % 281474976710656
      ensures r == Result(next) == next / 4096 % 2147483647 + 1 && 1 <= r <= RAND_MAX
    {
      WordSize(next);
      next := (next * MULTIPLIER % WORD + INCREMENT) % WORD % MODULUS;
      var result := next / 4096;
      r := result % RAND_MAX + 1;
    }
  }

  // ----- remainders -----

  lemma {:induction false} ModMultiple(t: nat, v: nat, m: nat)
    requires m > 0
    ensures (m * t + v) % m == v % m
  {
    assert m * t + v == m * (t + v / m) + v % m by {
      assert v == m * (v / m) + v % m;
      assert m * (t + v / m) == m * t + m * (v / m);
    }
    DivModUnique(m * t + v, m, t + v / m, v % m);
  }

  lemma {:induction false} SmallRemainder(v: nat, m: nat)
    requires v < m
    ensures v % m == v
  {
    DivModUnique(v, m, 0, v);
  }

  lemma {:induction false} ModStep(a: nat, u: nat, c: nat, m: nat)
    requires m > 0
    ensures (a * (u % m) + c) % m == (a * u + c) % m
  {
    var q, r := u / m, u % m;
    assert u == m * q + r;
    assert a * (m * q + r) == m * (a * q) + a * r;
    ModMultiple(a * q, a * r + c, m);
  }

  /** Wrapping at 2^64 does not change the remainder by 2^48. */
  lemma WordSize(x: nat)
    ensures (x * MULTIPLIER % WORD + INCREMENT) % WORD % MODULUS == Step(x)
  {
    var y := x * MULTIPLIER;
    assert WORD == MODULUS * 65536;
    ModOfMod(y % WORD + INCREMENT, MODULUS, 65536);
    assert y + INCREMENT == MODULUS * (65536 * (y / WORD)) + (y % WORD + INCREMENT);
    ModMultiple(65536 * (y / WORD), y % WORD + INCREMENT, MODULUS);
  }

  lemma {:induction false} ModOfMod(y: nat, m: nat, t: nat)
    requires m > 0 && t > 0
    ensures m * t > 0 && y % (m * t) % m == y % m
  {
    assert m * t > 0;
    var q, r := y / (m * t), y % (m * t);
    assert y == (m * t) * q + r == m * (t * q) + r;
    ModMultiple(t * q, r, m);
  }

  // ----- the iterates before reduction -----

  /** The n-th iterate over the integers, before any reduction. */
  function Affine(x: nat, n: nat): nat {
    if n == 0 then x else MULTIPLIER * Affine(x, n - 1) + INCREMENT
  }

  lemma {:induction false} AffineSum(x: nat, m: nat, n: nat)
    ensures Affine(x, m + n) == Affine(Affine(x, m), n)
  {
    if n > 0 {
      AffineSum(x, m, n - 1);
    }
  }

  /** 2^j steps multiply by a number that is 1 modulo 4 * 2^j and add an odd multiple of 2^j. */
  ghost predicate Doubled(j: nat, e: nat, o: nat) {
    forall x: nat :: Affine(x, Pow2(j)) == (1 + 4 * (Pow2(j) * e)) * x + Pow2(j) * (2 * o + 1)
  }

  lemma {:induction false} PowerOfTwoSteps(j: nat) returns (e: nat, o: nat)
    ensures Doubled(j, e, o)
  {
    if j == 0 {
      e, o := MULTIPLIER / 4, INCREMENT / 2;
      forall x: nat
        ensures Affine(x, Pow2(j)) == (1 + 4 * (Pow2(j) * e)) * x + Pow2(j) * (2 * o + 1)
      {
        assert Affine(x, 1) == MULTIPLIER * Affine(x, 0) + INCREMENT;
      }
    } else {
      var e0, o0 := PowerOfTwoSteps(j - 1);
      var p := Pow2(j - 1);
      e, o := e0 + 2 * (p * e0) * e0, o0 + (p * e0) * (2 * o0 + 1);
      forall x: nat
        ensures Affine(x, Pow2(j)) == (1 + 4 * (Pow2(j) * e)) * x + Pow2(j) * (2 * o + 1)
      {
        AffineSum(x, p, p);
        Compose(p, e0, o0, x);
      }
    }
  }

  lemma {:induction false} Compose(p: nat, e: nat, o: nat, x: nat)
    ensures (1 + 4 * (p * e)) * ((1 + 4 * (p * e)) * x + p * (2 * o + 1)) + p * (2 * o + 1)
         == (1 + 4 * (2 * p * (e + 2 * (p * e) * e))) * x + 2 * p * (2 * (o + (p * e) * (2 * o + 1)) + 1)
  {
    var u, d := p * e, 2 * o + 1;
    var m, k := 1 + 4 * u, p * d;
    assert m * (m * x + k) + k == (m * m) * x + (m + 1) * k;
    assert m * m == 1 + 8 * u + 16 * (u * u);
    assert 2 * p * (e + 2 * u * e) == 2 * u + 4 * (u * u) by {
      assert p * (u * e) == u * u;
      assert 2 * p * (e + 2 * u * e) == 2 * (p * e) + 4 * (p * (u * e));
    }
    assert (m + 1) * k == 2 * p * (2 * (o + u * d) + 1) by {
      assert (m + 1) * k == (2 + 4 * u) * (p * d) == 2 * (p * d) + 4 * (u * (p * d));
      assert 2 * p * (2 * (o + u * d) + 1) == 2 * p * (d + 2 * (u * d)) == 2 * (p * d) + 4 * (p * (u * d));
      assert u * (p * d) == p * (u * d);
    }
  }

  /** 2^j more steps add an odd multiple of 2^j. */
  lemma {:induction false} Advance(x: nat, j: nat, n: nat, q0: nat) returns (q: nat)
    requires Affine(x, n) == x + Pow2(j) * q0
    ensures Affine(x, n + Pow2(j)) == x + Pow2(j) * q && q % 2 != q0 % 2
  {
    var e, o := PowerOfTwoSteps(j);
    var y := Affine(x, n);
    AffineSum(x, n, Pow2(j));
    OneMoreStep(Pow2(j), e, o, x, y, q0);
    var t := 2 * (e * y) + o;
    q := q0 + 2 * t + 1;
  }

  /** A multiple m of 2^j steps adds a multiple of 2^j that is odd exactly when m is. */
  lemma {:induction false} StepsAdd(x: nat, j: nat, m: nat) returns (q: nat)
    ensures Affine(x, Pow2(j) * m) == x + Pow2(j) * q && q % 2 == m % 2
  {
    if m == 0 {
      q := 0;
    } else {
      var q0 := StepsAdd(x, j, m - 1);
      q := Advance(x, j, Pow2(j) * (m - 1), q0);
      MulNext(Pow2(j), m - 1);
    }
  }

  lemma MulNext(p: nat, m: nat)
    ensures p * m + p == p * (m + 1)
  {
  }

  lemma {:induction false} OneMoreStep(p: nat, e: nat, o: nat, x: nat, y: nat, q: nat)
    requires y == x + p * q
    ensures (1 + 4 * (p * e)) * y + p * (2 * o + 1) == x + p * (q + 2 * (2 * (e * y) + o) + 1)
  {
    var r := e * y;
    assert (1 + 4 * (p * e)) * y == y + 4 * (p * r) by {
      assert (p * e) * y == p * r;
    }
    assert p * (q + 2 * (2 * r + o) + 1) == p * q + 4 * (p * r) + 2 * (p * o) + p;
  }

  lemma {:induction false} OddPart(n: nat) returns (j: nat, m: nat)
    requires n > 0
    ensures n == Pow2(j) * m && m % 2 == 1
  {
    if n % 2 == 1 {
      j, m := 0, n;
    } else {
      j, m := OddPart(n / 2);
      j := j + 1;
    }
  }

  lemma {:induction false} Cancel(p: nat, u: nat, v: nat)
    requires p > 0 && p * u == p * v
    ensures u == v
  {
    MultipleOf(u, p);
    MultipleOf(v, p);
  }

  lemma {:induction false} MultipleIsEven(j: nat, k: nat, q: nat)
    requires j < k && (Pow2(j) * q) % Pow2(k) == 0
    ensures q % 2 == 0
  {
    var d, u := Parts(Pow2(j) * q, Pow2(k));
    Pow2Add(j, k - j);
    EvenFactor(Pow2(j), q, Pow2(k - j - 1), d);
  }

  lemma {:induction false} EvenFactor(p: nat, q: nat, h: nat, d: nat)
    requires p > 0 && p * q == (p * (2 * h)) * d
    ensures q % 2 == 0
  {
    assert (p * (2 * h)) * d == p * (2 * (h * d));
    Cancel(p, q, 2 * (h * d));
  }

  /** An odd multiple of 2^j is a multiple of 2^k only for k <= j. */
  lemma {:induction false} OddMultiple(j: nat, k: nat, q: nat)
    requires q % 2 == 1
    ensures (Pow2(j) * q) % Pow2(k) == 0 <==> k <= j
  {
    if k <= j {
      Pow2Add(k, j - k);
      assert Pow2(j) * q == Pow2(k) * (Pow2(j - k) * q);
      MultipleOf(Pow2(j - k) * q, Pow2(k));
    } else if (Pow2(j) * q) % Pow2(k) == 0 {
      MultipleIsEven(j, k, q);
    }
  }

  lemma {:induction false} SameRemainder(x: nat, y: nat, m: nat)
    requires m > 0
    ensures (x + y) % m == x % m <==> y % m == 0
  {
    if y % m == 0 {
      ModMultiple(y / m, x, m);
      assert m * (y / m) == y;
    }
    if (x + y) % m == x % m {
      var d := (x + y) / m - x / m;
      assert x + y == m * ((x + y) / m) + x % m && x == m * (x / m) + x % m;
      assert y == m * d;
      MulAtLeast(m, -d);
      assert m * -d == -(m * d);
      MultipleOf(d, m);
    }
  }

  /** Modulo 2^k the iteration returns to where it started after every 2^k steps and at no other time. */
  lemma {:induction false} PeriodIsFull(k: nat, x: nat, n: nat)
    ensures Affine(x, n) % Pow2(k) == x % Pow2(k) <==> n % Pow2(k) == 0
  {
    if n > 0 {
      var j, m := OddPart(n);
      var q := StepsAdd(x, j, m);
      OddMultiple(j, k, q);
      OddMultiple(j, k, m);
      SameRemainder(x, Pow2(j) * q, Pow2(k));
    } else {
      assert 0 % Pow2(k) == 0;
    }
  }

  /** Modulo 2^k the iteration visits every residue within 2^k steps. */
  lemma {:induction false} EveryResidue(k: nat, x: nat, y: nat) returns (n: nat)
    requires y < Pow2(k)
    ensures n < Pow2(k) && Affine(x, n) % Pow2(k) == y
  {
    if k == 0 {
      n := 0;
    } else {
      n := EveryResidue(k - 1, x, y % Pow2(k - 1));
      if Affine(x, n) % Pow2(k) != y {
        OtherResidue(k - 1, x, n, y);
        n := n + Pow2(k - 1);
      }
    }
  }

  /** If n steps reach the right residue modulo 2^j but not modulo 2^(j + 1), 2^j more steps do. */
  lemma {:induction false} OtherResidue(j: nat, x: nat, n: nat, y: nat)
    requires y < Pow2(j + 1)
    requires Affine(x, n) % Pow2(j) == y % Pow2(j) && Affine(x, n) % Pow2(j + 1) != y
    ensures Affine(x, n + Pow2(j)) % Pow2(j + 1) == y
  {
    var z, p := Affine(x, n), Pow2(j);
    var q := Advance(z, j, 0, 0);
    AffineSum(x, n, p);
    AddedHalf(z, y, p, q);
  }

  lemma {:induction false} AddedHalf(z: nat, y: nat, p: nat, q: nat)
    requires p > 0 && y < 2 * p && z % p == y % p && z % (2 * p) != y && q % 2 == 1
    ensures (z + p * q) % (2 * p) == y
  {
    ModOfMod(z, p, 2);
    var t, u := Parts(z, 2 * p);
    OtherHalf(z, t, u, y, p, q, q / 2);
  }

  lemma Parts(z: nat, m: nat) returns (t: nat, u: nat)
    requires m > 0
    ensures z == m * t + u && u == z % m < m && t == z / m
  {
    t, u := z / m, z % m;
  }

  /** Of the two residues modulo 2p that agree modulo p, an odd multiple of p leads from one to the other. */
  lemma {:induction false} OtherHalf(z: nat, t: nat, u: nat, y: nat, p: nat, q: nat, h: nat)
    requires p > 0 && u < 2 * p && y < 2 * p && u % p == y % p && u != y
    requires z == (2 * p) * t + u && q == 2 * h + 1
    ensures (z + p * q) % (2 * p) == y
  {
    HalfApart(u, y, p);
    AddOdd(z, t, u, p, q, h);
    if u < y {
      DivModUnique(u + p, 2 * p, 0, y);
    } else {
      DivModUnique(u + p, 2 * p, 1, y);
    }
  }

  lemma {:induction false} AddOdd(z: nat, t: nat, u: nat, p: nat, q: nat, h: nat)
    requires p > 0 && z == (2 * p) * t + u && q == 2 * h + 1
    ensures (z + p * q) % (2 * p) == (u + p) % (2 * p)
  {
    assert p * (2 * h + 1) == (2 * p) * h + p;
    assert (2 * p) * (t + h) == (2 * p) * t + (2 * p) * h;
    ModMultiple(t + h, u + p, 2 * p);
  }

  lemma {:induction false} HalfApart(u: nat, y: nat, p: nat)
    requires p > 0 && u < 2 * p && y < 2 * p && u % p == y % p && u != y
    ensures u == y + p || y == u + p
  {
    DivModUnique(u, p, if u < p then 0 else 1, if u < p then u else u - p);
    DivModUnique(y, p, if y < p then 0 else 1, if y < p then y else y - p);
  }

  // ----- the generator -----

  lemma {:induction false} IterateIsAffine(x: nat, n: nat)
    ensures Iterate(x, n) % MODULUS == Affine(x, n) % MODULUS
    ensures n > 0 || x < MODULUS ==> Iterate(x, n) < MODULUS
  {
    if n > 0 {
      IterateIsAffine(x, n - 1);
      ModStep(MULTIPLIER, Iterate(x, n - 1), INCREMENT, MODULUS);
      ModStep(MULTIPLIER, Affine(x, n - 1), INCREMENT, MODULUS);
    }
  }

  lemma Pow2Square(k: nat, v: nat)
    requires Pow2(k) == v
    ensures Pow2(2 * k) == v * v
  {
    Pow2Add(k, k);
  }

  lemma ModulusIsPower()
    ensures Pow2(BITS) == MODULUS
  {
    var k: nat := BITS / 16;
    assert k == 3 && Pow2(k) == 2 * Pow2(k - 1) == 4 * Pow2(k - 2) == 8;
    Pow2Square(k, 8);
    Pow2Square(2 * k, 64);
    Pow2Square(4 * k, 4096);
    Pow2Square(8 * k, 0x100_0000);
    assert 2 * (8 * k) == BITS;
  }

  /** From any 48-bit state the generator returns to that state after exactly 2^48 calls, and not before. */
  lemma {:induction false} FullPeriod(x: nat, n: nat)
    requires x < MODULUS
    ensures Iterate(x, n) == x <==> n % MODULUS == 0
  {
    ModulusIsPower();
    IterateIsAffine(x, n);
    PeriodIsFull(BITS, x, n);
    SmallRemainder(x, MODULUS);
    SmallRemainder(Iterate(x, n), MODULUS);
  }

  /** From any state, 48-bit or not, the generator reaches every 48-bit state. */
  lemma {:induction false} VisitsEveryState(x: nat, y: nat)
    requires y < MODULUS
    ensures exists n :: 0 < n <= MODULUS && Iterate(x, n) == y
  {
    ModulusIsPower();
    var n := EveryResidue(BITS, x, y);
    if n == 0 {
      n := MODULUS;
      PeriodIsFull(BITS, x, MODULUS);
    }
    IterateIsAffine(x, n);
  }

  lemma {:induction false} IterateSum(x: nat, i: nat, d: nat)
    ensures Iterate(x, i + d) == Iterate(Iterate(x, i), d)
  {
    if d > 0 {
      IterateSum(x, i, d - 1);
    }
  }

  lemma {:induction false} IterateBelow(x: nat, n: nat)
    requires x < MODULUS
    ensures Iterate(x, n) < MODULUS
  {
  }

  /** Within one period no state comes twice, so each of the 2^48 comes once. */
  lemma {:induction false} VisitsOnce(x: nat, i: nat, j: nat)
    requires x < MODULUS && i < j < MODULUS
    ensures Iterate(x, i) != Iterate(x, j)
  {
    IterateSum(x, i, j - i);
    IterateBelow(x, i);
    FullPeriod(Iterate(x, i), j - i);
    SmallRemainder(j - i, MODULUS);
  }

  /** What rand returns from state s. */
  function Result(s: nat): nat {
    s / 4096 % RAND_MAX + 1
  }

  /** From any seed, rand returns every value from 1 to RAND_MAX, and never 0. */
  lemma {:induction false} EveryResult(x: nat, v: nat)
    ensures 1 <= v <= RAND_MAX <==> exists n :: n > 0 && Result(Iterate(x, n)) == v
  {
    if 1 <= v <= RAND_MAX {
      VisitsEveryState(x, (v - 1) * 4096);
    }
  }

  /** The first two calls after srand(0). */
  lemma {:induction false} FirstResults()
    ensures Iterate(0, 1) == 11 && Result(Iterate(0, 1)) == 1
    ensures Iterate(0, 2) == 277363943098 && Result(Iterate(0, 2)) == 67715807
  {
    assert Iterate(0, 1) == Step(Iterate(0, 0)) && Iterate(0, 2) == Step(Iterate(0, 1));
  }
}
