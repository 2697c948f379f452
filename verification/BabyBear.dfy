/** The BabyBear field of the claim prover, as integers modulo P.  P is shown
    to be prime, so a product is zero only when a factor is. */
module BabyBear {
  import opened Arith

  const P: int := 2013265921

  type Felt = x: int | 0 <= x < P

  function Add(a: Felt, b: Felt): Felt { (a + b) % P }

  function Sub(a: Felt, b: Felt): Felt { (a - b) % P }

  function Mul(a: Felt, b: Felt): Felt { (a * b) % P }

  // ----- P is prime -----
  //
  // P == 15 * 2^27 + 1.  BASE == 31^15 mod P becomes -1 after 26 squarings, so
  // modulo any divisor r > 1 of P it has 2^27 distinct powers, all non-zero,
  // whence r > 2^27.  Two such divisors multiply to more than P.

  const BASE: int := 440564289

  ghost predicate Assoc(f: (int, int) -> int, x: int, y: int, z: int) {
    f(x, f(y, z)) == f(f(x, y), z)
  }

  /** Residues below `r` form a monoid with unit 1 under `f`. */
  ghost predicate Monoid(f: (int, int) -> int, r: int) {
    && r > 1
    && (forall x, y :: 0 <= f(x, y) < r)
    && (forall x, y, z :: Assoc(f, x, y, z))
    && (forall x :: 0 <= x < r ==> f(1, x) == x)
  }

  function Pow(f: (int, int) -> int, b: int, e: nat): int {
    if e == 0 then 1 else f(b, Pow(f, b, e - 1))
  }

  lemma {:induction false} PowAdd(f: (int, int) -> int, r: int, b: int, i: nat, j: nat)
    requires Monoid(f, r)
    ensures 0 <= Pow(f, b, i) < r
    ensures Pow(f, b, i + j) == f(Pow(f, b, i), Pow(f, b, j))
  {
    assert 0 <= Pow(f, b, j) < r;
    if i > 0 {
      PowAdd(f, r, b, i - 1, j);
      assert Assoc(f, b, Pow(f, b, i - 1), Pow(f, b, j));
    }
  }

  /** `b^(e*n)` is the `n`-th power of `b^e`. */
  lemma {:induction false} PowMul(f: (int, int) -> int, r: int, b: int, e: nat, n: nat)
    requires Monoid(f, r)
    ensures Pow(f, b, e * n) == Pow(f, Pow(f, b, e), n)
  {
    if n > 0 {
      PowMul(f, r, b, e, n - 1);
      assert e * n == e + e * (n - 1);
      PowAdd(f, r, b, e, e * (n - 1));
    }
  }

  lemma {:induction false} PowOne(f: (int, int) -> int, r: int, n: nat)
    requires Monoid(f, r)
    ensures Pow(f, 1, n) == 1
  {
    if n > 0 { PowOne(f, r, n - 1); }
  }

  /** An odd power of a square root of 1 is that root. */
  lemma {:induction false} OddPower(f: (int, int) -> int, r: int, b: int, u: nat)
    requires Monoid(f, r)
    requires f(b, b) == 1 && f(b, 1) == b
    ensures Pow(f, b, 2 * u + 1) == b
  {
    if u > 0 { OddPower(f, r, b, u - 1); }
  }

  lemma {:induction false} DoubleBoth(a: nat, x: nat, b: nat, y: nat)
    requires a * x == b * y
    ensures (2 * a) * x == (2 * b) * y
  {
  }

  /** Some doubling of `d` is an odd multiple of `2^(k-1)`. */
  lemma {:induction false} OddMultiple(d: nat, k: nat) returns (t: nat, u: nat)
    requires k > 0 && 0 < d < Pow2(k)
    ensures d * Pow2(t) == Pow2(k - 1) * (2 * u + 1)
  {
    if d % 2 == 1 {
      t, u := k - 1, d / 2;
    } else {
      t, u := OddMultiple(d / 2, k - 1);
      DoubleBoth(d / 2, Pow2(t), Pow2(k - 2), 2 * u + 1);
    }
  }

  /** `b^(2^(k-1))` is a square root of 1 other than 1, so `b` has order `2^k`. */
  ghost predicate HasOrder(f: (int, int) -> int, r: int, b: int, k: nat) {
    && k > 0
    && Monoid(f, r)
    && var h := Pow(f, b, Pow2(k - 1));
    h != 1 && f(h, h) == 1 && f(h, 1) == h
  }

  lemma {:induction false} NoSmallOrder(f: (int, int) -> int, r: int, b: int, k: nat, d: nat)
    requires HasOrder(f, r, b, k)
    requires 0 < d < Pow2(k)
    ensures Pow(f, b, d) != 1
  {
    if Pow(f, b, d) == 1 {
      var t, u := OddMultiple(d, k);
      PowMul(f, r, b, d, Pow2(t));
      PowOne(f, r, Pow2(t));
      PowMul(f, r, b, Pow2(k - 1), 2 * u + 1);
      OddPower(f, r, Pow(f, b, Pow2(k - 1)), u);
    }
  }

  lemma {:induction false} FullOrder(f: (int, int) -> int, r: int, b: int, k: nat, i: nat)
    requires HasOrder(f, r, b, k)
    requires i <= Pow2(k)
    ensures Pow(f, b, Pow2(k)) == 1
    ensures f(Pow(f, b, i), Pow(f, b, Pow2(k) - i)) == 1
  {
    PowAdd(f, r, b, Pow2(k - 1), Pow2(k - 1));
    PowAdd(f, r, b, i, Pow2(k) - i);
  }

  lemma {:induction false} PowersDistinct(f: (int, int) -> int, r: int, b: int, k: nat, i: nat, j: nat)
    requires HasOrder(f, r, b, k)
    requires i < j < Pow2(k)
    ensures Pow(f, b, i) != Pow(f, b, j)
  {
    if Pow(f, b, i) == Pow(f, b, j) {
      var n := Pow2(k);
      FullOrder(f, r, b, k, i);
      PowAdd(f, r, b, j, n - i);
      PowAdd(f, r, b, n, j - i);
      PowAdd(f, r, b, j - i, 0);
      NoSmallOrder(f, r, b, k, j - i);
    }
  }

  lemma {:induction false} RangeSize(r: nat) returns (s: set<int>)
    requires r > 0
    ensures forall x :: x in s <==> 1 <= x < r
    ensures |s| == r - 1
  {
    if r == 1 {
      s := {};
    } else {
      s := RangeSize(r - 1);
      s := s + {r - 1};
    }
  }

  lemma {:induction false} DistinctSize(s: seq<int>)
    requires forall i, j :: 0 <= i < j < |s| ==> s[i] != s[j]
    ensures |set x | x in s| == |s|
  {
    if s != [] {
      var init := s[..|s| - 1];
      DistinctSize(init);
      assert (set x | x in s) == (set x | x in init) + {s[|s| - 1]};
    }
  }

  lemma {:induction false} SubsetSize<T>(a: set<T>, b: set<T>)
    requires a <= b
    ensures |a| <= |b|
  {
    if a != {} {
      var x :| x in a;
      SubsetSize(a - {x}, b - {x});
    }
  }

  /** An element of order `2^k` needs `2^k` non-zero residues. */
  lemma {:induction false} OrderBelowModulus(f: (int, int) -> int, r: int, b: int, k: nat)
    requires HasOrder(f, r, b, k)
    requires forall x :: f(0, x) == 0
    ensures Pow2(k) < r
  {
    var s := seq(Pow2(k), (i: int) requires 0 <= i => Pow(f, b, i));
    forall i, j | 0 <= i < j < |s|
      ensures s[i] != s[j]
    {
      PowersDistinct(f, r, b, k, i, j);
    }
    DistinctSize(s);
    var range := RangeSize(r);
    forall x | x in s
      ensures x in range
    {
      var i :| 0 <= i < |s| && s[i] == x;
      PowAdd(f, r, b, i, 0);
      FullOrder(f, r, b, k, i);
    }
    SubsetSize((set x | x in s), range);
  }

  // ----- Multiplication modulo a divisor of P -----

  lemma {:induction false} MulModAssoc(a: int, b: int, c: int, r: int)
    requires r > 0
    ensures (a * ((b * c) % r)) % r == (((a * b) % r) * c) % r
  {
    MulModRight(a, b * c, r);
    MulModRight(c, a * b, r);
    assert a * (b * c) == c * (a * b);
    assert ((a * b) % r) * c == c * ((a * b) % r);
  }

  function Times(r: nat): (int, int) -> int
    requires r > 1
  {
    (x: int, y: int) => (x * y) % r
  }

  lemma {:induction false} TimesAssoc(r: nat, x: int, y: int, z: int)
    requires r > 1
    ensures Assoc(Times(r), x, y, z)
  {
    MulModAssoc(x, y, z, r);
  }

  lemma {:induction false} TimesUnit(r: nat, x: int)
    requires r > 1
    ensures Times(r)(0, x) == 0
    ensures 0 <= x < r ==> Times(r)(1, x) == x
  {
    if 0 <= x < r { ModUnique(1 * x, 0, x, r); }
  }

  lemma {:induction false} TimesMonoid(r: nat)
    requires r > 1
    ensures Monoid(Times(r), r)
    ensures forall x :: Times(r)(0, x) == 0
  {
    forall x, y, z ensures Assoc(Times(r), x, y, z) { TimesAssoc(r, x, y, z); }
    forall x
      ensures Times(r)(0, x) == 0
      ensures 0 <= x < r ==> Times(r)(1, x) == x
    {
      TimesUnit(r, x);
    }
  }

  /** `BASE` squared `k` times, modulo P. */
  function Squared(k: nat): (v: nat)
    ensures v < P
  {
    if k == 0 then BASE else (Squared(k - 1) * Squared(k - 1)) % P
  }

  lemma {:induction false} SquaredValue()
    ensures Squared(26) == P - 1
  {
    assert Squared(1) == 975630072;
    assert Squared(2) == 1149491290;
    assert Squared(3) == 1003846038;
    assert Squared(4) == 1267047229;
    assert Squared(5) == 570250684;
    assert Squared(6) == 414040701;
    assert Squared(7) == 195061667;
    assert Squared(8) == 1049899240;
    assert Squared(9) == 1559589183;
    assert Squared(10) == 1286330022;
    assert Squared(11) == 1421947380;
    assert Squared(12) == 2009781145;
    assert Squared(13) == 1657000625;
    assert Squared(14) == 298008106;
    assert Squared(15) == 1282623253;
    assert Squared(16) == 1340477990;
    assert Squared(17) == 341742893;
    assert Squared(18) == 1753498361;
    assert Squared(19) == 1732600167;
    assert Squared(20) == 397765732;
    assert Squared(21) == 1721589904;
    assert Squared(22) == 760005850;
    assert Squared(23) == 196396260;
    assert Squared(24) == 1592366214;
    assert Squared(25) == 1728404513;
    assert Squared(26) == 2013265920;
  }

  lemma {:induction false} ModOfMultiple(a: int, r: int, m: int)
    requires r > 0 && r * m > 0
    ensures (a % (r * m)) % r == a % r
  {
    var n := r * m;
    assert a == a % n + r * (m * (a / n)) by {
      assert a == a % n + n * (a / n);
      assert n * (a / n) == r * (m * (a / n));
    }
    AddMultiple(a % n, m * (a / n), r);
  }

  lemma {:induction false} SquareMod(s: int, r: int)
    requires r > 0
    ensures ((s % r) * (s % r)) % r == (s * s) % r
  {
    MulModRight(s % r, s, r);
    MulModRight(s, s, r);
    assert (s % r) * s == s * (s % r);
  }

  lemma {:induction false} SquaredIsPower(k: nat, r: nat, m: int)
    requires r > 1 && r * m == P
    ensures Pow(Times(r), BASE, Pow2(k)) == Squared(k) % r
  {
    if k == 0 {
      assert Pow(Times(r), BASE, 1) == Times(r)(BASE, Pow(Times(r), BASE, 0));
    } else {
      var s := Squared(k - 1);
      SquaredIsPower(k - 1, r, m);
      TimesMonoid(r);
      PowAdd(Times(r), r, BASE, Pow2(k - 1), Pow2(k - 1));
      SquareMod(s, r);
      ModOfMultiple(s * s, r, m);
    }
  }

  lemma {:induction false} MinusOneModDivisor(n: int, r: nat, m: int)
    requires r > 1 && r * m == n
    ensures (n - 1) % r == r - 1
  {
    assert n - 1 == r * (m - 1) + (r - 1) by { assert r * (m - 1) == r * m - r; }
    ModUnique(n - 1, m - 1, r - 1, r);
  }

  lemma {:induction false} MinusOneIsRoot(r: nat)
    requires r > 1
    ensures Times(r)(r - 1, r - 1) == 1 && Times(r)(r - 1, 1) == r - 1
  {
    assert (r - 1) * (r - 1) == r * (r - 2) + 1;
    ModUnique((r - 1) * (r - 1), r - 2, 1, r);
    ModUnique((r - 1) * 1, 0, r - 1, r);
  }

  lemma {:induction false} DivisorIsOdd(r: nat, m: int)
    requires r * m == P
    ensures r != 2
  {
  }

  /** Modulo a divisor of P, `BASE` has order `2^27`. */
  lemma {:induction false} BaseOrder(r: nat, m: int, k: nat)
    requires r > 1 && r * m == P && k == 27
    ensures HasOrder(Times(r), r, BASE, k)
  {
    TimesMonoid(r);
    assert Pow(Times(r), BASE, Pow2(k - 1)) == (P - 1) % r by {
      SquaredIsPower(k - 1, r, m);
      SquaredValue();
    }
    MinusOneModDivisor(P, r, m);
    MinusOneIsRoot(r);
    DivisorIsOdd(r, m);
  }

  lemma {:induction false} DivisorIsLarge(r: nat, m: int)
    requires r > 1 && r * m == P
    ensures r > 134217728
  {
    BaseOrder(r, m, 27);
    TimesMonoid(r);
    OrderBelowModulus(Times(r), r, BASE, 27);
    Pow2At27();
  }

  lemma {:induction false} Pow2At27()
    ensures Pow2(27) == 134217728
  {
    assert Pow2(4) == 16;
    assert Pow2(8) == 256;
    assert Pow2(12) == 4096;
    assert Pow2(16) == 65536;
    assert Pow2(20) == 1048576;
    assert Pow2(24) == 16777216;
  }

  /** P has no factorisation into two factors greater than one. */
  lemma {:induction false} PIsPrime(r: nat, m: nat)
    requires r > 1 && m > 1
    ensures r * m != P
  {
    if r * m == P {
      DivisorIsLarge(r, m);
      DivisorIsLarge(m, r);
      MulMono(r, 134217728, m);
      MulMono(134217728, 134217728, r);
    }
  }

  /** A multiplicative inverse, by the Euclidean step `P == q * x + r`. */
  lemma {:induction false} Inverse(x: nat) returns (u: int)
    requires 0 < x < P
    ensures (u * x) % P == 1
  {
    if x == 1 {
      u := 1;
    } else {
      var q, r := P / x, P % x;
      assert P == q * x + r;
      if r == 0 {
        PIsPrime(x, q);
        assert false;
      }
      var v := Inverse(r);
      u := -q * v;
      assert u * x == v * r + P * (-v) by {
        assert u * x == -(v * (q * x));
        assert v * (q * x) == v * (P - r) == v * P - v * r;
      }
      AddMultiple(v * r, -v, P);
    }
  }

  /** The field has no zero divisors. */
  lemma {:induction false} ZeroProduct(a: Felt, b: Felt)
    requires Mul(a, b) == 0
    ensures a == 0 || b == 0
  {
    if a != 0 {
      var u := Inverse(a);
      var k := (a * b) / P;
      assert a * b == P * k;
      assert (u * a) * b == P * (u * k) by {
        assert (u * a) * b == u * (a * b) == u * (P * k) == P * (u * k);
      }
      assert (b * ((u * a) % P)) % P == (b * (u * a)) % P by { MulModRight(b, u * a, P); }
      assert b * (u * a) == (u * a) * b;
      AddMultiple(0, u * k, P);
    }
  }
}
