/** Integer division, remainders and powers of two. */
module Arith {

  function Pow2(k: nat): (p: nat)
    ensures p >= 1
  {
    if k == 0 then 1 else 2 * Pow2(k - 1)
  }

  lemma {:induction false} Pow2Monotone(a: nat, b: nat)
    requires a <= b
    ensures Pow2(a) <= Pow2(b)
    ensures a < b ==> 2 * Pow2(a) <= Pow2(b)
  {
    if a < b { Pow2Monotone(a, b - 1); }
  }

  lemma {:induction false} MulMono(r: int, x: int, y: int)
    requires r > 0 && x <= y
    ensures r * x <= r * y
  {
  }

  lemma {:induction false} ModUnique(a: int, q: int, m: int, r: int)
    requires r > 0 && 0 <= m < r && a == r * q + m
    ensures a % r == m && a / r == q
  {
    var d := a / r - q;
    assert r * d == m - a % r by {
      assert r * d == r * (a / r) - r * q;
    }
    if d >= 1 {
      MulMono(r, 1, d);
    } else if d <= -1 {
      MulMono(r, d, -1);
    }
  }

  lemma {:induction false} AddMultiple(a: int, k: int, r: int)
    requires r > 0
    ensures (a + r * k) % r == a % r
  {
    var q := a / r;
    assert a + r * k == r * (q + k) + a % r by {
      assert r * (q + k) == r * q + r * k;
    }
    ModUnique(a + r * k, q + k, a % r, r);
  }

  lemma {:induction false} MulModRight(a: int, b: int, r: int)
    requires r > 0
    ensures (a * (b % r)) % r == (a * b) % r
  {
    assert a * b == a * (b % r) + r * (a * (b / r)) by {
      assert b == b % r + r * (b / r);
      calc {
        a * b;
        a * (b % r + r * (b / r));
        a * (b % r) + a * (r * (b / r));
        a * (b % r) + r * (a * (b / r));
      }
    }
    AddMultiple(a * (b % r), a * (b / r), r);
  }

  /** `x >> k`, one halving at a time. */
  function Shift(x: nat, k: nat): nat {
    if k == 0 then x else Shift(x / 2, k - 1)
  }

  lemma {:induction false} ShiftMore(x: nat, k: nat)
    ensures Shift(x, k + 1) == Shift(x, k) / 2
  {
    if k > 0 { ShiftMore(x / 2, k - 1); }
  }

  /** The low `k` bits of `x`. */
  function Low(x: nat, k: nat): (low: nat)
    ensures low < Pow2(k)
  {
    if k == 0 then 0 else 2 * Low(x / 2, k - 1) + x % 2
  }

  /** Adding bit `k` to the low `k` bits. */
  lemma {:induction false} TopBit(x: nat, k: nat)
    ensures Low(x, k + 1) == (if Shift(x, k) % 2 == 0 then 0 else Pow2(k)) + Low(x, k)
  {
    if k > 0 { TopBit(x / 2, k - 1); }
  }

  lemma {:induction false} Pow2Widths()
    ensures Pow2(32) == 0x1_0000_0000 && Pow2(64) == 0x1_0000_0000_0000_0000
  {
    assert Pow2(8) == 256 by { assert Pow2(4) == 16; }
    assert Pow2(12) == 4096;
    assert Pow2(16) == 65536;
    assert Pow2(20) == 1048576;
    assert Pow2(24) == 16777216;
    assert Pow2(28) == 268435456;
    assert Pow2(32) == 4294967296;
    assert Pow2(36) == 16 * Pow2(32);
    assert Pow2(40) == 16 * Pow2(36);
    assert Pow2(44) == 16 * Pow2(40);
    assert Pow2(48) == 16 * Pow2(44);
    assert Pow2(52) == 16 * Pow2(48);
    assert Pow2(56) == 16 * Pow2(52);
    assert Pow2(60) == 16 * Pow2(56);
  }

  /** The low bits of an all-ones number are all ones. */
  lemma {:induction false} LowOfOnes(n: nat, k: nat)
    requires k <= n
    ensures Low(Pow2(n) - 1, k) == Pow2(k) - 1
  {
    if k > 0 {
      assert (Pow2(n) - 1) / 2 == Pow2(n - 1) - 1;
      LowOfOnes(n - 1, k - 1);
    }
  }

  /** Dividing twice is dividing by the product. */
  lemma {:induction false} DivDiv(x: nat, a: nat, b: nat)
    requires a > 0 && b > 0
    ensures a * b > 0 && (x / a) / b == x / (a * b)
  {
    var q, low := (x / a) / b, (x / a) % b;
    var m := a * low + x % a;
    assert a * low <= a * (b - 1) by { MulMono(a, low, b - 1); }
    assert a * (b - 1) == a * b - a;
    assert x == (a * b) * q + m by {
      assert x == a * (x / a) + x % a && x / a == b * q + low;
      assert a * (b * q + low) == (a * b) * q + a * low;
    }
    ModUnique(x, q, m, a * b);
  }

  /** Bit `i` of `x`. */
  function Bit(x: nat, i: nat): (b: nat)
    ensures b < 2
  {
    (x / Pow2(i)) % 2
  }

  lemma {:induction false} BitStep(x: nat, i: nat)
    ensures Bit(x, 0) == x % 2 && Bit(x, i + 1) == Bit(x / 2, i)
  {
    DivDiv(x, 2, Pow2(i));
  }
}
