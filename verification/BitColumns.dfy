/** What the bit and selector columns written by the trace builders spell. */
module BitColumns {
  import opened Arith
  import opened Bytes
  import opened Circuit
  import opened CircuitSoundness
  import opened TraceBuilder

  lemma {:induction false} BitsSplit(x: nat, a: nat, b: nat)
    ensures BitsOf(x, a + b) == BitsOf(x, a) + BitsOf(Shift(x, a), b)
  {
    if a > 0 { BitsSplit(x / 2, a - 1, b); }
  }

  lemma {:induction false} DoubleProduct(p: nat, s: nat, low: nat, bit: nat)
    ensures 2 * (p * s + low) + bit == (2 * p) * s + (2 * low + bit)
  {
  }

  lemma {:induction false} LowShift(x: nat, k: nat)
    ensures x == Pow2(k) * Shift(x, k) + Low(x, k)
  {
    if k > 0 {
      LowShift(x / 2, k - 1);
      DoubleProduct(Pow2(k - 1), Shift(x / 2, k - 1), Low(x / 2, k - 1), x % 2);
    }
  }

  lemma {:induction false} LowByte(x: nat)
    ensures Shift(x, 8) == x / 256 && Low(x, 8) == x % 256
  {
    LowShift(x, 8);
    assert Pow2(8) == 256 by { assert Pow2(4) == 16; }
    ModUnique(x, Shift(x, 8), Low(x, 8), 256);
  }

  lemma {:induction false} BitsOfValue(x: nat, n: nat)
    ensures BitsValue(BitsOf(x, n)) == Low(x, n)
  {
    if n > 0 {
      BitsOfValue(x / 2, n - 1);
      assert BitsOf(x, n)[1..] == BitsOf(x / 2, n - 1);
    }
  }

  lemma {:induction false} PackByte(x: nat)
    ensures Pack(BitsOf(x, 8), 8) == x % 256
  {
    var bits := BitsOf(x, 8);
    PackIsValue(bits, 8);
    assert bits[..8] == bits;
    BitsOfValue(x, 8);
    LowByte(x);
  }

  lemma {:induction false} NextGroup<T>(low: seq<T>, high: seq<T>, at: nat)
    requires |low| == 8 && 8 <= at <= |high|
    ensures (low + high)[at..at + 8] == high[at - 8..at]
  {
  }

  lemma {:induction false} FirstGroup<T>(low: seq<T>, high: seq<T>)
    requires |low| == 8
    ensures (low + high)[0..8] == low
  {
  }

  /** The shift register packs, eight bits at a time, to the big-endian bytes. */
  lemma {:induction false} PackedBits(x: nat, m: nat, k: nat)
    requires k < m
    ensures Pack(BitsOf(x, 8 * m)[8 * k..8 * k + 8], 8) == BE(x, m)[m - 1 - k]
  {
    var low, high := BitsOf(x, 8), BitsOf(x / 256, 8 * (m - 1));
    BitsSplit(x, 8, 8 * (m - 1));
    LowByte(x);
    assert BitsOf(x, 8 * m) == low + high;
    if k == 0 {
      FirstGroup(low, high);
      PackByte(x);
    } else {
      PackedBits(x / 256, m - 1, k - 1);
      NextGroup(low, high, 8 * k);
    }
  }

  lemma {:induction false} TopBitsZero(x: nat, n: nat)
    requires x < Pow2(n)
    ensures BitsOf(x, n + 1) == BitsOf(x, n) + [0]
  {
    if n == 0 {
      assert x == 0;
      assert BitsOf(0, 1) == [0] + BitsOf(0, 0);
    } else {
      TopBitsZero(x / 2, n - 1);
    }
  }

  /** Halving the index shifts the register down by one and clears its top bit. */
  lemma {:induction false} BitsHalved(x: nat, n: nat)
    requires n > 0 && x < Pow2(n)
    ensures BitsOf(x / 2, n) == BitsOf(x, n)[1..] + [0]
  {
    TopBitsZero(x / 2, n - 1);
    assert BitsOf(x, n)[1..] == BitsOf(x / 2, n - 1);
  }

  lemma {:induction false} ShiftShrinks(x: nat, k: nat)
    ensures Shift(x, k) <= x
  {
    if k > 0 { ShiftShrinks(x / 2, k - 1); }
  }

  /** Bit columns of a byte string pack back to it. */
  lemma {:induction false} PackByteBits(b: ByteString)
    ensures PackBytes(ByteBits(b)) == b
  {
    if b != [] {
      var low, rest := BitsOf(b[0], 8), ByteBits(b[1..]);
      assert (low + rest)[..8] == low && (low + rest)[8..] == rest;
      PackByte(b[0]);
      PackByteBits(b[1..]);
    }
  }

  lemma {:induction false} SelectorOnes(s: Felts, hot: nat, n: nat)
    requires n <= |s| && hot < |s| && forall i :: 0 <= i < |s| ==> s[i] == if i == hot then 1 else 0
    ensures Ones(s, n) == if hot < n then 1 else 0
  {
    if n > 0 { SelectorOnes(s, hot, n - 1); }
  }

  /** The selector's prefix sums and weighted sum. */
  lemma {:induction false} SelectorSums(s: Felts, hot: nat, n: nat)
    requires n <= |s| <= 256 && hot < n && forall i :: 0 <= i < |s| ==> s[i] == if i == hot then 1 else 0
    ensures forall i :: 0 <= i <= n ==> Sum(s, i) == if hot < i then 1 else 0
    ensures WeightedSum(s, n) == hot
  {
    forall i | 0 <= i <= n
      ensures Sum(s, i) == Ones(s, i) == if hot < i then 1 else 0
    {
      SumIsOnes(s, i);
      SelectorOnes(s, hot, i);
    }
    var found := OneHot(s, n);
    assert Ones(s, hot + 1) == 1 && Ones(s, hot) == 0;
  }
}
