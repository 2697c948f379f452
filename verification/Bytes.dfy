/** Byte strings, fixed-width big- and little-endian integers, and the two
    small result types shared by every other module. */
module Bytes {
  import opened Arith

  datatype Option<+T> = None | Some(value: T)

  datatype Result<+T, +E> = Ok(value: T) | Err(error: E) {
    predicate IsFailure() { Err? }

    function PropagateFailure<U>(): Result<U, E>
      requires Err?
    {
      Err(error)
    }

    function Extract(): T
      requires Ok?
    {
      value
    }
  }

  const TWO_32: int := 0x1_0000_0000
  const TWO_64: int := 0x1_0000_0000_0000_0000

  type Byte = x: int | 0 <= x < 256
  type ByteString = seq<Byte>

  type U32 = x: int | 0 <= x < TWO_32
  type U64 = x: int | 0 <= x < TWO_64

  /** A 32-byte digest (`Hash` in omega-commitment-core). */
  type Hash = h: ByteString | |h| == 32 witness seq(32, _ => 0)

  /** A hash function.  Every theorem below holds for an arbitrary one. */
  type HashFn = ByteString -> Hash

  const ZERO_HASH: Hash := seq(32, _ => 0)

  function Zeros(n: nat): (b: ByteString)
    ensures |b| == n && forall i :: 0 <= i < n ==> b[i] == 0
  {
    seq(n, _ => 0)
  }

  function Pow256(n: nat): (p: nat)
    ensures p >= 1
  {
    if n == 0 then 1 else 256 * Pow256(n - 1)
  }

  lemma {:induction false} Pow256Widths()
    ensures Pow256(1) == 256 && Pow256(2) == 0x1_0000 && Pow256(4) == TWO_32 && Pow256(8) == TWO_64
  {
    assert Pow256(3) == 256 * Pow256(2);
    assert Pow256(4) == 256 * Pow256(3);
    assert Pow256(5) == 256 * Pow256(4);
    assert Pow256(6) == 256 * Pow256(5);
    assert Pow256(7) == 256 * Pow256(6);
    assert Pow256(8) == 256 * Pow256(7);
  }

  /** The `n` low-order bytes of `x`, most significant first (`to_be_bytes`). */
  function BE(x: nat, n: nat): (b: ByteString)
    ensures |b| == n
  {
    if n == 0 then [] else BE(x / 256, n - 1) + [x % 256]
  }

  function FromBE(b: ByteString): nat
  {
    if b == [] then 0 else 256 * FromBE(b[..|b| - 1]) + b[|b| - 1]
  }

  lemma {:induction false} FromBEofBE(x: nat, n: nat)
    requires x < Pow256(n)
    ensures FromBE(BE(x, n)) == x
  {
    if n > 0 {
      FromBEofBE(x / 256, n - 1);
      assert BE(x, n)[..n - 1] == BE(x / 256, n - 1);
    }
  }

  lemma {:induction false} BEofFromBE(b: ByteString)
    ensures FromBE(b) < Pow256(|b|)
    ensures BE(FromBE(b), |b|) == b
  {
    if b != [] {
      var init := b[..|b| - 1];
      BEofFromBE(init);
      assert FromBE(b) / 256 == FromBE(init);
      assert b == init + [b[|b| - 1]];
    }
  }

  /** Big-endian encodings of one width are equal only for equal numbers. */
  lemma {:induction false} BEInjective(x: nat, y: nat, n: nat)
    requires x < Pow256(n) && y < Pow256(n)
    requires BE(x, n) == BE(y, n)
    ensures x == y
  {
    FromBEofBE(x, n);
    FromBEofBE(y, n);
  }

  /** The `n` low-order bytes of `x`, least significant first (`to_le_bytes`). */
  function LE(x: nat, n: nat): (b: ByteString)
    ensures |b| == n
  {
    if n == 0 then [] else [x % 256] + LE(x / 256, n - 1)
  }

  function FromLE(b: ByteString): nat
  {
    if b == [] then 0 else b[0] + 256 * FromLE(b[1..])
  }

  lemma {:induction false} FromLEofLE(x: nat, n: nat)
    requires x < Pow256(n)
    ensures FromLE(LE(x, n)) == x
  {
    if n > 0 {
      FromLEofLE(x / 256, n - 1);
      assert LE(x, n)[1..] == LE(x / 256, n - 1);
    }
  }

  lemma {:induction false} LEofFromLE(b: ByteString)
    ensures FromLE(b) < Pow256(|b|)
    ensures LE(FromLE(b), |b|) == b
  {
    if b != [] {
      LEofFromLE(b[1..]);
      assert FromLE(b) / 256 == FromLE(b[1..]);
      assert b == [b[0]] + b[1..];
    }
  }

  /** A number below 256 as a little-endian 32-bit word. */
  function SmallWord(n: Byte): (b: ByteString)
    ensures |b| == 4
  {
    [n, 0, 0, 0]
  }

  /** If two concatenations agree and their first parts have one length, both parts agree. */
  lemma {:induction false} SplitEqual<T>(a: seq<T>, b: seq<T>, c: seq<T>, d: seq<T>)
    requires |a| == |c|
    requires a + b == c + d
    ensures a == c && b == d
  {
    assert a == (a + b)[..|a|] == (c + d)[..|c|] == c;
    assert b == (a + b)[|a|..] == (c + d)[|c|..] == d;
  }

  // ----- What bytes are where -----

  /** `x` stands at the offset in `b`. */
  predicate At(b: ByteString, offset: nat, x: ByteString) {
    offset + |x| <= |b| && b[offset..offset + |x|] == x
  }

  /** The bytes of an ASCII text. */
  function Ascii(text: string): (b: ByteString)
    requires forall i :: 0 <= i < |text| ==> text[i] as int < 256
    ensures |b| == |text| && forall i :: 0 <= i < |text| ==> b[i] == text[i] as int
  {
    seq(|text|, i requires 0 <= i < |text| => text[i] as int)
  }

  /** Big-endian: byte `i` is worth `256^(n - 1 - i)`. */
  lemma {:induction false} BEDigit(x: nat, n: nat, i: nat)
    requires i < n
    ensures BE(x, n)[i] == (x / Pow256(n - 1 - i)) % 256
  {
    if i < n - 1 {
      BEDigit(x / 256, n - 1, i);
      DivDiv(x, 256, Pow256(n - 2 - i));
    }
  }

  /** Little-endian: byte `i` is worth `256^i`. */
  lemma {:induction false} LEDigit(x: nat, n: nat, i: nat)
    requires i < n
    ensures LE(x, n)[i] == (x / Pow256(i)) % 256
  {
    if i > 0 {
      LEDigit(x / 256, n - 1, i - 1);
      DivDiv(x, 256, Pow256(i - 1));
    }
  }

  /** A part of a part stands at the sum of the offsets. */
  lemma {:induction false} AtWithin(b: ByteString, offset: nat, part: ByteString, inner: nat, x: ByteString)
    requires At(b, offset, part) && At(part, inner, x)
    ensures At(b, offset + inner, x)
  {
    var i, j := offset + inner, offset + inner + |x|;
    forall k | 0 <= k < |x|
      ensures b[i..j][k] == x[k]
    {
      assert b[i..j][k] == b[offset..offset + |part|][inner + k] == part[inner + k];
      assert part[inner..inner + |x|][k] == part[inner + k];
    }
  }

  /** What stands at the front of a suffix stands there in the whole, and the next suffix follows it. */
  lemma {:induction false} AtNext(b: ByteString, offset: nat, x: ByteString, rest: ByteString)
    requires offset <= |b| && b[offset..] == x + rest
    ensures At(b, offset, x) && b[offset + |x|..] == rest
  {
    assert b[offset..offset + |x|] == b[offset..][..|x|];
    assert b[offset + |x|..] == b[offset..][|x|..];
  }
}
