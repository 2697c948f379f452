/** The concrete BLAKE3 compression over 32-bit words, as one instance of the
    compression that circuit and trace are proved correct for. */
module Blake3Hash {
  import opened Arith
  import opened Bytes
  import opened Compression
  import opened Blake3

  type Word = U32

  function WrappingAdd(a: Word, b: Word): Word { (a + b) % TWO_32 }

  /** Exclusive or of the low `n` bits. */
  function XorBits(a: nat, b: nat, n: nat): (r: nat)
    ensures r < Pow2(n)
  {
    if n == 0 then 0 else (a + b) % 2 + 2 * XorBits(a / 2, b / 2, n - 1)
  }

  lemma {:induction false} BitOfPair(low: nat, rest: nat, i: nat)
    requires low < 2
    ensures Bit(low + 2 * rest, i) == if i == 0 then low else Bit(rest, i - 1)
  {
    var x := low + 2 * rest;
    assert x % 2 == low && x / 2 == rest;
    if i == 0 { BitStep(x, 0); } else { BitStep(x, i - 1); }
  }

  lemma {:induction false} Parity(a: nat, b: nat)
    ensures (a + b) % 2 == if a % 2 != b % 2 then 1 else 0
  {
  }

  lemma {:induction false} XorBitsMeaning(a: nat, b: nat, n: nat, i: nat)
    requires i < n
    ensures Bit(XorBits(a, b, n), i) == if Bit(a, i) != Bit(b, i) then 1 else 0
  {
    BitOfPair((a + b) % 2, XorBits(a / 2, b / 2, n - 1), i);
    if i == 0 {
      BitStep(a, 0);
      BitStep(b, 0);
      Parity(a, b);
    } else {
      BitStep(a, i - 1);
      BitStep(b, i - 1);
      XorBitsMeaning(a / 2, b / 2, n - 1, i - 1);
    }
  }

  function Xor(a: Word, b: Word): Word {
    Pow2Widths();
    XorBits(a, b, 32)
  }

  /** Rotation to the right, one bit at a time. */
  function RotateRight(a: Word, n: nat): Word
    decreases n
  {
    if n == 0 then a else RotateRight(a / 2 + (a % 2) * 0x8000_0000, n - 1)
  }

  lemma {:induction false} RotateOne(a: Word)
    ensures RotateRight(a, 1) == a / 2 + (a % 2) * 0x8000_0000
  {
    var r: Word := a / 2 + (a % 2) * 0x8000_0000;
    assert RotateRight(r, 0) == r;
  }

  lemma {:induction false} RotateOnce(a: Word, n: nat)
    ensures RotateRight(a, n + 1) == RotateRight(RotateRight(a, n), 1)
    decreases n
  {
    if n > 0 { RotateOnce(a / 2 + (a % 2) * 0x8000_0000, n - 1); }
  }

  lemma {:induction false} SplitPower(low: nat, p: nat, m: nat, half: nat)
    ensures (low * p + m) * half == low * (p * half) + m * half
  {
  }

  lemma {:induction false} HalvePower(q: nat, p: nat)
    ensures q * p == (2 * p) * (q / 2) + (q % 2) * p
  {
    assert q * p == (2 * (q / 2) + q % 2) * p;
  }

  /** One more bit off the right end of `a == q * p + m` and onto the left end of the result,
      where `p` is the power of two of the bits gone and `2 * half` that of the others. */
  lemma {:induction false} RotateStep(a: nat, q: nat, m: nat, p: nat, half: nat)
    requires p > 0 && a == q * p + m && m < p && p * half == 0x8000_0000
    ensures (q + m * (2 * half)) / 2 + ((q + m * (2 * half)) % 2) * 0x8000_0000
         == a / (2 * p) + (a % (2 * p)) * half
  {
    var low := q % 2;
    assert q + m * (2 * half) == 2 * (q / 2 + m * half) + low;
    HalvePower(q, p);
    assert low * p + m < 2 * p by { assert low == 0 || low == 1; }
    ModUnique(a, q / 2, low * p + m, 2 * p);
    SplitPower(low, p, m, half);
  }

  lemma {:induction false} PowersTo31(n: nat)
    requires n <= 31
    ensures Pow2(n) * Pow2(31 - n) == 0x8000_0000
  {
    if n == 0 {
      Pow2Widths();
    } else {
      PowersTo31(n - 1);
      assert Pow2(n) * Pow2(31 - n) == Pow2(n - 1) * (2 * Pow2(31 - n));
    }
  }

  lemma {:induction false} RotateNext(a: nat, p: nat, half: nat, before: nat, after: nat)
    requires p > 0 && p * half == 0x8000_0000
    requires before == a / p + (a % p) * (2 * half) && after == before / 2 + (before % 2) * 0x8000_0000
    ensures after == a / (2 * p) + (a % (2 * p)) * half
  {
    var q, m := a / p, a % p;
    assert a == q * p + m;
    RotateStep(a, q, m, p, half);
  }

  /** The low bits, below the power of two `p`, leave on the right and come back on the left. */
  ghost predicate Rotated(a: Word, n: nat, p: nat, others: nat)
    requires p > 0
  {
    RotateRight(a, n) == a / p + (a % p) * others
  }

  lemma {:induction false} RotatedNext(a: Word, n: nat, p: nat, half: nat)
    requires p > 0 && p * half == 0x8000_0000 && Rotated(a, n, p, 2 * half)
    ensures Rotated(a, n + 1, 2 * p, half)
  {
    RotateOnce(a, n);
    RotateOne(RotateRight(a, n));
    RotateNext(a, p, half, RotateRight(a, n), RotateRight(a, n + 1));
  }

  /** The low `n` bits leave on the right and come back on the left. */
  lemma {:induction false} RotateMeaning(a: Word, n: nat)
    requires n <= 32
    ensures RotateRight(a, n) == a / Pow2(n) + (a % Pow2(n)) * Pow2(32 - n)
  {
    assert Rotated(a, n, Pow2(n), Pow2(32 - n)) by {
      if n == 0 {
        assert a % 1 == 0 && a / 1 == a;
      } else {
        RotateMeaning(a, n - 1);
        PowersTo31(n - 1);
        RotatedNext(a, n - 1, Pow2(n - 1), Pow2(32 - n));
      }
    }
  }

  lemma {:induction false} XorMeaning(a: Word, b: Word, i: nat)
    requires i < 32
    ensures Bit(Xor(a, b), i) == if Bit(a, i) != Bit(b, i) then 1 else 0
  {
    XorBitsMeaning(a, b, 32, i);
  }

  lemma {:induction false} AddMeaning(a: Word, b: Word)
    ensures WrappingAdd(a, b) == if a + b < TWO_32 then a + b else a + b - TWO_32
  {
  }

  function Arx32(): Arx<Word> { Arx(WrappingAdd, Xor, RotateRight) }

  const IV: seq<Word> :=
    [0x6A09_E667, 0xBB67_AE85, 0x3C6E_F372, 0xA54F_F53A, 0x510E_527F, 0x9B05_688C, 0x1F83_D9AB, 0x5BE0_CD19]

  /** `v` is the first 32 fractional bits of the square root of `p`, whose whole part is `root`. */
  ghost predicate RootBits(p: nat, root: nat, v: Word) {
    var x := root * TWO_32 + v;
    x * x <= p * TWO_64 < (x + 1) * (x + 1)
  }

  /** The initial value is that of SHA-256: the fractional bits of the square roots of the first eight primes. */
  lemma {:induction false} IvMeaning()
    ensures |IV| == 8
    ensures RootBits(2, 1, IV[0]) && RootBits(3, 1, IV[1]) && RootBits(5, 2, IV[2]) && RootBits(7, 2, IV[3])
    ensures RootBits(11, 3, IV[4]) && RootBits(13, 3, IV[5]) && RootBits(17, 4, IV[6]) && RootBits(19, 4, IV[7])
  {
  }

  function ToWord(b: ByteString): Word
    requires |b| == 4
  {
    LEofFromLE(b);
    Pow256Widths();
    FromLE(b)
  }

  /** `block_words`: four bytes to a little-endian word. */
  function ToWords(b: ByteString): (ws: seq<Word>)
    requires |b| % 4 == 0
    ensures |ws| == |b| / 4
  {
    if b == [] then [] else [ToWord(b[..4])] + ToWords(b[4..])
  }

  /** `hash_from_words` */
  function FromWords(ws: seq<Word>): (b: ByteString)
    ensures |b| == 4 * |ws|
  {
    if ws == [] then [] else LE(ws[0], 4) + FromWords(ws[1..])
  }

  /** Packing bytes into words loses nothing. */
  lemma {:induction false} WordsRoundTrip(b: ByteString)
    requires |b| % 4 == 0
    ensures FromWords(ToWords(b)) == b
  {
    if b != [] {
      LEofFromLE(b[..4]);
      WordsRoundTrip(b[4..]);
      var w, rest := ToWord(b[..4]), ToWords(b[4..]);
      assert ([w] + rest)[1..] == rest;
      assert b == b[..4] + b[4..];
    }
  }

  lemma {:induction false} BytesRoundTrip(ws: seq<Word>)
    ensures ToWords(FromWords(ws)) == ws
  {
    if ws != [] {
      Pow256Widths();
      FromLEofLE(ws[0], 4);
      BytesRoundTrip(ws[1..]);
      var head, rest := LE(ws[0], 4), FromWords(ws[1..]);
      assert (head + rest)[..4] == head && (head + rest)[4..] == rest;
    }
  }

  /** The eight words of the chaining value. */
  function OutputWords(i: Input): (ws: seq<Word>)
    ensures |ws| == 8
  {
    var counter := ToWords(i.counter);
    Compressed(Arx32(), IV, ToWords(i.block), ToWords(i.cv), counter[0], counter[1],
               ToWord(i.blockLen), ToWord(i.flags))[..8]
  }

  /** `compression`: the first eight output words are the chaining value. */
  function CompressInput(i: Input): Hash { FromWords(OutputWords(i)) }

  function Standard(): Blake { Blake(CompressInput, FromWords(IV)) }

  ghost predicate Computes(B: Blake, i: Input) { B.compress(i) == CompressInput(i) }

  /** `B` computes the compression over 32-bit words. */
  ghost predicate ComputesAll(B: Blake) { forall i: Input :: Computes(B, i) }

  lemma {:induction false} StandardComputes()
    ensures ComputesAll(Standard())
  {
    forall i: Input ensures Computes(Standard(), i) { }
  }

  /** BLAKE3 on inputs of one chunk. */
  function ChunkBlake3(b: ByteString): Hash { ChunkHash(Standard(), b) }

  lemma {:induction false} ChunkBlake3Hashes()
    ensures HashesChunks(ChunkBlake3, Standard())
  {
    forall b: ByteString ensures HashesChunk(ChunkBlake3, Standard(), b) { }
  }
}
