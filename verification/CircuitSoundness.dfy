/** Every satisfying assignment of the two AIRs with balanced lookups encodes a
    real Merkle walk from a real leaf hash to the public root. */
module CircuitSoundness {
  import opened Arith
  import opened Bytes
  import opened BabyBear
  import opened Fold
  import opened Merkle
  import opened Compression
  import opened Circuit
  import opened Lookups

  // ----- Reading single constraints -----

  lemma {:induction false} BoolMeaning(x: Felt)
    requires AssertBool(x)
    ensures IsBit(x)
  {
    ZeroProduct(x, Sub(x, 1));
  }

  lemma {:induction false} EqMeaning(gate: Felt, a: Felt, b: Felt)
    requires gate == 1 && EqWhen(gate, a, b)
    ensures a == b
  {
    assert 1 * Sub(a, b) == Sub(a, b);
  }

  lemma {:induction false} ZeroMeaning(gate: Felt, e: Felt)
    requires gate == 1 && ZeroWhen(gate, e)
    ensures e == 0
  {
    assert 1 * e == e;
  }

  lemma {:induction false} BoolWhenMeaning(gate: Felt, x: Felt)
    requires gate == 1 && BoolWhen(gate, x)
    ensures IsBit(x)
  {
    ZeroMeaning(gate, Mul(x, Sub(x, 1)));
    BoolMeaning(x);
  }

  lemma {:induction false} AllEqMeaning(gate: Felt, a: Felts, b: Felts)
    requires |a| == |b| && gate == 1 && AllEqWhen(gate, a, b)
    ensures a == b
  {
    forall i | 0 <= i < |a| ensures a[i] == b[i] { EqMeaning(gate, a[i], b[i]); }
  }

  lemma {:induction false} GateValues()
    ensures Mul(1, 1) == 1 && Sub(1, 0) == 1 && Mul(1, Sub(1, 0)) == 1
  {
  }

  // ----- Sums of bits -----

  function Ones(s: Felts, n: nat): (c: nat)
    requires n <= |s|
    ensures c <= n
  {
    if n == 0 then 0 else Ones(s, n - 1) + if s[n - 1] == 1 then 1 else 0
  }

  lemma {:induction false} SumIsOnes(s: Felts, n: nat)
    requires n <= |s| <= 256 && forall i :: 0 <= i < n ==> IsBit(s[i])
    ensures Sum(s, n) == Ones(s, n)
  {
    if n > 0 { SumIsOnes(s, n - 1); }
  }

  /** Bits that sum to one have exactly one set position, and the weighted sum names it. */
  lemma {:induction false} OneHot(s: Felts, n: nat) returns (hot: nat)
    requires n <= |s| <= 256 && forall i :: 0 <= i < n ==> IsBit(s[i])
    requires Ones(s, n) == 1
    ensures hot < n && WeightedSum(s, n) == hot
    ensures forall i :: 0 <= i <= n ==> Ones(s, i) == if hot < i then 1 else 0
  {
    if s[n - 1] == 1 {
      hot := n - 1;
      NoneSet(s, n - 1);
    } else {
      hot := OneHot(s, n - 1);
    }
  }

  lemma {:induction false} NoneSet(s: Felts, n: nat)
    requires n <= |s| <= 256 && (forall i :: 0 <= i < n ==> IsBit(s[i])) && Ones(s, n) == 0
    ensures WeightedSum(s, n) == 0
    ensures forall i :: 0 <= i <= n ==> Ones(s, i) == 0
  {
    if n > 0 { NoneSet(s, n - 1); }
  }

  // ----- Bits as numbers -----

  function BitsValue(bits: seq<Felt>): nat {
    if bits == [] then 0 else bits[0] + 2 * BitsValue(bits[1..])
  }

  lemma {:induction false} BitsValueSnoc(bits: Felts, b: Felt)
    ensures BitsValue(bits + [b]) == BitsValue(bits) + Pow2(|bits|) * b
  {
    if bits == [] {
      assert bits + [b] == [b] && [b][1..] == [];
    } else {
      BitsValueSnoc(bits[1..], b);
      assert (bits + [b])[1..] == bits[1..] + [b];
      assert 2 * (Pow2(|bits| - 1) * b) == Pow2(|bits|) * b;
    }
  }

  lemma {:induction false} PackStep(a: Felt, b: Felt, w: Felt)
    requires IsBit(b) && a < w <= 256
    ensures Add(a, Mul(b, w)) == a + w * b < 2 * w
  {
    assert w * 0 == 0 && w * 1 == w;
  }

  lemma {:induction false} PackIsValue(bits: Felts, n: nat)
    requires n <= |bits| && n <= 8 && AllBits(bits)
    ensures Pack(bits, n) == BitsValue(bits[..n])
    ensures Pack(bits, n) < Pow2(n)
  {
    if n > 0 {
      var init, b, w := bits[..n - 1], bits[n - 1], Pow2(n - 1);
      PackIsValue(bits, n - 1);
      assert bits[..n] == init + [b];
      BitsValueSnoc(init, b);
      Pow2Byte(n);
      PackStep(Pack(bits, n - 1), b, w);
    }
  }

  lemma {:induction false} BitsValueConcat(low: Felts, high: Felts)
    ensures BitsValue(low + high) == BitsValue(low) + Pow2(|low|) * BitsValue(high)
  {
    if low == [] {
      assert low + high == high;
    } else {
      BitsValueConcat(low[1..], high);
      assert (low + high)[1..] == low[1..] + high;
      assert 2 * (Pow2(|low| - 1) * BitsValue(high)) == Pow2(|low|) * BitsValue(high);
    }
  }

  /** Bit groups that pack to the big-endian bytes of a number spell that number. */
  lemma {:induction false} PackedIndex(bits: Felts, be: ByteString)
    requires |bits| == 8 * |be| && AllBits(bits)
    requires forall k :: 0 <= k < |be| ==> Pack(bits[8 * k..8 * k + 8], 8) == be[|be| - 1 - k]
    ensures BitsValue(bits) == FromBE(be)
  {
    if be != [] {
      var m := |be| - 1;
      var low, high := bits[..8], bits[8..];
      assert low == bits[8 * 0..8 * 0 + 8];
      PackIsValue(low, 8);
      assert low[..8] == low;
      forall k | 0 <= k < m
        ensures Pack(high[8 * k..8 * k + 8], 8) == be[..m][m - 1 - k]
      {
        assert high[8 * k..8 * k + 8] == bits[8 * (k + 1)..8 * (k + 1) + 8];
      }
      PackedIndex(high, be[..m]);
      assert bits == low + high;
      BitsValueConcat(low, high);
      assert Pow2(8) == 256 by { assert Pow2(4) == 16; }
    }
  }

  // ----- Reading a row -----

  /** A row that performs a node hash: the direction bit orders previous node and sibling. */
  ghost predicate NodeMeaning(l: Row) {
    && l.direction == l.bits[0]
    && (l.direction == 0 ==> l.left == l.prev && l.right == l.sibling)
    && (l.direction == 1 ==> l.left == l.sibling && l.right == l.prev)
  }

  /** The row carries a payload of `len` bytes followed by zeros. */
  ghost predicate PayloadMeaning(l: Row, len: nat) {
    && len <= MAX_PAYLOAD && l.payloadLen == len
    && forall i :: len <= i < MAX_PAYLOAD ==> l.payload[i] == 0
  }

  ghost predicate RealMeaning(l: Row, pub: Publics) {
    && l.subTreeId == pub.subTreeId && l.treeDepth == pub.treeDepth && l.leafIndexBe == pub.leafIndexBe
    && AllBits(l.bits)
    && (exists len: nat :: PayloadMeaning(l, len))
    && (l.hasNode == 0 ==> l.treeDepth == 0 && l.current == l.prev)
    && (l.isLast == 1 ==> Add(l.step, l.hasNode) == l.treeDepth && l.current == pub.root)
  }

  ghost predicate RowMeaning(l: Row, pub: Publics) {
    && IsBit(l.isReal) && IsBit(l.isLast) && IsBit(l.isFirst) && IsBit(l.hasNode) && IsBit(l.direction)
    && (l.isReal == 1 ==> RealMeaning(l, pub))
    && (l.hasNode == 1 ==> NodeMeaning(l))
    && (l.isFirst == 1 ==> forall k :: 0 <= k < 8 ==> Pack(l.bits[8 * k..8 * k + 8], 8) == pub.leafIndexBe[7 - k])
  }

  lemma {:induction false} FlagsMeaning(l: Row)
    requires Flags(l)
    ensures IsBit(l.isReal) && IsBit(l.isLast) && IsBit(l.isFirst) && IsBit(l.hasNode) && IsBit(l.direction)
  {
    BoolMeaning(l.isReal);
    BoolMeaning(l.isLast);
    BoolMeaning(l.isFirst);
    BoolMeaning(l.hasNode);
    BoolMeaning(l.direction);
  }

  lemma {:induction false} SelectorMeaning(gate: Felt, l: Row) returns (len: nat)
    requires gate == 1 && PayloadLenSelector(gate, l)
    ensures PayloadMeaning(l, len)
  {
    var s, n := l.selector, MAX_PAYLOAD + 1;
    forall c | 0 <= c < n ensures IsBit(s[c]) { BoolWhenMeaning(gate, s[c]); }
    SumIsOnes(s, n);
    EqMeaning(gate, Sum(s, n), 1);
    len := OneHot(s, n);
    EqMeaning(gate, l.payloadLen, WeightedSum(s, n));
    forall i | len <= i < MAX_PAYLOAD
      ensures l.payload[i] == 0
    {
      SumIsOnes(s, i + 1);
      ZeroMeaning(gate, Mul(l.payload[i], Sum(s, i + 1)));
      assert l.payload[i] * 1 == l.payload[i];
    }
  }

  lemma {:induction false} NodeConstraintsMeaning(l: Row)
    requires NodeConstraints(l) && l.hasNode == 1 && IsBit(l.direction)
    ensures NodeMeaning(l)
  {
    GateValues();
    EqMeaning(l.hasNode, l.direction, l.bits[0]);
    if l.direction == 0 {
      AllEqMeaning(Mul(l.hasNode, Sub(1, l.direction)), l.left, l.prev);
      AllEqMeaning(Mul(l.hasNode, Sub(1, l.direction)), l.right, l.sibling);
    } else {
      AllEqMeaning(Mul(l.hasNode, l.direction), l.left, l.sibling);
      AllEqMeaning(Mul(l.hasNode, l.direction), l.right, l.prev);
    }
  }

  lemma {:induction false} RealConstraintsMeaning(l: Row, pub: Publics)
    requires RealRowConstraints(l, pub) && NoNodeConstraints(l) && StopConstraints(l, pub)
    requires l.isReal == 1
    ensures RealMeaning(l, pub)
  {
    GateValues();
    EqMeaning(l.isReal, l.subTreeId, pub.subTreeId);
    EqMeaning(l.isReal, l.treeDepth, pub.treeDepth);
    AllEqMeaning(l.isReal, l.leafIndexBe, pub.leafIndexBe);
    var len := SelectorMeaning(l.isReal, l);
    forall b | 0 <= b < 64 ensures IsBit(l.bits[b]) { BoolWhenMeaning(l.isReal, l.bits[b]); }
    if l.hasNode == 0 {
      ZeroMeaning(Sub(l.isReal, l.hasNode), l.treeDepth);
      AllEqMeaning(Sub(l.isReal, l.hasNode), l.current, l.prev);
    }
    if l.isLast == 1 {
      EqMeaning(Mul(l.isReal, l.isLast), Add(l.step, l.hasNode), l.treeDepth);
      AllEqMeaning(Mul(l.isReal, l.isLast), l.current, pub.root);
    }
  }

  lemma {:induction false} RowConstraintsMeaning(l: Row, pub: Publics)
    requires RowConstraints(l, pub)
    ensures RowMeaning(l, pub)
  {
    FlagsMeaning(l);
    if l.isReal == 1 { RealConstraintsMeaning(l, pub); }
    if l.hasNode == 1 { NodeConstraintsMeaning(l); }
    if l.isFirst == 1 {
      forall k | 0 <= k < 8
        ensures Pack(l.bits[8 * k..8 * k + 8], 8) == pub.leafIndexBe[7 - k]
      {
        EqMeaning(l.isFirst, Pack(l.bits[8 * k..8 * k + 8], 8), pub.leafIndexBe[7 - k]);
      }
    }
  }

  /** What two consecutive rows say about each other. */
  ghost predicate TransitionMeaning(l: Row, n: Row) {
    && n.isFirst == 0
    && (l.isReal == 1 && l.isLast == 0 ==>
          && n.isReal == 1 && n.step == Add(l.step, 1) && n.prev == l.current
          && n.bits == l.bits[1..] + [0])
    && (l.isReal == 1 && l.isLast == 1 ==> n.isReal == 0)
    && (l.isReal == 0 ==> n.isReal == 0)
  }

  lemma {:induction false} TransitionConstraintsMeaning(l: Row, n: Row)
    requires Transition(l, n) && IsBit(l.isReal) && IsBit(l.isLast)
    ensures TransitionMeaning(l, n)
  {
    GateValues();
    if l.isReal == 0 {
      ZeroMeaning(Sub(1, l.isReal), n.isReal);
    } else if l.isLast == 1 {
      ZeroMeaning(Mul(l.isReal, l.isLast), n.isReal);
    } else {
      var gate := Mul(l.isReal, Sub(1, l.isLast));
      EqMeaning(gate, n.isReal, 1);
      EqMeaning(gate, n.step, Add(l.step, 1));
      AllEqMeaning(gate, n.prev, l.current);
      forall b | 0 <= b < 63 ensures n.bits[b] == l.bits[b + 1] { EqMeaning(gate, n.bits[b], l.bits[b + 1]); }
      ZeroMeaning(gate, n.bits[63]);
    }
  }

  // ----- Lookups -----

  /** The tuple of a genuine compression. */
  function TupleOf(B: Blake, input: Input): Felts {
    Tuple(Felted(input.block), Felted(input.cv), Felted(input.counter), Felted(input.blockLen), Felted(input.flags),
          Felted(B.compress(input)))
  }

  ghost predicate LookedUp(B: Blake, t: Felts) {
    exists input: Input :: t == TupleOf(B, input)
  }

  lemma {:induction false} TupleInjective(a: Felts, b: Felts, c: Felts, d: Felts, e: Felts, f: Felts,
                       a': Felts, b': Felts, c': Felts, d': Felts, e': Felts, f': Felts)
    requires |a| == 64 && |b| == 32 && |c| == 8 && |d| == 4 && |e| == 4 && |f| == 32
    requires |a'| == 64 && |b'| == 32 && |c'| == 8 && |d'| == 4 && |e'| == 4 && |f'| == 32
    requires Tuple(a, b, c, d, e, f) == Tuple(a', b', c', d', e', f')
    ensures a == a' && b == b' && c == c' && d == d' && e == e' && f == f'
  {
    SplitEqual(a + b + c + d + e, f, a' + b' + c' + d' + e', f');
    SplitEqual(a + b + c + d, e, a' + b' + c' + d', e');
    SplitEqual(a + b + c, d, a' + b' + c', d');
    SplitEqual(a + b, c, a' + b', c');
    SplitEqual(a, b, a', b');
  }

  lemma {:induction false} SendAt(rows: seq<BlakeRow>, i: nat)
    requires i < |Sends(rows)|
    ensures i < |rows| && Sends(rows)[i] == BlakeSend(rows[i])
  {
    assert Sends(rows) == [BlakeSend(rows[0])] + Sends(rows[1..]);
    if i > 0 {
      SendAt(rows[1..], i - 1);
      assert Sends(rows)[i] == Sends(rows[1..])[i - 1];
    }
  }

  /** A tuple received once is the tuple of a genuine compression. */
  lemma {:induction false} BalancedLookup(B: Blake, receives: seq<Interaction>, rows: seq<BlakeRow>, x: Interaction)
    requires |Live(receives)| < P && forall y :: y in receives ==> IsBit(y.mult)
    requires forall r :: r in rows ==> ValidBlakeRow(B, r)
    requires Balanced(receives, Sends(rows))
    requires x in receives && x.mult == 1
    ensures LookedUp(B, x.tuple)
  {
    ReceivedWeight(receives, x);
    assert Weight(receives, x.tuple) == Weight(Sends(rows), x.tuple);
    var i := WeightSource(Sends(rows), x.tuple);
    SendAt(rows, i);
    var r := rows[i];
    assert ValidBlakeRow(B, r);
    var input: Input, out: Hash :| RowComputes(B, r, input, out);
    assert BlakeTuple(r) == TupleOf(B, input);
  }

  // ----- From tuples to hashes -----

  /** What a proof attests: a payload and a path of the claimed depth that walk to the root. */
  datatype Claim = Claim(subTreeId: Byte, leafIndex: U64, treeDepth: Byte, root: Hash)

  function PublicsOf(c: Claim): Publics {
    RawPublics(c.subTreeId, Felted(BE(c.leafIndex, 8)), c.treeDepth, Felted(c.root))
  }

  ghost predicate AttestedBy(H: HashFn, c: Claim, payload: ByteString, path: seq<Hash>) {
    && |payload| <= MAX_PAYLOAD && |path| == c.treeDepth
    && Walk(NodeHash(H), LeafHash(H, c.subTreeId, c.leafIndex, payload), c.leafIndex, path) == c.root
  }

  ghost predicate Attested(H: HashFn, c: Claim) {
    exists payload: ByteString, path: seq<Hash> :: AttestedBy(H, c, payload, path)
  }

  lemma {:induction false} BEOfSmall(n: Byte, k: nat)
    ensures BE(n, k + 1) == Zeros(k) + [n]
  {
    assert n / 256 == 0 && n % 256 == n;
    ZeroBE(k);
  }

  lemma {:induction false} ZeroBE(k: nat)
    ensures BE(0, k) == Zeros(k)
  {
    if k > 0 { ZeroBE(k - 1); }
  }

  /** The block columns of a first row, read back as the leaf preimage. */
  lemma {:induction false} LeafBlockIsPreimage(l: Row, c: Claim, len: nat, block: ByteString)
    requires RealMeaning(l, PublicsOf(c)) && PayloadMeaning(l, len)
    requires block == LeafBlock(l)
    ensures 30 + len <= |block|
    ensures block == LeafPreimage(c.subTreeId, c.leafIndex, block[30..30 + len]) + Zeros(MAX_PAYLOAD - len)
  {
    BEOfSmall(len, 7);
    var payload := block[30..30 + len];
    var head: ByteString := DOMAIN_LEAF + [c.subTreeId] + BE(c.leafIndex, 8) + BE(len, 8);
    assert |head| == 30;
    assert LeafBlock(l) == Felted(head) + l.payload;
    assert block[..30] == head;
    assert block[30 + len..] == Zeros(MAX_PAYLOAD - len) by {
      assert forall i :: len <= i < MAX_PAYLOAD ==> block[30 + i] == l.payload[i];
    }
    assert block == block[..30] + payload + block[30 + len..];
  }

  lemma {:induction false} LeafInputFromParts(iv: Hash, input: Input, id: Byte, index: U64, payload: ByteString)
    requires |payload| <= MAX_PAYLOAD
    requires input.block == LeafPreimage(id, index, payload) + Zeros(MAX_PAYLOAD - |payload|)
    requires input.cv == iv && input.counter == Zeros(8)
    requires input.blockLen == SmallWord(30 + |payload|) && input.flags == SmallWord(LEAF_FLAGS)
    ensures input == LeafInput(iv, id, index, payload)
  {
  }

  lemma {:induction false} BlockLenMeaning(l: Row, len: nat, blockLen: ByteString)
    requires PayloadMeaning(l, len) && blockLen == [Add(30, l.payloadLen), 0, 0, 0]
    ensures blockLen == SmallWord(30 + len)
  {
  }

  lemma {:induction false} LeafLookup(H: HashFn, B: Blake, l: Row, c: Claim) returns (payload: ByteString)
    requires HashesChunks(H, B) && RealMeaning(l, PublicsOf(c))
    requires LookedUp(B, LeafTuple(B.iv, l))
    ensures |payload| <= MAX_PAYLOAD && l.prev == LeafHash(H, c.subTreeId, c.leafIndex, payload)
  {
    var len: nat :| PayloadMeaning(l, len);
    var input: Input :| LeafTuple(B.iv, l) == TupleOf(B, input);
    TupleInjective(LeafBlock(l), Felted(B.iv), Zeros(8), [Add(30, l.payloadLen), 0, 0, 0],
                   Felted(SmallWord(LEAF_FLAGS)), l.prev,
                   Felted(input.block), Felted(input.cv), Felted(input.counter), Felted(input.blockLen),
                   Felted(input.flags), Felted(B.compress(input)));
    LeafBlockIsPreimage(l, c, len, input.block);
    BlockLenMeaning(l, len, input.blockLen);
    payload := input.block[30..30 + len];
    LeafInputFromParts(B.iv, input, c.subTreeId, c.leafIndex, payload);
    LeafIsOneBlock(H, B, c.subTreeId, c.leafIndex, payload);
  }

  lemma {:induction false} NodeLookup(H: HashFn, B: Blake, l: Row) returns (left: Hash, right: Hash)
    requires HashesChunks(H, B)
    requires LookedUp(B, NodeFirstTuple(B.iv, l)) && LookedUp(B, NodeSecondTuple(l))
    ensures l.left == left && l.right == right && l.current == NodeHash(H)(left, right)
  {
    var first: Input :| NodeFirstTuple(B.iv, l) == TupleOf(B, first);
    var second: Input :| NodeSecondTuple(l) == TupleOf(B, second);
    TupleInjective(Felted(DOMAIN_NODE) + l.left + l.right[..19], Felted(B.iv), Zeros(8), Felted(SmallWord(64)),
                   Felted(SmallWord(NODE_FIRST_FLAGS)), l.mid,
                   Felted(first.block), Felted(first.cv), Felted(first.counter), Felted(first.blockLen),
                   Felted(first.flags), Felted(B.compress(first)));
    TupleInjective(l.right[19..] + Zeros(51), l.mid, Zeros(8), Felted(SmallWord(13)),
                   Felted(SmallWord(NODE_SECOND_FLAGS)), l.current,
                   Felted(second.block), Felted(second.cv), Felted(second.counter), Felted(second.blockLen),
                   Felted(second.flags), Felted(B.compress(second)));
    left := first.block[13..45];
    right := first.block[45..] + second.block[..13];
    NodeColumns(l, first.block, second.block);
    assert first == NodeFirstInput(B.iv, left, right);
    assert second == NodeSecondInput(B.compress(first), right);
    NodeIsTwoBlocks(H, B, left, right);
  }

  lemma {:induction false} NodeColumns(l: Row, first: ByteString, second: ByteString)
    requires |first| == 64 && first == Felted(DOMAIN_NODE) + l.left + l.right[..19]
    requires |second| == 64 && second == l.right[19..] + Zeros(51)
    ensures l.left == first[13..45] && l.right == first[45..] + second[..13]
    ensures first == DOMAIN_NODE + first[13..45] + (first[45..] + second[..13])[..19]
    ensures second == (first[45..] + second[..13])[19..] + Zeros(51)
  {
    assert l.right == l.right[..19] + l.right[19..];
  }

  // ----- Reading a table -----

  ghost predicate TableMeaning(t: seq<Row>, pub: Publics) {
    && |t| > 0
    && (forall i :: 0 <= i < |t| ==> RowMeaning(t[i], pub))
    && t[0].isReal == 1 && t[0].isFirst == 1 && t[0].step == 0
    && (forall i :: 0 <= i < |t| - 1 ==> TransitionMeaning(t[i], t[i + 1]))
    && (t[|t| - 1].isReal == 1 ==> t[|t| - 1].isLast == 1)
  }

  lemma {:induction false} TableConstraintsMeaning(t: seq<Row>, pub: Publics)
    requires Satisfies(t, pub)
    ensures TableMeaning(t, pub)
  {
    forall i | 0 <= i < |t| ensures RowMeaning(t[i], pub) { RowConstraintsMeaning(t[i], pub); }
    forall i | 0 <= i < |t| - 1
      ensures TransitionMeaning(t[i], t[i + 1])
    {
      assert RowMeaning(t[i], pub);
      TransitionConstraintsMeaning(t[i], t[i + 1]);
    }
    var last := t[|t| - 1];
    assert RowMeaning(last, pub);
    if last.isReal == 1 && last.isLast == 0 { GateValues(); }
  }

  /** The first `n` rows are the real ones, and only row `n - 1` is a last step. */
  ghost predicate RealPrefix(t: seq<Row>, n: nat) {
    && 0 < n <= |t|
    && (forall i :: 0 <= i < |t| ==> t[i].isReal == if i < n then 1 else 0)
    && (forall i :: 0 <= i < n ==> t[i].isLast == if i == n - 1 then 1 else 0)
    && (forall i :: 0 <= i < |t| ==> t[i].isFirst == if i == 0 then 1 else 0)
  }

  lemma {:induction false} PaddingAfter(t: seq<Row>, pub: Publics, n: nat, i: nat)
    requires TableMeaning(t, pub) && 0 < n <= i < |t|
    requires t[n - 1].isReal == 1 && t[n - 1].isLast == 1
    ensures t[i].isReal == 0
  {
    assert TransitionMeaning(t[i - 1], t[i]);
    if i > n { PaddingAfter(t, pub, n, i - 1); }
  }

  lemma {:induction false} FindLast(t: seq<Row>, pub: Publics, i: nat) returns (n: nat)
    requires TableMeaning(t, pub) && i < |t|
    requires forall k :: 0 <= k <= i ==> t[k].isReal == 1
    requires forall k :: 0 <= k < i ==> t[k].isLast == 0
    ensures RealPrefix(t, n)
    decreases |t| - i
  {
    assert RowMeaning(t[i], pub);
    if t[i].isLast == 1 {
      n := i + 1;
      forall k | n <= k < |t| ensures t[k].isReal == 0 { PaddingAfter(t, pub, n, k); }
      forall k | 0 < k < |t| ensures t[k].isFirst == 0 { assert TransitionMeaning(t[k - 1], t[k]); }
    } else {
      assert TransitionMeaning(t[i], t[i + 1]);
      n := FindLast(t, pub, i + 1);
    }
  }

  /** The step column counts rows without wrapping. */
  lemma {:induction false} StepCounts(t: seq<Row>, pub: Publics, n: nat, i: nat)
    requires TableMeaning(t, pub) && RealPrefix(t, n) && |t| < P && i < n
    ensures t[i].step == i
  {
    if i > 0 {
      StepCounts(t, pub, n, i - 1);
      assert TransitionMeaning(t[i - 1], t[i]);
    }
  }

  lemma {:induction false} ShiftedBits(bits: Felts)
    requires |bits| > 0 && AllBits(bits)
    ensures BitsValue(bits[1..] + [0]) == BitsValue(bits) / 2
    ensures bits[0] == BitsValue(bits) % 2
  {
    BitsValueSnoc(bits[1..], 0);
    assert Pow2(|bits[1..]|) * 0 == 0;
  }

  /** The bit columns of row `i` hold the leaf index shifted by `i`. */
  lemma {:induction false} BitsHoldIndex(t: seq<Row>, c: Claim, n: nat, i: nat)
    requires TableMeaning(t, PublicsOf(c)) && RealPrefix(t, n) && i < n
    ensures BitsValue(t[i].bits) == Shift(c.leafIndex, i)
    ensures t[i].bits[0] == Shift(c.leafIndex, i) % 2
  {
    assert RowMeaning(t[i], PublicsOf(c));
    ShiftedBits(t[i].bits);
    if i == 0 {
      PackedIndex(t[0].bits, BE(c.leafIndex, 8));
      Pow256Widths();
      FromBEofBE(c.leafIndex, 8);
    } else {
      BitsHoldIndex(t, c, n, i - 1);
      assert RowMeaning(t[i - 1], PublicsOf(c));
      assert TransitionMeaning(t[i - 1], t[i]);
      ShiftedBits(t[i - 1].bits);
      ShiftMore(c.leafIndex, i - 1);
    }
  }

  ghost predicate NodeHashed(H: HashFn, l: Row) {
    exists left: Hash, right: Hash :: NodeHashedAs(H, l, left, right)
  }

  ghost predicate NodeHashedAs(H: HashFn, l: Row, left: Hash, right: Hash) {
    l.left == left && l.right == right && l.current == NodeHash(H)(left, right)
  }

  /** One node row is one step of the walk. */
  lemma {:induction false} StepRow(H: HashFn, l: Row, x: Hash, index: nat) returns (sibling: Hash)
    requires NodeHashed(H, l) && NodeMeaning(l) && IsBit(l.direction)
    requires l.prev == x && l.bits[0] == index % 2
    ensures l.current == Step(NodeHash(H), x, index, sibling)
  {
    var left: Hash, right: Hash :| NodeHashedAs(H, l, left, right);
    sibling := if l.direction == 0 then right else left;
  }

  /** The nodes of the table so far form a walk from the first row's leaf. */
  lemma {:induction false} PathTo(H: HashFn, t: seq<Row>, c: Claim, n: nat, leaf: Hash, j: nat)
      returns (path: seq<Hash>)
    requires TableMeaning(t, PublicsOf(c)) && RealPrefix(t, n) && 0 < j <= n
    requires t[0].prev == leaf
    requires forall i :: 0 <= i < j ==> t[i].hasNode == 1 && NodeHashed(H, t[i])
    ensures |path| == j && t[j - 1].current == Walk(NodeHash(H), leaf, c.leafIndex, path)
  {
    var init: seq<Hash> := [];
    if j > 1 {
      init := PathTo(H, t, c, n, leaf, j - 1);
      assert TransitionMeaning(t[j - 2], t[j - 1]);
    }
    var x := Walk(NodeHash(H), leaf, c.leafIndex, init);
    assert RowMeaning(t[j - 1], PublicsOf(c));
    BitsHoldIndex(t, c, n, j - 1);
    var sibling := StepRow(H, t[j - 1], x, Shift(c.leafIndex, j - 1));
    WalkSnoc(NodeHash(H), leaf, c.leafIndex, init, sibling);
    path := init + [sibling];
  }

  /** The rows of a table with no lookup left unanswered. */
  ghost predicate RowsLookedUp(B: Blake, t: seq<Row>) {
    forall i :: 0 <= i < |t| ==>
      && (t[i].isFirst == 1 ==> LookedUp(B, LeafTuple(B.iv, t[i])))
      && (t[i].isReal == 1 && t[i].hasNode == 1 ==>
            LookedUp(B, NodeFirstTuple(B.iv, t[i])) && LookedUp(B, NodeSecondTuple(t[i])))
  }

  function RealRows(depth: nat): nat { if depth == 0 then 1 else depth }

  /** The number of real rows is the depth, or one for a single-leaf tree; a row
      without a node hash occurs only in the latter. */
  lemma {:induction false} RowCount(t: seq<Row>, c: Claim, n: nat)
    requires TableMeaning(t, PublicsOf(c)) && RealPrefix(t, n) && |t| < P
    ensures n == RealRows(c.treeDepth)
    ensures forall i :: 0 <= i < n ==> t[i].hasNode == if c.treeDepth == 0 then 0 else 1
  {
    forall i | 0 <= i < n
      ensures t[i].hasNode == 0 ==> c.treeDepth == 0
      ensures IsBit(t[i].hasNode)
    {
      assert RowMeaning(t[i], PublicsOf(c));
    }
    assert RowMeaning(t[n - 1], PublicsOf(c));
    StepCounts(t, PublicsOf(c), n, n - 1);
  }

  /** One table: its real rows are exactly `max(1, depth)` and spell a walk. */
  lemma {:induction false} TableSoundness(H: HashFn, B: Blake, t: seq<Row>, c: Claim)
    requires HashesChunks(H, B)
    requires Satisfies(t, PublicsOf(c)) && |t| < P && RowsLookedUp(B, t)
    ensures RealPrefix(t, RealRows(c.treeDepth))
    ensures Attested(H, c)
  {
    TableConstraintsMeaning(t, PublicsOf(c));
    var n := FindLast(t, PublicsOf(c), 0);
    RowCount(t, c, n);
    assert RowMeaning(t[0], PublicsOf(c)) && RowMeaning(t[n - 1], PublicsOf(c));
    var payload := LeafLookup(H, B, t[0], c);
    var leaf := LeafHash(H, c.subTreeId, c.leafIndex, payload);
    var path: seq<Hash> := [];
    if c.treeDepth > 0 {
      forall i | 0 <= i < n
        ensures NodeHashed(H, t[i])
      {
        var left, right := NodeLookup(H, B, t[i]);
        assert NodeHashedAs(H, t[i], left, right);
      }
      path := PathTo(H, t, c, n, leaf, n);
    }
    assert AttestedBy(H, c, payload, path);
  }

  // ----- The batch -----

  lemma {:induction false} ReceivesAt(iv: Hash, t: seq<Row>, i: nat)
    requires i < |t|
    ensures forall x :: x in RowReceives(iv, t[i]) ==> x in Receives(iv, t)
  {
    if i > 0 { ReceivesAt(iv, t[1..], i - 1); }
  }

  lemma {:induction false} AllReceivesAt(iv: Hash, ts: seq<seq<Row>>, k: nat)
    requires k < |ts|
    ensures forall x :: x in Receives(iv, ts[k]) ==> x in AllReceives(iv, ts)
  {
    if k > 0 { AllReceivesAt(iv, ts[1..], k - 1); }
  }

  lemma {:induction false} ProductIsBit(a: Felt, b: Felt)
    requires IsBit(a) && IsBit(b)
    ensures IsBit(Mul(a, b))
  {
    assert a * b == if a == 1 then b else 0;
  }

  lemma {:induction false} RowMultsAreBits(iv: Hash, l: Row, x: Interaction)
    requires IsBit(l.isFirst) && IsBit(Mul(l.isReal, l.hasNode)) && x in RowReceives(iv, l)
    ensures IsBit(x.mult)
  {
    var rs := RowReceives(iv, l);
    assert x == rs[0] || x == rs[1] || x == rs[2];
  }

  lemma {:induction false} MultsAreBits(iv: Hash, t: seq<Row>, pub: Publics, x: Interaction)
    requires forall i :: 0 <= i < |t| ==> RowMeaning(t[i], pub)
    requires x in Receives(iv, t)
    ensures IsBit(x.mult)
  {
    assert RowMeaning(t[0], pub);
    if x in RowReceives(iv, t[0]) {
      ProductIsBit(t[0].isReal, t[0].hasNode);
      RowMultsAreBits(iv, t[0], x);
    } else {
      MultsAreBits(iv, t[1..], pub, x);
    }
  }

  lemma {:induction false} AllMultsAreBits(iv: Hash, ts: seq<seq<Row>>, cs: seq<Claim>)
    requires |ts| == |cs| && forall k :: 0 <= k < |ts| ==> Satisfies(ts[k], PublicsOf(cs[k]))
    ensures forall x :: x in AllReceives(iv, ts) ==> IsBit(x.mult)
  {
    if ts != [] {
      TableConstraintsMeaning(ts[0], PublicsOf(cs[0]));
      forall x | x in Receives(iv, ts[0]) ensures IsBit(x.mult) { MultsAreBits(iv, ts[0], PublicsOf(cs[0]), x); }
      AllMultsAreBits(iv, ts[1..], cs[1..]);
    }
  }

  /** Every tuple received once is genuine. */
  ghost predicate Genuine(B: Blake, xs: seq<Interaction>) {
    forall x :: x in xs && x.mult == 1 ==> LookedUp(B, x.tuple)
  }

  lemma {:induction false} RowGenuine(B: Blake, l: Row)
    requires Genuine(B, RowReceives(B.iv, l))
    ensures l.isFirst == 1 ==> LookedUp(B, LeafTuple(B.iv, l))
    ensures l.isReal == 1 && l.hasNode == 1 ==> LookedUp(B, NodeFirstTuple(B.iv, l)) && LookedUp(B, NodeSecondTuple(l))
  {
    var rs := RowReceives(B.iv, l);
    GateValues();
    assert rs[0] in rs && rs[1] in rs && rs[2] in rs;
  }

  lemma {:induction false} TableGenuine(B: Blake, t: seq<Row>)
    requires Genuine(B, Receives(B.iv, t))
    ensures RowsLookedUp(B, t)
  {
    forall i | 0 <= i < |t|
      ensures t[i].isFirst == 1 ==> LookedUp(B, LeafTuple(B.iv, t[i]))
      ensures t[i].isReal == 1 && t[i].hasNode == 1 ==>
                LookedUp(B, NodeFirstTuple(B.iv, t[i])) && LookedUp(B, NodeSecondTuple(t[i]))
    {
      ReceivesAt(B.iv, t, i);
      RowGenuine(B, t[i]);
    }
  }

  lemma {:induction false} BatchGenuine(B: Blake, xs: seq<Interaction>, rows: seq<BlakeRow>)
    requires |Live(xs)| < P && forall x :: x in xs ==> IsBit(x.mult)
    requires forall r :: r in rows ==> ValidBlakeRow(B, r)
    requires Balanced(xs, Sends(rows))
    ensures Genuine(B, xs)
  {
    forall x | x in xs && x.mult == 1 ensures LookedUp(B, x.tuple) { BalancedLookup(B, xs, rows, x); }
  }

  // ----- How much a batch receives -----

  /** The number of tuples that the tables of these claims receive: one for the leaf and two per level. */
  function Received(cs: seq<Claim>): nat {
    if cs == [] then 0 else 1 + 2 * cs[0].treeDepth + Received(cs[1..])
  }

  /** The live receives left from row `i` on. */
  function LivesFrom(depth: nat, n: nat, i: nat): nat {
    (if i == 0 then 1 else 0) + if depth == 0 || n <= i then 0 else 2 * (n - i)
  }

  lemma {:induction false} RowLives(iv: Hash, l: Row)
    requires IsBit(l.isFirst) && IsBit(l.isReal) && IsBit(l.hasNode)
    ensures |Live(RowReceives(iv, l))|
         == (if l.isFirst == 1 then 1 else 0) + if l.isReal == 1 && l.hasNode == 1 then 2 else 0
  {
    GateValues();
    var rs := RowReceives(iv, l);
    LiveThree(rs[0], rs[1], rs[2]);
  }

  lemma {:induction false} TailLives(iv: Hash, t: seq<Row>, c: Claim, n: nat, i: nat)
    requires TableMeaning(t, PublicsOf(c)) && RealPrefix(t, n) && i <= |t|
    requires forall k :: 0 <= k < n ==> t[k].hasNode == if c.treeDepth == 0 then 0 else 1
    ensures |Live(Receives(iv, t[i..]))| <= LivesFrom(c.treeDepth, n, i)
    decreases |t| - i
  {
    if i < |t| {
      TailLives(iv, t, c, n, i + 1);
      assert t[i..][1..] == t[i + 1..];
      LiveConcat(RowReceives(iv, t[i]), Receives(iv, t[i + 1..]));
      assert RowMeaning(t[i], PublicsOf(c));
      RowLives(iv, t[i]);
    }
  }

  /** However tall and padded, a satisfying table receives at most one tuple for its leaf and two per level. */
  lemma {:induction false} TableLives(iv: Hash, t: seq<Row>, c: Claim)
    requires Satisfies(t, PublicsOf(c)) && |t| < P
    ensures |Live(Receives(iv, t))| <= 1 + 2 * c.treeDepth
  {
    TableConstraintsMeaning(t, PublicsOf(c));
    var n := FindLast(t, PublicsOf(c), 0);
    RowCount(t, c, n);
    TailLives(iv, t, c, n, 0);
    assert t[0..] == t;
  }

  lemma {:induction false} BatchLives(iv: Hash, ts: seq<seq<Row>>, cs: seq<Claim>)
    requires |ts| == |cs| && forall k :: 0 <= k < |ts| ==> Satisfies(ts[k], PublicsOf(cs[k])) && |ts[k]| < P
    ensures |Live(AllReceives(iv, ts))| <= Received(cs)
  {
    if ts != [] {
      TableLives(iv, ts[0], cs[0]);
      BatchLives(iv, ts[1..], cs[1..]);
      LiveConcat(Receives(iv, ts[0]), AllReceives(iv, ts[1..]));
    }
  }

  /** The whole batch, over tables of any height below the field size: when every
      membership table satisfies its constraints, the Blake3 rows are genuine and the
      lookups balance in the field, then every claim is attested by a payload and a
      path.  The claims must not receive as many tuples as the field has elements:
      `RepeatedBalance` shows how the lookups lose their meaning there. */
  lemma {:induction false} BatchSoundness(H: HashFn, B: Blake, ts: seq<seq<Row>>, cs: seq<Claim>, rows: seq<BlakeRow>)
    requires HashesChunks(H, B)
    requires |ts| == |cs| && forall k :: 0 <= k < |ts| ==> Satisfies(ts[k], PublicsOf(cs[k])) && |ts[k]| < P
    requires forall r :: r in rows ==> ValidBlakeRow(B, r)
    requires Received(cs) < P && Balanced(AllReceives(B.iv, ts), Sends(rows))
    ensures forall k :: 0 <= k < |cs| ==> Attested(H, cs[k])
    ensures forall k :: 0 <= k < |cs| ==> RealPrefix(ts[k], RealRows(cs[k].treeDepth))
  {
    AllMultsAreBits(B.iv, ts, cs);
    BatchLives(B.iv, ts, cs);
    BatchGenuine(B, AllReceives(B.iv, ts), rows);
    forall k | 0 <= k < |cs|
      ensures Attested(H, cs[k]) && RealPrefix(ts[k], RealRows(cs[k].treeDepth))
    {
      AllReceivesAt(B.iv, ts, k);
      TableGenuine(B, ts[k]);
      TableSoundness(H, B, ts[k], cs[k]);
    }
  }
}
