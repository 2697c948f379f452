/** The tables that the trace builder fills satisfy the membership constraints exactly
    when the tree has a node to hash, or its one leaf hashes to zero. */
module CircuitCompleteness {
  import opened Arith
  import opened Bytes
  import opened BabyBear
  import opened Fold
  import opened Merkle
  import opened Claims
  import opened Compression
  import opened Circuit
  import opened CircuitSoundness
  import opened TraceBuilder
  import opened BitColumns

  // ----- Meeting single constraints -----

  lemma {:induction false} EqHolds(gate: Felt, a: Felt, b: Felt)
    requires gate == 0 || a == b
    ensures EqWhen(gate, a, b)
  {
    ZeroHolds(gate, Sub(a, b));
  }

  lemma {:induction false} ZeroHolds(gate: Felt, e: Felt)
    requires gate == 0 || e == 0
    ensures ZeroWhen(gate, e)
  {
    assert 0 * e == 0 && gate * 0 == 0;
  }

  lemma {:induction false} BoolHolds(x: Felt)
    requires IsBit(x)
    ensures AssertBool(x)
  {
  }

  lemma {:induction false} BoolWhenHolds(gate: Felt, x: Felt)
    requires gate == 0 || IsBit(x)
    ensures BoolWhen(gate, x)
  {
    if IsBit(x) { BoolHolds(x); }
    ZeroHolds(gate, Mul(x, Sub(x, 1)));
  }

  lemma {:induction false} AllEqHolds(gate: Felt, a: Felts, b: Felts)
    requires |a| == |b| && (gate == 0 || a == b)
    ensures AllEqWhen(gate, a, b)
  {
    forall i | 0 <= i < |a| ensures EqWhen(gate, a[i], b[i]) { EqHolds(gate, a[i], b[i]); }
  }

  ghost predicate AllZero(a: Felts) { forall i :: 0 <= i < |a| ==> a[i] == 0 }

  lemma {:induction false} AllZeroHolds(gate: Felt, a: Felts)
    requires gate == 0 || AllZero(a)
    ensures AllZeroWhen(gate, a)
  {
    forall i | 0 <= i < |a| ensures ZeroWhen(gate, a[i]) { ZeroHolds(gate, a[i]); }
  }

  // ----- One row -----

  ghost predicate SelectsLength(l: Row, len: nat) {
    && PayloadMeaning(l, len)
    && forall i :: 0 <= i <= MAX_PAYLOAD ==> l.selector[i] == if i == len then 1 else 0
  }

  ghost predicate NoNode(l: Row) {
    && l.treeDepth == 0 && l.current == l.prev
    && AllZero(l.sibling) && AllZero(l.left) && AllZero(l.right) && AllZero(l.mid)
  }

  /** What a real row has to carry. */
  ghost predicate Fits(l: Row, pub: Publics, len: nat) {
    && l.isReal == 1 && IsBit(l.isLast) && IsBit(l.isFirst) && IsBit(l.hasNode) && IsBit(l.direction)
    && l.subTreeId == pub.subTreeId && l.treeDepth == pub.treeDepth && l.leafIndexBe == pub.leafIndexBe
    && AllBits(l.bits) && SelectsLength(l, len)
    && (l.isFirst == 1 ==> forall k :: 0 <= k < 8 ==> Pack(l.bits[8 * k..8 * k + 8], 8) == pub.leafIndexBe[7 - k])
    && (l.hasNode == 1 ==> NodeMeaning(l))
    && (l.hasNode == 0 ==> NoNode(l))
    && (l.isLast == 1 ==> Add(l.step, l.hasNode) == l.treeDepth && l.current == pub.root)
  }

  /** An all-zero row. */
  ghost predicate IsPadding(l: Row) {
    && l.subTreeId == l.step == l.treeDepth == l.payloadLen == l.direction == 0
    && l.hasNode == l.isFirst == l.isReal == l.isLast == 0
    && AllZero(l.leafIndexBe) && AllZero(l.bits) && AllZero(l.selector) && AllZero(l.payload) && AllZero(l.prev)
    && AllZero(l.sibling) && AllZero(l.left) && AllZero(l.right) && AllZero(l.mid) && AllZero(l.current)
  }

  lemma {:induction false} SelectorHolds(gate: Felt, l: Row, len: nat)
    requires gate == 0 || SelectsLength(l, len)
    ensures PayloadLenSelector(gate, l)
  {
    var s, n := l.selector, MAX_PAYLOAD + 1;
    if gate != 0 { SelectorSums(s, len, n); }
    forall c | 0 <= c < n ensures BoolWhen(gate, s[c]) { BoolWhenHolds(gate, s[c]); }
    EqHolds(gate, Sum(s, n), 1);
    EqHolds(gate, l.payloadLen, WeightedSum(s, n));
    forall i | 0 <= i < MAX_PAYLOAD
      ensures ZeroWhen(gate, Mul(l.payload[i], Sum(s, i + 1)))
    {
      if gate != 0 {
        assert Sum(s, i + 1) == 0 || l.payload[i] == 0;
        ZeroHolds(l.payload[i], Sum(s, i + 1));
      }
      ZeroHolds(gate, Mul(l.payload[i], Sum(s, i + 1)));
    }
  }

  lemma {:induction false} RealRowHolds(l: Row, pub: Publics, len: nat)
    requires IsPadding(l) || Fits(l, pub, len)
    ensures RealRowConstraints(l, pub)
  {
    EqHolds(l.isReal, l.subTreeId, pub.subTreeId);
    EqHolds(l.isReal, l.treeDepth, pub.treeDepth);
    AllEqHolds(l.isReal, l.leafIndexBe, pub.leafIndexBe);
    SelectorHolds(l.isReal, l, len);
    forall b | 0 <= b < 64 ensures BoolWhen(l.isReal, l.bits[b]) { BoolWhenHolds(l.isReal, l.bits[b]); }
    EqHolds(l.isFirst, l.isReal, 1);
    forall k | 0 <= k < 8
      ensures EqWhen(l.isFirst, Pack(l.bits[8 * k..8 * k + 8], 8), pub.leafIndexBe[7 - k])
    {
      EqHolds(l.isFirst, Pack(l.bits[8 * k..8 * k + 8], 8), pub.leafIndexBe[7 - k]);
    }
  }

  lemma {:induction false} NodeHolds(l: Row)
    requires IsBit(l.hasNode) && IsBit(l.direction) && (l.hasNode == 1 ==> NodeMeaning(l))
    ensures NodeConstraints(l)
  {
    var straight, crossed := Mul(l.hasNode, Sub(1, l.direction)), Mul(l.hasNode, l.direction);
    assert l.hasNode == 0 || l.direction == 1 ==> straight == 0;
    assert l.hasNode == 0 || l.direction == 0 ==> crossed == 0;
    EqHolds(l.hasNode, l.direction, l.bits[0]);
    AllEqHolds(straight, l.left, l.prev);
    AllEqHolds(straight, l.right, l.sibling);
    AllEqHolds(crossed, l.left, l.sibling);
    AllEqHolds(crossed, l.right, l.prev);
  }

  lemma {:induction false} NoNodeHolds(l: Row)
    requires l.isReal == l.hasNode || NoNode(l)
    ensures NoNodeConstraints(l)
  {
    var gate := Sub(l.isReal, l.hasNode);
    ZeroHolds(gate, l.treeDepth);
    AllEqHolds(gate, l.current, l.prev);
    AllZeroHolds(gate, l.sibling);
    AllZeroHolds(gate, l.left);
    AllZeroHolds(gate, l.right);
    AllZeroHolds(gate, l.mid);
  }

  lemma {:induction false} StopHolds(l: Row, pub: Publics, len: nat)
    requires IsPadding(l) || Fits(l, pub, len)
    ensures StopConstraints(l, pub)
  {
    var gate := Mul(l.isReal, l.isLast);
    assert l.isLast == 0 ==> gate == 0;
    EqHolds(gate, Add(l.step, l.hasNode), l.treeDepth);
    AllEqHolds(gate, l.current, pub.root);
  }

  lemma {:induction false} PaddingHolds(l: Row)
    requires l.isReal == 1 || IsPadding(l)
    ensures PaddingConstraints(l)
  {
    var gate := Sub(1, l.isReal);
    forall e: Felt | gate == 0 || e == 0 ensures ZeroWhen(gate, e) { ZeroHolds(gate, e); }
    AllZeroHolds(gate, l.leafIndexBe);
    AllZeroHolds(gate, l.bits);
    AllZeroHolds(gate, l.selector);
    AllZeroHolds(gate, l.payload);
    AllZeroHolds(gate, l.prev);
    AllZeroHolds(gate, l.sibling);
    AllZeroHolds(gate, l.left);
    AllZeroHolds(gate, l.right);
    AllZeroHolds(gate, l.mid);
    AllZeroHolds(gate, l.current);
  }

  /** A padding row, and a real row that fits, satisfy every constraint on single rows. */
  lemma {:induction false} RowHolds(l: Row, pub: Publics, len: nat)
    requires IsPadding(l) || Fits(l, pub, len)
    ensures RowConstraints(l, pub)
  {
    BoolHolds(l.isReal);
    BoolHolds(l.isLast);
    BoolHolds(l.isFirst);
    BoolHolds(l.hasNode);
    BoolHolds(l.direction);
    RealRowHolds(l, pub, len);
    NodeHolds(l);
    NoNodeHolds(l);
    StopHolds(l, pub, len);
    PaddingHolds(l);
  }

  lemma {:induction false} TransitionHolds(l: Row, n: Row)
    requires IsBit(l.isReal) && IsBit(l.isLast) && TransitionMeaning(l, n)
    ensures Transition(l, n)
  {
    GateValues();
    var gate, stop, notReal := Mul(l.isReal, Sub(1, l.isLast)), Mul(l.isReal, l.isLast), Sub(1, l.isReal);
    assert l.isReal == 0 || l.isLast == 1 ==> gate == 0;
    assert l.isReal == 0 || l.isLast == 0 ==> stop == 0;
    EqHolds(gate, n.isReal, 1);
    ZeroHolds(stop, n.isReal);
    ZeroHolds(notReal, n.isReal);
    ZeroHolds(notReal, n.isFirst);
    EqHolds(gate, n.step, Add(l.step, 1));
    AllEqHolds(gate, n.prev, l.current);
    forall b | 0 <= b < 63 ensures EqWhen(gate, n.bits[b], l.bits[b + 1]) { EqHolds(gate, n.bits[b], l.bits[b + 1]); }
    ZeroHolds(gate, n.bits[63]);
  }

  // ----- The built rows -----

  lemma {:induction false} PaddingRowIsPadding()
    ensures IsPadding(PaddingRow())
  {
  }

  /** The depth-0 table is only right for a leaf hash of zeros: the builder copies the
      leaf hash into the left column, which the constraint wants empty. */
  ghost predicate Provable(w: CheckedWitness) {
    |w.merklePath| > 0 || w.leafHash == Zeros(32)
  }

  function PublicsFor(w: CheckedWitness): Publics { PublicsOf(ClaimOf(w.publicInputs)) }

  lemma {:induction false} LastNodeIsRoot(H: HashFn, w: CheckedWitness)
    requires Checked(H, w)
    ensures NodeAt(H, w, |w.merklePath|) == w.publicInputs.perSubTreeRoot
  {
    assert w.merklePath[..|w.merklePath|] == w.merklePath;
  }

  lemma {:induction false} PackedByte(bits: seq<nat>, index: U64, width: nat, m: nat, k: nat)
    requires k < m && width == 8 * m && bits == BitsOf(index, width)
    ensures Pack(bits[8 * k..8 * k + 8], 8) == BE(index, m)[m - 1 - k]
  {
    PackedBits(index, m, k);
  }

  lemma {:induction false} FirstRowPacks(l: Row, index: U64)
    requires l.bits == BitsOf(index, 64)
    ensures forall k :: 0 <= k < 8 ==> Pack(l.bits[8 * k..8 * k + 8], 8) == BE(index, 8)[7 - k]
  {
    forall k | 0 <= k < 8 ensures Pack(l.bits[8 * k..8 * k + 8], 8) == BE(index, 8)[7 - k] {
      PackedByte(l.bits, index, 64, 8, k);
    }
  }

  lemma {:induction false} BuiltPayload(w: CheckedWitness, v: RealRowValues)
    requires |w.leafPayload| <= MAX_PAYLOAD && v.step < P && v.direction < 2
    ensures SelectsLength(FillRealRow(w, v), |w.leafPayload|)
  {
  }

  lemma {:induction false} BuiltNode(w: CheckedWitness, v: RealRowValues)
    requires |w.leafPayload| <= MAX_PAYLOAD && v.step < P && v.direction < 2
    requires v.direction == v.remaining % 2
    requires v.direction == 0 ==> v.left == v.prev && v.right == v.sibling
    requires v.direction != 0 ==> v.left == v.sibling && v.right == v.prev
    ensures NodeMeaning(FillRealRow(w, v))
  {
    assert BitsOf(v.remaining, 64)[0] == v.remaining % 2;
  }

  /** Row `step` of the built table fits. */
  lemma {:induction false} BuiltRowFits(H: HashFn, B: Blake, w: CheckedWitness, step: nat)
    requires HashesChunks(H, B) && Checked(H, w) && Provable(w) && step < RealRows(|w.merklePath|)
    ensures Fits(RowAt(H, B, w, step), PublicsFor(w), |w.leafPayload|)
  {
    var v := ValuesAt(H, B, w, step);
    var l := FillRealRow(w, v);
    BuiltPayload(w, v);
    LastNodeIsRoot(H, w);
    if v.hasNode {
      BuiltNode(w, v);
      NodeAtStep(H, B, w, step);
    }
    if step == 0 { FirstRowPacks(l, w.publicInputs.leafIndex); }
  }

  lemma {:induction false} FilledTransition(w: CheckedWitness, v: RealRowValues, v': RealRowValues)
    requires |w.leafPayload| <= MAX_PAYLOAD && v.direction < 2 && v'.direction < 2
    requires v'.step == v.step + 1 < RealRows(|w.merklePath|) < P
    requires v'.prev == v.current && v'.remaining == v.remaining / 2 && v.remaining < TWO_64
    ensures Transition(FillRealRow(w, v), FillRealRow(w, v'))
  {
    Pow2Widths();
    BitsHalved(v.remaining, 64);
    TransitionHolds(FillRealRow(w, v), FillRealRow(w, v'));
  }

  lemma {:induction false} BuiltTransition(H: HashFn, B: Blake, w: CheckedWitness, step: nat)
    requires HashesChunks(H, B) && Checked(H, w) && step + 1 < RealRows(|w.merklePath|)
    ensures Transition(RowAt(H, B, w, step), RowAt(H, B, w, step + 1))
  {
    var index := w.publicInputs.leafIndex;
    NodeAtStep(H, B, w, step);
    ShiftMore(index, step);
    ShiftShrinks(index, step);
    FilledTransition(w, ValuesAt(H, B, w, step), ValuesAt(H, B, w, step + 1));
  }

  // ----- The built table -----

  /** Row `i` of the built table: real rows, then padding. */
  lemma {:induction false} BuiltRow(H: HashFn, B: Blake, w: CheckedWitness, t: seq<Row>, i: nat)
    requires BuiltTable(H, B, w, t) && i < |t|
    ensures i < RealRows(|w.merklePath|) ==> t[i] == RowAt(H, B, w, i)
    ensures i >= RealRows(|w.merklePath|) ==> t[i] == PaddingRow()
  {
    var n := RealRows(|w.merklePath|);
    PaddedAt<Row>(RowsTo(H, B, w, n), PaddingRow(), TraceHeight(n), i);
    if i < n { RowsToAt(H, B, w, n, i); }
  }

  lemma {:induction false} BuiltRowHolds(H: HashFn, B: Blake, w: CheckedWitness, t: seq<Row>, i: nat)
    requires HashesChunks(H, B) && Checked(H, w) && Provable(w) && BuiltTable(H, B, w, t) && i < |t|
    ensures RowConstraints(t[i], PublicsFor(w))
  {
    BuiltRow(H, B, w, t, i);
    if i < RealRows(|w.merklePath|) { BuiltRowFits(H, B, w, i); } else { PaddingRowIsPadding(); }
    RowHolds(t[i], PublicsFor(w), |w.leafPayload|);
  }

  lemma {:induction false} StopRow(l: Row, n: Row)
    requires (l.isReal == 1 && l.isLast == 1) || IsPadding(l)
    requires IsPadding(n)
    ensures Transition(l, n)
  {
    TransitionHolds(l, n);
  }

  lemma {:induction false} BuiltTransitionHolds(H: HashFn, B: Blake, w: CheckedWitness, t: seq<Row>, i: nat)
    requires HashesChunks(H, B) && Checked(H, w) && BuiltTable(H, B, w, t) && i + 1 < |t|
    ensures Transition(t[i], t[i + 1])
  {
    BuiltRow(H, B, w, t, i);
    BuiltRow(H, B, w, t, i + 1);
    if i + 1 < RealRows(|w.merklePath|) {
      BuiltTransition(H, B, w, i);
    } else {
      PaddingRowIsPadding();
      StopRow(t[i], t[i + 1]);
    }
  }

  lemma {:induction false} BuiltLastRow(H: HashFn, B: Blake, w: CheckedWitness, t: seq<Row>)
    requires BuiltTable(H, B, w, t)
    ensures LastRowConstraints(t[|t| - 1])
  {
    var l := t[|t| - 1];
    BuiltRow(H, B, w, t, |t| - 1);
    assert IsBit(l.isReal) && (l.isReal == 1 ==> l.isLast == 1);
    ZeroHolds(l.isReal, Sub(1, l.isLast));
  }

  lemma {:induction false} EmptyLeft(l: Row, leaf: Hash)
    requires NoNodeConstraints(l) && l.isReal == 1 && l.hasNode == 0 && l.left == Felted(leaf)
    ensures leaf == Zeros(32)
  {
    var gate := Sub(l.isReal, l.hasNode);
    forall i | 0 <= i < 32
      ensures leaf[i] == 0
    {
      assert ZeroWhen(gate, l.left[i]);
      ZeroMeaning(gate, l.left[i]);
    }
  }

  lemma {:induction false} BuiltFirstRow(H: HashFn, B: Blake, w: CheckedWitness, t: seq<Row>)
    requires BuiltTable(H, B, w, t)
    ensures |t| > 0 && FirstRowConstraints(t[0])
    ensures |w.merklePath| == 0 ==> t[0].hasNode == 0 && t[0].left == Felted(w.leafHash)
  {
    BuiltRow(H, B, w, t, 0);
  }

  lemma {:induction false} Assembled(t: seq<Row>, pub: Publics)
    requires |t| > 0 && FirstRowConstraints(t[0]) && LastRowConstraints(t[|t| - 1])
    requires forall i :: 0 <= i < |t| ==> RowConstraints(t[i], pub)
    requires forall i :: 0 <= i < |t| - 1 ==> Transition(t[i], t[i + 1])
    ensures Satisfies(t, pub)
  {
  }

  lemma {:induction false} ProvableSatisfies(H: HashFn, B: Blake, w: CheckedWitness, t: seq<Row>, pub: Publics)
    requires HashesChunks(H, B) && Checked(H, w) && BuiltTable(H, B, w, t) && Provable(w)
    requires pub == PublicsFor(w)
    ensures Satisfies(t, pub)
  {
    BuiltFirstRow(H, B, w, t);
    BuiltLastRow(H, B, w, t);
    forall i | 0 <= i < |t| ensures RowConstraints(t[i], pub) { BuiltRowHolds(H, B, w, t, i); }
    forall i | 0 <= i < |t| - 1 ensures Transition(t[i], t[i + 1]) { BuiltTransitionHolds(H, B, w, t, i); }
    Assembled(t, pub);
  }

  lemma {:induction false} SatisfiedLeft(t: seq<Row>, pub: Publics, leaf: Hash)
    requires Satisfies(t, pub) && t[0].hasNode == 0 && t[0].left == Felted(leaf)
    ensures leaf == Zeros(32)
  {
    assert RowConstraints(t[0], pub);
    EmptyLeft(t[0], leaf);
  }

  /** The built table of a witness satisfies the membership constraints if and only
      if the path is not empty or the leaf hash is zero. */
  lemma {:induction false} TableCompleteness(H: HashFn, B: Blake, w: CheckedWitness, t: seq<Row>)
    requires HashesChunks(H, B) && Checked(H, w) && BuiltTable(H, B, w, t)
    ensures Satisfies(t, PublicsFor(w)) <==> Provable(w)
  {
    var pub := PublicsFor(w);
    if Provable(w) {
      ProvableSatisfies(H, B, w, t, pub);
    } else if Satisfies(t, pub) {
      BuiltFirstRow(H, B, w, t);
      SatisfiedLeft(t, pub, w.leafHash);
    }
  }

  // ----- A witness of depth zero -----

  /** The one witness of a sub-tree with one item. */
  function OnlyWitness(c: OmegaCommitment, id: Byte, payload: ByteString, nullifier: Hash, recipient: Hash)
    : MembershipWitness
    requires 1 <= id <= SUB_TREE_COUNT
  {
    var p := ClaimPublicInputs(id, 0, 0, c.subTreeRoots[id - 1], c.bundleRoot, nullifier, recipient);
    MembershipWitness(p, payload, [])
  }

  /** A sub-tree of one item has depth 0.  Under every hash its only witness passes
      validation, and its built table fails the constraints unless the leaf hash is zero. */
  lemma {:induction false} DepthZeroFails(H: HashFn, B: Blake, c: OmegaCommitment, id: Byte, payload: ByteString,
                                          nullifier: Hash, recipient: Hash, x: CheckedWitness, t: seq<Row>)
    requires HashesChunks(H, B) && 1 <= id <= SUB_TREE_COUNT && |payload| <= MAX_PAYLOAD
    requires c.subTreeRoots[id - 1] == V1Root(H, id, [payload])
    requires c.itemCounts[id - 1] == 1 && c.treeDepths[id - 1] == Depth(1)
    requires CheckedFrom(H, OnlyWitness(c, id, payload, nullifier, recipient), x) && BuiltTable(H, B, x, t)
    ensures GoodWitness(H, c, OnlyWitness(c, id, payload, nullifier, recipient))
    ensures Satisfies(t, PublicsFor(x)) <==> LeafHash(H, id, 0, payload) == Zeros(32)
  {
    OnlyRoot(H, id, payload);
    TableCompleteness(H, B, x, t);
  }

  lemma {:induction false} OnlyRoot(H: HashFn, id: Byte, payload: ByteString)
    ensures V1Root(H, id, [payload]) == LeafHash(H, id, 0, payload)
  {
    assert SortPayloads([payload]) == [payload];
    assert Slots(id, [payload])[0] == LeafPreimage(id, 0, payload);
  }
}
