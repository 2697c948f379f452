/** The two AIRs of the claim prover and the lookups between them, as predicates
    over tables of field elements. */
module Circuit {
  import opened Arith
  import opened Bytes
  import opened BabyBear
  import opened Merkle
  import opened Compression

  type Felts = seq<Felt>

  // ----- Columns -----

  /** One row of the membership table, column group by column group. */
  datatype RawRow = RawRow(
    subTreeId: Felt,
    leafIndexBe: Felts,
    bits: Felts,
    step: Felt,
    treeDepth: Felt,
    payloadLen: Felt,
    selector: Felts,
    payload: Felts,
    prev: Felts,
    sibling: Felts,
    left: Felts,
    right: Felts,
    mid: Felts,
    current: Felts,
    direction: Felt,
    hasNode: Felt,
    isFirst: Felt,
    isReal: Felt,
    isLast: Felt)
  {
    predicate Shaped() {
      && |leafIndexBe| == 8 && |bits| == 64 && |selector| == MAX_PAYLOAD + 1 && |payload| == MAX_PAYLOAD
      && |prev| == 32 && |sibling| == 32 && |left| == 32 && |right| == 32 && |mid| == 32 && |current| == 32
    }
  }

  function ZeroRow(): (r: RawRow)
    ensures r.Shaped()
  {
    RawRow(0, Zeros(8), Zeros(64), 0, 0, 0, Zeros(MAX_PAYLOAD + 1), Zeros(MAX_PAYLOAD), Zeros(32), Zeros(32),
           Zeros(32), Zeros(32), Zeros(32), Zeros(32), 0, 0, 0, 0, 0)
  }

  type Row = r: RawRow | r.Shaped() witness ZeroRow()

  /** The public values the membership constraints read. */
  datatype RawPublics = RawPublics(subTreeId: Felt, leafIndexBe: Felts, treeDepth: Felt, root: Felts)

  type Publics = p: RawPublics | |p.leafIndexBe| == 8 && |p.root| == 32
    witness RawPublics(0, Zeros(8), 0, Zeros(32))

  // ----- Constraint builders -----

  /** `when(gate).assert_eq(a, b)` */
  predicate EqWhen(gate: Felt, a: Felt, b: Felt) { Mul(gate, Sub(a, b)) == 0 }

  /** `when(gate).assert_zero(e)` */
  predicate ZeroWhen(gate: Felt, e: Felt) { Mul(gate, e) == 0 }

  /** `assert_bool(x)` */
  predicate AssertBool(x: Felt) { Mul(x, Sub(x, 1)) == 0 }

  /** `when(gate).assert_bool(x)` */
  predicate BoolWhen(gate: Felt, x: Felt) { Mul(gate, Mul(x, Sub(x, 1))) == 0 }

  ghost predicate AllEqWhen(gate: Felt, a: Felts, b: Felts)
    requires |a| == |b|
  {
    forall i :: 0 <= i < |a| ==> EqWhen(gate, a[i], b[i])
  }

  ghost predicate AllZeroWhen(gate: Felt, a: Felts) {
    forall i :: 0 <= i < |a| ==> ZeroWhen(gate, a[i])
  }

  /** The field sum of the first `n` elements. */
  function Sum(s: Felts, n: nat): Felt
    requires n <= |s|
  {
    if n == 0 then 0 else Add(Sum(s, n - 1), s[n - 1])
  }

  /** The field sum of `s[i] * i` over the first `n` elements. */
  function WeightedSum(s: Felts, n: nat): Felt
    requires n <= |s| <= 256
  {
    if n == 0 then 0 else Add(WeightedSum(s, n - 1), Mul(s[n - 1], n - 1))
  }

  /** The field sum of `bits[i] * 2^i` over the first `n <= 8` elements. */
  function Pack(bits: Felts, n: nat): Felt
    requires n <= |bits| && n <= 8
  {
    if n == 0 then 0
    else
      Pow2Byte(n - 1);
      Add(Pack(bits, n - 1), Mul(bits[n - 1], Pow2(n - 1)))
  }

  lemma {:induction false} Pow2Byte(k: nat)
    requires k <= 8
    ensures Pow2(k) <= 256
  {
    Pow2Monotone(k, 8);
    assert Pow2(4) == 16;
  }

  // ----- The membership AIR -----

  /** `assert_payload_len_selector` under `when(gate)` */
  ghost predicate PayloadLenSelector(gate: Felt, l: Row) {
    && (forall c :: 0 <= c <= MAX_PAYLOAD ==> BoolWhen(gate, l.selector[c]))
    && EqWhen(gate, Sum(l.selector, MAX_PAYLOAD + 1), 1)
    && EqWhen(gate, l.payloadLen, WeightedSum(l.selector, MAX_PAYLOAD + 1))
    && (forall i :: 0 <= i < MAX_PAYLOAD ==> ZeroWhen(gate, Mul(l.payload[i], Sum(l.selector, i + 1))))
  }

  /** `assert_remaining_bits_match_leaf_index` under `when(gate)` */
  ghost predicate BitsMatchLeafIndex(gate: Felt, l: Row, pub: Publics) {
    forall k :: 0 <= k < 8 ==> EqWhen(gate, Pack(l.bits[8 * k..8 * k + 8], 8), pub.leafIndexBe[7 - k])
  }

  ghost predicate Flags(l: Row) {
    && AssertBool(l.isReal) && AssertBool(l.isLast) && AssertBool(l.isFirst)
    && AssertBool(l.hasNode) && AssertBool(l.direction)
  }

  ghost predicate RealRowConstraints(l: Row, pub: Publics) {
    && EqWhen(l.isReal, l.subTreeId, pub.subTreeId)
    && EqWhen(l.isReal, l.treeDepth, pub.treeDepth)
    && AllEqWhen(l.isReal, l.leafIndexBe, pub.leafIndexBe)
    && PayloadLenSelector(l.isReal, l)
    && (forall b :: 0 <= b < 64 ==> BoolWhen(l.isReal, l.bits[b]))
    && EqWhen(l.isFirst, l.isReal, 1)
    && BitsMatchLeafIndex(l.isFirst, l, pub)
  }

  ghost predicate NodeConstraints(l: Row) {
    && EqWhen(l.hasNode, l.direction, l.bits[0])
    && AllEqWhen(Mul(l.hasNode, Sub(1, l.direction)), l.left, l.prev)
    && AllEqWhen(Mul(l.hasNode, Sub(1, l.direction)), l.right, l.sibling)
    && AllEqWhen(Mul(l.hasNode, l.direction), l.left, l.sibling)
    && AllEqWhen(Mul(l.hasNode, l.direction), l.right, l.prev)
  }

  ghost predicate NoNodeConstraints(l: Row) {
    var gate := Sub(l.isReal, l.hasNode);
    && ZeroWhen(gate, l.treeDepth)
    && AllEqWhen(gate, l.current, l.prev)
    && AllZeroWhen(gate, l.sibling) && AllZeroWhen(gate, l.left)
    && AllZeroWhen(gate, l.right) && AllZeroWhen(gate, l.mid)
  }

  ghost predicate StopConstraints(l: Row, pub: Publics) {
    var gate := Mul(l.isReal, l.isLast);
    && EqWhen(gate, Add(l.step, l.hasNode), l.treeDepth)
    && AllEqWhen(gate, l.current, pub.root)
  }

  ghost predicate PaddingConstraints(l: Row) {
    var gate := Sub(1, l.isReal);
    && ZeroWhen(gate, l.subTreeId) && AllZeroWhen(gate, l.leafIndexBe) && AllZeroWhen(gate, l.bits)
    && ZeroWhen(gate, l.step) && ZeroWhen(gate, l.treeDepth) && ZeroWhen(gate, l.payloadLen)
    && AllZeroWhen(gate, l.selector) && AllZeroWhen(gate, l.payload) && AllZeroWhen(gate, l.prev)
    && AllZeroWhen(gate, l.sibling) && AllZeroWhen(gate, l.left) && AllZeroWhen(gate, l.right)
    && AllZeroWhen(gate, l.mid) && AllZeroWhen(gate, l.current) && ZeroWhen(gate, l.direction)
    && ZeroWhen(gate, l.hasNode) && ZeroWhen(gate, l.isFirst) && ZeroWhen(gate, l.isReal)
    && ZeroWhen(gate, l.isLast)
  }

  /** The constraints on every row. */
  ghost predicate RowConstraints(l: Row, pub: Publics) {
    && Flags(l)
    && RealRowConstraints(l, pub)
    && NodeConstraints(l)
    && NoNodeConstraints(l)
    && StopConstraints(l, pub)
    && PaddingConstraints(l)
  }

  ghost predicate FirstRowConstraints(l: Row) {
    l.isReal == 1 && l.isFirst == 1 && l.step == 0
  }

  ghost predicate LastRowConstraints(l: Row) {
    Mul(l.isReal, Sub(1, l.isLast)) == 0
  }

  /** The constraints on two consecutive rows. */
  ghost predicate Transition(l: Row, n: Row) {
    var continue_ := Mul(l.isReal, Sub(1, l.isLast));
    var stop := Mul(l.isReal, l.isLast);
    var notReal := Sub(1, l.isReal);
    && n.isFirst == 0
    && EqWhen(continue_, n.isReal, 1)
    && ZeroWhen(stop, n.isReal)
    && ZeroWhen(notReal, n.isReal)
    && ZeroWhen(notReal, n.isFirst)
    && EqWhen(continue_, n.step, Add(l.step, 1))
    && AllEqWhen(continue_, n.prev, l.current)
    && (forall b :: 0 <= b < 63 ==> EqWhen(continue_, n.bits[b], l.bits[b + 1]))
    && ZeroWhen(continue_, n.bits[63])
  }

  /** `OmegaMembershipAir::eval` holds on the whole table. */
  ghost predicate Satisfies(t: seq<Row>, pub: Publics) {
    && |t| > 0
    && (forall i :: 0 <= i < |t| ==> RowConstraints(t[i], pub))
    && FirstRowConstraints(t[0])
    && (forall i :: 0 <= i < |t| - 1 ==> Transition(t[i], t[i + 1]))
    && LastRowConstraints(t[|t| - 1])
  }

  // ----- Lookups -----

  function Felted(b: ByteString): (f: Felts)
    ensures f == b
  {
    b
  }

  /** The common layout of a lookup tuple. */
  function Tuple(block: Felts, cv: Felts, counter: Felts, blockLen: Felts, flags: Felts, out: Felts): (t: Felts)
    requires |block| == 64 && |cv| == 32 && |counter| == 8 && |blockLen| == 4 && |flags| == 4 && |out| == 32
    ensures |t| == 144
  {
    block + cv + counter + blockLen + flags + out
  }

  /** `leaf_lookup_exprs`, the 64 block columns. */
  function LeafBlock(l: Row): (t: Felts)
    ensures |t| == 64
  {
    Felted(DOMAIN_LEAF) + [l.subTreeId] + l.leafIndexBe + Zeros(7) + [l.payloadLen] + l.payload
  }

  /** `leaf_lookup_exprs` */
  function LeafTuple(iv: Hash, l: Row): Felts {
    Tuple(LeafBlock(l), Felted(iv), Zeros(8), [Add(30, l.payloadLen), 0, 0, 0], Felted(SmallWord(LEAF_FLAGS)), l.prev)
  }

  /** `node_first_lookup_exprs` */
  function NodeFirstTuple(iv: Hash, l: Row): Felts {
    Tuple(Felted(DOMAIN_NODE) + l.left + l.right[..19], Felted(iv), Zeros(8),
          Felted(SmallWord(64)), Felted(SmallWord(NODE_FIRST_FLAGS)), l.mid)
  }

  /** `node_second_lookup_exprs` */
  function NodeSecondTuple(l: Row): Felts {
    Tuple(l.right[19..] + Zeros(51), l.mid, Zeros(8),
          Felted(SmallWord(13)), Felted(SmallWord(NODE_SECOND_FLAGS)), l.current)
  }

  /** One side's entry in the LogUp argument. */
  datatype Interaction = Interaction(tuple: Felts, mult: Felt)

  function RowReceives(iv: Hash, l: Row): seq<Interaction> {
    [Interaction(LeafTuple(iv, l), l.isFirst),
     Interaction(NodeFirstTuple(iv, l), Mul(l.isReal, l.hasNode)),
     Interaction(NodeSecondTuple(l), Mul(l.isReal, l.hasNode))]
  }

  /** Everything a membership table receives. */
  function Receives(iv: Hash, t: seq<Row>): (r: seq<Interaction>)
    ensures |r| == 3 * |t|
  {
    if t == [] then [] else RowReceives(iv, t[0]) + Receives(iv, t[1..])
  }

  function AllReceives(iv: Hash, ts: seq<seq<Row>>): seq<Interaction> {
    if ts == [] then [] else Receives(iv, ts[0]) + AllReceives(iv, ts[1..])
  }

  /** One row of the Blake3 table: the bit columns that the lookup reads. */
  datatype RawBlakeRow = RawBlakeRow(block: Felts, cv: Felts, counter: Felts, blockLen: Felts, flags: Felts, out: Felts)

  type BlakeRow = r: RawBlakeRow
    | |r.block| == 512 && |r.cv| == 256 && |r.counter| == 64 && |r.blockLen| == 32 && |r.flags| == 32 && |r.out| == 256
    witness RawBlakeRow(Zeros(512), Zeros(256), Zeros(64), Zeros(32), Zeros(32), Zeros(256))

  /** `byte_expr_from_bits`, group by group. */
  function PackBytes(bits: Felts): (b: Felts)
    requires |bits| % 8 == 0
    ensures |b| == |bits| / 8
  {
    if bits == [] then [] else [Pack(bits[..8], 8)] + PackBytes(bits[8..])
  }

  /** `blake3_table_lookup_exprs` */
  function BlakeTuple(r: BlakeRow): Felts {
    Tuple(PackBytes(r.block), PackBytes(r.cv), PackBytes(r.counter), PackBytes(r.blockLen), PackBytes(r.flags),
          PackBytes(r.out))
  }

  /** `flag0 + flag1 - flag0 * flag1` */
  function EitherFlag(a: Felt, b: Felt): Felt { Sub(Add(a, b), Mul(a, b)) }

  function BlakeSend(r: BlakeRow): Interaction {
    Interaction(BlakeTuple(r), EitherFlag(r.flags[0], r.flags[1]))
  }

  function Sends(rows: seq<BlakeRow>): seq<Interaction> {
    if rows == [] then [] else [BlakeSend(rows[0])] + Sends(rows[1..])
  }

  predicate IsBit(x: Felt) { x == 0 || x == 1 }

  predicate AllBits(bits: Felts) {
    forall i :: 0 <= i < |bits| ==> bits[i] == 0 || bits[i] == 1
  }

  /** What the upstream Blake3 AIR enforces on a row: bit columns hold bits, and
      the output is the compression of the inputs. */
  ghost predicate ValidBlakeRow(B: Blake, r: BlakeRow) {
    && AllBits(r.block) && AllBits(r.cv) && AllBits(r.counter) && AllBits(r.blockLen)
    && AllBits(r.flags) && AllBits(r.out)
    && exists input: Input, out: Hash :: RowComputes(B, r, input, out)
  }

  ghost predicate RowComputes(B: Blake, r: BlakeRow, input: Input, out: Hash) {
    && PackBytes(r.block) == input.block && PackBytes(r.cv) == input.cv
    && PackBytes(r.counter) == input.counter && PackBytes(r.blockLen) == input.blockLen
    && PackBytes(r.flags) == input.flags
    && PackBytes(r.out) == out
    && out == B.compress(input)
  }

  /** The sum of the multiplicities with which `t` occurs. */
  function Weight(xs: seq<Interaction>, t: Felts): Felt {
    if xs == [] then 0
    else Add(if xs[0].tuple == t then xs[0].mult else 0, Weight(xs[1..], t))
  }

  /** LogUp: every tuple is sent and received with one weight in the field. */
  ghost predicate Balanced(receives: seq<Interaction>, sends: seq<Interaction>) {
    forall t: Felts :: Weight(receives, t) == Weight(sends, t)
  }
}
