/** Witness validation and the two trace builders of the claim prover. */
module TraceBuilder {
  import opened Arith
  import opened Bytes
  import opened BabyBear
  import opened Fold
  import opened Merkle
  import opened Claims
  import opened Compression
  import opened Circuit
  import opened Lookups
  import opened CircuitSoundness

  // ----- Witness validation -----

  datatype MembershipWitness = MembershipWitness(
    publicInputs: ClaimPublicInputs, leafPayload: ByteString, merklePath: seq<Hash>)

  datatype CheckedWitness = CheckedWitness(
    publicInputs: ClaimPublicInputs, leafPayload: ByteString, merklePath: seq<Hash>, leafHash: Hash)

  datatype ProverError =
    | LeafTooLargeForV01(actual: nat, limit: nat)
    | PublicBundleRootMismatch
    | UnknownSubTree(subTreeId: Byte)
    | LeafIndexOutOfRange(leafIndex: U64, itemCount: U64)
    | TreeDepthTooLarge(depth: U32)
    | PublicTreeDepthMismatch
    | PublicSubTreeRootMismatch
    | PathDepthMismatch(expected: nat, actual: nat)
    | PathMismatch

  function ClaimOf(p: ClaimPublicInputs): Claim {
    Claim(p.subTreeId, p.leafIndex, p.treeDepth, p.perSubTreeRoot)
  }

  /** What validation establishes about a witness. */
  ghost predicate Checked(H: HashFn, w: CheckedWitness) {
    && w.leafHash == LeafHash(H, w.publicInputs.subTreeId, w.publicInputs.leafIndex, w.leafPayload)
    && AttestedBy(H, ClaimOf(w.publicInputs), w.leafPayload, w.merklePath)
  }

  /** The commitment agrees with the public inputs, and the index names an item. */
  ghost predicate Consistent(c: OmegaCommitment, p: ClaimPublicInputs) {
    && p.bundleRoot == c.bundleRoot
    && 1 <= p.subTreeId <= SUB_TREE_COUNT
    && p.leafIndex < c.itemCounts[p.subTreeId - 1]
    && p.treeDepth == c.treeDepths[p.subTreeId - 1]
    && p.perSubTreeRoot == c.subTreeRoots[p.subTreeId - 1]
  }

  ghost predicate GoodWitness(H: HashFn, c: OmegaCommitment, w: MembershipWitness) {
    Consistent(c, w.publicInputs) && AttestedBy(H, ClaimOf(w.publicInputs), w.leafPayload, w.merklePath)
  }

  ghost predicate CheckedFrom(H: HashFn, w: MembershipWitness, x: CheckedWitness) {
    Checked(H, x) && x.publicInputs == w.publicInputs && x.leafPayload == w.leafPayload && x.merklePath == w.merklePath
  }

  /** The checks of `validate_witness` in order, and the error of the first that fails. */
  ghost predicate WitnessFails(c: OmegaCommitment, w: MembershipWitness, e: ProverError) {
    var p := w.publicInputs;
    if |w.leafPayload| > 34 then e == LeafTooLargeForV01(30 + |w.leafPayload|, 64)
    else if p.bundleRoot != c.bundleRoot then e == PublicBundleRootMismatch
    else if p.subTreeId == 0 || p.subTreeId > 7 then e == UnknownSubTree(p.subTreeId)
    else
      var items, depth := c.itemCounts[p.subTreeId - 1], c.treeDepths[p.subTreeId - 1];
      if p.leafIndex >= items then e == LeafIndexOutOfRange(p.leafIndex, items)
      else if depth > 255 then e == TreeDepthTooLarge(depth)
      else if p.treeDepth != depth then e == PublicTreeDepthMismatch
      else if p.perSubTreeRoot != c.subTreeRoots[p.subTreeId - 1] then e == PublicSubTreeRootMismatch
      else if |w.merklePath| != depth then e == PathDepthMismatch(depth, |w.merklePath|)
      else e == PathMismatch
  }

  /** `validate_witness` */
  method ValidateWitness(H: HashFn, c: OmegaCommitment, w: MembershipWitness)
      returns (r: Result<CheckedWitness, ProverError>)
    ensures r.Ok? <==> GoodWitness(H, c, w)
    ensures r.Ok? ==> CheckedFrom(H, w, r.value)
    ensures r.Err? ==> WitnessFails(c, w, r.error)
  {
    var p := w.publicInputs;
    var preimageLen := 30 + |w.leafPayload|;
    if preimageLen > 64 { return Err(LeafTooLargeForV01(preimageLen, 64)); }
    if p.bundleRoot != c.bundleRoot { return Err(PublicBundleRootMismatch); }
    var subTree := SubTreeIndex(p.subTreeId);
    if subTree.None? { return Err(UnknownSubTree(p.subTreeId)); }
    var itemCount := c.itemCounts[subTree.value];
    if p.leafIndex >= itemCount { return Err(LeafIndexOutOfRange(p.leafIndex, itemCount)); }
    var depth := c.treeDepths[subTree.value];
    if depth > 255 { return Err(TreeDepthTooLarge(depth)); }
    if p.treeDepth != depth { return Err(PublicTreeDepthMismatch); }
    if p.perSubTreeRoot != c.subTreeRoots[subTree.value] { return Err(PublicSubTreeRootMismatch); }
    if |w.merklePath| != depth { return Err(PathDepthMismatch(depth, |w.merklePath|)); }
    var leaf := LeafHash(H, p.subTreeId, p.leafIndex, w.leafPayload);
    var root := ReplayPath(NodeHash(H), leaf, p.leafIndex, w.merklePath);
    if root != c.subTreeRoots[subTree.value] { return Err(PathMismatch); }
    return Ok(CheckedWitness(p, w.leafPayload, w.merklePath, leaf));
  }

  // ----- Loops shared by the builders -----

  function Padded<T>(s: seq<T>, pad: T, n: nat): (r: seq<T>)
    requires |s| <= n
    ensures |r| == n
  {
    if n == |s| then s else Padded(s, pad, n - 1) + [pad]
  }

  lemma {:induction false} PaddedAt<T>(s: seq<T>, pad: T, n: nat, i: nat)
    requires |s| <= n && i < n
    ensures Padded(s, pad, n)[i] == if i < |s| then s[i] else pad
  {
    if i < n - 1 && |s| < n { PaddedAt(s, pad, n - 1, i); }
  }

  /** Fills the tail of a table with one value. */
  method PadTo<T>(s: seq<T>, pad: T, n: nat) returns (r: seq<T>)
    requires |s| <= n
    ensures r == Padded(s, pad, n)
  {
    r := s;
    while |r| < n
      invariant |s| <= |r| <= n
      invariant r == Padded(s, pad, |r|)
    {
      r := r + [pad];
    }
  }

  function Filled<A, R>(fill: A -> R, items: seq<A>): (rows: seq<R>)
    ensures |rows| == |items|
  {
    if items == [] then [] else Filled(fill, items[..|items| - 1]) + [fill(items[|items| - 1])]
  }

  // ----- Rows -----

  /** The low `n` bits of `x`, least significant first. */
  function BitsOf(x: nat, n: nat): (bits: Felts)
    ensures |bits| == n && AllBits(bits)
  {
    if n == 0 then [] else [x % 2] + BitsOf(x / 2, n - 1)
  }

  /** `n` zeros with a one at position `hot`. */
  function Selector(n: nat, hot: nat): (s: Felts)
    requires hot < n
    ensures |s| == n && forall i :: 0 <= i < n ==> s[i] == if i == hot then 1 else 0
  {
    Zeros(hot) + [1] + Zeros(n - hot - 1)
  }

  datatype RealRowValues = RealRowValues(
    step: nat, remaining: nat, direction: nat, hasNode: bool,
    prev: Hash, sibling: Hash, left: Hash, right: Hash, mid: Hash, current: Hash)

  function FromBool(b: bool): Felt { if b then 1 else 0 }

  /** `fill_real_row` */
  function FillRealRow(w: CheckedWitness, v: RealRowValues): (row: Row)
    requires |w.leafPayload| <= MAX_PAYLOAD && v.step < P && v.direction < 2
  {
    RawRow(
      w.publicInputs.subTreeId,
      Felted(BE(w.publicInputs.leafIndex, 8)),
      BitsOf(v.remaining, 64),
      v.step,
      w.publicInputs.treeDepth,
      |w.leafPayload|,
      Selector(MAX_PAYLOAD + 1, |w.leafPayload|),
      Felted(w.leafPayload + Zeros(MAX_PAYLOAD - |w.leafPayload|)),
      Felted(v.prev), Felted(v.sibling), Felted(v.left), Felted(v.right), Felted(v.mid), Felted(v.current),
      v.direction,
      FromBool(v.hasNode),
      FromBool(v.step == 0),
      1,
      FromBool(v.step + 1 == RealRows(|w.merklePath|)))
  }

  /** The values of one row, from the node and index carried into it. */
  function StepValues(B: Blake, path: seq<Hash>, step: nat, prev: Hash, remaining: nat): (v: RealRowValues)
    requires step < RealRows(|path|)
    ensures v.direction < 2
  {
    var hasNode := |path| > 0;
    var sibling := if step < |path| then path[step] else ZERO_HASH;
    var direction := if hasNode then remaining % 2 else 0;
    var left := if direction == 0 then prev else sibling;
    var right := if direction == 0 then sibling else prev;
    var mid := if hasNode then B.compress(NodeFirstInput(B.iv, left, right)) else ZERO_HASH;
    var current := if hasNode then B.compress(NodeSecondInput(mid, right)) else prev;
    RealRowValues(step, remaining, direction, hasNode, prev, sibling, left, right, mid, current)
  }

  /** The node carried into row `step`. */
  function NodeAt(H: HashFn, w: CheckedWitness, step: nat): Hash
    requires step <= |w.merklePath|
  {
    Walk(NodeHash(H), w.leafHash, w.publicInputs.leafIndex, w.merklePath[..step])
  }

  function ValuesAt(H: HashFn, B: Blake, w: CheckedWitness, step: nat): (v: RealRowValues)
    requires step < RealRows(|w.merklePath|)
    ensures v.direction < 2 && v.step == step
  {
    StepValues(B, w.merklePath, step, NodeAt(H, w, step), Shift(w.publicInputs.leafIndex, step))
  }

  /** Row `step` of the built table. */
  function RowAt(H: HashFn, B: Blake, w: CheckedWitness, step: nat): Row
    requires step < RealRows(|w.merklePath|) < P && |w.leafPayload| <= MAX_PAYLOAD
  {
    FillRealRow(w, ValuesAt(H, B, w, step))
  }

  /** Each row hands the next node of the walk to the row after it. */
  lemma {:induction false} NodeAtStep(H: HashFn, B: Blake, w: CheckedWitness, step: nat)
    requires HashesChunks(H, B) && step < |w.merklePath|
    ensures ValuesAt(H, B, w, step).current == NodeAt(H, w, step + 1)
  {
    var v := ValuesAt(H, B, w, step);
    NodeIsTwoBlocks(H, B, v.left, v.right);
    WalkSnoc(NodeHash(H), w.leafHash, w.publicInputs.leafIndex, w.merklePath[..step], w.merklePath[step]);
    assert w.merklePath[..step + 1] == w.merklePath[..step] + [w.merklePath[step]];
  }

  // ----- Compressions -----

  datatype CompressionRow = CompressionRow(input: Input, output: Hash)

  function StepCompressions(iv: Hash, v: RealRowValues): seq<CompressionRow> {
    if v.hasNode then
      [CompressionRow(NodeFirstInput(iv, v.left, v.right), v.mid),
       CompressionRow(NodeSecondInput(v.mid, v.right), v.current)]
    else
      []
  }

  /** The node compressions of the first `n` rows. */
  function NodeCompressions(H: HashFn, B: Blake, w: CheckedWitness, n: nat): seq<CompressionRow>
    requires n <= RealRows(|w.merklePath|)
  {
    if n == 0 then [] else NodeCompressions(H, B, w, n - 1) + StepCompressions(B.iv, ValuesAt(H, B, w, n - 1))
  }

  function LeafCompression(B: Blake, w: CheckedWitness): CompressionRow
    requires |w.leafPayload| <= MAX_PAYLOAD
  {
    var input := LeafInput(B.iv, w.publicInputs.subTreeId, w.publicInputs.leafIndex, w.leafPayload);
    CompressionRow(input, B.compress(input))
  }

  /** Every compression one witness needs, in the order they are pushed. */
  function CompressionsOf(H: HashFn, B: Blake, w: CheckedWitness): seq<CompressionRow>
    requires |w.leafPayload| <= MAX_PAYLOAD
  {
    [LeafCompression(B, w)] + NodeCompressions(H, B, w, RealRows(|w.merklePath|))
  }

  /** The height is the least power of two that is at least 8 and holds the real rows. */
  lemma {:induction false} HeightMeaning(realRows: nat, k: nat)
    requires realRows > 0
    ensures exists e: nat :: TraceHeight(realRows) == Pow2(e)
    ensures Pow2(k) >= realRows && Pow2(k) >= 8 ==> TraceHeight(realRows) <= Pow2(k)
  {
    assert Pow2(3) == 8;
    assert TraceHeight(realRows) == Pow2(Depth(realRows)) || TraceHeight(realRows) == Pow2(3);
    if Pow2(k) >= realRows {
      DepthIsLeast(realRows, k);
      Pow2Monotone(Depth(realRows), k);
    }
  }

  /** `next_power_of_two().max(8)` */
  function TraceHeight(realRows: nat): (h: nat)
    requires realRows > 0
    ensures h >= realRows && h >= 8
  {
    var p := Pow2(Depth(realRows));
    if p < 8 then 8 else p
  }

  /** The real rows, first to last. */
  function RowsTo(H: HashFn, B: Blake, w: CheckedWitness, n: nat): (rows: seq<Row>)
    requires n <= RealRows(|w.merklePath|) < P && |w.leafPayload| <= MAX_PAYLOAD
    ensures |rows| == n
  {
    if n == 0 then [] else RowsTo(H, B, w, n - 1) + [RowAt(H, B, w, n - 1)]
  }

  lemma {:induction false} RowsToAt(H: HashFn, B: Blake, w: CheckedWitness, n: nat, i: nat)
    requires i < n <= RealRows(|w.merklePath|) < P && |w.leafPayload| <= MAX_PAYLOAD
    ensures RowsTo(H, B, w, n)[i] == RowAt(H, B, w, i)
  {
    if i < n - 1 { RowsToAt(H, B, w, n - 1, i); }
  }

  function PaddingRow(): Row { ZeroRow() }

  /** The table built for a checked witness: its real rows, then zero rows. */
  ghost predicate BuiltTable(H: HashFn, B: Blake, w: CheckedWitness, t: seq<Row>) {
    var n := RealRows(|w.merklePath|);
    && |w.leafPayload| <= MAX_PAYLOAD && n < P
    && t == Padded<Row>(RowsTo(H, B, w, n), PaddingRow(), TraceHeight(n))
  }

  /** What one iteration does, given what the loop carries. */
  lemma {:induction false} CarriedStep(H: HashFn, B: Blake, w: CheckedWitness, step: nat, prev: Hash, remaining: nat,
                                       v: RealRowValues)
    requires HashesChunks(H, B) && step < RealRows(|w.merklePath|) < P && |w.leafPayload| <= MAX_PAYLOAD
    requires prev == NodeAt(H, w, step) && remaining == Shift(w.publicInputs.leafIndex, step)
    requires v == StepValues(B, w.merklePath, step, prev, remaining)
    ensures RowsTo(H, B, w, step + 1) == RowsTo(H, B, w, step) + [FillRealRow(w, v)]
    ensures NodeCompressions(H, B, w, step + 1) == NodeCompressions(H, B, w, step) + StepCompressions(B.iv, v)
    ensures remaining / 2 == Shift(w.publicInputs.leafIndex, step + 1)
    ensures step < |w.merklePath| ==> v.current == NodeAt(H, w, step + 1)
  {
    ShiftMore(w.publicInputs.leafIndex, step);
    if step < |w.merklePath| { NodeAtStep(H, B, w, step); }
  }

  /** The loop of `build_membership_trace`: one real row per path step, carrying
      the current node and the remaining index. */
  method BuildRealRows(B: Blake, w: CheckedWitness, compressions: seq<CompressionRow>, ghost H: HashFn)
      returns (rows: seq<Row>, extended: seq<CompressionRow>)
    requires HashesChunks(H, B) && Checked(H, w)
    ensures rows == RowsTo(H, B, w, RealRows(|w.merklePath|))
    ensures extended == compressions + NodeCompressions(H, B, w, RealRows(|w.merklePath|))
  {
    rows, extended := [], compressions;
    var prev := w.leafHash;
    var remaining: nat := w.publicInputs.leafIndex;
    for step := 0 to RealRows(|w.merklePath|)
      invariant step <= |w.merklePath| ==> prev == NodeAt(H, w, step)
      invariant remaining == Shift(w.publicInputs.leafIndex, step)
      invariant rows == RowsTo(H, B, w, step)
      invariant extended == compressions + NodeCompressions(H, B, w, step)
    {
      var v := StepValues(B, w.merklePath, step, prev, remaining);
      CarriedStep(H, B, w, step, prev, remaining, v);
      var pushed := StepCompressions(B.iv, v);
      Concat3(compressions, NodeCompressions(H, B, w, step), pushed);
      extended := extended + pushed;
      rows := rows + [FillRealRow(w, v)];
      prev, remaining := v.current, remaining / 2;
    }
  }

  /** `build_membership_trace` */
  method BuildMembershipTrace(B: Blake, w: CheckedWitness, compressions: seq<CompressionRow>, ghost H: HashFn)
      returns (trace: seq<Row>, extended: seq<CompressionRow>)
    requires HashesChunks(H, B) && Checked(H, w)
    ensures BuiltTable(H, B, w, trace)
    ensures extended == compressions + CompressionsOf(H, B, w)
  {
    var rows: seq<Row>;
    var leaf := LeafCompression(B, w);
    var n := RealRows(|w.merklePath|);
    rows, extended := BuildRealRows(B, w, compressions + [leaf], H);
    Concat3(compressions, [leaf], NodeCompressions(H, B, w, n));
    trace := PadTo<Row>(rows, PaddingRow(), TraceHeight(n));
  }

  // ----- The Blake3 trace -----

  /** Bytes as bit columns, each byte least significant bit first. */
  function ByteBits(b: ByteString): (bits: Felts)
    ensures |bits| == 8 * |b| && AllBits(bits)
  {
    if b == [] then [] else BitsOf(b[0], 8) + ByteBits(b[1..])
  }

  /** The columns of a compression that the lookup reads. */
  function BlakeColumns(c: CompressionRow): BlakeRow {
    RawBlakeRow(ByteBits(c.input.block), ByteBits(c.input.cv), ByteBits(c.input.counter),
                ByteBits(c.input.blockLen), ByteBits(c.input.flags), ByteBits(c.output))
  }

  /** `fill_trace_row`: the output is computed anew, the one in the record is not read. */
  function FillBlakeRow(B: Blake, c: CompressionRow): BlakeRow {
    BlakeColumns(CompressionRow(c.input, B.compress(c.input)))
  }

  function Filler(B: Blake): CompressionRow -> BlakeRow { c => FillBlakeRow(B, c) }

  function FilledRows(B: Blake, cs: seq<CompressionRow>): seq<BlakeRow> {
    Filled<CompressionRow, BlakeRow>(Filler(B), cs)
  }

  function ZeroBlakeRow(): BlakeRow {
    RawBlakeRow(Zeros(512), Zeros(256), Zeros(64), Zeros(32), Zeros(32), Zeros(256))
  }

  function DummyCompression(B: Blake): CompressionRow {
    var input := MakeInput(Zeros(64), B.iv, 0, DUMMY_FLAGS);
    CompressionRow(input, B.compress(input))
  }

  /** A dummy row compresses an empty block of zeros under the initial value, with no flag set. */
  lemma {:induction false} DummyMeaning(B: Blake)
    ensures var i := DummyCompression(B).input;
            && i.block == Zeros(64) && i.cv == B.iv && i.counter == Zeros(8) && i.blockLen == [0, 0, 0, 0]
            && i.flags == [0, 0, 0, 0] && DummyCompression(B).output == B.compress(i)
  {
  }

  /** The Blake3 table of a list of compressions: one row each, then dummy rows up to a
      power of two.  Row 0 of an empty batch is left unfilled. */
  ghost predicate BuiltBlake(B: Blake, cs: seq<CompressionRow>, rows: seq<BlakeRow>) {
    if cs == [] then rows == [ZeroBlakeRow()]
    else rows == Padded<BlakeRow>(FilledRows(B, cs), FillBlakeRow(B, DummyCompression(B)), Pow2(Depth(|cs|)))
  }
}
