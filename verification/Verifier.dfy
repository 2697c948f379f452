/** The claim verifier, the public values it shares with the prover, and what an
    accepted proof says about the published commitment. */
module Verifier {
  import opened Bytes
  import opened BabyBear
  import opened MerkleBinding
  import opened Claims
  import opened Compression
  import opened Circuit
  import opened CircuitSoundness
  import opened TraceBuilder
  import opened LookupBalance
  import opened CircuitExact

  // ----- The binding digest -----

  const DOMAIN_PROOF_BINDING: ByteString :=
    [111, 109, 101, 103, 97, 58, 112, 114, 111, 111, 102, 58, 118, 50, 58, 98, 105, 110, 100, 105, 110, 103]

  /** Big-endian numbers of one width, one after the other. */
  function Words(xs: seq<nat>, width: nat): (b: ByteString)
    ensures |b| == width * |xs|
  {
    if xs == [] then [] else BE(xs[0], width) + Words(xs[1..], width)
  }

  function HeaderBytes(c: OmegaCommitment): (b: ByteString)
    ensures |b| == 418
  {
    DOMAIN_PROOF_BINDING + c.bundleRoot + Concat(c.subTreeRoots) + Words(c.itemCounts, 8) + Words(c.leafCounts, 8)
    + Words(c.treeDepths, 4)
  }

  function EntryBytes(p: ClaimPublicInputs): (b: ByteString)
    ensures |b| == 138
  {
    [p.subTreeId] + BE(p.leafIndex, 8) + [p.treeDepth] + p.perSubTreeRoot + p.bundleRoot + p.nullifier + p.recipient
  }

  function EntriesBytes(ps: seq<ClaimPublicInputs>): (b: ByteString)
    ensures |b| == 138 * |ps|
  {
    if ps == [] then [] else EntryBytes(ps[0]) + EntriesBytes(ps[1..])
  }

  /** What `proof_binding_digest` hashes. */
  function BindingPreimage(c: OmegaCommitment, ps: seq<ClaimPublicInputs>): ByteString {
    HeaderBytes(c) + BE(|ps|, 8) + EntriesBytes(ps)
  }

  function BindingDigest(H: HashFn, c: OmegaCommitment, ps: seq<ClaimPublicInputs>): Hash {
    H(BindingPreimage(c, ps))
  }

  lemma {:induction false} WordsAt(xs: seq<nat>, width: nat, i: nat)
    requires i < |xs|
    ensures width * i + width <= width * |xs| && At(Words(xs, width), width * i, BE(xs[i], width))
  {
    if i > 0 {
      WordsAt(xs[1..], width, i - 1);
      var all, rest := Words(xs, width), Words(xs[1..], width);
      assert all[width..] == rest;
      assert width * i == width + width * (i - 1);
      assert all[width * i..width * i + width] == rest[width * (i - 1)..width * (i - 1) + width];
    }
  }

  lemma {:induction false} HeaderPieces(b: ByteString, tag: ByteString, root: ByteString, roots: ByteString,
                                        items: ByteString, leaves: ByteString, depths: ByteString)
    requires |tag| == 22 && |root| == 32 && |roots| == 224 && |items| == 56 && |leaves| == 56
    requires b == tag + root + roots + items + leaves + depths
    ensures At(b, 0, tag) && At(b, 22, root) && At(b, 54, roots)
    ensures At(b, 278, items) && At(b, 334, leaves) && At(b, 390, depths)
  {
    assert b[0..] == tag + (root + (roots + (items + (leaves + depths))));
    AtNext(b, 0, tag, root + (roots + (items + (leaves + depths))));
    AtNext(b, 22, root, roots + (items + (leaves + depths)));
    AtNext(b, 54, roots, items + (leaves + depths));
    AtNext(b, 278, items, leaves + depths);
    AtNext(b, 334, leaves, depths);
  }

  lemma {:induction false} HeaderParts(c: OmegaCommitment, b: ByteString)
    requires b == HeaderBytes(c)
    ensures At(b, 0, Ascii("omega:proof:v2:binding")) && At(b, 22, c.bundleRoot) && At(b, 54, Concat(c.subTreeRoots))
    ensures At(b, 278, Words(c.itemCounts, 8)) && At(b, 334, Words(c.leafCounts, 8))
    ensures At(b, 390, Words(c.treeDepths, 4))
  {
    assert DOMAIN_PROOF_BINDING == Ascii("omega:proof:v2:binding");
    HeaderPieces(b, DOMAIN_PROOF_BINDING, c.bundleRoot, Concat(c.subTreeRoots), Words(c.itemCounts, 8),
                 Words(c.leafCounts, 8), Words(c.treeDepths, 4));
  }

  /** The tag, the bundle root and then, seven of each, the roots, the item counts, the leaf
      counts and the depths, at their offsets. */
  lemma {:induction false} HeaderLayout(c: OmegaCommitment, b: ByteString, i: nat)
    requires b == HeaderBytes(c) && i < SUB_TREE_COUNT
    ensures At(b, 0, Ascii("omega:proof:v2:binding")) && At(b, 22, c.bundleRoot)
    ensures At(b, 54 + 32 * i, c.subTreeRoots[i]) && At(b, 278 + 8 * i, BE(c.itemCounts[i], 8))
    ensures At(b, 334 + 8 * i, BE(c.leafCounts[i], 8)) && At(b, 390 + 4 * i, BE(c.treeDepths[i], 4))
  {
    HeaderParts(c, b);
    ConcatAt(c.subTreeRoots, i);
    WordsAt(c.itemCounts, 8, i);
    WordsAt(c.leafCounts, 8, i);
    WordsAt(c.treeDepths, 4, i);
    AtWithin(b, 54, Concat(c.subTreeRoots), 32 * i, c.subTreeRoots[i]);
    AtWithin(b, 278, Words(c.itemCounts, 8), 8 * i, BE(c.itemCounts[i], 8));
    AtWithin(b, 334, Words(c.leafCounts, 8), 8 * i, BE(c.leafCounts[i], 8));
    AtWithin(b, 390, Words(c.treeDepths, 4), 4 * i, BE(c.treeDepths[i], 4));
  }

  lemma {:induction false} EntryPieces(b: ByteString, tree: ByteString, index: ByteString, depth: ByteString,
                                       root: Hash, bundle: Hash, nullifier: Hash, recipient: Hash)
    requires |tree| == |depth| == 1 && |index| == 8
    requires b == tree + index + depth + root + bundle + nullifier + recipient
    ensures At(b, 0, tree) && At(b, 1, index) && At(b, 9, depth) && At(b, 10, root)
    ensures At(b, 42, bundle) && At(b, 74, nullifier) && At(b, 106, recipient)
  {
    assert b[0..] == tree + (index + (depth + (root + (bundle + (nullifier + recipient)))));
    AtNext(b, 0, tree, index + (depth + (root + (bundle + (nullifier + recipient)))));
    AtNext(b, 1, index, depth + (root + (bundle + (nullifier + recipient))));
    AtNext(b, 9, depth, root + (bundle + (nullifier + recipient)));
    AtNext(b, 10, root, bundle + (nullifier + recipient));
    AtNext(b, 42, bundle, nullifier + recipient);
    AtNext(b, 74, nullifier, recipient);
  }

  lemma {:induction false} EntryLayout(p: ClaimPublicInputs, b: ByteString)
    requires b == EntryBytes(p)
    ensures At(b, 0, [p.subTreeId]) && At(b, 1, BE(p.leafIndex, 8)) && At(b, 9, [p.treeDepth])
    ensures At(b, 10, p.perSubTreeRoot) && At(b, 42, p.bundleRoot) && At(b, 74, p.nullifier) && At(b, 106, p.recipient)
  {
    EntryPieces(b, [p.subTreeId], BE(p.leafIndex, 8), [p.treeDepth], p.perSubTreeRoot, p.bundleRoot, p.nullifier,
                p.recipient);
  }

  lemma {:induction false} EntriesAt(ps: seq<ClaimPublicInputs>, i: nat)
    requires i < |ps|
    ensures At(EntriesBytes(ps), 138 * i, EntryBytes(ps[i]))
  {
    if i > 0 {
      EntriesAt(ps[1..], i - 1);
      var all, rest := EntriesBytes(ps), EntriesBytes(ps[1..]);
      assert all[138..] == rest;
      assert all[138 * i..138 * i + 138] == rest[138 * (i - 1)..138 * (i - 1) + 138];
    }
  }

  /** The header, the number of inputs, and 138 bytes for each of them. */
  lemma {:induction false} BindingLayout(c: OmegaCommitment, ps: seq<ClaimPublicInputs>, b: ByteString, i: nat)
    requires b == BindingPreimage(c, ps)
    ensures |b| == 426 + 138 * |ps| && At(b, 0, HeaderBytes(c)) && At(b, 418, BE(|ps|, 8))
    ensures i < |ps| ==> At(b, 426 + 138 * i, EntryBytes(ps[i]))
  {
    assert At(b, 426, EntriesBytes(ps));
    if i < |ps| {
      EntriesAt(ps, i);
      AtWithin(b, 426, EntriesBytes(ps), 138 * i, EntryBytes(ps[i]));
    }
  }

  lemma {:induction false} WordsInjective(xs: seq<nat>, ys: seq<nat>, width: nat)
    requires |xs| == |ys| && Words(xs, width) == Words(ys, width)
    requires forall i :: 0 <= i < |xs| ==> xs[i] < Pow256(width) && ys[i] < Pow256(width)
    ensures xs == ys
  {
    if xs != [] {
      SplitEqual(BE(xs[0], width), Words(xs[1..], width), BE(ys[0], width), Words(ys[1..], width));
      BEInjective(xs[0], ys[0], width);
      WordsInjective(xs[1..], ys[1..], width);
      assert xs == [xs[0]] + xs[1..] && ys == [ys[0]] + ys[1..];
    }
  }

  lemma {:induction false} ConcatInjective(a: seq<Hash>, b: seq<Hash>)
    requires |a| == |b| && Concat(a) == Concat(b)
    ensures a == b
  {
    if a != [] {
      SplitEqual(a[0], Concat(a[1..]), b[0], Concat(b[1..]));
      ConcatInjective(a[1..], b[1..]);
      assert a == [a[0]] + a[1..] && b == [b[0]] + b[1..];
    }
  }

  lemma {:induction false} HeaderInjective(c: OmegaCommitment, d: OmegaCommitment)
    requires HeaderBytes(c) == HeaderBytes(d)
    ensures c == d
  {
    var c1, d1 := DOMAIN_PROOF_BINDING + c.bundleRoot, DOMAIN_PROOF_BINDING + d.bundleRoot;
    var c2, d2 := c1 + Concat(c.subTreeRoots), d1 + Concat(d.subTreeRoots);
    var c3, d3 := c2 + Words(c.itemCounts, 8), d2 + Words(d.itemCounts, 8);
    var c4, d4 := c3 + Words(c.leafCounts, 8), d3 + Words(d.leafCounts, 8);
    SplitEqual(c4, Words(c.treeDepths, 4), d4, Words(d.treeDepths, 4));
    SplitEqual(c3, Words(c.leafCounts, 8), d3, Words(d.leafCounts, 8));
    SplitEqual(c2, Words(c.itemCounts, 8), d2, Words(d.itemCounts, 8));
    SplitEqual(c1, Concat(c.subTreeRoots), d1, Concat(d.subTreeRoots));
    SplitEqual(DOMAIN_PROOF_BINDING, c.bundleRoot, DOMAIN_PROOF_BINDING, d.bundleRoot);
    Pow256Widths();
    WordsInjective(c.treeDepths, d.treeDepths, 4);
    WordsInjective(c.leafCounts, d.leafCounts, 8);
    WordsInjective(c.itemCounts, d.itemCounts, 8);
    ConcatInjective(c.subTreeRoots, d.subTreeRoots);
  }

  lemma {:induction false} EntryInjective(p: ClaimPublicInputs, q: ClaimPublicInputs)
    requires EntryBytes(p) == EntryBytes(q)
    ensures p == q
  {
    var p1, q1 := [p.subTreeId] + BE(p.leafIndex, 8), [q.subTreeId] + BE(q.leafIndex, 8);
    var p2, q2 := p1 + [p.treeDepth], q1 + [q.treeDepth];
    var p3, q3 := p2 + p.perSubTreeRoot, q2 + q.perSubTreeRoot;
    var p4, q4 := p3 + p.bundleRoot, q3 + q.bundleRoot;
    SplitEqual(p4 + p.nullifier, p.recipient, q4 + q.nullifier, q.recipient);
    SplitEqual(p4, p.nullifier, q4, q.nullifier);
    SplitEqual(p3, p.bundleRoot, q3, q.bundleRoot);
    SplitEqual(p2, p.perSubTreeRoot, q2, q.perSubTreeRoot);
    SplitEqual(p1, [p.treeDepth], q1, [q.treeDepth]);
    SplitEqual([p.subTreeId], BE(p.leafIndex, 8), [q.subTreeId], BE(q.leafIndex, 8));
    Pow256Widths();
    BEInjective(p.leafIndex, q.leafIndex, 8);
  }

  lemma {:induction false} EntriesInjective(ps: seq<ClaimPublicInputs>, qs: seq<ClaimPublicInputs>)
    requires EntriesBytes(ps) == EntriesBytes(qs)
    ensures ps == qs
  {
    assert |ps| == |qs|;
    if ps != [] {
      SplitEqual(EntryBytes(ps[0]), EntriesBytes(ps[1..]), EntryBytes(qs[0]), EntriesBytes(qs[1..]));
      EntryInjective(ps[0], qs[0]);
      EntriesInjective(ps[1..], qs[1..]);
      assert ps == [ps[0]] + ps[1..] && qs == [qs[0]] + qs[1..];
    }
  }

  /** The binding preimage determines the commitment and the whole list of public inputs. */
  lemma {:induction false} BindingInjective(c: OmegaCommitment, ps: seq<ClaimPublicInputs>, d: OmegaCommitment,
                                            qs: seq<ClaimPublicInputs>)
    requires BindingPreimage(c, ps) == BindingPreimage(d, qs)
    ensures c == d && ps == qs
  {
    SplitEqual(HeaderBytes(c) + BE(|ps|, 8), EntriesBytes(ps), HeaderBytes(d) + BE(|qs|, 8), EntriesBytes(qs));
    SplitEqual(HeaderBytes(c), BE(|ps|, 8), HeaderBytes(d), BE(|qs|, 8));
    HeaderInjective(c, d);
    EntriesInjective(ps, qs);
  }

  /** Equal binding digests mean equal statements, or two distinct preimages of one digest. */
  lemma {:induction false} DigestBinding(H: HashFn, c: OmegaCommitment, ps: seq<ClaimPublicInputs>, d: OmegaCommitment,
                                         qs: seq<ClaimPublicInputs>)
    requires BindingDigest(H, c, ps) == BindingDigest(H, d, qs)
    ensures (c == d && ps == qs) || Collision(H, {BindingPreimage(c, ps)}, {BindingPreimage(d, qs)})
  {
    if BindingPreimage(c, ps) == BindingPreimage(d, qs) { BindingInjective(c, ps, d, qs); }
  }

  // ----- Public values -----

  const PUBLIC_SUB_TREE_ID: nat := 0
  const PUBLIC_LEAF_INDEX: nat := 1
  const PUBLIC_TREE_DEPTH: nat := 9
  const PUBLIC_ROOT: nat := 10
  const PROOF_BINDING_WORD: nat := 42
  const PROOF_PUBLIC_VALUE_COUNT: nat := 74

  type Values = seq<U32>

  function ValuesFor(p: ClaimPublicInputs, digest: Hash): (v: Values)
    ensures |v| == PROOF_PUBLIC_VALUE_COUNT
  {
    [p.subTreeId] + BE(p.leafIndex, 8) + [p.treeDepth] + p.perSubTreeRoot + digest
  }

  /** `proof_public_values` */
  function ProofPublicValues(ps: seq<ClaimPublicInputs>, digest: Hash): (vs: seq<Values>)
    ensures |vs| == |ps| && forall k :: 0 <= k < |ps| ==> vs[k] == ValuesFor(ps[k], digest)
  {
    if ps == [] then [] else [ValuesFor(ps[0], digest)] + ProofPublicValues(ps[1..], digest)
  }

  /** The comparisons of `validate_envelope_public_values` for one claim. */
  predicate ValuesMatch(v: Values, p: ClaimPublicInputs, digest: Hash) {
    && |v| == PROOF_PUBLIC_VALUE_COUNT
    && v[PUBLIC_SUB_TREE_ID] == p.subTreeId
    && (forall i :: 0 <= i < 8 ==> v[PUBLIC_LEAF_INDEX + i] == BE(p.leafIndex, 8)[i])
    && v[PUBLIC_TREE_DEPTH] == p.treeDepth
    && (forall i :: 0 <= i < 32 ==> v[PUBLIC_ROOT + i] == p.perSubTreeRoot[i])
    && v[PROOF_BINDING_WORD..] == digest
  }

  /** `validate_envelope_public_values` */
  predicate EnvelopeValuesMatch(ps: seq<ClaimPublicInputs>, digest: Hash, vs: seq<Values>) {
    |vs| == |ps| && forall k :: 0 <= k < |ps| ==> ValuesMatch(vs[k], ps[k], digest)
  }

  lemma {:induction false} ValuesMatchMeaning(v: Values, p: ClaimPublicInputs, digest: Hash)
    ensures ValuesMatch(v, p, digest) <==> v == ValuesFor(p, digest)
  {
    var w := ValuesFor(p, digest);
    assert w[PUBLIC_ROOT..PROOF_BINDING_WORD] == p.perSubTreeRoot && w[PROOF_BINDING_WORD..] == digest;
    assert w[PUBLIC_LEAF_INDEX..PUBLIC_TREE_DEPTH] == BE(p.leafIndex, 8);
    if ValuesMatch(v, p, digest) {
      forall i | 0 <= i < |v|
        ensures v[i] == w[i]
      {
        if PUBLIC_LEAF_INDEX <= i < PUBLIC_TREE_DEPTH {
          assert v[PUBLIC_LEAF_INDEX + (i - PUBLIC_LEAF_INDEX)] == BE(p.leafIndex, 8)[i - PUBLIC_LEAF_INDEX];
        } else if PUBLIC_ROOT <= i < PROOF_BINDING_WORD {
          assert v[PUBLIC_ROOT + (i - PUBLIC_ROOT)] == p.perSubTreeRoot[i - PUBLIC_ROOT];
        } else if PROOF_BINDING_WORD <= i {
          assert v[i] == v[PROOF_BINDING_WORD..][i - PROOF_BINDING_WORD];
        }
      }
    }
  }

  /** The verifier's comparisons accept exactly the values the prover writes. */
  lemma {:induction false} EnvelopeValuesMeaning(ps: seq<ClaimPublicInputs>, digest: Hash, vs: seq<Values>)
    ensures EnvelopeValuesMatch(ps, digest, vs) <==> vs == ProofPublicValues(ps, digest)
  {
    if |vs| == |ps| {
      forall k | 0 <= k < |ps|
        ensures ValuesMatch(vs[k], ps[k], digest) <==> vs[k] == ProofPublicValues(ps, digest)[k]
      {
        ValuesMatchMeaning(vs[k], ps[k], digest);
      }
    }
  }

  /** `Val::from_u32` on every value. */
  function ToField(v: Values): (f: Felts)
    ensures |f| == |v| && forall i :: 0 <= i < |v| ==> f[i] == v[i] % P
  {
    if v == [] then [] else [v[0] % P] + ToField(v[1..])
  }

  /** The public values the membership AIR reads. */
  function ReadPublics(f: Felts): Publics
    requires |f| == PROOF_PUBLIC_VALUE_COUNT
  {
    RawPublics(f[PUBLIC_SUB_TREE_ID], f[PUBLIC_LEAF_INDEX..PUBLIC_TREE_DEPTH], f[PUBLIC_TREE_DEPTH],
               f[PUBLIC_ROOT..PROOF_BINDING_WORD])
  }

  lemma {:induction false} ValuesReadBack(p: ClaimPublicInputs, digest: Hash)
    ensures ReadPublics(ToField(ValuesFor(p, digest))) == PublicsOf(ClaimOf(p))
  {
    var v := ValuesFor(p, digest);
    var f := ToField(v);
    assert v[PUBLIC_ROOT..PROOF_BINDING_WORD] == p.perSubTreeRoot;
    assert v[PUBLIC_LEAF_INDEX..PUBLIC_TREE_DEPTH] == BE(p.leafIndex, 8);
    assert forall i :: 0 <= i < |v| ==> v[i] < 256;
    assert forall i :: 0 <= i < |v| ==> f[i] == v[i];
    assert f[PUBLIC_ROOT..PROOF_BINDING_WORD] == Felted(p.perSubTreeRoot);
    assert f[PUBLIC_LEAF_INDEX..PUBLIC_TREE_DEPTH] == Felted(BE(p.leafIndex, 8));
  }

  // ----- Checking public inputs -----

  datatype VerifyError =
    | UnsupportedVersion(version: Byte)
    | CommitmentMismatch
    | PublicInputMismatch
    | UnknownSubTree(index: nat, subTreeId: Byte)
    | PublicBundleRootMismatch(index: nat)
    | WrongSubTreeRoot(index: nat)
    | DepthMismatch(index: nat, expected: Byte, actual: Byte)
    | InvalidProof

  /** The body of the loop in `validate_public_inputs`: the error of entry `index`, if any. */
  function InputError(c: OmegaCommitment, p: ClaimPublicInputs, index: nat): Option<VerifyError> {
    if p.bundleRoot != c.bundleRoot then Some(VerifyError.PublicBundleRootMismatch(index))
    else
      match SubTreeIndex(p.subTreeId)
      case None => Some(VerifyError.UnknownSubTree(index, p.subTreeId))
      case Some(i) =>
        if p.perSubTreeRoot != c.subTreeRoots[i] then Some(WrongSubTreeRoot(index))
        else if c.treeDepths[i] > 255 then Some(InvalidProof)
        else if p.treeDepth != c.treeDepths[i] then Some(DepthMismatch(index, c.treeDepths[i], p.treeDepth))
        else None
  }

  /** `validate_public_inputs`, from entry `index` on. */
  function ValidatePublicInputs(c: OmegaCommitment, ps: seq<ClaimPublicInputs>, index: nat): (e: Option<VerifyError>)
    requires index <= |ps|
    decreases |ps| - index
  {
    if index == |ps| then None
    else if InputError(c, ps[index], index).Some? then InputError(c, ps[index], index)
    else ValidatePublicInputs(c, ps, index + 1)
  }

  /** The public input agrees with the commitment's records for its sub-tree. */
  ghost predicate Agrees(c: OmegaCommitment, p: ClaimPublicInputs) {
    && p.bundleRoot == c.bundleRoot
    && 1 <= p.subTreeId <= SUB_TREE_COUNT
    && p.perSubTreeRoot == c.subTreeRoots[p.subTreeId - 1]
    && p.treeDepth == c.treeDepths[p.subTreeId - 1]
  }

  /** Validation passes exactly when every entry agrees, and otherwise reports the first that does not. */
  lemma {:induction false} ValidateMeaning(c: OmegaCommitment, ps: seq<ClaimPublicInputs>, index: nat)
    requires index <= |ps|
    ensures ValidatePublicInputs(c, ps, index).None? <==> forall k :: index <= k < |ps| ==> Agrees(c, ps[k])
    ensures ValidatePublicInputs(c, ps, index).Some? ==>
              exists k :: index <= k < |ps| && !Agrees(c, ps[k]) && (forall j :: index <= j < k ==> Agrees(c, ps[j]))
                       && ValidatePublicInputs(c, ps, index) == InputError(c, ps[k], k)
    decreases |ps| - index
  {
    if index < |ps| {
      assert InputError(c, ps[index], index).None? <==> Agrees(c, ps[index]);
      if InputError(c, ps[index], index).None? { ValidateMeaning(c, ps, index + 1); }
    }
  }

  // ----- Verification -----

  datatype ProofEnvelope = ProofEnvelope(
    version: Byte, seed: U64, commitment: OmegaCommitment, publicInputs: seq<ClaimPublicInputs>,
    publicValues: seq<Values>, starkProof: ByteString)

  const PROOF_ENVELOPE_VERSION: Byte := 2

  /** The code outside this repository: the envelope codec and the STARK verifier. */
  datatype Stark = Stark(
    decode: ByteString -> Option<ProofEnvelope>,
    degreeCount: ByteString -> Option<nat>,
    accepts: (U64, ByteString, seq<Felts>) -> bool)

  function FieldValues(vs: seq<Values>): (f: seq<Felts>)
    ensures |f| == |vs| && forall k :: 0 <= k < |vs| ==> f[k] == ToField(vs[k])
  {
    if vs == [] then [] else [ToField(vs[0])] + FieldValues(vs[1..])
  }

  /** `verify_membership_batch`: one AIR per claim and one for Blake3. */
  predicate VerifyMembershipBatch(S: Stark, e: ProofEnvelope) {
    && S.degreeCount(e.starkProof) == Some(|e.publicInputs| + 1)
    && S.accepts(e.seed, e.starkProof, FieldValues(e.publicValues) + [[]])
  }

  /** `verify` */
  function Verify(H: HashFn, S: Stark, c: OmegaCommitment, ps: seq<ClaimPublicInputs>, proof: ByteString)
    : Result<(), VerifyError>
  {
    match S.decode(proof)
    case None => Err(InvalidProof)
    case Some(e) =>
      if e.version != PROOF_ENVELOPE_VERSION then Err(UnsupportedVersion(e.version))
      else if e.commitment != c then Err(CommitmentMismatch)
      else if e.publicInputs != ps then Err(PublicInputMismatch)
      else
        match ValidatePublicInputs(c, ps, 0)
        case Some(error) => Err(error)
        case None =>
          if !EnvelopeValuesMatch(ps, BindingDigest(H, c, ps), e.publicValues) then Err(InvalidProof)
          else if !VerifyMembershipBatch(S, e) then Err(InvalidProof)
          else Ok(())
  }

  /** A satisfying assignment for a batch of public values, over tables smaller than the field. */
  ghost predicate Assignment(B: Blake, values: seq<Felts>, ts: seq<seq<Row>>, rows: seq<BlakeRow>) {
    && |values| == |ts| + 1 && values[|ts|] == []
    && (forall k :: 0 <= k < |ts| ==>
          |values[k]| == PROOF_PUBLIC_VALUE_COUNT && Satisfies(ts[k], ReadPublics(values[k])) && |ts[k]| < P)
    && rows != [] && AllValid(B, rows)
    && Balanced(AllReceives(B.iv, ts), Sends(rows))
  }

  ghost predicate HasAssignment(B: Blake, values: seq<Felts>) {
    exists ts: seq<seq<Row>>, rows: seq<BlakeRow> :: Assignment(B, values, ts, rows)
  }

  /** The STARK accepts only public values with a satisfying assignment. */
  ghost predicate StarkSound(B: Blake, S: Stark) {
    forall seed: U64, proof: ByteString, values: seq<Felts> ::
      S.accepts(seed, proof, values) ==> HasAssignment(B, values)
  }

  /** What an accepted envelope has to be: the one an honest prover would write. */
  ghost predicate Acceptable(H: HashFn, S: Stark, c: OmegaCommitment, ps: seq<ClaimPublicInputs>, e: ProofEnvelope) {
    && e.version == PROOF_ENVELOPE_VERSION && e.commitment == c && e.publicInputs == ps
    && (forall k :: 0 <= k < |ps| ==> Agrees(c, ps[k]))
    && e.publicValues == ProofPublicValues(ps, BindingDigest(H, c, ps))
    && VerifyMembershipBatch(S, e)
  }

  lemma {:induction false} VerifyMeaning(H: HashFn, S: Stark, c: OmegaCommitment, ps: seq<ClaimPublicInputs>,
                                         proof: ByteString)
    ensures Verify(H, S, c, ps, proof).Ok? <==> S.decode(proof).Some? && Acceptable(H, S, c, ps, S.decode(proof).value)
  {
    ValidateMeaning(c, ps, 0);
    if S.decode(proof).Some? {
      EnvelopeValuesMeaning(ps, BindingDigest(H, c, ps), S.decode(proof).value.publicValues);
    }
  }

  /** The first entry that does not agree, and what is wrong with it. */
  ghost predicate InputFails(c: OmegaCommitment, ps: seq<ClaimPublicInputs>, k: nat, e: VerifyError)
    requires k < |ps|
  {
    var p := ps[k];
    && (forall j :: 0 <= j < k ==> Agrees(c, ps[j]))
    && if p.bundleRoot != c.bundleRoot then e == VerifyError.PublicBundleRootMismatch(k)
       else if p.subTreeId == 0 || p.subTreeId > 7 then e == VerifyError.UnknownSubTree(k, p.subTreeId)
       else if p.perSubTreeRoot != c.subTreeRoots[p.subTreeId - 1] then e == WrongSubTreeRoot(k)
       else if c.treeDepths[p.subTreeId - 1] > 255 then e == InvalidProof
       else p.treeDepth != c.treeDepths[p.subTreeId - 1]
            && e == DepthMismatch(k, c.treeDepths[p.subTreeId - 1], p.treeDepth)
  }

  /** The checks of `verify` in order, and the error of the first that fails. */
  ghost predicate VerifyFails(H: HashFn, S: Stark, c: OmegaCommitment, ps: seq<ClaimPublicInputs>, proof: ByteString,
                              e: VerifyError) {
    match S.decode(proof)
    case None => e == InvalidProof
    case Some(envelope) =>
      if envelope.version != 2 then e == UnsupportedVersion(envelope.version)
      else if envelope.commitment != c then e == CommitmentMismatch
      else if envelope.publicInputs != ps then e == PublicInputMismatch
      else if exists k :: 0 <= k < |ps| && !Agrees(c, ps[k]) then exists k :: 0 <= k < |ps| && InputFails(c, ps, k, e)
      else e == InvalidProof && !Acceptable(H, S, c, ps, envelope)
  }

  lemma {:induction false} InputErrorIff(c: OmegaCommitment, ps: seq<ClaimPublicInputs>, k: nat, e: VerifyError)
    requires k < |ps| && forall j :: 0 <= j < k ==> Agrees(c, ps[j])
    ensures InputError(c, ps[k], k) == Some(e) <==> InputFails(c, ps, k, e)
  {
  }

  lemma {:induction false} FailsDisagrees(c: OmegaCommitment, ps: seq<ClaimPublicInputs>, k: nat, e: VerifyError)
    requires k < |ps| && InputFails(c, ps, k, e)
    ensures !Agrees(c, ps[k])
  {
  }

  lemma {:induction false} ValidateErrorIff(c: OmegaCommitment, ps: seq<ClaimPublicInputs>, e: VerifyError)
    ensures ValidatePublicInputs(c, ps, 0) == Some(e) <==> exists k :: 0 <= k < |ps| && InputFails(c, ps, k, e)
  {
    ValidateMeaning(c, ps, 0);
    var first := ValidatePublicInputs(c, ps, 0);
    if first.Some? {
      var k :| 0 <= k < |ps| && !Agrees(c, ps[k]) && (forall j :: 0 <= j < k ==> Agrees(c, ps[j]))
            && first == InputError(c, ps[k], k);
      InputErrorIff(c, ps, k, first.value);
      InputErrorIff(c, ps, k, e);
      if i :| 0 <= i < |ps| && InputFails(c, ps, i, e) {
        FailsDisagrees(c, ps, i, e);
        assert i == k;
      }
    } else if i :| 0 <= i < |ps| && InputFails(c, ps, i, e) {
      FailsDisagrees(c, ps, i, e);
      assert false;
    }
  }

  /** `verify` fails with exactly the error of the first check that fails. */
  lemma {:induction false} VerifyErrorIff(H: HashFn, S: Stark, c: OmegaCommitment, ps: seq<ClaimPublicInputs>,
                                          proof: ByteString, e: VerifyError)
    ensures Verify(H, S, c, ps, proof) == Err(e) <==> VerifyFails(H, S, c, ps, proof, e)
  {
    ValidateMeaning(c, ps, 0);
    ValidateErrorIff(c, ps, e);
    VerifyMeaning(H, S, c, ps, proof);
  }

  function ClaimsOf(ps: seq<ClaimPublicInputs>): (cs: seq<Claim>)
    ensures |cs| == |ps| && forall k :: 0 <= k < |ps| ==> cs[k] == ClaimOf(ps[k])
  {
    if ps == [] then [] else [ClaimOf(ps[0])] + ClaimsOf(ps[1..])
  }

  /** The field values handed to the STARK: one list per claim and an empty one for Blake3. */
  function StarkValues(ps: seq<ClaimPublicInputs>, digest: Hash): (f: seq<Felts>)
    ensures |f| == |ps| + 1 && f[|ps|] == []
    ensures forall k :: 0 <= k < |ps| ==> f[k] == ToField(ValuesFor(ps[k], digest))
  {
    FieldValues(ProofPublicValues(ps, digest)) + [[]]
  }

  lemma {:induction false} ValueShape(p: ClaimPublicInputs, digest: Hash, f: Felts)
    requires f == ToField(ValuesFor(p, digest))
    ensures |f| == PROOF_PUBLIC_VALUE_COUNT && ReadPublics(f) == PublicsOf(ClaimOf(p))
  {
    ValuesReadBack(p, digest);
  }

  lemma {:induction false} ValuesServe(ps: seq<ClaimPublicInputs>, digest: Hash, values: seq<Felts>, cs: seq<Claim>)
    requires values == StarkValues(ps, digest) && cs == ClaimsOf(ps)
    ensures forall k :: 0 <= k < |cs| ==>
              |values[k]| == PROOF_PUBLIC_VALUE_COUNT && ReadPublics(values[k]) == PublicsOf(cs[k])
  {
    forall k | 0 <= k < |cs|
      ensures |values[k]| == PROOF_PUBLIC_VALUE_COUNT && ReadPublics(values[k]) == PublicsOf(cs[k])
    {
      ValueShape(ps[k], digest, values[k]);
    }
  }

  lemma {:induction false} ServedAssignment(B: Blake, values: seq<Felts>, cs: seq<Claim>, ts: seq<seq<Row>>,
                                            rows: seq<BlakeRow>)
    requires |values| == |cs| + 1 && values[|cs|] == []
    requires forall k :: 0 <= k < |cs| ==>
               |values[k]| == PROOF_PUBLIC_VALUE_COUNT && ReadPublics(values[k]) == PublicsOf(cs[k])
    ensures Assignment(B, values, ts, rows) <==> Satisfying(B, cs, ts, rows)
  {
  }

  /** The assignments for the public values are the satisfying tables for the claims. */
  lemma {:induction false} AssignmentIsSatisfying(B: Blake, ps: seq<ClaimPublicInputs>, digest: Hash,
                                                  ts: seq<seq<Row>>, rows: seq<BlakeRow>)
    ensures Assignment(B, StarkValues(ps, digest), ts, rows) <==> Satisfying(B, ClaimsOf(ps), ts, rows)
  {
    var values, cs := StarkValues(ps, digest), ClaimsOf(ps);
    ValuesServe(ps, digest, values, cs);
    ServedAssignment(B, values, cs, ts, rows);
  }

  lemma {:induction false} HasAssignmentIff(B: Blake, ps: seq<ClaimPublicInputs>, digest: Hash)
    ensures HasAssignment(B, StarkValues(ps, digest)) <==> Satisfiable(B, ClaimsOf(ps))
  {
    if HasAssignment(B, StarkValues(ps, digest)) {
      var ts: seq<seq<Row>>, rows: seq<BlakeRow> :| Assignment(B, StarkValues(ps, digest), ts, rows);
      AssignmentIsSatisfying(B, ps, digest, ts, rows);
    }
    if Satisfiable(B, ClaimsOf(ps)) {
      var ts: seq<seq<Row>>, rows: seq<BlakeRow> :| Satisfying(B, ClaimsOf(ps), ts, rows);
      AssignmentIsSatisfying(B, ps, digest, ts, rows);
    }
  }

  ghost predicate AllAgree(c: OmegaCommitment, ps: seq<ClaimPublicInputs>) {
    forall k :: 0 <= k < |ps| ==> Agrees(c, ps[k])
  }

  /** Every public input agrees with the commitment, and has a payload and a path of the
      recorded depth from its leaf to the recorded root. */
  ghost predicate AllAttested(H: HashFn, c: OmegaCommitment, ps: seq<ClaimPublicInputs>) {
    forall k :: 0 <= k < |ps| ==> Agrees(c, ps[k]) && Attested(H, ClaimOf(ps[k]))
  }

  lemma {:induction false} AttestedSplits(H: HashFn, c: OmegaCommitment, ps: seq<ClaimPublicInputs>)
    ensures AllAttested(H, c, ps) <==> AllAgree(c, ps) && AllClaimsAttested(H, ClaimsOf(ps))
  {
    var cs := ClaimsOf(ps);
    if AllAgree(c, ps) && AllClaimsAttested(H, cs) {
      forall k | 0 <= k < |ps| ensures Attested(H, ClaimOf(ps[k])) { assert Attested(H, cs[k]); }
    }
  }

  /** What `verify` accepts, of any length, agrees with the commitment and can be satisfied. */
  lemma {:induction false} AcceptedIsSatisfiable(H: HashFn, B: Blake, S: Stark, c: OmegaCommitment,
                                                 ps: seq<ClaimPublicInputs>, proof: ByteString)
    requires StarkSound(B, S) && Verify(H, S, c, ps, proof).Ok?
    ensures AllAgree(c, ps) && Satisfiable(B, ClaimsOf(ps))
  {
    var digest := BindingDigest(H, c, ps);
    VerifyMeaning(H, S, c, ps, proof);
    assert HasAssignment(B, StarkValues(ps, digest));
    HasAssignmentIff(B, ps, digest);
  }

  /** `verify` returns `Ok` only when every public input agrees with the commitment
      and is attested by a payload and a path of the recorded depth to the recorded root. */
  lemma {:induction false} VerifySound(H: HashFn, B: Blake, S: Stark, c: OmegaCommitment, ps: seq<ClaimPublicInputs>,
                                       proof: ByteString)
    requires HashesChunks(H, B) && StarkSound(B, S) && Received(ClaimsOf(ps)) < P
    requires Verify(H, S, c, ps, proof).Ok?
    ensures AllAttested(H, c, ps)
  {
    AcceptedIsSatisfiable(H, B, S, c, ps, proof);
    BatchExact(H, B, ClaimsOf(ps));
    AttestedSplits(H, c, ps);
  }
}
