/** From published payload sets to accepted proofs, and back. */
module EndToEnd {
  import opened Arith
  import opened Bytes
  import opened BabyBear
  import opened Fold
  import opened Merkle
  import opened MerkleBinding
  import opened Claims
  import opened Compression
  import opened Blake3Hash
  import opened Circuit
  import opened CircuitSoundness
  import opened TraceBuilder
  import opened LookupBalance
  import opened CircuitExact
  import opened Verifier
  import opened Ledger

  // ----- An accepted claim names a recorded payload -----

  /** Sub-tree `i + 1` of the commitment was built from the payloads `sets[i]`. */
  ghost predicate Commits(H: HashFn, c: OmegaCommitment, sets: seq<Payloads>) {
    && |sets| == SUB_TREE_COUNT
    && forall i :: 0 <= i < SUB_TREE_COUNT ==>
         && c.subTreeRoots[i] == V1Root(H, i + 1, sets[i]) && c.treeDepths[i] == Depth(|sets[i]|)
         && c.itemCounts[i] == |sets[i]|
         && forall q :: q in sets[i] ==> |q| < TWO_64
  }

  /** A member of a committed sub-tree is the payload recorded at its index, or its claim
      names a padding leaf, or two distinct hash inputs at hand collide. */
  lemma {:induction false} MemberIsRecorded(H: HashFn, p: ClaimPublicInputs, set_: Payloads)
      returns (payload: ByteString, path: seq<Hash>)
    requires Attested(H, ClaimOf(p))
    requires p.perSubTreeRoot == V1Root(H, p.subTreeId, set_) && p.treeDepth == Depth(|set_|)
    requires forall q :: q in set_ ==> |q| < TWO_64
    ensures AttestedBy(H, ClaimOf(p), payload, path)
    ensures Recorded(SortPayloads(set_), p.leafIndex, payload)
         || NamesPadding(set_, p.leafIndex, payload)
         || Collision(H, Inputs(H, V1Tree(p.subTreeId, set_)),
                      {LeafPreimage(p.subTreeId, p.leafIndex, payload)}
                      + WalkInputs(H, LeafHash(H, p.subTreeId, p.leafIndex, payload), p.leafIndex, path))
  {
    payload, path :| AttestedBy(H, ClaimOf(p), payload, path);
    PositionBinding(H, p.subTreeId, set_, p.leafIndex, payload, path);
  }

  /** The payloads of sub-tree `id`. */
  function SetFor(sets: seq<Payloads>, id: Byte): Payloads {
    if 1 <= id <= |sets| then sets[id - 1] else []
  }

  lemma {:induction false} CommittedSet(H: HashFn, c: OmegaCommitment, sets: seq<Payloads>, p: ClaimPublicInputs,
                                        set_: Payloads)
    requires Commits(H, c, sets) && Agrees(c, p) && set_ == SetFor(sets, p.subTreeId)
    ensures p.perSubTreeRoot == V1Root(H, p.subTreeId, set_) && p.treeDepth == Depth(|set_|)
    ensures c.itemCounts[p.subTreeId - 1] == |set_| && forall q :: q in set_ ==> |q| < TWO_64
  {
  }

  lemma {:induction false} AcceptedIsAttested(H: HashFn, B: Blake, S: Stark, c: OmegaCommitment,
                                              ps: seq<ClaimPublicInputs>, proof: ByteString, p: ClaimPublicInputs)
    requires HashesChunks(H, B) && StarkSound(B, S) && Received(ClaimsOf(ps)) < P
    requires Verify(H, S, c, ps, proof).Ok? && p in ps
    ensures Agrees(c, p) && Attested(H, ClaimOf(p))
  {
    VerifySound(H, B, S, c, ps, proof);
    var k :| 0 <= k < |ps| && ps[k] == p;
  }

  /** Every claim of an accepted batch has a payload and a path to the committed root.
      The payload is the one committed at that index, or the claim names a padding
      leaf, or two distinct hash inputs at hand collide. */
  lemma {:induction false} AcceptedIsRecorded(H: HashFn, B: Blake, S: Stark, c: OmegaCommitment, sets: seq<Payloads>,
                                              ps: seq<ClaimPublicInputs>, proof: ByteString,
                                              p: ClaimPublicInputs, set_: Payloads)
      returns (payload: ByteString, path: seq<Hash>)
    requires HashesChunks(H, B) && StarkSound(B, S) && Commits(H, c, sets) && Received(ClaimsOf(ps)) < P
    requires Verify(H, S, c, ps, proof).Ok? && p in ps && set_ == SetFor(sets, p.subTreeId)
    ensures Agrees(c, p) && AttestedBy(H, ClaimOf(p), payload, path)
    ensures Recorded(SortPayloads(set_), p.leafIndex, payload)
         || NamesPadding(set_, p.leafIndex, payload)
         || Collision(H, Inputs(H, V1Tree(p.subTreeId, set_)),
                      {LeafPreimage(p.subTreeId, p.leafIndex, payload)}
                      + WalkInputs(H, LeafHash(H, p.subTreeId, p.leafIndex, payload), p.leafIndex, path))
  {
    AcceptedIsAttested(H, B, S, c, ps, proof, p);
    CommittedSet(H, c, sets, p, set_);
    payload, path := MemberIsRecorded(H, p, set_);
  }

  // ----- An accepted claim on the ledger -----

  /** The ledger with the claim verifier behind it. */
  function LedgerEnv(H: HashFn, S: Stark): Env {
    Env(H, (c: OmegaCommitment, ps: seq<ClaimPublicInputs>, proof: ByteString) => Verify(H, S, c, ps, proof).Ok?)
  }

  /** Whatever claim the ledger accepts, each of its inputs opens the committed tree at
      its own index: the ledger's integer range rules out the padding leaf. */
  lemma {:induction false} LedgerAcceptsRecorded(H: HashFn, B: Blake, S: Stark, c: OmegaCommitment, sets: seq<Payloads>,
                                                 b: Books, block: U64, claim: ClaimTx,
                                                 p: ClaimPublicInputs, set_: Payloads)
      returns (payload: ByteString, path: seq<Hash>)
    requires HashesChunks(H, B) && StarkSound(B, S) && Commits(H, c, sets)
    requires Received(ClaimsOf(ClaimedInputs(claim))) < P
    requires ApplyClaim(LedgerEnv(H, S), b, block, c, claim).Ok?
    requires p in ClaimedInputs(claim) && set_ == SetFor(sets, p.subTreeId)
    ensures Agrees(c, p) && AttestedBy(H, ClaimOf(p), payload, path)
    ensures Recorded(SortPayloads(set_), p.leafIndex, payload)
         || Collision(H, Inputs(H, V1Tree(p.subTreeId, set_)),
                      {LeafPreimage(p.subTreeId, p.leafIndex, payload)}
                      + WalkInputs(H, LeafHash(H, p.subTreeId, p.leafIndex, payload), p.leafIndex, path))
  {
    var after := ApplyClaim(LedgerEnv(H, S), b, block, c, claim).value;
    AcceptedClaim(LedgerEnv(H, S), b, block, c, claim, after);
    payload, path := AcceptedIsRecorded(H, B, S, c, sets, ClaimedInputs(claim), claim.proof, p, set_);
  }

  // ----- An honest proof is accepted -----

  datatype CollectionError =
    | BundleMismatch(expected: Hash, actual: Hash)
    | BadWitness(index: nat, error: ProverError)

  /** `validate_witnesses`: the first bad witness stops the batch. */
  method ValidateWitnesses(H: HashFn, c: OmegaCommitment, ws: seq<MembershipWitness>)
      returns (r: Result<seq<CheckedWitness>, CollectionError>)
    ensures r.Ok? <==> forall i :: 0 <= i < |ws| ==> GoodWitness(H, c, ws[i])
    ensures r.Ok? ==> |r.value| == |ws| && forall i :: 0 <= i < |ws| ==> CheckedFrom(H, ws[i], r.value[i])
    ensures r.Err? ==> r.error.BadWitness? && r.error.index < |ws| && !GoodWitness(H, c, ws[r.error.index])
    ensures r.Err? ==> forall i :: 0 <= i < r.error.index ==> GoodWitness(H, c, ws[i])
    ensures r.Err? ==> WitnessFails(c, ws[r.error.index], r.error.error)
  {
    var checked: seq<CheckedWitness> := [];
    for i := 0 to |ws|
      invariant |checked| == i
      invariant forall k :: 0 <= k < i ==> GoodWitness(H, c, ws[k]) && CheckedFrom(H, ws[k], checked[k])
    {
      var one := ValidateWitness(H, c, ws[i]);
      if one.Err? { return Err(BadWitness(i, one.error)); }
      checked := checked + [one.value];
    }
    return Ok(checked);
  }

  /** The STARK prover, and the envelope encoder. */
  datatype Prover = Prover(
    prove: (U64, seq<seq<Row>>, seq<BlakeRow>, seq<Felts>) -> ByteString,
    encode: ProofEnvelope -> ByteString)

  function InputsOf(ws: seq<MembershipWitness>): (ps: seq<ClaimPublicInputs>)
    ensures |ps| == |ws| && forall i :: 0 <= i < |ws| ==> ps[i] == ws[i].publicInputs
  {
    if ws == [] then [] else [ws[0].publicInputs] + InputsOf(ws[1..])
  }

  /** The envelope with a proof made from these tables. */
  function EnvelopeFor(H: HashFn, V: Prover, c: OmegaCommitment, ps: seq<ClaimPublicInputs>, seed: U64,
                       ts: seq<seq<Row>>, rows: seq<BlakeRow>): ProofEnvelope
  {
    var digest := BindingDigest(H, c, ps);
    ProofEnvelope(PROOF_ENVELOPE_VERSION, seed, c, ps, ProofPublicValues(ps, digest),
                  V.prove(seed, ts, rows, StarkValues(ps, digest)))
  }

  /** The envelope carries the statement and a proof made from its built tables. */
  ghost predicate HonestEnvelope(H: HashFn, B: Blake, V: Prover, c: OmegaCommitment, ws: seq<MembershipWitness>,
                                 seed: U64,
                                 checked: seq<CheckedWitness>, ts: seq<seq<Row>>, rows: seq<BlakeRow>, e: ProofEnvelope)
  {
    && |checked| == |ws| && CheckedBatch(H, checked)
    && (forall i :: 0 <= i < |ws| ==> CheckedFrom(H, ws[i], checked[i]))
    && BuiltTables(H, B, checked, ts) && BuiltBlake(B, BatchCompressions(H, B, checked), rows)
    && e == EnvelopeFor(H, V, c, InputsOf(ws), seed, ts, rows)
  }

  lemma {:induction false} CheckedAll(H: HashFn, ws: seq<MembershipWitness>, xs: seq<CheckedWitness>)
    requires |xs| == |ws| && forall i :: 0 <= i < |ws| ==> CheckedFrom(H, ws[i], xs[i])
    ensures CheckedBatch(H, xs)
  {
    forall i | 0 <= i < |xs|
      ensures Checked(H, xs[i]) && |xs[i].leafPayload| <= MAX_PAYLOAD
    {
      assert CheckedFrom(H, ws[i], xs[i]);
    }
  }

  /** `prove_collection` */
  method ProveCollection(H: HashFn, B: Blake, V: Prover, c: OmegaCommitment, ws: seq<MembershipWitness>, seed: U64)
      returns (r: Result<ProofEnvelope, CollectionError>,
               ghost checked: seq<CheckedWitness>, ghost ts: seq<seq<Row>>, ghost rows: seq<BlakeRow>)
    requires ComputesAll(B) && HashesChunks(H, B)
    ensures r.Ok? <==> BundleRoot(H, c) == c.bundleRoot && forall i :: 0 <= i < |ws| ==> GoodWitness(H, c, ws[i])
    ensures r.Ok? ==> HonestEnvelope(H, B, V, c, ws, seed, checked, ts, rows, r.value)
  {
    checked, ts, rows := [], [], [];
    var recomputed := BundleRoot(H, c);
    if recomputed != c.bundleRoot { r := Err(BundleMismatch(c.bundleRoot, recomputed)); return; }
    var validated := ValidateWitnesses(H, c, ws);
    if validated.Err? { r := Err(validated.error); return; }
    CheckedAll(H, ws, validated.value);
    var tables, blake := BuildTraces(B, validated.value, H);
    var ps := InputsOf(ws);
    checked, ts, rows := validated.value, tables, blake;
    r := Ok(EnvelopeFor(H, V, c, ps, seed, tables, blake));
  }

  /** The STARK accepts what its prover makes from a satisfying assignment. */
  ghost predicate StarkComplete(B: Blake, S: Stark, V: Prover) {
    forall seed: U64, values: seq<Felts>, ts: seq<seq<Row>>, rows: seq<BlakeRow> ::
      Assignment(B, values, ts, rows) ==> Convinces(S, V, seed, ts, rows, values)
  }

  ghost predicate Convinces(S: Stark, V: Prover, seed: U64, ts: seq<seq<Row>>, rows: seq<BlakeRow>,
                            values: seq<Felts>) {
    var proof := V.prove(seed, ts, rows, values);
    S.accepts(seed, proof, values) && S.degreeCount(proof) == Some(|ts| + 1)
  }

  ghost predicate CodecRoundTrips(S: Stark, V: Prover) {
    forall e: ProofEnvelope :: S.decode(V.encode(e)) == Some(e)
  }

  lemma {:induction false} BuiltHeights(H: HashFn, B: Blake, xs: seq<CheckedWitness>, ts: seq<seq<Row>>, cs: seq<Claim>)
    requires HashesChunks(H, B) && CheckedBatch(H, xs) && BuiltTables(H, B, xs, ts) && AllProvable(xs)
    requires |cs| == |xs| && forall k :: 0 <= k < |xs| ==> ClaimOf(xs[k].publicInputs) == cs[k]
    ensures forall k :: 0 <= k < |ts| ==> Satisfies(ts[k], PublicsOf(cs[k])) && |ts[k]| < P
  {
    forall k | 0 <= k < |ts|
      ensures Satisfies(ts[k], PublicsOf(cs[k])) && |ts[k]| < P
    {
      BuiltServes(H, B, xs[k], ts[k]);
    }
  }

  lemma {:induction false} BuiltSatisfying(H: HashFn, B: Blake, xs: seq<CheckedWitness>, ts: seq<seq<Row>>,
                                           rows: seq<BlakeRow>, cs: seq<Claim>)
    requires HashesChunks(H, B) && CheckedBatch(H, xs) && BuiltTables(H, B, xs, ts) && AllProvable(xs) && xs != []
    requires BuiltBlake(B, BatchCompressions(H, B, xs), rows)
    requires |cs| == |xs| && forall k :: 0 <= k < |xs| ==> ClaimOf(xs[k].publicInputs) == cs[k]
    ensures Satisfying(B, cs, ts, rows)
  {
    BatchCompleteness(H, B, xs, ts, rows);
    BuiltHeights(H, B, xs, ts, cs);
    assert rows != [] by { NonEmptyBatch(H, B, xs); }
  }

  /** The built tables are a satisfying assignment, for a batch of provable witnesses. */
  lemma {:induction false} BuiltAssignment(H: HashFn, B: Blake, ps: seq<ClaimPublicInputs>, digest: Hash,
                                           xs: seq<CheckedWitness>, ts: seq<seq<Row>>, rows: seq<BlakeRow>)
    requires HashesChunks(H, B) && CheckedBatch(H, xs) && BuiltTables(H, B, xs, ts)
    requires BuiltBlake(B, BatchCompressions(H, B, xs), rows)
    requires xs != [] && AllProvable(xs) && |ps| == |xs| && forall i :: 0 <= i < |ps| ==> xs[i].publicInputs == ps[i]
    ensures Assignment(B, StarkValues(ps, digest), ts, rows)
  {
    var cs := ClaimsOf(ps);
    assert Satisfying(B, cs, ts, rows) by { BuiltSatisfying(H, B, xs, ts, rows, cs); }
    AssignmentIsSatisfying(B, ps, digest, ts, rows);
  }

  lemma {:induction false} GoodAgrees(H: HashFn, c: OmegaCommitment, w: MembershipWitness)
    requires GoodWitness(H, c, w)
    ensures Agrees(c, w.publicInputs)
  {
  }

  lemma {:induction false} AssignmentConvinces(B: Blake, S: Stark, V: Prover, seed: U64, ts: seq<seq<Row>>,
                                               rows: seq<BlakeRow>, values: seq<Felts>)
    requires StarkComplete(B, S, V) && Assignment(B, values, ts, rows)
    ensures Convinces(S, V, seed, ts, rows, values) && |values| == |ts| + 1
  {
  }

  /** A convincing proof passes the batch verifier. */
  lemma {:induction false} EnvelopeConvinces(H: HashFn, S: Stark, V: Prover, c: OmegaCommitment,
                                             ps: seq<ClaimPublicInputs>, seed: U64, ts: seq<seq<Row>>,
                                             rows: seq<BlakeRow>, e: ProofEnvelope, values: seq<Felts>)
    requires values == StarkValues(ps, BindingDigest(H, c, ps)) && |ts| == |ps|
    requires Convinces(S, V, seed, ts, rows, values) && e == EnvelopeFor(H, V, c, ps, seed, ts, rows)
    ensures VerifyMembershipBatch(S, e)
  {
  }

  lemma {:induction false} EnvelopeDecodes(S: Stark, V: Prover, e: ProofEnvelope)
    requires CodecRoundTrips(S, V)
    ensures S.decode(V.encode(e)) == Some(e)
  {
  }

  /** An envelope with the right statement and a convincing proof is accepted. */
  lemma {:induction false} EnvelopeAccepted(H: HashFn, S: Stark, V: Prover, c: OmegaCommitment,
                                            ps: seq<ClaimPublicInputs>, e: ProofEnvelope)
    requires CodecRoundTrips(S, V) && AllAgree(c, ps) && VerifyMembershipBatch(S, e)
    requires e.version == PROOF_ENVELOPE_VERSION && e.commitment == c && e.publicInputs == ps
    requires e.publicValues == ProofPublicValues(ps, BindingDigest(H, c, ps))
    ensures Verify(H, S, c, ps, V.encode(e)).Ok?
  {
    EnvelopeDecodes(S, V, e);
    VerifyMeaning(H, S, c, ps, V.encode(e));
  }

  /** The envelope made from an assignment is accepted. */
  lemma {:induction false} AssignmentAccepted(H: HashFn, B: Blake, S: Stark, V: Prover, c: OmegaCommitment,
                                              ps: seq<ClaimPublicInputs>, seed: U64, ts: seq<seq<Row>>,
                                              rows: seq<BlakeRow>, e: ProofEnvelope, values: seq<Felts>)
    requires StarkComplete(B, S, V) && CodecRoundTrips(S, V) && AllAgree(c, ps)
    requires values == StarkValues(ps, BindingDigest(H, c, ps)) && Assignment(B, values, ts, rows)
    requires e == EnvelopeFor(H, V, c, ps, seed, ts, rows)
    ensures Verify(H, S, c, ps, V.encode(e)).Ok?
  {
    assert VerifyMembershipBatch(S, e) by {
      AssignmentConvinces(B, S, V, seed, ts, rows, values);
      EnvelopeConvinces(H, S, V, c, ps, seed, ts, rows, e, values);
    }
    EnvelopeAccepted(H, S, V, c, ps, e);
  }

  /** What `prove_collection` returns for a non-empty batch of provable witnesses, `verify` accepts. */
  lemma {:induction false} HonestProofVerifies(H: HashFn, B: Blake, S: Stark, V: Prover, c: OmegaCommitment,
                                               ws: seq<MembershipWitness>, seed: U64, xs: seq<CheckedWitness>,
                                               ts: seq<seq<Row>>, rows: seq<BlakeRow>, e: ProofEnvelope)
    requires HashesChunks(H, B) && StarkComplete(B, S, V) && CodecRoundTrips(S, V)
    requires forall i :: 0 <= i < |ws| ==> GoodWitness(H, c, ws[i])
    requires HonestEnvelope(H, B, V, c, ws, seed, xs, ts, rows, e)
    requires ws != [] && AllProvable(xs)
    ensures Verify(H, S, c, InputsOf(ws), V.encode(e)).Ok?
  {
    var ps := InputsOf(ws);
    forall i | 0 <= i < |ps|
      ensures xs[i].publicInputs == ps[i] && Agrees(c, ps[i])
    {
      assert CheckedFrom(H, ws[i], xs[i]);
      GoodAgrees(H, c, ws[i]);
    }
    var digest := BindingDigest(H, c, ps);
    BuiltAssignment(H, B, ps, digest, xs, ts, rows);
    AssignmentAccepted(H, B, S, V, c, ps, seed, ts, rows, e, StarkValues(ps, digest));
  }

  // ----- What verification decides -----

  ghost predicate SomeProofAccepted(H: HashFn, S: Stark, c: OmegaCommitment, ps: seq<ClaimPublicInputs>) {
    exists proof: ByteString :: Verify(H, S, c, ps, proof).Ok?
  }

  lemma {:induction false} SatisfyingAssignment(B: Blake, ps: seq<ClaimPublicInputs>, digest: Hash, values: seq<Felts>)
      returns (ts: seq<seq<Row>>, rows: seq<BlakeRow>)
    requires Satisfiable(B, ClaimsOf(ps)) && values == StarkValues(ps, digest)
    ensures Assignment(B, values, ts, rows)
  {
    HasAssignmentIff(B, ps, digest);
    ts, rows :| Assignment(B, values, ts, rows);
  }

  lemma {:induction false} AssignedAccepted(H: HashFn, B: Blake, S: Stark, V: Prover, c: OmegaCommitment,
                                            ps: seq<ClaimPublicInputs>, ts: seq<seq<Row>>, rows: seq<BlakeRow>,
                                            values: seq<Felts>)
    requires StarkComplete(B, S, V) && CodecRoundTrips(S, V) && AllAgree(c, ps)
    requires values == StarkValues(ps, BindingDigest(H, c, ps)) && Assignment(B, values, ts, rows)
    ensures SomeProofAccepted(H, S, c, ps)
  {
    AssignmentAccepted(H, B, S, V, c, ps, 0, ts, rows, EnvelopeFor(H, V, c, ps, 0, ts, rows), values);
  }

  lemma {:induction false} SatisfiableAccepted(H: HashFn, B: Blake, S: Stark, V: Prover, c: OmegaCommitment,
                                               ps: seq<ClaimPublicInputs>)
    requires StarkComplete(B, S, V) && CodecRoundTrips(S, V) && AllAgree(c, ps) && Satisfiable(B, ClaimsOf(ps))
    ensures SomeProofAccepted(H, S, c, ps)
  {
    var values := StarkValues(ps, BindingDigest(H, c, ps));
    var ts, rows := SatisfyingAssignment(B, ps, BindingDigest(H, c, ps), values);
    AssignedAccepted(H, B, S, V, c, ps, ts, rows, values);
  }

  /** Over a sound and complete STARK, some proof for a list of public inputs of any length
      is accepted if and only if each input agrees with the commitment and the batch of
      their claims can be satisfied. */
  lemma {:induction false} VerifyDecides(H: HashFn, B: Blake, S: Stark, V: Prover, c: OmegaCommitment,
                                         ps: seq<ClaimPublicInputs>)
    requires StarkSound(B, S) && StarkComplete(B, S, V) && CodecRoundTrips(S, V)
    ensures SomeProofAccepted(H, S, c, ps) <==> AllAgree(c, ps) && Satisfiable(B, ClaimsOf(ps))
  {
    if SomeProofAccepted(H, S, c, ps) {
      var proof: ByteString :| Verify(H, S, c, ps, proof).Ok?;
      AcceptedIsSatisfiable(H, B, S, c, ps, proof);
    } else if AllAgree(c, ps) && Satisfiable(B, ClaimsOf(ps)) {
      SatisfiableAccepted(H, B, S, V, c, ps);
      assert false;
    }
  }

  /** Below P received tuples that means: if and only if each input agrees with the
      commitment and is attested. */
  lemma {:induction false} VerifyExact(H: HashFn, B: Blake, S: Stark, V: Prover, c: OmegaCommitment,
                                       ps: seq<ClaimPublicInputs>)
    requires HashesChunks(H, B) && StarkSound(B, S) && StarkComplete(B, S, V) && CodecRoundTrips(S, V)
    requires Received(ClaimsOf(ps)) < P
    ensures SomeProofAccepted(H, S, c, ps) <==> AllAttested(H, c, ps)
  {
    VerifyDecides(H, B, S, V, c, ps);
    BatchExact(H, B, ClaimsOf(ps));
    AttestedSplits(H, c, ps);
  }

  lemma {:induction false} CopiesOf(c: OmegaCommitment, p: ClaimPublicInputs, ps: seq<ClaimPublicInputs>, n: nat)
    requires |ps| == n && forall k :: 0 <= k < n ==> ps[k] == p
    ensures ClaimsOf(ps) == Repeated(ClaimOf(p), n) && (Agrees(c, p) ==> AllAgree(c, ps))
  {
  }

  /** At P received tuples and beyond `verify` is not sound.  It accepts P copies of any
      public input that agrees with the commitment, attested or not. */
  lemma {:induction false} FieldSizeAccepted(H: HashFn, B: Blake, S: Stark, V: Prover, c: OmegaCommitment,
                                             p: ClaimPublicInputs, ps: seq<ClaimPublicInputs>, n: nat)
    requires StarkComplete(B, S, V) && CodecRoundTrips(S, V) && Agrees(c, p)
    requires n == P && |ps| == n && forall k :: 0 <= k < n ==> ps[k] == p
    ensures SomeProofAccepted(H, S, c, ps) && Received(ClaimsOf(ps)) == n * (1 + 2 * p.treeDepth)
    ensures AllAttested(H, c, ps) <==> Attested(H, ClaimOf(p))
  {
    CopiesOf(c, p, ps, n);
    FieldSizeFails(H, B, ClaimOf(p), ClaimsOf(ps));
    SatisfiableAccepted(H, B, S, V, c, ps);
    AttestedSplits(H, c, ps);
  }

  /** The lists of at most `n` received tuples are decided rightly. */
  ghost predicate VerifiesUpTo(H: HashFn, S: Stark, c: OmegaCommitment, n: nat) {
    forall ps: seq<ClaimPublicInputs> ::
      Received(ClaimsOf(ps)) <= n ==> (SomeProofAccepted(H, S, c, ps) <==> AllAttested(H, c, ps))
  }

  /** The bound is tight: with an unattested input to a one-item sub-tree at hand, the lists
      of at most `n` received tuples are decided rightly exactly when `n` is below P. */
  lemma {:induction false} VerifyBoundIsTight(H: HashFn, B: Blake, S: Stark, V: Prover, c: OmegaCommitment,
                                              p: ClaimPublicInputs, n: nat)
    requires HashesChunks(H, B) && StarkSound(B, S) && StarkComplete(B, S, V) && CodecRoundTrips(S, V)
    requires Agrees(c, p) && p.treeDepth == 0 && !Attested(H, ClaimOf(p))
    ensures VerifiesUpTo(H, S, c, n) <==> n < P
  {
    if n < P {
      forall ps: seq<ClaimPublicInputs> | Received(ClaimsOf(ps)) <= n
        ensures SomeProofAccepted(H, S, c, ps) <==> AllAttested(H, c, ps)
      {
        VerifyExact(H, B, S, V, c, ps);
      }
    } else {
      var ps := seq(P, _ => p);
      FieldSizeAccepted(H, B, S, V, c, p, ps, P);
      assert Received(ClaimsOf(ps)) <= n;
    }
  }

  // ----- Indices from the item count on -----

  /** A claim to the padding leaf of a sub-tree. */
  ghost predicate ClaimsPadding(c: OmegaCommitment, sets: seq<Payloads>, p: ClaimPublicInputs) {
    && 1 <= p.subTreeId <= |sets| && p.leafIndex == EMPTY_INDEX_SENTINEL && Agrees(c, p)
    && p.treeDepth == Depth(|sets[p.subTreeId - 1]|)
  }

  lemma {:induction false} PaddingAttested(H: HashFn, p: ClaimPublicInputs, set_: Payloads)
    requires p.perSubTreeRoot == V1Root(H, p.subTreeId, set_) && p.treeDepth == Depth(|set_|)
    requires p.leafIndex == EMPTY_INDEX_SENTINEL && |set_| < Pow2(Depth(|set_|))
    ensures Attested(H, ClaimOf(p))
  {
    var path := PaddingOpens(H, p.subTreeId, set_);
    assert AttestedBy(H, ClaimOf(p), [], path);
  }

  lemma {:induction false} OneAccepted(H: HashFn, B: Blake, S: Stark, V: Prover, c: OmegaCommitment,
                                       p: ClaimPublicInputs, ps: seq<ClaimPublicInputs>)
    requires HashesChunks(H, B) && StarkComplete(B, S, V) && CodecRoundTrips(S, V)
    requires Agrees(c, p) && Attested(H, ClaimOf(p)) && ps == [p]
    ensures SomeProofAccepted(H, S, c, ps)
  {
    assert Satisfiable(B, ClaimsOf(ps)) by {
      var cs := ClaimsOf(ps);
      assert cs[1..] == [];
      BatchExact(H, B, cs);
    }
    SatisfiableAccepted(H, B, S, V, c, ps);
  }

  lemma {:induction false} PaddingAccepted(H: HashFn, B: Blake, S: Stark, V: Prover, c: OmegaCommitment,
                                           sets: seq<Payloads>, p: ClaimPublicInputs, set_: Payloads)
    requires HashesChunks(H, B) && StarkComplete(B, S, V) && CodecRoundTrips(S, V) && Commits(H, c, sets)
    requires ClaimsPadding(c, sets, p) && set_ == SetFor(sets, p.subTreeId) && |set_| < Pow2(Depth(|set_|))
    ensures SomeProofAccepted(H, S, c, [p])
  {
    assert Attested(H, ClaimOf(p)) by {
      CommittedSet(H, c, sets, p, set_);
      PaddingAttested(H, p, set_);
    }
    OneAccepted(H, B, S, V, c, p, [p]);
  }

  lemma {:induction false} OutOfRangeIsPadded(H: HashFn, B: Blake, S: Stark, c: OmegaCommitment, sets: seq<Payloads>,
                                              ps: seq<ClaimPublicInputs>, proof: ByteString,
                                              p: ClaimPublicInputs, set_: Payloads)
      returns (payload: ByteString, path: seq<Hash>)
    requires HashesChunks(H, B) && StarkSound(B, S) && Commits(H, c, sets) && Received(ClaimsOf(ps)) < P
    requires Verify(H, S, c, ps, proof).Ok? && p in ps && set_ == SetFor(sets, p.subTreeId) && p.leafIndex >= |set_|
    ensures |set_| < Pow2(Depth(|set_|))
         || Collision(H, Inputs(H, V1Tree(p.subTreeId, set_)),
                      {LeafPreimage(p.subTreeId, p.leafIndex, payload)}
                      + WalkInputs(H, LeafHash(H, p.subTreeId, p.leafIndex, payload), p.leafIndex, path))
  {
    payload, path := AcceptedIsRecorded(H, B, S, c, sets, ps, proof, p, set_);
  }

  /** The documentation asks the verifier to refuse indices from the item count on.  It
      accepts one, for a committed sub-tree, exactly when the item count is not a power
      of two (or a collision is exhibited): the sentinel then names a padding leaf. */
  lemma {:induction false} OutOfRangeAcceptedIff(H: HashFn, B: Blake, S: Stark, V: Prover, c: OmegaCommitment,
                                                 sets: seq<Payloads>, pad: ClaimPublicInputs, set_: Payloads,
                                                 ps: seq<ClaimPublicInputs>, proof: ByteString, p: ClaimPublicInputs)
      returns (payload: ByteString, path: seq<Hash>)
    requires HashesChunks(H, B) && StarkSound(B, S) && StarkComplete(B, S, V) && CodecRoundTrips(S, V)
    requires Commits(H, c, sets) && Received(ClaimsOf(ps)) < P
    requires ClaimsPadding(c, sets, pad) && set_ == SetFor(sets, pad.subTreeId)
    ensures (forall k: nat :: |set_| != Pow2(k)) ==> SomeProofAccepted(H, S, c, [pad])
    ensures Verify(H, S, c, ps, proof).Ok? && p in ps && p.subTreeId == pad.subTreeId && p.leafIndex >= |set_| ==>
              (forall k: nat :: |set_| != Pow2(k))
              || Collision(H, Inputs(H, V1Tree(p.subTreeId, set_)),
                           {LeafPreimage(p.subTreeId, p.leafIndex, payload)}
                           + WalkInputs(H, LeafHash(H, p.subTreeId, p.leafIndex, payload), p.leafIndex, path))
  {
    payload, path := [], [];
    PaddedIff(|set_|);
    if |set_| < Pow2(Depth(|set_|)) { PaddingAccepted(H, B, S, V, c, sets, pad, set_); }
    if Verify(H, S, c, ps, proof).Ok? && p in ps && p.subTreeId == pad.subTreeId && p.leafIndex >= |set_| {
      payload, path := OutOfRangeIsPadded(H, B, S, c, sets, ps, proof, p, set_);
    }
  }
}
