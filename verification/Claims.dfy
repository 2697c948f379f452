/** The records shared by prover, verifier, ledger and wire codec. */
module Claims {
  import opened Bytes

  datatype ClaimPublicInputs = ClaimPublicInputs(
    subTreeId: Byte,
    leafIndex: U64,
    treeDepth: Byte,
    perSubTreeRoot: Hash,
    bundleRoot: Hash,
    nullifier: Hash,
    recipient: Hash)

  const SUB_TREE_COUNT: nat := 7

  datatype RawCommitment = RawCommitment(
    bundleRoot: Hash,
    subTreeRoots: seq<Hash>,
    itemCounts: seq<U64>,
    leafCounts: seq<U64>,
    treeDepths: seq<U32>)
  {
    predicate Shaped() {
      && |subTreeRoots| == SUB_TREE_COUNT && |itemCounts| == SUB_TREE_COUNT
      && |leafCounts| == SUB_TREE_COUNT && |treeDepths| == SUB_TREE_COUNT
    }
  }

  /** The published commitment: one root, two counts and a depth per sub-tree. */
  type OmegaCommitment = c: RawCommitment | c.Shaped()
    witness RawCommitment(Zeros(32), [Zeros(32), Zeros(32), Zeros(32), Zeros(32), Zeros(32), Zeros(32), Zeros(32)],
                          Zeros(7), Zeros(7), Zeros(7))

  /** Sub-tree identifiers are 1-based. */
  function SubTreeIndex(id: Byte): (i: Option<nat>)
    ensures i.Some? ==> i.value < SUB_TREE_COUNT && id == i.value + 1
    ensures i.None? <==> id == 0 || id > SUB_TREE_COUNT
  {
    if id == 0 || id > SUB_TREE_COUNT then None else Some(id - 1)
  }

  function Concat(hashes: seq<Hash>): (b: ByteString)
    ensures |b| == 32 * |hashes|
  {
    if hashes == [] then [] else hashes[0] + Concat(hashes[1..])
  }

  lemma {:induction false} ConcatAt(hashes: seq<Hash>, i: nat)
    requires i < |hashes|
    ensures At(Concat(hashes), 32 * i, hashes[i])
  {
    if i > 0 {
      ConcatAt(hashes[1..], i - 1);
      assert Concat(hashes)[32..] == Concat(hashes[1..]);
      assert Concat(hashes)[32 * i..32 * i + 32] == Concat(hashes[1..])[32 * (i - 1)..32 * (i - 1) + 32];
    }
  }

  /** `bundle_root`: the hash of the seven concatenated roots. */
  function BundleRoot(H: HashFn, c: OmegaCommitment): Hash { H(Concat(c.subTreeRoots)) }

  /** What is hashed: the seven roots in order. */
  lemma {:induction false} BundleLayout(H: HashFn, c: OmegaCommitment) returns (b: ByteString)
    ensures BundleRoot(H, c) == H(b) && |b| == 224 && forall i :: 0 <= i < 7 ==> At(b, 32 * i, c.subTreeRoots[i])
  {
    b := Concat(c.subTreeRoots);
    forall i | 0 <= i < 7 ensures At(b, 32 * i, c.subTreeRoots[i]) { ConcatAt(c.subTreeRoots, i); }
  }

  // ----- Claim transactions -----

  datatype ClaimWitness = ClaimWitness(leafPayload: ByteString, merklePath: seq<Hash>, signingKeyProof: ByteString)

  datatype ClaimTx =
    | ClaimUtxo(publicInput: ClaimPublicInputs, leafWitness: ClaimWitness, proof: ByteString)
    | ClaimCollection(publicInputs: seq<ClaimPublicInputs>, witnesses: seq<ClaimWitness>, proof: ByteString)
}
