/** The domain-separated Merkle tree of omega-commitment-core, its legacy and
    SHA3 variants, and inclusion witnesses. */
module Merkle {
  import opened Arith
  import opened Bytes
  import opened Sorting
  import opened Fold

  const DOMAIN_LEAF: ByteString := [111, 109, 101, 103, 97, 58, 118, 50, 58, 108, 101, 97, 102]
  const DOMAIN_NODE: ByteString := [111, 109, 101, 103, 97, 58, 118, 50, 58, 110, 111, 100, 101]
  const EMPTY_INDEX_SENTINEL: U64 := TWO_64 - 1

  type Combine = (Hash, Hash) -> Hash

  function LeafPreimage(id: Byte, index: U64, payload: ByteString): ByteString {
    DOMAIN_LEAF + [id] + BE(index, 8) + BE(|payload|, 8) + payload
  }

  function NodePreimage(left: Hash, right: Hash): ByteString {
    DOMAIN_NODE + left + right
  }

  /** Tag, sub-tree, index, length and payload, at their offsets. */
  lemma {:induction false} LeafLayout(id: Byte, index: U64, payload: ByteString, b: ByteString)
    requires b == LeafPreimage(id, index, payload)
    ensures |b| == 30 + |payload| && At(b, 0, Ascii("omega:v2:leaf")) && At(b, 13, [id])
    ensures At(b, 14, BE(index, 8)) && At(b, 22, BE(|payload|, 8)) && At(b, 30, payload)
  {
    assert DOMAIN_LEAF == Ascii("omega:v2:leaf");
  }

  lemma {:induction false} NodeLayout(left: Hash, right: Hash, b: ByteString)
    requires b == NodePreimage(left, right)
    ensures |b| == 77 && At(b, 0, Ascii("omega:v2:node")) && At(b, 13, left) && At(b, 45, right)
  {
    assert DOMAIN_NODE == Ascii("omega:v2:node");
  }

  /** A padding leaf: eight bytes of ones for the index, and an empty payload. */
  lemma {:induction false} PaddingLayout(id: Byte, b: ByteString)
    requires b == LeafPreimage(id, EMPTY_INDEX_SENTINEL, [])
    ensures |b| == 30 && At(b, 13, [id]) && At(b, 14, [255, 255, 255, 255, 255, 255, 255, 255]) && At(b, 22, Zeros(8))
  {
    LeafLayout(id, EMPTY_INDEX_SENTINEL, [], b);
    Pow256Widths();
    BEOnes(8);
    BEZero(8);
    assert seq(8, _ => 255) == [255, 255, 255, 255, 255, 255, 255, 255];
  }

  lemma {:induction false} BEOnes(n: nat)
    ensures BE(Pow256(n) - 1, n) == seq(n, _ => 255)
  {
    if n > 0 {
      var p := Pow256(n - 1);
      BEOnes(n - 1);
      assert (256 * p - 1) / 256 == p - 1 && (256 * p - 1) % 256 == 255;
    }
  }

  lemma {:induction false} BEZero(n: nat)
    ensures BE(0, n) == Zeros(n)
  {
    if n > 0 { BEZero(n - 1); }
  }

  /** `leaf_hash_v2` */
  function LeafHash(H: HashFn, id: Byte, index: U64, payload: ByteString): Hash {
    H(LeafPreimage(id, index, payload))
  }

  /** `node_hash_v2` */
  function NodeHash(H: HashFn): Combine {
    (left: Hash, right: Hash) => H(NodePreimage(left, right))
  }

  /** Untagged concatenation, used by the legacy tree and, with SHA3 for `H`, by
      the drift-detection root. */
  function PlainNode(H: HashFn): Combine {
    (left: Hash, right: Hash) => H(left + right)
  }

  /** What an untagged node hashes: 64 bytes, left before right. */
  lemma {:induction false} PlainLayout(H: HashFn, left: Hash, right: Hash) returns (b: ByteString)
    ensures PlainNode(H)(left, right) == H(b) && |b| == 64 && At(b, 0, left) && At(b, 32, right)
  {
    b := left + right;
  }

  datatype MerkleTree = MerkleTree(leaves: seq<Hash>, layers: seq<seq<Hash>>) {

    /** The tree is the fold of its leaf layer under `node`. */
    ghost predicate IsFold(node: Combine) {
      Folds(node, 0, layers) && layers[0] == leaves
    }

    function GetRoot(): Hash
      requires |layers| > 0 && |layers[|layers| - 1]| > 0
    {
      layers[|layers| - 1][0]
    }

    function GetDepth(): nat
      requires |layers| > 0
    {
      |layers| - 1
    }
  }

  lemma {:induction false} TreeRoot(t: MerkleTree, node: Combine)
    requires t.IsFold(node)
    ensures |t.layers[|t.layers| - 1]| == 1
    ensures t.GetRoot() == Root(node, t.GetDepth(), t.leaves)
  {
    FoldEndsInRoot(node, t.layers, 0);
  }

  // ----- The v1 builder -----

  datatype BuildError = DuplicateLeafPayload(subTreeId: Byte, index: nat)

  /** A `Vec` of payloads cannot hold more than this many elements. */
  const MAX_LEAVES: int := 0x8000_0000_0000_0000

  type Payloads = ps: seq<ByteString> | |ps| <= MAX_LEAVES

  function SortPayloads(ps: Payloads): (sorted: Payloads)
    ensures |sorted| == |ps| && multiset(sorted) == multiset(ps)
  {
    Sort(LexLe, ps)
  }

  /** The preimage hashed into slot `i` of the leaf layer. */
  function SlotPreimage(id: Byte, sorted: Payloads, i: nat): ByteString
  {
    if i < |sorted| then LeafPreimage(id, i, sorted[i])
    else LeafPreimage(id, EMPTY_INDEX_SENTINEL, [])
  }

  /** Every preimage of the leaf layer: sorted payloads, then padding. */
  function Slots(id: Byte, sorted: Payloads): (slots: seq<ByteString>)
    ensures |slots| == Pow2(Depth(|sorted|))
    ensures forall i :: 0 <= i < |slots| ==> slots[i] == SlotPreimage(id, sorted, i)
  {
    seq(Pow2(Depth(|sorted|)), (i: int) requires 0 <= i => SlotPreimage(id, sorted, i))
  }

  function HashAll(H: HashFn, preimages: seq<ByteString>): (hashes: seq<Hash>)
    ensures |hashes| == |preimages|
    ensures forall i :: 0 <= i < |hashes| ==> hashes[i] == H(preimages[i])
  {
    if preimages == [] then [] else [H(preimages[0])] + HashAll(H, preimages[1..])
  }

  function V1Leaves(H: HashFn, id: Byte, sorted: Payloads): (leaves: seq<Hash>)
    ensures |leaves| == Pow2(Depth(|sorted|))
  {
    HashAll(H, Slots(id, sorted))
  }

  /** The root published for a payload list. */
  function V1Root(H: HashFn, id: Byte, ps: Payloads): Hash {
    Root(NodeHash(H), Depth(|ps|), V1Leaves(H, id, SortPayloads(ps)))
  }

  /** The leaf layer shared by `build_v1` and `sha3_root_of_v1`. */
  method HashLeaves(H: HashFn, id: Byte, sorted: Payloads) returns (leaves: seq<Hash>)
    ensures leaves == V1Leaves(H, id, sorted)
  {
    var hashed: seq<Hash> := [];
    for i := 0 to |sorted|
      invariant |hashed| == i
      invariant forall k :: 0 <= k < i ==> hashed[k] == LeafHash(H, id, k, sorted[k])
    {
      hashed := hashed + [LeafHash(H, id, i, sorted[i])];
    }
    leaves := PadLeaves(hashed, LeafHash(H, id, EMPTY_INDEX_SENTINEL, []));
    forall k | 0 <= k < |leaves|
      ensures leaves[k] == V1Leaves(H, id, sorted)[k]
    {
      if k < |sorted| {
        assert leaves[k] == hashed[k] == LeafHash(H, id, k, sorted[k]);
      } else {
        assert leaves[k] == LeafHash(H, id, EMPTY_INDEX_SENTINEL, []);
      }
    }
  }

  /** A sorted list without equal neighbours has no equal payloads. */
  lemma {:induction false} NeighboursDecide(s: seq<ByteString>)
    requires Sorted(LexLe, s)
    requires forall k :: 0 <= k < |s| - 1 ==> s[k] != s[k + 1]
    ensures Distinct(s)
  {
    forall i, j | 0 <= i < j < |s|
      ensures s[i] != s[j]
    {
      if s[i] == s[j] && i + 1 < j {
        LexAntisymmetric(s[i], s[i + 1]);
      }
    }
  }

  lemma {:induction false} SortedPayloads(ps: Payloads)
    ensures Sorted(LexLe, SortPayloads(ps))
    ensures Distinct(SortPayloads(ps)) <==> Distinct(ps)
  {
    LexTotalOrder();
    SortSorted(LexLe, ps);
    DistinctPermutation(SortPayloads(ps), ps);
  }

  lemma {:induction false} DistinctAt<T>(s: seq<T>, i: nat, j: nat)
    requires Distinct(s) && i <= j < |s| && s[i] == s[j]
    ensures i == j
  {
  }

  /** The windows(2) scan, with the position reported for the first equal pair. */
  method FindDuplicate(sorted: Payloads) returns (r: Option<nat>)
    requires Sorted(LexLe, sorted)
    ensures r.None? <==> Distinct(sorted)
    ensures r.Some? ==> r.value + 1 < |sorted| && sorted[r.value] == sorted[r.value + 1]
    ensures r.Some? ==> Distinct(sorted[..r.value + 1])
  {
    var w := 0;
    while w + 1 < |sorted|
      invariant 0 <= w
      invariant forall k :: 0 <= k < w && k + 1 < |sorted| ==> sorted[k] != sorted[k + 1]
    {
      if sorted[w] == sorted[w + 1] {
        NeighboursDecide(sorted[..w + 1]);
        var index := 0;
        while sorted[index] != sorted[w + 1]
          invariant 0 <= index <= w
          decreases w - index
        {
          index := index + 1;
        }
        DistinctAt(sorted[..w + 1], index, w);
        return Some(index);
      }
      w := w + 1;
    }
    NeighboursDecide(sorted);
    return None;
  }

  /** `MerkleTree::build_v1`: refuses exactly the lists with two equal payloads,
      and otherwise builds the tree over the sorted, index-bound,
      sentinel-padded leaf layer. */
  method BuildV1(H: HashFn, id: Byte, ps: Payloads) returns (r: Result<MerkleTree, BuildError>)
    ensures r.Ok? <==> Distinct(ps)
    ensures r.Ok? ==> r.value.IsFold(NodeHash(H)) && r.value.leaves == V1Leaves(H, id, SortPayloads(ps))
    ensures r.Ok? ==> r.value.GetDepth() == Depth(|ps|) && r.value.layers[Depth(|ps|)] == [V1Root(H, id, ps)]
    ensures r.Err? ==> r.error.subTreeId == id && r.error.index + 1 < |ps| &&
                       var s := SortPayloads(ps);
                       s[r.error.index] == s[r.error.index + 1] && Distinct(s[..r.error.index + 1])
  {
    var sorted := SortPayloads(ps);
    SortedPayloads(ps);
    var duplicate := FindDuplicate(sorted);
    if duplicate.Some? {
      return Err(DuplicateLeafPayload(id, duplicate.value));
    }
    var leaves := HashLeaves(H, id, sorted);
    var layers := BuildLayers(NodeHash(H), leaves, Depth(|ps|));
    FoldEndsInRoot(NodeHash(H), layers, 0);
    return Ok(MerkleTree(leaves, layers));
  }

  /** `sha3_root_of_v1`: a second fold, with SHA3 nodes, over the same leaf layer. */
  method Sha3Root(H: HashFn, S: HashFn, id: Byte, ps: Payloads) returns (root: Hash)
    ensures root == Root(PlainNode(S), Depth(|ps|), V1Leaves(H, id, SortPayloads(ps)))
  {
    var leaves := HashLeaves(H, id, SortPayloads(ps));
    root := FoldToRoot(PlainNode(S), leaves, Depth(|ps|));
  }

  function SortHashes(input: seq<Hash>): (sorted: seq<Hash>)
    ensures |sorted| == |input| && multiset(sorted) == multiset(input)
  {
    var s := Sort<ByteString>(LexLe, input);
    SortMembers<ByteString>(LexLe, input);
    s
  }

  lemma {:induction false} HashesSorted(input: seq<Hash>)
    ensures Sorted<ByteString>(LexLe, SortHashes(input))
  {
    LexTotalOrder();
    SortSorted<ByteString>(LexLe, input);
    var s := Sort<ByteString>(LexLe, input);
    assert SortHashes(input) == s;
  }

  /** `build_legacy`: sorted pre-hashed leaves, zero padding, untagged nodes. */
  method BuildLegacy(H: HashFn, input: seq<Hash>) returns (t: MerkleTree)
    ensures t.IsFold(PlainNode(H)) && t.GetDepth() == Depth(|input|)
    ensures forall i :: 0 <= i < |t.leaves| ==>
              t.leaves[i] == if i < |input| then SortHashes(input)[i] else Zeros(32)
    ensures Sorted<ByteString>(LexLe, SortHashes(input))
  {
    HashesSorted(input);
    var leaves := PadLeaves(SortHashes(input), ZERO_HASH);
    var layers := BuildLayers(PlainNode(H), leaves, Depth(|input|));
    t := MerkleTree(leaves, layers);
  }

  // ----- Inclusion witnesses -----

  datatype InclusionWitness = InclusionWitness(leaf: Hash, leafIndex: U32, siblings: seq<Hash>)

  /** `InclusionWitness::build_at_index` */
  method BuildAtIndex(t: MerkleTree, leafIndex: U32, ghost node: Combine) returns (r: Option<InclusionWitness>)
    requires t.IsFold(node)
    ensures r.Some? <==> leafIndex < |t.leaves|
    ensures r.Some? ==> r.value.leafIndex == leafIndex && r.value.leaf == t.leaves[leafIndex]
    ensures r.Some? ==> |r.value.siblings| == t.GetDepth() &&
                        Walk(node, r.value.leaf, leafIndex, r.value.siblings) == Root(node, t.GetDepth(), t.leaves)
  {
    if leafIndex >= |t.leaves| { return None; }
    var siblings := CollectSiblings(t.layers, leafIndex, node);
    SiblingsWalkToRoot(node, t.GetDepth(), t.leaves, leafIndex);
    return Some(InclusionWitness(t.leaves[leafIndex], leafIndex, siblings));
  }

  ghost predicate FirstAt(leaves: seq<Hash>, leaf: Hash, k: nat) {
    k < |leaves| && leaves[k] == leaf && leaf !in leaves[..k]
  }

  /** `InclusionWitness::build`: the position of the leaf is cut to 32 bits. */
  method BuildForLeaf(t: MerkleTree, leaf: Hash, ghost node: Combine)
      returns (r: Option<InclusionWitness>, ghost position: nat)
    requires t.IsFold(node)
    ensures r.Some? <==> leaf in t.leaves
    ensures r.Some? ==>
              FirstAt(t.leaves, leaf, position) && r.value.leaf == leaf && r.value.leafIndex == position % TWO_32
    ensures r.Some? ==>
              var i, path := r.value.leafIndex, r.value.siblings;
              |path| == t.GetDepth() && Walk(node, t.leaves[i], i, path) == Root(node, t.GetDepth(), t.leaves)
  {
    var k := 0;
    while k < |t.leaves| && t.leaves[k] != leaf
      invariant k <= |t.leaves| && leaf !in t.leaves[..k]
    {
      k := k + 1;
    }
    position := k;
    if k == |t.leaves| {
      assert t.leaves[..k] == t.leaves;
      return None, position;
    }
    var leafIndex := k % TWO_32;
    var siblings := CollectSiblings(t.layers, leafIndex, node);
    SiblingsWalkToRoot(node, t.GetDepth(), t.leaves, leafIndex);
    return Some(InclusionWitness(leaf, leafIndex, siblings)), position;
  }

  /** `InclusionWitness::verify` */
  method VerifyWitness(H: HashFn, w: InclusionWitness, root: Hash) returns (ok: bool)
    ensures ok <==> |w.siblings| < 32 && w.leafIndex < Pow2(|w.siblings|) &&
                    Walk(PlainNode(H), w.leaf, w.leafIndex, w.siblings) == root
  {
    var depth := |w.siblings|;
    if depth >= 32 { return false; }
    var maxIndex := Pow2(depth);
    if w.leafIndex >= maxIndex { return false; }
    var current := ReplayPath(PlainNode(H), w.leaf, w.leafIndex, w.siblings);
    return current == root;
  }

  /** A legacy tree's own witness is accepted exactly when the tree is less than 32 deep. */
  method WitnessRoundTrip(H: HashFn, input: seq<Hash>, leafIndex: U32) returns (ok: bool)
    requires leafIndex < Pow2(Depth(|input|))
    ensures ok <==> Depth(|input|) < 32
  {
    var t := BuildLegacy(H, input);
    var w := BuildAtIndex(t, leafIndex, PlainNode(H));
    TreeRoot(t, PlainNode(H));
    ok := VerifyWitness(H, w.value, t.GetRoot());
  }
}
