/** What a v1 root binds.  The hash is arbitrary, so each claim reads "equal, or
    two different preimages with one hash value occur among the strings that the
    two computations hash". */
module MerkleBinding {
  import opened Arith
  import opened Bytes
  import opened Sorting
  import opened Fold
  import opened Merkle

  /** Two different strings, one from each set, with the same hash. */
  ghost predicate Collision(H: HashFn, A: set<ByteString>, B: set<ByteString>) {
    exists x, y :: x in A && y in B && x != y && H(x) == H(y)
  }

  // ----- Preimages -----

  lemma {:induction false} NodePreimageInjective(a: Hash, b: Hash, c: Hash, d: Hash)
    requires NodePreimage(a, b) == NodePreimage(c, d)
    ensures a == c && b == d
  {
    SplitEqual(DOMAIN_NODE + a, b, DOMAIN_NODE + c, d);
    SplitEqual(DOMAIN_NODE, a, DOMAIN_NODE, c);
  }

  lemma {:induction false} LeafPreimageInjective(id: Byte, i: U64, p: ByteString, id': Byte, i': U64, p': ByteString)
    requires |p| < TWO_64 && |p'| < TWO_64
    requires LeafPreimage(id, i, p) == LeafPreimage(id', i', p')
    ensures id == id' && i == i' && p == p'
  {
    Pow256Widths();
    SplitEqual(DOMAIN_LEAF + [id] + BE(i, 8) + BE(|p|, 8), p, DOMAIN_LEAF + [id'] + BE(i', 8) + BE(|p'|, 8), p');
    SplitEqual(DOMAIN_LEAF + [id] + BE(i, 8), BE(|p|, 8), DOMAIN_LEAF + [id'] + BE(i', 8), BE(|p'|, 8));
    SplitEqual(DOMAIN_LEAF + [id], BE(i, 8), DOMAIN_LEAF + [id'], BE(i', 8));
    SplitEqual(DOMAIN_LEAF, [id], DOMAIN_LEAF, [id']);
    BEInjective(i, i', 8);
  }

  /** The domain tag says which kind of preimage a string is. */
  predicate LeafTagged(x: ByteString) {
    |x| >= 13 && x[9] == DOMAIN_LEAF[9]
  }

  lemma {:induction false} TagsDiffer(id: Byte, i: U64, p: ByteString, left: Hash, right: Hash)
    ensures LeafTagged(LeafPreimage(id, i, p)) && !LeafTagged(NodePreimage(left, right))
  {
    var x, y := LeafPreimage(id, i, p), NodePreimage(left, right);
    assert x[9] == DOMAIN_LEAF[9];
    assert y[9] == DOMAIN_NODE[9];
  }

  // ----- The tree as a value -----

  datatype Tree = Leaf(preimage: ByteString) | Node(left: Tree, right: Tree)

  function RootOf(H: HashFn, t: Tree): Hash {
    match t
    case Leaf(x) => H(x)
    case Node(l, r) => H(NodePreimage(RootOf(H, l), RootOf(H, r)))
  }

  /** Every string hashed while computing the root. */
  function Inputs(H: HashFn, t: Tree): set<ByteString> {
    match t
    case Leaf(x) => {x}
    case Node(l, r) => {NodePreimage(RootOf(H, l), RootOf(H, r))} + Inputs(H, l) + Inputs(H, r)
  }

  predicate LeavesTagged(t: Tree) {
    match t
    case Leaf(x) => LeafTagged(x)
    case Node(l, r) => LeavesTagged(l) && LeavesTagged(r)
  }

  lemma {:induction false} NodeBinding(H: HashFn, a: Hash, b: Hash, c: Hash, d: Hash)
    requires H(NodePreimage(a, b)) == H(NodePreimage(c, d))
    ensures (a == c && b == d) || Collision(H, {NodePreimage(a, b)}, {NodePreimage(c, d)})
  {
    if NodePreimage(a, b) == NodePreimage(c, d) { NodePreimageInjective(a, b, c, d); }
  }

  /** Equal roots come from equal trees; the domain tags alone tell leaves from nodes. */
  lemma {:induction false} TreeBinding(H: HashFn, t: Tree, t': Tree)
    requires LeavesTagged(t) && LeavesTagged(t')
    requires RootOf(H, t) == RootOf(H, t')
    ensures t == t' || Collision(H, Inputs(H, t), Inputs(H, t'))
  {
    match (t, t')
    case (Leaf(x), Leaf(x')) =>
    case (Leaf(x), Node(l', r')) => TagsDiffer(0, 0, [], RootOf(H, l'), RootOf(H, r'));
    case (Node(l, r), Leaf(x')) => TagsDiffer(0, 0, [], RootOf(H, l), RootOf(H, r));
    case (Node(l, r), Node(l', r')) =>
      NodeBinding(H, RootOf(H, l), RootOf(H, r), RootOf(H, l'), RootOf(H, r'));
      if RootOf(H, l) == RootOf(H, l') && RootOf(H, r) == RootOf(H, r') {
        TreeBinding(H, l, l');
        TreeBinding(H, r, r');
      }
  }

  // ----- Walks against the tree -----

  function StepPreimage(x: Hash, index: nat, sibling: Hash): ByteString {
    if index % 2 == 0 then NodePreimage(x, sibling) else NodePreimage(sibling, x)
  }

  /** Every node preimage hashed along a path. */
  function WalkInputs(H: HashFn, leaf: Hash, index: nat, path: seq<Hash>): set<ByteString> {
    if path == [] then {}
    else
      var k := |path| - 1;
      {StepPreimage(Walk(NodeHash(H), leaf, index, path[..k]), Shift(index, k), path[k])}
      + WalkInputs(H, leaf, index, path[..k])
  }

  ghost predicate Perfect(t: Tree, d: nat) {
    match t
    case Leaf(_) => d == 0
    case Node(l, r) => d > 0 && Perfect(l, d - 1) && Perfect(r, d - 1)
  }

  /** The leaf that the low `d` bits of `index` name. */
  function LeafAt(t: Tree, d: nat, index: nat): ByteString
    requires Perfect(t, d)
  {
    match t
    case Leaf(x) => x
    case Node(l, r) => LeafAt(if Shift(index, d - 1) % 2 == 0 then l else r, d - 1, index)
  }

  /** A walk that reaches the root started at the leaf its index names. */
  lemma {:induction false} WalkBinding(H: HashFn, t: Tree, x: ByteString, index: nat, path: seq<Hash>)
    requires Perfect(t, |path|)
    requires Walk(NodeHash(H), H(x), index, path) == RootOf(H, t)
    ensures x == LeafAt(t, |path|, index)
         || Collision(H, Inputs(H, t), {x} + WalkInputs(H, H(x), index, path))
  {
    match t
    case Leaf(y) =>
    case Node(l, r) =>
      var k := |path| - 1;
      var mid := Walk(NodeHash(H), H(x), index, path[..k]);
      var i := Shift(index, k);
      WalkSnoc(NodeHash(H), H(x), index, path[..k], path[k]);
      assert path == path[..k] + [path[k]];
      if i % 2 == 0 {
        NodeBinding(H, RootOf(H, l), RootOf(H, r), mid, path[k]);
        if RootOf(H, l) == mid { WalkBinding(H, l, x, index, path[..k]); }
      } else {
        NodeBinding(H, RootOf(H, l), RootOf(H, r), path[k], mid);
        if RootOf(H, r) == mid { WalkBinding(H, r, x, index, path[..k]); }
      }
  }

  // ----- The tree that the builder folds -----

  function TreeOver(d: nat, pre: seq<ByteString>): (t: Tree)
    requires |pre| == Pow2(d)
    ensures Perfect(t, d)
  {
    if d == 0 then Leaf(pre[0])
    else Node(TreeOver(d - 1, pre[..Pow2(d - 1)]), TreeOver(d - 1, pre[Pow2(d - 1)..]))
  }

  lemma {:induction false} FoldIsTree(H: HashFn, d: nat, pre: seq<ByteString>, hashes: seq<Hash>)
    requires |pre| == |hashes| == Pow2(d)
    requires forall i :: 0 <= i < |pre| ==> hashes[i] == H(pre[i])
    ensures Root(NodeHash(H), d, hashes) == RootOf(H, TreeOver(d, pre))
  {
    if d > 0 {
      var h := Pow2(d - 1);
      FoldIsTree(H, d - 1, pre[..h], hashes[..h]);
      FoldIsTree(H, d - 1, pre[h..], hashes[h..]);
      RootSplits(NodeHash(H), d - 1, hashes[..h], hashes[h..]);
      assert hashes == hashes[..h] + hashes[h..];
    }
  }

  lemma {:induction false} TreeOverTagged(d: nat, pre: seq<ByteString>)
    requires |pre| == Pow2(d) && forall i :: 0 <= i < |pre| ==> LeafTagged(pre[i])
    ensures LeavesTagged(TreeOver(d, pre))
  {
    if d > 0 {
      TreeOverTagged(d - 1, pre[..Pow2(d - 1)]);
      TreeOverTagged(d - 1, pre[Pow2(d - 1)..]);
    }
  }

  lemma {:induction false} TreeOverInjective(d: nat, pre: seq<ByteString>, d': nat, pre': seq<ByteString>)
    requires |pre| == Pow2(d) && |pre'| == Pow2(d')
    requires TreeOver(d, pre) == TreeOver(d', pre')
    ensures d == d' && pre == pre'
  {
    if d > 0 && d' > 0 {
      var h, h' := Pow2(d - 1), Pow2(d' - 1);
      TreeOverInjective(d - 1, pre[..h], d' - 1, pre'[..h']);
      TreeOverInjective(d - 1, pre[h..], d' - 1, pre'[h'..]);
      assert pre == pre[..h] + pre[h..] && pre' == pre'[..h'] + pre'[h'..];
    }
  }

  lemma {:induction false} LeafAtSlot(d: nat, pre: seq<ByteString>, index: nat)
    requires |pre| == Pow2(d)
    ensures LeafAt(TreeOver(d, pre), d, index) == pre[Low(index, d)]
  {
    if d > 0 {
      TopBit(index, d - 1);
      LeafAtSlot(d - 1, pre[..Pow2(d - 1)], index);
      LeafAtSlot(d - 1, pre[Pow2(d - 1)..], index);
    }
  }

  /** The tree committed by `build_v1` over `ps`. */
  function V1Tree(id: Byte, ps: Payloads): Tree {
    TreeOver(Depth(|ps|), Slots(id, SortPayloads(ps)))
  }

  lemma {:induction false} V1TreeRoot(H: HashFn, id: Byte, ps: Payloads)
    ensures RootOf(H, V1Tree(id, ps)) == V1Root(H, id, ps)
  {
    FoldIsTree(H, Depth(|ps|), Slots(id, SortPayloads(ps)), V1Leaves(H, id, SortPayloads(ps)));
  }

  // ----- Position binding -----

  /** Payload `p` is the one recorded at index `i`. */
  ghost predicate Recorded(sorted: Payloads, i: U64, p: ByteString) {
    i < |sorted| && p == sorted[i]
  }

  /** A path of the tree's depth walks from the leaf hash of `(id, i, p)` to the root of `ps`. */
  ghost predicate Opens(H: HashFn, id: Byte, ps: Payloads, i: U64, p: ByteString, path: seq<Hash>) {
    |path| == Depth(|ps|) && Walk(NodeHash(H), LeafHash(H, id, i, p), i, path) == V1Root(H, id, ps)
  }

  /** The claim names the padding leaf of a tree that has one. */
  predicate NamesPadding(ps: Payloads, i: U64, p: ByteString) {
    i == EMPTY_INDEX_SENTINEL && p == [] && |ps| < Pow2(Depth(|ps|))
  }

  /** If a path opens the root of `ps` at `(id, i, p)`, then `p` is the `i`-th sorted
      payload, or the claim names a padding leaf, or a collision is at hand. */
  lemma {:induction false} PositionBinding(H: HashFn, id: Byte, ps: Payloads, i: U64, p: ByteString, path: seq<Hash>)
    requires |p| < TWO_64 && forall q :: q in ps ==> |q| < TWO_64
    requires Opens(H, id, ps, i, p, path)
    ensures Recorded(SortPayloads(ps), i, p)
         || NamesPadding(ps, i, p)
         || Collision(H, Inputs(H, V1Tree(id, ps)),
                      {LeafPreimage(id, i, p)} + WalkInputs(H, LeafHash(H, id, i, p), i, path))
  {
    var sorted := SortPayloads(ps);
    var d := Depth(|ps|);
    var x := LeafPreimage(id, i, p);
    V1TreeRoot(H, id, ps);
    WalkBinding(H, V1Tree(id, ps), x, i, path);
    LeafAtSlot(d, Slots(id, sorted), i);
    var j := Low(i, d);
    if x == SlotPreimage(id, sorted, j) {
      SortMembers(LexLe, ps);
      if j < |sorted| {
        LeafPreimageInjective(id, i, p, id, j, sorted[j]);
      } else {
        LeafPreimageInjective(id, i, p, id, EMPTY_INDEX_SENTINEL, []);
      }
    }
  }

  // ----- Openings beyond the item count -----

  lemma {:induction false} DepthFits(ps: Payloads)
    ensures Depth(|ps|) <= 63
  {
    Pow2Widths();
    assert Pow2(64) == 2 * Pow2(63);
    DepthIsLeast(|ps|, 63);
  }

  lemma {:induction false} SentinelSlot(d: nat)
    requires d <= 63
    ensures Low(EMPTY_INDEX_SENTINEL, d) == Pow2(d) - 1
  {
    Pow2Widths();
    LowOfOnes(64, d);
  }

  /** The sentinel's bits are all ones, so it lands on the last slot: padding, if there is any. */
  lemma {:induction false} PaddingOpens(H: HashFn, id: Byte, ps: Payloads) returns (path: seq<Hash>)
    requires |ps| < Pow2(Depth(|ps|))
    ensures Opens(H, id, ps, EMPTY_INDEX_SENTINEL, [], path)
  {
    var d, leaves := Depth(|ps|), V1Leaves(H, id, SortPayloads(ps));
    DepthFits(ps);
    SentinelSlot(d);
    assert leaves[Pow2(d) - 1] == LeafHash(H, id, EMPTY_INDEX_SENTINEL, []);
    path := SlotWalks(NodeHash(H), d, leaves, EMPTY_INDEX_SENTINEL);
  }

  /** The documentation wants indices from the item count on refused.  The root alone
      refuses them, up to an exhibited collision, if and only if the item count is a
      power of two: otherwise the padding leaf opens it. */
  lemma {:induction false} OutOfRangeIff(H: HashFn, id: Byte, ps: Payloads, i: U64, p: ByteString, path: seq<Hash>)
      returns (padding: seq<Hash>)
    requires |p| < TWO_64 && forall q :: q in ps ==> |q| < TWO_64
    ensures (forall k: nat :: |ps| != Pow2(k)) ==> Opens(H, id, ps, EMPTY_INDEX_SENTINEL, [], padding)
    ensures i >= |ps| && Opens(H, id, ps, i, p, path) ==>
              (forall k: nat :: |ps| != Pow2(k))
              || Collision(H, Inputs(H, V1Tree(id, ps)),
                           {LeafPreimage(id, i, p)} + WalkInputs(H, LeafHash(H, id, i, p), i, path))
  {
    padding := [];
    PaddedIff(|ps|);
    if |ps| < Pow2(Depth(|ps|)) { padding := PaddingOpens(H, id, ps); }
    if i >= |ps| && Opens(H, id, ps, i, p, path) { PositionBinding(H, id, ps, i, p, path); }
  }

  // ----- The root as a commitment to a set -----

  lemma {:induction false} SlotsTagged(id: Byte, sorted: Payloads)
    ensures LeavesTagged(TreeOver(Depth(|sorted|), Slots(id, sorted)))
  {
    forall i | 0 <= i < |Slots(id, sorted)|
      ensures LeafTagged(Slots(id, sorted)[i])
    {
      if i < |sorted| {
        TagsDiffer(id, i, sorted[i], ZERO_HASH, ZERO_HASH);
      } else {
        TagsDiffer(id, EMPTY_INDEX_SENTINEL, [], ZERO_HASH, ZERO_HASH);
      }
    }
    TreeOverTagged(Depth(|sorted|), Slots(id, sorted));
  }

  /** One payload slot decides identifier and payload: padding and payload slots never agree. */
  lemma {:induction false} SlotInjective(id: Byte, s: Payloads, id': Byte, s': Payloads, i: nat)
    requires SlotPreimage(id, s, i) == SlotPreimage(id', s', i)
    requires i < |s| ==> |s[i]| < TWO_64
    requires i < |s'| ==> |s'[i]| < TWO_64
    ensures id == id' && (i < |s| <==> i < |s'|) && (i < |s| ==> s[i] == s'[i])
  {
    if i < |s| && i < |s'| {
      LeafPreimageInjective(id, i, s[i], id', i, s'[i]);
    } else if i < |s| {
      LeafPreimageInjective(id, i, s[i], id', EMPTY_INDEX_SENTINEL, []);
    } else if i < |s'| {
      LeafPreimageInjective(id, EMPTY_INDEX_SENTINEL, [], id', i, s'[i]);
    } else {
      LeafPreimageInjective(id, EMPTY_INDEX_SENTINEL, [], id', EMPTY_INDEX_SENTINEL, []);
    }
  }

  lemma {:induction false} SlotsInjective(id: Byte, s: Payloads, id': Byte, s': Payloads)
    requires Slots(id, s) == Slots(id', s')
    requires forall q :: q in s ==> |q| < TWO_64
    requires forall q :: q in s' ==> |q| < TWO_64
    ensures id == id' && s == s'
  {
    var slots, slots' := Slots(id, s), Slots(id', s');
    forall i | 0 <= i < |slots|
      ensures id == id' && (i < |s| <==> i < |s'|) && (i < |s| ==> s[i] == s'[i])
    {
      assert slots[i] == slots'[i];
      SlotInjective(id, s, id', s', i);
    }
    SlotInjective(id, s, id', s', 0);
    var m := if |s| < |s'| then |s| else |s'|;
    if m < |slots| { SlotInjective(id, s, id', s', m); }
  }

  /** Two published roots are equal exactly when the sub-tree ids are equal and
      the payload lists are permutations of each other, unless a collision is at hand. */
  lemma {:induction false} SetCommitment(H: HashFn, id: Byte, ps: Payloads, id': Byte, ps': Payloads)
    requires forall q :: q in ps ==> |q| < TWO_64
    requires forall q :: q in ps' ==> |q| < TWO_64
    ensures id == id' && multiset(ps) == multiset(ps') ==> V1Root(H, id, ps) == V1Root(H, id', ps')
    ensures V1Root(H, id, ps) == V1Root(H, id', ps') ==>
              (id == id' && multiset(ps) == multiset(ps'))
              || Collision(H, Inputs(H, V1Tree(id, ps)), Inputs(H, V1Tree(id', ps')))
  {
    var s, s' := SortPayloads(ps), SortPayloads(ps');
    SortedPayloads(ps);
    SortedPayloads(ps');
    if multiset(ps) == multiset(ps') {
      forall x, y | x in s && y in s && LexLe(x, y) && LexLe(y, x) ensures x == y { LexAntisymmetric(x, y); }
      SortedUnique(LexLe, s, s');
    }
    if V1Root(H, id, ps) == V1Root(H, id', ps') {
      SlotsTagged(id, s);
      SlotsTagged(id', s');
      V1TreeRoot(H, id, ps);
      V1TreeRoot(H, id', ps');
      TreeBinding(H, V1Tree(id, ps), V1Tree(id', ps'));
      if V1Tree(id, ps) == V1Tree(id', ps') {
        TreeOverInjective(Depth(|ps|), Slots(id, s), Depth(|ps'|), Slots(id', s'));
        SortMembers(LexLe, ps);
        SortMembers(LexLe, ps');
        SlotsInjective(id, s, id', s');
      }
    }
  }
}
