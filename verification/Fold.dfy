/** The binary Merkle fold over an arbitrary node combiner: the layer-by-layer
    loop, the recursive root, sibling paths and walks along them. */
module Fold {
  import opened Arith

  /** The depth of a tree over `n` leaves: its leaf count `Pow2(d)` is the least
      power of two at least `max(n, 1)`. */
  function Depth(n: nat): (d: nat)
    ensures Pow2(d) >= n
    ensures d > 0 ==> Pow2(d - 1) < n
  {
    if n <= 1 then 0 else 1 + Depth((n + 1) / 2)
  }

  lemma {:induction false} DepthIsLeast(n: nat, k: nat)
    requires Pow2(k) >= n
    ensures Depth(n) <= k
  {
    if k + 1 <= Depth(n) { Pow2Monotone(k, Depth(n) - 1); }
  }

  /** Padding is needed exactly when the count is not a power of two. */
  lemma {:induction false} PaddedIff(n: nat)
    ensures n < Pow2(Depth(n)) <==> forall k: nat :: n != Pow2(k)
  {
    forall k: nat | n == Pow2(k)
      ensures n == Pow2(Depth(n))
    {
      DepthIsLeast(n, k);
      Pow2Monotone(Depth(n), k);
    }
  }

  /** One layer up: `chunks(2)` combined pair by pair. */
  function Pairwise<T>(node: (T, T) -> T, layer: seq<T>): (up: seq<T>)
    requires |layer| % 2 == 0
    ensures |up| == |layer| / 2
  {
    if layer == [] then [] else [node(layer[0], layer[1])] + Pairwise(node, layer[2..])
  }

  lemma {:induction false} PairwiseAt<T>(node: (T, T) -> T, layer: seq<T>, i: nat)
    requires |layer| % 2 == 0 && 2 * i < |layer|
    ensures Pairwise(node, layer)[i] == node(layer[2 * i], layer[2 * i + 1])
  {
    if i > 0 { PairwiseAt(node, layer[2..], i - 1); }
  }

  /** The root left when every layer has been folded. */
  function Root<T>(node: (T, T) -> T, d: nat, leaves: seq<T>): T
    requires |leaves| == Pow2(d)
  {
    if d == 0 then leaves[0] else Root(node, d - 1, Pairwise(node, leaves))
  }

  /** `layers` starts with the leaf layer and folds it one layer at a time, down
      to a layer of `Pow2(d)` nodes. */
  ghost predicate Folds<T>(node: (T, T) -> T, d: nat, layers: seq<seq<T>>) {
    && |layers| >= 1
    && (forall k :: 0 <= k < |layers| ==> |layers[k]| == Pow2(d + |layers| - 1 - k))
    && (forall k :: 0 <= k < |layers| - 1 ==> layers[k + 1] == Pairwise(node, layers[k]))
  }

  lemma {:induction false} PairwiseConcat<T>(node: (T, T) -> T, a: seq<T>, b: seq<T>)
    requires |a| % 2 == 0 && |b| % 2 == 0
    ensures Pairwise(node, a + b) == Pairwise(node, a) + Pairwise(node, b)
  {
    if a == [] {
      assert a + b == b;
    } else {
      var ab, rest := a + b, a[2..] + b;
      assert ab[0] == a[0] && ab[1] == a[1] && ab[2..] == rest;
      PairwiseConcat(node, a[2..], b);
      assert Pairwise(node, ab) == [node(a[0], a[1])] + Pairwise(node, rest);
      assert Pairwise(node, a) == [node(a[0], a[1])] + Pairwise(node, a[2..]);
    }
  }

  lemma {:induction false} RootUnfold<T>(node: (T, T) -> T, d: nat, leaves: seq<T>)
    requires d > 0 && |leaves| == Pow2(d)
    ensures Root(node, d, leaves) == Root(node, d - 1, Pairwise(node, leaves))
  {
  }

  /** The root combines the roots of the two halves of the leaf layer. */
  lemma {:induction false} RootSplits<T>(node: (T, T) -> T, d: nat, left: seq<T>, right: seq<T>)
    requires |left| == |right| == Pow2(d)
    ensures Root(node, d + 1, left + right) == node(Root(node, d, left), Root(node, d, right))
  {
    RootUnfold(node, d + 1, left + right);
    if d == 0 {
      PairwiseAt(node, left + right, 0);
    } else {
      PairwiseConcat(node, left, right);
      RootSplits(node, d - 1, Pairwise(node, left), Pairwise(node, right));
      RootUnfold(node, d, left);
      RootUnfold(node, d, right);
    }
  }

  /** Every layer of a fold has the same root; the last layer is that root alone. */
  lemma {:induction false} FoldEndsInRoot<T>(node: (T, T) -> T, layers: seq<seq<T>>, k: nat)
    requires Folds(node, 0, layers) && k < |layers|
    ensures layers[|layers| - 1] == [Root(node, |layers| - 1 - k, layers[k])]
    decreases |layers| - k
  {
    if k < |layers| - 1 {
      FoldEndsInRoot(node, layers, k + 1);
      RootUnfold(node, |layers| - 1 - k, layers[k]);
    }
  }

  /** `for chunk in layer.chunks(2)` */
  method FoldLayer<T>(node: (T, T) -> T, layer: seq<T>) returns (next: seq<T>)
    requires |layer| % 2 == 0
    ensures next == Pairwise(node, layer)
  {
    next := [];
    var i := 0;
    while i < |layer|
      invariant 0 <= i <= |layer| && i % 2 == 0 && |next| == i / 2
      invariant forall k :: 0 <= k < |next| ==> next[k] == Pairwise(node, layer)[k]
    {
      PairwiseAt(node, layer, i / 2);
      next := next + [node(layer[i], layer[i + 1])];
      i := i + 2;
    }
  }

  /** `while layers.last().len() > 1 { push the folded layer }` */
  method BuildLayers<T>(node: (T, T) -> T, leaves: seq<T>, ghost d: nat) returns (layers: seq<seq<T>>)
    requires |leaves| == Pow2(d)
    ensures |layers| == d + 1 && layers[0] == leaves
    ensures Folds(node, 0, layers)
  {
    layers := [leaves];
    ghost var k: nat := d;
    while |layers[|layers| - 1]| > 1
      invariant k <= d && |layers| == d - k + 1
      invariant layers[0] == leaves
      invariant Folds(node, k, layers)
      decreases k
    {
      assert k > 0;
      var next := FoldLayer(node, layers[|layers| - 1]);
      layers := layers + [next];
      k := k - 1;
    }
    assert k == 0;
  }

  lemma {:induction false} RootOfOne<T>(node: (T, T) -> T, d: nat, leaves: seq<T>)
    requires |leaves| == Pow2(d) && |leaves| <= 1
    ensures Root(node, d, leaves) == leaves[0]
  {
  }

  lemma {:induction false} RootOfMany<T>(node: (T, T) -> T, d: nat, leaves: seq<T>)
    requires |leaves| == Pow2(d) && |leaves| > 1
    ensures d > 0 && |leaves| == 2 * Pow2(d - 1)
    ensures Root(node, d, leaves) == Root(node, d - 1, Pairwise(node, leaves))
  {
  }

  /** The same loop, keeping only the current layer. */
  method FoldToRoot<T>(node: (T, T) -> T, leaves: seq<T>, ghost d: nat) returns (root: T)
    requires |leaves| == Pow2(d)
    ensures root == Root(node, d, leaves)
  {
    var current := leaves;
    ghost var k: nat, r := d, Root(node, d, leaves);
    while |current| > 1
      invariant |current| == Pow2(k)
      invariant Root(node, k, current) == r
      decreases k
    {
      RootOfMany(node, k, current);
      current := FoldLayer(node, current);
      k := k - 1;
    }
    RootOfOne(node, k, current);
    root := current[0];
  }

  /** Pads a leaf vector to the next power of two. */
  method PadLeaves<T>(leaves: seq<T>, pad: T) returns (padded: seq<T>)
    ensures |padded| == Pow2(Depth(|leaves|))
    ensures forall i :: 0 <= i < |padded| ==> padded[i] == if i < |leaves| then leaves[i] else pad
  {
    var target := Pow2(Depth(|leaves|));
    padded := leaves;
    while |padded| < target
      invariant |leaves| <= |padded| <= target
      invariant forall i :: 0 <= i < |padded| ==> padded[i] == if i < |leaves| then leaves[i] else pad
    {
      padded := padded + [pad];
    }
  }

  // ----- Paths -----

  function Step<T>(node: (T, T) -> T, x: T, index: nat, sibling: T): T {
    if index % 2 == 0 then node(x, sibling) else node(sibling, x)
  }

  /** The value reached from `leaf` at position `index` along `path`. */
  function Walk<T>(node: (T, T) -> T, leaf: T, index: nat, path: seq<T>): T
    decreases |path|
  {
    if path == [] then leaf
    else Walk(node, Step(node, leaf, index, path[0]), index / 2, path[1..])
  }

  /** Only the low bits of the index orient a walk. */
  lemma {:induction false} WalkLow<T>(node: (T, T) -> T, leaf: T, index: nat, path: seq<T>)
    ensures Walk(node, leaf, index, path) == Walk(node, leaf, Low(index, |path|), path)
    decreases |path|
  {
    if path != [] {
      var low := Low(index, |path|);
      assert low % 2 == index % 2 && low / 2 == Low(index / 2, |path| - 1);
      WalkLow(node, Step(node, leaf, index, path[0]), index / 2, path[1..]);
    }
  }

  /** A walk along a longer path takes one more step, oriented by the next bit. */
  lemma {:induction false} WalkSnoc<T>(node: (T, T) -> T, leaf: T, index: nat, path: seq<T>, last: T)
    ensures Walk(node, leaf, index, path + [last])
         == Step(node, Walk(node, leaf, index, path), Shift(index, |path|), last)
    decreases |path|
  {
    if path == [] {
      assert path + [last] == [last];
      assert [last][1..] == [];
    } else {
      WalkSnoc(node, Step(node, leaf, index, path[0]), index / 2, path[1..], last);
      assert (path + [last])[1..] == path[1..] + [last];
    }
  }

  /** `idx ^ 1` */
  function SiblingIndex(index: nat): nat {
    if index % 2 == 0 then index + 1 else index - 1
  }

  /** The sibling of every node on the way up from slot `index`. */
  function Siblings<T>(node: (T, T) -> T, d: nat, leaves: seq<T>, index: nat): (path: seq<T>)
    requires |leaves| == Pow2(d) && index < Pow2(d)
    ensures |path| == d
  {
    if d == 0 then
      []
    else
      [leaves[SiblingIndex(index)]] + Siblings(node, d - 1, Pairwise(node, leaves), index / 2)
  }

  lemma {:induction false} SiblingsUnfold<T>(node: (T, T) -> T, d: nat, leaves: seq<T>, index: nat)
    requires d > 0 && |leaves| == Pow2(d) && index < Pow2(d)
    ensures index / 2 < Pow2(d - 1) && SiblingIndex(index) < |leaves|
    ensures Siblings(node, d, leaves, index)
         == [leaves[SiblingIndex(index)]] + Siblings(node, d - 1, Pairwise(node, leaves), index / 2)
  {
  }

  lemma {:induction false} StepUp<T>(node: (T, T) -> T, layer: seq<T>, index: nat)
    requires |layer| % 2 == 0 && index < |layer|
    ensures SiblingIndex(index) < |layer|
    ensures Step(node, layer[index], index, layer[SiblingIndex(index)]) == Pairwise(node, layer)[index / 2]
  {
    var k := index / 2;
    assert if index % 2 == 0 then index == 2 * k && SiblingIndex(index) == 2 * k + 1
           else index == 2 * k + 1 && SiblingIndex(index) == 2 * k;
    PairwiseAt(node, layer, k);
  }

  lemma {:induction false} WalkCons<T>(node: (T, T) -> T, leaf: T, index: nat, sibling: T, path: seq<T>)
    ensures Walk(node, leaf, index, [sibling] + path)
         == Walk(node, Step(node, leaf, index, sibling), index / 2, path)
  {
    assert ([sibling] + path)[1..] == path;
  }

  /** Every slot's sibling path walks back to the root. */
  lemma {:induction false} SiblingsWalkToRoot<T>(node: (T, T) -> T, d: nat, leaves: seq<T>, index: nat)
    requires |leaves| == Pow2(d) && index < Pow2(d)
    ensures Walk(node, leaves[index], index, Siblings(node, d, leaves, index)) == Root(node, d, leaves)
  {
    if d > 0 {
      var up := Pairwise(node, leaves);
      SiblingsUnfold(node, d, leaves, index);
      StepUp(node, leaves, index);
      RootUnfold(node, d, leaves);
      WalkCons(node, leaves[index], index, leaves[SiblingIndex(index)],
               Siblings(node, d - 1, up, index / 2));
      SiblingsWalkToRoot(node, d - 1, up, index / 2);
    }
  }

  /** At an index of any size, the leaf at the slot of its low bits walks to the root. */
  lemma {:induction false} SlotWalks<T>(node: (T, T) -> T, d: nat, leaves: seq<T>, index: nat) returns (path: seq<T>)
    requires |leaves| == Pow2(d)
    ensures |path| == d && Walk(node, leaves[Low(index, d)], index, path) == Root(node, d, leaves)
  {
    path := Siblings(node, d, leaves, Low(index, d));
    SiblingsWalkToRoot(node, d, leaves, Low(index, d));
    WalkLow(node, leaves[Low(index, d)], index, path);
  }

  /** Collects `layer[idx ^ 1]` while halving the index. */
  method CollectSiblings<T>(layers: seq<seq<T>>, index: nat, ghost node: (T, T) -> T) returns (path: seq<T>)
    requires Folds(node, 0, layers) && index < |layers[0]|
    ensures path == Siblings(node, |layers| - 1, layers[0], index)
  {
    ghost var all := Siblings(node, |layers| - 1, layers[0], index);
    var idx: nat := index;
    path := [];
    for i := 0 to |layers| - 1
      invariant idx < |layers[i]|
      invariant path + Siblings(node, |layers| - 1 - i, layers[i], idx) == all
    {
      SiblingsUnfold(node, |layers| - 1 - i, layers[i], idx);
      path := path + [layers[i][SiblingIndex(idx)]];
      idx := idx / 2;
    }
  }

  /** Replays a path, combining by the parity of the halving index. */
  method ReplayPath<T>(node: (T, T) -> T, leaf: T, index: nat, path: seq<T>) returns (current: T)
    ensures current == Walk(node, leaf, index, path)
  {
    current := leaf;
    var idx: nat := index;
    for k := 0 to |path|
      invariant Walk(node, current, idx, path[k..]) == Walk(node, leaf, index, path)
    {
      assert path[k..][1..] == path[k + 1..];
      current := if idx % 2 == 0 then node(current, path[k]) else node(path[k], current);
      idx := idx / 2;
    }
  }
}
