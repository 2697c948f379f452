/** The BLAKE3 compression function in the two forms the prover runs: the
    in-place reference rounds, and the half-round schedule that fills a trace row.
    The two agree whatever the word operations are, so the words are a parameter. */
module Blake3 {

  /** Word type and operations: wrapping addition, exclusive or, rotation to the right. */
  datatype Arx<!W> = Arx(add: (W, W) -> W, xor: (W, W) -> W, rotr: (W, nat) -> W)

  // ----- Mixing one column -----

  datatype Quad<W> = Quad(a: W, b: W, c: W, d: W)

  /** `verifiable_half_round` */
  function HalfRound<W>(x: Arx<W>, q: Quad<W>, m: W, second: bool): Quad<W> {
    var rot1, rot2 := if second then 8 else 16, if second then 7 else 12;
    var a := x.add(x.add(q.a, q.b), m);
    var d := x.rotr(x.xor(q.d, a), rot1);
    var c := x.add(q.c, d);
    var b := x.rotr(x.xor(q.b, c), rot2);
    Quad(a, b, c, d)
  }

  /** Both halves of the quarter round. */
  function Mix<W>(x: Arx<W>, q: Quad<W>, mx: W, my: W): Quad<W> {
    HalfRound(x, HalfRound(x, q, mx, false), my, true)
  }

  /** The quarter round as the BLAKE3 paper writes it (section 2.2). */
  lemma {:induction false} MixMeaning<W>(x: Arx<W>, a: W, b: W, c: W, d: W, mx: W, my: W)
    ensures var a1 := x.add(x.add(a, b), mx);
            var d1 := x.rotr(x.xor(d, a1), 16);
            var c1 := x.add(c, d1);
            var b1 := x.rotr(x.xor(b, c1), 12);
            var a2 := x.add(x.add(a1, b1), my);
            var d2 := x.rotr(x.xor(d1, a2), 8);
            var c2 := x.add(c1, d2);
            var b2 := x.rotr(x.xor(b1, c2), 7);
            Mix(x, Quad(a, b, c, d), mx, my) == Quad(a2, b2, c2, d2)
  {
  }

  // ----- The specification of a round -----

  function Wrap(i: nat): (w: nat)
    requires i < 8
    ensures w < 4
  {
    if i < 4 then i else i - 4
  }

  /** Column `i` of the 4 by 4 state, or its diagonal `i` when `shift` is 1. */
  function Column<W>(s: seq<W>, shift: nat, i: nat): Quad<W>
    requires |s| == 16 && i < 4 && shift < 2
  {
    Quad(s[i], s[4 + Wrap(i + shift)], s[8 + Wrap(i + 2 * shift)], s[12 + Wrap(i + 3 * shift)])
  }

  /** The message word that half of column (or diagonal) `i` absorbs. */
  function MessageAt<W>(m: seq<W>, shift: nat, i: nat, second: bool): W
    requires |m| == 16 && shift < 2 && i < 4
  {
    m[8 * shift + 2 * i + if second then 1 else 0]
  }

  /** Four columns make a state. */
  lemma {:induction false} ColumnsDetermine<W>(s: seq<W>, t: seq<W>, shift: nat)
    requires |s| == |t| == 16 && shift < 2
    requires forall i :: 0 <= i < 4 ==> Column(s, shift, i) == Column(t, shift, i)
    ensures s == t
  {
    assert Column(s, shift, 0) == Column(t, shift, 0) && Column(s, shift, 1) == Column(t, shift, 1);
    assert Column(s, shift, 2) == Column(t, shift, 2) && Column(s, shift, 3) == Column(t, shift, 3);
  }

  /** `t` is `s` with every column (or diagonal) mixed. */
  ghost predicate Stepped<W>(x: Arx<W>, s: seq<W>, m: seq<W>, shift: nat, t: seq<W>)
    requires |s| == |m| == |t| == 16 && shift < 2
  {
    forall i :: 0 <= i < 4 ==>
      Column(t, shift, i) == Mix(x, Column(s, shift, i), MessageAt(m, shift, i, false), MessageAt(m, shift, i, true))
  }

  lemma {:induction false} SteppedUnique<W>(x: Arx<W>, s: seq<W>, m: seq<W>, shift: nat, t: seq<W>, t': seq<W>)
    requires |s| == |m| == |t| == |t'| == 16 && shift < 2
    requires Stepped(x, s, m, shift, t) && Stepped(x, s, m, shift, t')
    ensures t == t'
  {
    forall i | 0 <= i < 4 ensures Column(t, shift, i) == Column(t', shift, i) { }
    ColumnsDetermine(t, t', shift);
  }

  /** The state whose columns (or diagonals) are the given ones. */
  function Place<W>(shift: nat, q0: Quad<W>, q1: Quad<W>, q2: Quad<W>, q3: Quad<W>): (t: seq<W>)
    requires shift < 2
    ensures |t| == 16
    ensures Column(t, shift, 0) == q0 && Column(t, shift, 1) == q1 && Column(t, shift, 2) == q2
    ensures Column(t, shift, 3) == q3
  {
    if shift == 0 then
      [q0.a, q1.a, q2.a, q3.a, q0.b, q1.b, q2.b, q3.b, q0.c, q1.c, q2.c, q3.c, q0.d, q1.d, q2.d, q3.d]
    else
      [q0.a, q1.a, q2.a, q3.a, q3.b, q0.b, q1.b, q2.b, q2.c, q3.c, q0.c, q1.c, q1.d, q2.d, q3.d, q0.d]
  }

  /** The state with every column (or diagonal) mixed. */
  function Step<W>(x: Arx<W>, s: seq<W>, m: seq<W>, shift: nat): (t: seq<W>)
    requires |s| == |m| == 16 && shift < 2
    ensures |t| == 16
  {
    Place(shift,
          Mix(x, Column(s, shift, 0), MessageAt(m, shift, 0, false), MessageAt(m, shift, 0, true)),
          Mix(x, Column(s, shift, 1), MessageAt(m, shift, 1, false), MessageAt(m, shift, 1, true)),
          Mix(x, Column(s, shift, 2), MessageAt(m, shift, 2, false), MessageAt(m, shift, 2, true)),
          Mix(x, Column(s, shift, 3), MessageAt(m, shift, 3, false), MessageAt(m, shift, 3, true)))
  }

  lemma {:induction false} PlaceSteps<W>(x: Arx<W>, s: seq<W>, m: seq<W>, shift: nat, q0: Quad<W>, q1: Quad<W>,
                                         q2: Quad<W>, q3: Quad<W>)
    requires |s| == |m| == 16 && shift < 2
    requires q0 == Mix(x, Column(s, shift, 0), MessageAt(m, shift, 0, false), MessageAt(m, shift, 0, true))
    requires q1 == Mix(x, Column(s, shift, 1), MessageAt(m, shift, 1, false), MessageAt(m, shift, 1, true))
    requires q2 == Mix(x, Column(s, shift, 2), MessageAt(m, shift, 2, false), MessageAt(m, shift, 2, true))
    requires q3 == Mix(x, Column(s, shift, 3), MessageAt(m, shift, 3, false), MessageAt(m, shift, 3, true))
    ensures Stepped(x, s, m, shift, Place(shift, q0, q1, q2, q3))
  {
  }

  /** A state that is stepped from `s` is the step of `s`. */
  lemma {:induction false} SteppedIsStep<W>(x: Arx<W>, s: seq<W>, m: seq<W>, shift: nat, t: seq<W>)
    requires |s| == |m| == |t| == 16 && shift < 2 && Stepped(x, s, m, shift, t)
    ensures t == Step(x, s, m, shift)
  {
    PlaceSteps(x, s, m, shift,
               Mix(x, Column(s, shift, 0), MessageAt(m, shift, 0, false), MessageAt(m, shift, 0, true)),
               Mix(x, Column(s, shift, 1), MessageAt(m, shift, 1, false), MessageAt(m, shift, 1, true)),
               Mix(x, Column(s, shift, 2), MessageAt(m, shift, 2, false), MessageAt(m, shift, 2, true)),
               Mix(x, Column(s, shift, 3), MessageAt(m, shift, 3, false), MessageAt(m, shift, 3, true)));
    SteppedUnique(x, s, m, shift, t, Step(x, s, m, shift));
  }

  /** One round: columns, then diagonals. */
  function RoundOf<W>(x: Arx<W>, s: seq<W>, m: seq<W>): (t: seq<W>)
    requires |s| == |m| == 16
    ensures |t| == 16
  {
    Step(x, Step(x, s, m, 0), m, 1)
  }

  /** `permute`, by the table 2 6 3 10 7 0 4 13 1 11 12 5 9 14 15 8. */
  function Permute<W>(m: seq<W>): (p: seq<W>)
    requires |m| == 16
    ensures |p| == 16
  {
    [m[2], m[6], m[3], m[10], m[7], m[0], m[4], m[13], m[1], m[11], m[12], m[5], m[9], m[14], m[15], m[8]]
  }

  function PermuteTimes<W>(m: seq<W>, n: nat): (p: seq<W>)
    requires |m| == 16
    ensures |p| == 16
  {
    if n == 0 then m else Permute(PermuteTimes(m, n - 1))
  }

  /** The message words that rounds 2 to 7 absorb, in order: the permutation of section 2.2 of
      the BLAKE3 paper applied once to six times.  Round 1 takes them as they come. */
  lemma {:induction false} MessageSchedule<W>(m: seq<W>)
    requires |m| == 16
    ensures PermuteTimes(m, 1)
         == [m[2], m[6], m[3], m[10], m[7], m[0], m[4], m[13], m[1], m[11], m[12], m[5], m[9], m[14], m[15], m[8]]
    ensures PermuteTimes(m, 2)
         == [m[3], m[4], m[10], m[12], m[13], m[2], m[7], m[14], m[6], m[5], m[9], m[0], m[11], m[15], m[8], m[1]]
    ensures PermuteTimes(m, 3)
         == [m[10], m[7], m[12], m[9], m[14], m[3], m[13], m[15], m[4], m[0], m[11], m[2], m[5], m[8], m[1], m[6]]
    ensures PermuteTimes(m, 4)
         == [m[12], m[13], m[9], m[11], m[15], m[10], m[14], m[8], m[7], m[2], m[5], m[3], m[0], m[1], m[6], m[4]]
    ensures PermuteTimes(m, 5)
         == [m[9], m[14], m[11], m[5], m[8], m[12], m[15], m[1], m[13], m[3], m[0], m[10], m[2], m[6], m[4], m[7]]
    ensures PermuteTimes(m, 6)
         == [m[11], m[15], m[5], m[0], m[1], m[9], m[8], m[6], m[14], m[10], m[2], m[12], m[3], m[4], m[7], m[13]]
  {
    var p1 := Permute(m);
    var p2 := Permute(p1);
    var p3 := Permute(p2);
    var p4 := Permute(p3);
    var p5 := Permute(p4);
    assert p1 == PermuteTimes(m, 1);
    assert p2 == PermuteTimes(m, 2);
    assert p3 == PermuteTimes(m, 3);
    assert p4 == PermuteTimes(m, 4);
    assert p5 == PermuteTimes(m, 5);
    assert Permute(p5) == PermuteTimes(m, 6);
  }

  /** The state after `n` rounds, the message permuted after each. */
  function Rounds<W>(x: Arx<W>, s: seq<W>, m: seq<W>, n: nat): (t: seq<W>)
    requires |s| == |m| == 16
    ensures |t| == 16
  {
    if n == 0 then s else RoundOf(x, Rounds(x, s, m, n - 1), PermuteTimes(m, n - 1))
  }

  /** The state the rounds start from. */
  function InitialState<W>(iv: seq<W>, cv: seq<W>, low: W, high: W, blockLen: W, flags: W): (s: seq<W>)
    requires |iv| == |cv| == 8
    ensures |s| == 16
  {
    cv + iv[..4] + [low, high, blockLen, flags]
  }

  /** The feed-forward: both halves are combined, and the second with the chaining value. */
  function FeedForward<W>(x: Arx<W>, s: seq<W>, cv: seq<W>): (out: seq<W>)
    requires |s| == 16 && |cv| == 8
    ensures |out| == 16
    ensures forall k :: 0 <= k < 16 ==> out[k] == if k < 8 then x.xor(s[k], s[k + 8]) else x.xor(s[k], cv[k - 8])
  {
    seq(16, k requires 0 <= k < 16 => if k < 8 then x.xor(s[k], s[k + 8]) else x.xor(s[k], cv[k - 8]))
  }

  /** The sixteen output words of a compression. */
  function Compressed<W>(x: Arx<W>, iv: seq<W>, block: seq<W>, cv: seq<W>, low: W, high: W, blockLen: W, flags: W)
    : (out: seq<W>)
    requires |iv| == |cv| == 8 && |block| == 16
    ensures |out| == 16
  {
    FeedForward(x, Rounds(x, InitialState(iv, cv, low, high, blockLen, flags), block, 7), cv)
  }

  /** `t` is `s` with one column (or diagonal) mixed. */
  ghost predicate MixedOne<W>(x: Arx<W>, s: seq<W>, t: seq<W>, shift: nat, i: nat, mx: W, my: W)
    requires |s| == |t| == 16 && shift < 2 && i < 4
  {
    && Column(t, shift, i) == Mix(x, Column(s, shift, i), mx, my)
    && forall j :: 0 <= j < 4 && j != i ==> Column(t, shift, j) == Column(s, shift, j)
  }

  lemma {:induction false} FourMixed<W>(x: Arx<W>, s0: seq<W>, s1: seq<W>, s2: seq<W>, s3: seq<W>, s4: seq<W>,
                                        m: seq<W>, shift: nat)
    requires |s0| == |s1| == |s2| == |s3| == |s4| == |m| == 16 && shift < 2
    requires MixedOne(x, s0, s1, shift, 0, MessageAt(m, shift, 0, false), MessageAt(m, shift, 0, true))
    requires MixedOne(x, s1, s2, shift, 1, MessageAt(m, shift, 1, false), MessageAt(m, shift, 1, true))
    requires MixedOne(x, s2, s3, shift, 2, MessageAt(m, shift, 2, false), MessageAt(m, shift, 2, true))
    requires MixedOne(x, s3, s4, shift, 3, MessageAt(m, shift, 3, false), MessageAt(m, shift, 3, true))
    ensures Stepped(x, s0, m, shift, s4)
  {
  }

  // ----- The reference form -----

  /** Changing the positions of one column (or diagonal) leaves the others alone. */
  lemma {:induction false} OtherColumn<W>(s: seq<W>, t: seq<W>, shift: nat, i: nat, j: nat, a: nat, b: nat, c: nat,
                                          d: nat)
    requires |s| == |t| == 16 && shift < 2 && i < 4 && j < 4 && i != j
    requires a == i && b == 4 + Wrap(i + shift) && c == 8 + Wrap(i + 2 * shift) && d == 12 + Wrap(i + 3 * shift)
    requires forall k :: 0 <= k < 16 && k != a && k != b && k != c && k != d ==> t[k] == s[k]
    ensures Column(t, shift, j) == Column(s, shift, j)
  {
  }

  /** `g`: one quarter round in place.  The four positions are column (or diagonal) `i`. */
  method G<W>(x: Arx<W>, state: array<W>, a: nat, b: nat, c: nat, d: nat, mx: W, my: W, ghost shift: nat, ghost i: nat)
    requires state.Length == 16 && shift < 2 && i < 4
    requires a == i && b == 4 + Wrap(i + shift) && c == 8 + Wrap(i + 2 * shift) && d == 12 + Wrap(i + 3 * shift)
    modifies state
    ensures MixedOne(x, old(state[..]), state[..], shift, i, mx, my)
  {
    QuarterRound(x, state, a, b, c, d, mx, my);
    forall j | 0 <= j < 4 && j != i
      ensures Column(state[..], shift, j) == Column(old(state[..]), shift, j)
    {
      OtherColumn(old(state[..]), state[..], shift, i, j, a, b, c, d);
    }
  }

  /** The eight assignments of `g`. */
  method QuarterRound<W>(x: Arx<W>, state: array<W>, a: nat, b: nat, c: nat, d: nat, mx: W, my: W)
    requires state.Length == 16 && a < 4 <= b < 8 <= c < 12 <= d < 16
    modifies state
    ensures Quad(state[a], state[b], state[c], state[d])
         == Mix(x, Quad(old(state[a]), old(state[b]), old(state[c]), old(state[d])), mx, my)
    ensures forall k :: 0 <= k < 16 && k != a && k != b && k != c && k != d ==> state[k] == old(state[k])
  {
    state[a] := x.add(x.add(state[a], state[b]), mx);
    state[d] := x.rotr(x.xor(state[d], state[a]), 16);
    state[c] := x.add(state[c], state[d]);
    state[b] := x.rotr(x.xor(state[b], state[c]), 12);
    state[a] := x.add(x.add(state[a], state[b]), my);
    state[d] := x.rotr(x.xor(state[d], state[a]), 8);
    state[c] := x.add(state[c], state[d]);
    state[b] := x.rotr(x.xor(state[b], state[c]), 7);
  }

  /** `round`: the four columns, then the four diagonals. */
  method Round<W>(x: Arx<W>, state: array<W>, m: seq<W>)
    requires state.Length == 16 && |m| == 16
    modifies state
    ensures state[..] == RoundOf(x, old(state[..]), m)
  {
    ghost var s0 := state[..];
    G(x, state, 0, 4, 8, 12, m[0], m[1], 0, 0);
    ghost var s1 := state[..];
    G(x, state, 1, 5, 9, 13, m[2], m[3], 0, 1);
    ghost var s2 := state[..];
    G(x, state, 2, 6, 10, 14, m[4], m[5], 0, 2);
    ghost var s3 := state[..];
    G(x, state, 3, 7, 11, 15, m[6], m[7], 0, 3);
    ghost var mid := state[..];
    FourMixed(x, s0, s1, s2, s3, mid, m, 0);
    SteppedIsStep(x, s0, m, 0, mid);
    G(x, state, 0, 5, 10, 15, m[8], m[9], 1, 0);
    s1 := state[..];
    G(x, state, 1, 6, 11, 12, m[10], m[11], 1, 1);
    s2 := state[..];
    G(x, state, 2, 7, 8, 13, m[12], m[13], 1, 2);
    s3 := state[..];
    G(x, state, 3, 4, 9, 14, m[14], m[15], 1, 3);
    FourMixed(x, mid, s1, s2, s3, state[..], m, 1);
    SteppedIsStep(x, mid, m, 1, state[..]);
  }

  /** `compress` */
  method Compress<W>(x: Arx<W>, iv: seq<W>, block: seq<W>, cv: seq<W>, low: W, high: W, blockLen: W, flags: W)
      returns (state: array<W>)
    requires |iv| == |cv| == 8 && |block| == 16
    ensures fresh(state) && state.Length == 16 && state[..] == Compressed(x, iv, block, cv, low, high, blockLen, flags)
  {
    state := new W[] [cv[0], cv[1], cv[2], cv[3], cv[4], cv[5], cv[6], cv[7],
                      iv[0], iv[1], iv[2], iv[3], low, high, blockLen, flags];
    ghost var initial := InitialState(iv, cv, low, high, blockLen, flags);
    assert state[..] == initial;
    var m := block;
    for k := 0 to 7
      invariant m == PermuteTimes(block, k)
      invariant state[..] == Rounds(x, initial, block, k)
    {
      Round(x, state, m);
      m := Permute(m);
    }
    XorHalves(x, state, cv);
  }

  /** The last loop of `compress`. */
  method XorHalves<W>(x: Arx<W>, state: array<W>, cv: seq<W>)
    requires state.Length == 16 && |cv| == 8
    modifies state
    ensures state[..] == FeedForward(x, old(state[..]), cv)
  {
    for i := 0 to 8
      invariant forall k :: 0 <= k < i ==> state[k] == x.xor(old(state[k]), old(state[k + 8]))
      invariant forall k :: 8 <= k < i + 8 ==> state[k] == x.xor(old(state[k]), cv[k - 8])
      invariant forall k :: i <= k < 8 || i + 8 <= k < 16 ==> state[k] == old(state[k])
    {
      state[i] := x.xor(state[i], state[i + 8]);
      state[i + 8] := x.xor(state[i + 8], cv[i]);
    }
  }

  // ----- The trace-row form -----

  /** The 4 by 4 state, row by row. */
  function Flat<W>(state: array2<W>): (s: seq<W>)
    reads state
    requires state.Length0 == state.Length1 == 4
    ensures |s| == 16
  {
    [state[0, 0], state[0, 1], state[0, 2], state[0, 3], state[1, 0], state[1, 1], state[1, 2], state[1, 3],
     state[2, 0], state[2, 1], state[2, 2], state[2, 3], state[3, 0], state[3, 1], state[3, 2], state[3, 3]]
  }

  function QuadAt<W>(state: array2<W>, shift: nat, i: nat): Quad<W>
    reads state
    requires state.Length0 == state.Length1 == 4 && shift < 2 && i < 4
  {
    Quad(state[0, i], state[1, Wrap(i + shift)], state[2, Wrap(i + 2 * shift)], state[3, Wrap(i + 3 * shift)])
  }

  lemma {:induction false} FlatColumn<W>(state: array2<W>, shift: nat, i: nat)
    requires state.Length0 == state.Length1 == 4 && shift < 2 && i < 4
    ensures Column(Flat(state), shift, i) == QuadAt(state, shift, i)
  {
  }

  /** Overwrites one column (or diagonal). */
  method PutQuad<W>(state: array2<W>, shift: nat, i: nat, q: Quad<W>)
    requires state.Length0 == state.Length1 == 4 && shift < 2 && i < 4
    modifies state
    ensures QuadAt(state, shift, i) == q
    ensures forall j :: 0 <= j < 4 && j != i ==> QuadAt(state, shift, j) == old(QuadAt(state, shift, j))
  {
    state[0, i] := q.a;
    state[1, Wrap(i + shift)] := q.b;
    state[2, Wrap(i + 2 * shift)] := q.c;
    state[3, Wrap(i + 3 * shift)] := q.d;
  }

  /** `after` is one half round of column (or diagonal) `i`. */
  ghost predicate HalvedAt<W>(x: Arx<W>, before: Quad<W>, m: seq<W>, shift: nat, i: nat, second: bool, after: Quad<W>)
    requires |m| == 16 && shift < 2 && i < 4
  {
    after == HalfRound(x, before, MessageAt(m, shift, i, second), second)
  }

  /** One of the four loops of `fill_round`: a half round on every column (or diagonal). */
  method HalfRounds<W>(x: Arx<W>, state: array2<W>, m: seq<W>, shift: nat, second: bool)
    requires state.Length0 == state.Length1 == 4 && |m| == 16 && shift < 2
    modifies state
    ensures forall j :: 0 <= j < 4 ==>
              HalvedAt(x, old(QuadAt(state, shift, j)), m, shift, j, second, QuadAt(state, shift, j))
  {
    for i := 0 to 4
      invariant forall j :: 0 <= j < i ==>
                  HalvedAt(x, old(QuadAt(state, shift, j)), m, shift, j, second, QuadAt(state, shift, j))
      invariant forall j :: i <= j < 4 ==> QuadAt(state, shift, j) == old(QuadAt(state, shift, j))
    {
      PutQuad(state, shift, i, HalfRound(x, QuadAt(state, shift, i), MessageAt(m, shift, i, second), second));
    }
  }

  /** `t` is `s` after one half round on every column (or diagonal). */
  ghost predicate HalfStepped<W>(x: Arx<W>, s: seq<W>, m: seq<W>, shift: nat, second: bool, t: seq<W>)
    requires |s| == |m| == |t| == 16 && shift < 2
  {
    forall i :: 0 <= i < 4 ==>
      Column(t, shift, i) == HalfRound(x, Column(s, shift, i), MessageAt(m, shift, i, second), second)
  }

  /** A half round, and the state saved after it. */
  method HalfStep<W>(x: Arx<W>, state: array2<W>, m: seq<W>, shift: nat, second: bool) returns (saved: seq<W>)
    requires state.Length0 == state.Length1 == 4 && |m| == 16 && shift < 2
    modifies state
    ensures saved == Flat(state) && HalfStepped(x, old(Flat(state)), m, shift, second, saved)
  {
    ghost var before := Flat(state);
    forall j | 0 <= j < 4 ensures Column(before, shift, j) == QuadAt(state, shift, j) { FlatColumn(state, shift, j); }
    HalfRounds(x, state, m, shift, second);
    saved := Flat(state);
    forall j | 0 <= j < 4 ensures Column(saved, shift, j) == QuadAt(state, shift, j) { FlatColumn(state, shift, j); }
  }

  lemma {:induction false} TwoHalves<W>(x: Arx<W>, s: seq<W>, m: seq<W>, shift: nat, mid: seq<W>, t: seq<W>)
    requires |s| == |m| == |mid| == |t| == 16 && shift < 2
    requires HalfStepped(x, s, m, shift, false, mid) && HalfStepped(x, mid, m, shift, true, t)
    ensures t == Step(x, s, m, shift)
  {
    forall i | 0 <= i < 4
      ensures Column(t, shift, i)
           == Mix(x, Column(s, shift, i), MessageAt(m, shift, i, false), MessageAt(m, shift, i, true))
    {
      assert Column(mid, shift, i) == HalfRound(x, Column(s, shift, i), MessageAt(m, shift, i, false), false);
    }
    SteppedIsStep(x, s, m, shift, t);
  }

  /** The states saved in the columns of one round: after each half round on the columns and on the diagonals. */
  ghost predicate Saved<W>(x: Arx<W>, s: seq<W>, m: seq<W>, saved: seq<seq<W>>)
    requires |s| == |m| == 16
  {
    && |saved| == 4 && (forall k :: 0 <= k < 4 ==> |saved[k]| == 16)
    && HalfStepped(x, s, m, 0, false, saved[0]) && HalfStepped(x, saved[0], m, 0, true, saved[1])
    && HalfStepped(x, saved[1], m, 1, false, saved[2]) && HalfStepped(x, saved[2], m, 1, true, saved[3])
  }

  /** The last state that a round saves is the round's result. */
  lemma {:induction false} SavedIsRound<W>(x: Arx<W>, s: seq<W>, m: seq<W>, saved: seq<seq<W>>)
    requires |s| == |m| == 16 && Saved(x, s, m, saved)
    ensures saved[3] == RoundOf(x, s, m)
  {
    TwoHalves(x, s, m, 0, saved[0], saved[1]);
    TwoHalves(x, saved[1], m, 1, saved[2], saved[3]);
  }

  /** `fill_round` */
  method FillRound<W>(x: Arx<W>, state: array2<W>, m: seq<W>) returns (saved: seq<seq<W>>)
    requires state.Length0 == state.Length1 == 4 && |m| == 16
    modifies state
    ensures Saved(x, old(Flat(state)), m, saved)
    ensures Flat(state) == RoundOf(x, old(Flat(state)), m)
  {
    ghost var before := Flat(state);
    var a := HalfStep(x, state, m, 0, false);
    var b := HalfStep(x, state, m, 0, true);
    var c := HalfStep(x, state, m, 1, false);
    var d := HalfStep(x, state, m, 1, true);
    saved := [a, b, c, d];
    SavedIsRound(x, before, m, saved);
  }

  method NewState<W>(s: seq<W>) returns (state: array2<W>)
    requires |s| == 16
    ensures fresh(state) && state.Length0 == state.Length1 == 4 && Flat(state) == s
  {
    state := new W[4, 4]((r, c) requires 0 <= r < 4 && 0 <= c < 4 => s[4 * r + c]);
  }

  /** The states saved in round `k`, which starts where the rounds before it ended. */
  ghost predicate SavedAt<W>(x: Arx<W>, initial: seq<W>, block: seq<W>, k: nat, saved: seq<seq<W>>)
    requires |initial| == |block| == 16
  {
    Saved(x, Rounds(x, initial, block, k), PermuteTimes(block, k), saved)
  }

  ghost predicate AllSaved<W>(x: Arx<W>, initial: seq<W>, block: seq<W>, saved: seq<seq<seq<W>>>)
    requires |initial| == |block| == 16
  {
    forall k :: 0 <= k < |saved| ==> SavedAt(x, initial, block, k, saved[k])
  }

  lemma {:induction false} SavedAmong<W>(x: Arx<W>, initial: seq<W>, block: seq<W>, saved: seq<seq<seq<W>>>, k: nat)
    requires |initial| == |block| == 16 && AllSaved(x, initial, block, saved) && k < |saved|
    ensures SavedAt(x, initial, block, k, saved[k])
  {
  }

  lemma {:induction false} AllSavedSnoc<W>(x: Arx<W>, initial: seq<W>, block: seq<W>, saved: seq<seq<seq<W>>>,
                                           last: seq<seq<W>>)
    requires |initial| == |block| == 16
    requires AllSaved(x, initial, block, saved) && SavedAt(x, initial, block, |saved|, last)
    ensures AllSaved(x, initial, block, saved + [last])
  {
    var all := saved + [last];
    forall k | 0 <= k < |all|
      ensures SavedAt(x, initial, block, k, all[k])
    {
      if k < |saved| {
        assert all[k] == saved[k];
        SavedAmong(x, initial, block, saved, k);
      } else {
        assert all[k] == last && k == |saved|;
      }
    }
  }

  /** Round `k`, with the message permuted for the next one. */
  method FillOneRound<W>(x: Arx<W>, state: array2<W>, m: seq<W>, ghost initial: seq<W>, ghost block: seq<W>,
                         ghost k: nat)
      returns (saved: seq<seq<W>>, next: seq<W>)
    requires state.Length0 == state.Length1 == 4 && |initial| == |block| == 16
    requires m == PermuteTimes(block, k) && Flat(state) == Rounds(x, initial, block, k)
    modifies state
    ensures SavedAt(x, initial, block, k, saved)
    ensures next == PermuteTimes(block, k + 1) && Flat(state) == Rounds(x, initial, block, k + 1)
  {
    saved := FillRound(x, state, m);
    next := Permute(m);
  }

  /** `fill_trace_row`: the states saved after every half round, and the output words. */
  method FillOutputs<W>(x: Arx<W>, iv: seq<W>, block: seq<W>, cv: seq<W>, low: W, high: W, blockLen: W, flags: W)
      returns (outputs: array<W>, saved: seq<seq<seq<W>>>)
    requires |iv| == |cv| == 8 && |block| == 16
    ensures fresh(outputs) && outputs.Length == 16
    ensures outputs[..] == Compressed(x, iv, block, cv, low, high, blockLen, flags)
    ensures |saved| == 7 && AllSaved(x, InitialState(iv, cv, low, high, blockLen, flags), block, saved)
  {
    var initial := InitialState(iv, cv, low, high, blockLen, flags);
    var state := NewState(initial);
    var m := block;
    saved := [];
    for k := 0 to 7
      invariant |saved| == k && AllSaved(x, initial, block, saved)
      invariant m == PermuteTimes(block, k)
      invariant Flat(state) == Rounds(x, initial, block, k)
    {
      var round: seq<seq<W>>;
      round, m := FillOneRound(x, state, m, initial, block, k);
      AllSavedSnoc(x, initial, block, saved, round);
      saved := saved + [round];
    }
    outputs := WriteOutputs(x, Flat(state), cv);
  }

  /** The last loop of `fill_trace_row`: four outputs per column of the flattened state. */
  method WriteOutputs<W>(x: Arx<W>, s: seq<W>, cv: seq<W>) returns (outputs: array<W>)
    requires |s| == 16 && |cv| == 8
    ensures fresh(outputs) && outputs.Length == 16 && outputs[..] == FeedForward(x, s, cv)
  {
    outputs := new W[16](k requires 0 <= k < 16 => s[k]);
    ghost var out := FeedForward(x, s, cv);
    for i := 0 to 4
      invariant forall k :: 0 <= k < i || 4 <= k < 4 + i || 8 <= k < 8 + i || 12 <= k < 12 + i ==> outputs[k] == out[k]
    {
      outputs[i] := x.xor(s[i], s[8 + i]);
      outputs[4 + i] := x.xor(s[4 + i], s[12 + i]);
      outputs[8 + i] := x.xor(s[8 + i], cv[i]);
      outputs[12 + i] := x.xor(s[12 + i], cv[4 + i]);
    }
  }
}
