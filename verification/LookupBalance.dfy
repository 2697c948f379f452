/** The Blake3 rows built for a batch send exactly what its membership tables receive. */
module LookupBalance {
  import opened Arith
  import opened Bytes
  import opened BabyBear
  import opened Fold
  import opened Compression
  import opened Circuit
  import opened Lookups
  import opened CircuitSoundness
  import opened TraceBuilder
  import opened BitColumns
  import opened CircuitCompleteness
  import opened Blake3Hash
  import opened Blake3Rows

  lemma {:induction false} FilledConcat<A, R>(fill: A -> R, a: seq<A>, b: seq<A>)
    ensures Filled(fill, a + b) == Filled(fill, a) + Filled(fill, b)
  {
    if b == [] {
      assert a + b == a;
    } else {
      var n := |b| - 1;
      FilledConcat(fill, a, b[..n]);
      assert (a + b)[..|a + b| - 1] == a + b[..n];
    }
  }

  lemma {:induction false} FilledOne<A, R>(fill: A -> R, x: A)
    ensures Filled(fill, [x]) == [fill(x)]
  {
    assert [x][..0] == [];
  }

  // ----- What a membership table receives -----

  /** The interaction that stands for a compression. */
  function SentBy(c: CompressionRow): Interaction {
    Interaction(Tuple(Felted(c.input.block), Felted(c.input.cv), Felted(c.input.counter), Felted(c.input.blockLen),
                      Felted(c.input.flags), Felted(c.output)), 1)
  }

  function AllSent(cs: seq<CompressionRow>): seq<Interaction> { Filled<CompressionRow, Interaction>(SentBy, cs) }

  lemma {:induction false} LeafColumns(iv: Hash, w: CheckedWitness, v: RealRowValues)
    requires |w.leafPayload| <= MAX_PAYLOAD && v.step < P && v.direction < 2
    ensures LeafBlock(FillRealRow(w, v))
         == LeafInput(iv, w.publicInputs.subTreeId, w.publicInputs.leafIndex, w.leafPayload).block
    ensures [Add(30, |w.leafPayload|), 0, 0, 0]
         == LeafInput(iv, w.publicInputs.subTreeId, w.publicInputs.leafIndex, w.leafPayload).blockLen
  {
    BEOfSmall(|w.leafPayload|, 7);
  }

  lemma {:induction false} LeafReceived(H: HashFn, B: Blake, w: CheckedWitness)
    requires HashesChunks(H, B) && Checked(H, w)
    ensures LeafTuple(B.iv, RowAt(H, B, w, 0)) == SentBy(LeafCompression(B, w)).tuple
  {
    LeafColumns(B.iv, w, ValuesAt(H, B, w, 0));
    LeafIsOneBlock(H, B, w.publicInputs.subTreeId, w.publicInputs.leafIndex, w.leafPayload);
  }

  lemma {:induction false} NodesReceived(iv: Hash, w: CheckedWitness, v: RealRowValues)
    requires |w.leafPayload| <= MAX_PAYLOAD && v.step < P && v.direction < 2
    ensures NodeFirstTuple(iv, FillRealRow(w, v))
         == SentBy(CompressionRow(NodeFirstInput(iv, v.left, v.right), v.mid)).tuple
    ensures NodeSecondTuple(FillRealRow(w, v))
         == SentBy(CompressionRow(NodeSecondInput(v.mid, v.right), v.current)).tuple
  {
  }

  lemma {:induction false} NodesSent(iv: Hash, v: RealRowValues)
    ensures AllSent(StepCompressions(iv, v))
         == if v.hasNode then [SentBy(CompressionRow(NodeFirstInput(iv, v.left, v.right), v.mid)),
                               SentBy(CompressionRow(NodeSecondInput(v.mid, v.right), v.current))]
            else []
  {
    if v.hasNode {
      var a := CompressionRow(NodeFirstInput(iv, v.left, v.right), v.mid);
      var b := CompressionRow(NodeSecondInput(v.mid, v.right), v.current);
      FilledOne<CompressionRow, Interaction>(SentBy, a);
      assert [a, b][..1] == [a];
    }
  }

  function LeafSent(B: Blake, w: CheckedWitness): seq<Interaction>
    requires |w.leafPayload| <= MAX_PAYLOAD
  {
    [SentBy(LeafCompression(B, w))]
  }

  lemma {:induction false} RowLive(H: HashFn, B: Blake, w: CheckedWitness, step: nat)
    requires HashesChunks(H, B) && Checked(H, w) && step < RealRows(|w.merklePath|)
    ensures Live(RowReceives(B.iv, RowAt(H, B, w, step)))
         == (if step == 0 then LeafSent(B, w) else []) + AllSent(StepCompressions(B.iv, ValuesAt(H, B, w, step)))
  {
    var l := RowAt(H, B, w, step);
    var r := RowReceives(B.iv, l);
    LiveThree(r[0], r[1], r[2]);
    if step == 0 { LeafReceived(H, B, w); }
    NodesReceived(B.iv, w, ValuesAt(H, B, w, step));
    NodesSent(B.iv, ValuesAt(H, B, w, step));
    assert Mul(1, 1) == 1 && Mul(1, 0) == 0;
  }

  lemma {:induction false} PaddingLive(iv: Hash)
    ensures Live(RowReceives(iv, PaddingRow())) == []
  {
    var r := RowReceives(iv, PaddingRow());
    LiveThree(r[0], r[1], r[2]);
  }

  lemma {:induction false} ReceivesSnoc(iv: Hash, t: seq<Row>, l: Row)
    ensures Receives(iv, t + [l]) == Receives(iv, t) + RowReceives(iv, l)
  {
    if t == [] {
      assert t + [l] == [l] && [l][1..] == [];
    } else {
      ReceivesSnoc(iv, t[1..], l);
      assert (t + [l])[1..] == t[1..] + [l];
    }
  }

  lemma {:induction false} LiveSnoc(iv: Hash, t: seq<Row>, l: Row)
    ensures Live(Receives(iv, t + [l])) == Live(Receives(iv, t)) + Live(RowReceives(iv, l))
  {
    ReceivesSnoc(iv, t, l);
    LiveConcat(Receives(iv, t), RowReceives(iv, l));
  }

  lemma {:induction false} RealRowsStep(iv: Hash, rows: seq<Row>, l: Row, leaf: seq<Interaction>,
                     before: seq<CompressionRow>, pushed: seq<CompressionRow>)
    requires Live(Receives(iv, rows)) == (if rows == [] then [] else leaf + AllSent(before))
    requires rows == [] ==> before == []
    requires Live(RowReceives(iv, l)) == (if rows == [] then leaf else []) + AllSent(pushed)
    ensures Live(Receives(iv, rows + [l])) == leaf + AllSent(before + pushed)
  {
    LiveSnoc(iv, rows, l);
    FilledConcat<CompressionRow, Interaction>(SentBy, before, pushed);
    Concat3(leaf, AllSent(before), AllSent(pushed));
  }

  lemma {:induction false} RealRowsLive(H: HashFn, B: Blake, w: CheckedWitness, n: nat)
    requires HashesChunks(H, B) && Checked(H, w) && 0 < n <= RealRows(|w.merklePath|)
    ensures Live(Receives(B.iv, RowsTo(H, B, w, n))) == LeafSent(B, w) + AllSent(NodeCompressions(H, B, w, n))
  {
    if n > 1 { RealRowsLive(H, B, w, n - 1); }
    RowLive(H, B, w, n - 1);
    RealRowsStep(B.iv, RowsTo(H, B, w, n - 1), RowAt(H, B, w, n - 1), LeafSent(B, w),
                 NodeCompressions(H, B, w, n - 1), StepCompressions(B.iv, ValuesAt(H, B, w, n - 1)));
  }

  lemma {:induction false} PaddedLive(iv: Hash, rows: seq<Row>, h: nat)
    requires |rows| <= h
    ensures Live(Receives(iv, Padded<Row>(rows, PaddingRow(), h))) == Live(Receives(iv, rows))
  {
    if h > |rows| {
      PaddedLive(iv, rows, h - 1);
      LiveSnoc(iv, Padded<Row>(rows, PaddingRow(), h - 1), PaddingRow());
      PaddingLive(iv);
    }
  }

  /** A built table receives exactly the compressions pushed for its witness, in order. */
  lemma {:induction false} TableLive(H: HashFn, B: Blake, w: CheckedWitness, t: seq<Row>)
    requires HashesChunks(H, B) && Checked(H, w) && BuiltTable(H, B, w, t)
    ensures Live(Receives(B.iv, t)) == AllSent(CompressionsOf(H, B, w))
  {
    var n := RealRows(|w.merklePath|);
    PaddedLive(B.iv, RowsTo(H, B, w, n), TraceHeight(n));
    RealRowsLive(H, B, w, n);
    var leaf := LeafCompression(B, w);
    FilledConcat<CompressionRow, Interaction>(SentBy, [leaf], NodeCompressions(H, B, w, n));
    FilledOne<CompressionRow, Interaction>(SentBy, leaf);
  }

  // ----- What the Blake3 table sends -----

  /** A compression a witness asked for: a genuine one, whose flags mark a first or last block. */
  ghost predicate Pushed(B: Blake, c: CompressionRow) {
    c.output == B.compress(c.input) && c.input.flags[0] % 4 != 0
  }

  ghost predicate AllPushed(B: Blake, cs: seq<CompressionRow>) { forall c :: c in cs ==> Pushed(B, c) }

  /** The columns of a filled row pack back to the compression. */
  lemma {:induction false} FilledRowPacks(c: CompressionRow)
    ensures var r := BlakeColumns(c);
            && PackBytes(r.block) == c.input.block && PackBytes(r.cv) == c.input.cv
            && PackBytes(r.counter) == c.input.counter && PackBytes(r.blockLen) == c.input.blockLen
            && PackBytes(r.flags) == c.input.flags && PackBytes(r.out) == c.output
  {
    PackByteBits(c.input.block);
    PackByteBits(c.input.cv);
    PackByteBits(c.input.counter);
    PackByteBits(c.input.blockLen);
    PackByteBits(c.input.flags);
    PackByteBits(c.output);
  }

  lemma {:induction false} FlagBits(flags: ByteString)
    requires |flags| > 0
    ensures ByteBits(flags)[0] == flags[0] % 2 && ByteBits(flags)[1] == flags[0] / 2 % 2
  {
    assert BitsOf(flags[0], 8)[1] == BitsOf(flags[0] / 2, 7)[0];
  }

  lemma {:induction false} EitherBit(a: Felt, b: Felt)
    requires IsBit(a) && IsBit(b)
    ensures EitherFlag(a, b) == if a == 1 || b == 1 then 1 else 0
  {
  }

  lemma {:induction false} LowTwoBits(f: nat)
    ensures f % 4 != 0 <==> f % 2 == 1 || f / 2 % 2 == 1
  {
  }

  lemma {:induction false} FlagMult(flags: ByteString)
    requires |flags| > 0
    ensures EitherFlag(ByteBits(flags)[0], ByteBits(flags)[1]) == if flags[0] % 4 != 0 then 1 else 0
  {
    FlagBits(flags);
    EitherBit(ByteBits(flags)[0], ByteBits(flags)[1]);
    LowTwoBits(flags[0]);
  }

  lemma {:induction false} RowSends(c: CompressionRow)
    ensures BlakeSend(BlakeColumns(c)).tuple == SentBy(c).tuple
    ensures BlakeSend(BlakeColumns(c)).mult == if c.input.flags[0] % 4 != 0 then 1 else 0
  {
    FilledRowPacks(c);
    FlagMult(c.input.flags);
  }

  lemma {:induction false} SameInput(a: Input, b: Input)
    requires a.block == b.block && a.cv == b.cv && a.counter == b.counter && a.blockLen == b.blockLen
    requires a.flags == b.flags
    ensures a == b
  {
  }

  lemma {:induction false} ComputesOnly(B: Blake, r: BlakeRow, c: CompressionRow, input: Input, out: Hash)
    requires PackBytes(r.block) == c.input.block && PackBytes(r.cv) == c.input.cv
    requires PackBytes(r.counter) == c.input.counter && PackBytes(r.blockLen) == c.input.blockLen
    requires PackBytes(r.flags) == c.input.flags && PackBytes(r.out) == c.output
    requires RowComputes(B, r, input, out)
    ensures c.output == B.compress(c.input)
  {
    SameInput(c.input, input);
  }

  /** The Blake3 AIR accepts the columns of a compression if and only if it is genuine. */
  lemma {:induction false} ColumnsAreValid(B: Blake, c: CompressionRow)
    ensures ValidBlakeRow(B, BlakeColumns(c)) <==> c.output == B.compress(c.input)
  {
    var r := BlakeColumns(c);
    FilledRowPacks(c);
    if c.output == B.compress(c.input) { assert RowComputes(B, r, c.input, c.output); }
    if ValidBlakeRow(B, r) {
      var input: Input, out: Hash :| RowComputes(B, r, input, out);
      ComputesOnly(B, r, c, input, out);
    }
  }

  /** A filled row is accepted whatever output its compression records, and sends the genuine one. */
  lemma {:induction false} FilledRowIsValid(B: Blake, c: CompressionRow)
    ensures ValidBlakeRow(B, FillBlakeRow(B, c))
    ensures BlakeSend(FillBlakeRow(B, c)).tuple == TupleOf(B, c.input)
    ensures BlakeSend(FillBlakeRow(B, c)).mult == if c.input.flags[0] % 4 != 0 then 1 else 0
  {
    ColumnsAreValid(B, CompressionRow(c.input, B.compress(c.input)));
    RowSends(CompressionRow(c.input, B.compress(c.input)));
  }

  lemma {:induction false} SendsSnoc(rows: seq<BlakeRow>, r: BlakeRow)
    ensures Sends(rows + [r]) == Sends(rows) + [BlakeSend(r)]
  {
    if rows == [] {
      assert rows + [r] == [r] && [r][1..] == [];
    } else {
      SendsSnoc(rows[1..], r);
      assert (rows + [r])[1..] == rows[1..] + [r];
    }
  }

  lemma {:induction false} LiveSendsSnoc(rows: seq<BlakeRow>, r: BlakeRow)
    ensures Live(Sends(rows + [r])) == Live(Sends(rows)) + if BlakeSend(r).mult != 0 then [BlakeSend(r)] else []
  {
    SendsSnoc(rows, r);
    LiveConcat(Sends(rows), [BlakeSend(r)]);
    LiveCons(BlakeSend(r), []);
  }

  lemma {:induction false} FilledSends(B: Blake, cs: seq<CompressionRow>)
    requires AllPushed(B, cs)
    ensures Live(Sends(FilledRows(B, cs))) == AllSent(cs)
  {
    if cs != [] {
      var n := |cs| - 1;
      FilledSends(B, cs[..n]);
      FilledRowIsValid(B, cs[n]);
      assert Pushed(B, cs[n]);
      LiveSendsSnoc(FilledRows(B, cs[..n]), FillBlakeRow(B, cs[n]));
    }
  }

  lemma {:induction false} PaddedSends(rows: seq<BlakeRow>, pad: BlakeRow, h: nat)
    requires |rows| <= h && BlakeSend(pad).mult == 0
    ensures Live(Sends(Padded<BlakeRow>(rows, pad, h))) == Live(Sends(rows))
  {
    if h > |rows| {
      var shorter := Padded<BlakeRow>(rows, pad, h - 1);
      PaddedSends(rows, pad, h - 1);
      assert Padded<BlakeRow>(rows, pad, h) == shorter + [pad];
      SilentSnoc(shorter, pad, shorter + [pad]);
    }
  }

  lemma {:induction false} SilentSnoc(rows: seq<BlakeRow>, pad: BlakeRow, all: seq<BlakeRow>)
    requires BlakeSend(pad).mult == 0 && all == rows + [pad]
    ensures Live(Sends(all)) == Live(Sends(rows))
  {
    LiveSendsSnoc(rows, pad);
  }

  // ----- A batch -----

  predicate SmallPayloads(ws: seq<CheckedWitness>) {
    forall i :: 0 <= i < |ws| ==> |ws[i].leafPayload| <= MAX_PAYLOAD
  }

  /** Every compression of a batch, in the order they are pushed. */
  function BatchCompressions(H: HashFn, B: Blake, ws: seq<CheckedWitness>): seq<CompressionRow>
    requires SmallPayloads(ws)
  {
    if ws == [] then [] else CompressionsOf(H, B, ws[0]) + BatchCompressions(H, B, ws[1..])
  }

  ghost predicate CheckedBatch(H: HashFn, ws: seq<CheckedWitness>) {
    SmallPayloads(ws) && forall i :: 0 <= i < |ws| ==> Checked(H, ws[i])
  }

  ghost predicate BuiltTables(H: HashFn, B: Blake, ws: seq<CheckedWitness>, ts: seq<seq<Row>>) {
    |ts| == |ws| && forall i :: 0 <= i < |ws| ==> BuiltTable(H, B, ws[i], ts[i])
  }

  lemma {:induction false} BatchLive(H: HashFn, B: Blake, ws: seq<CheckedWitness>, ts: seq<seq<Row>>)
    requires HashesChunks(H, B) && CheckedBatch(H, ws) && BuiltTables(H, B, ws, ts)
    ensures Live(AllReceives(B.iv, ts)) == AllSent(BatchCompressions(H, B, ws))
  {
    if ws != [] {
      assert CheckedBatch(H, ws[1..]) && BuiltTables(H, B, ws[1..], ts[1..]);
      TableLive(H, B, ws[0], ts[0]);
      BatchLive(H, B, ws[1..], ts[1..]);
      LiveConcat(Receives(B.iv, ts[0]), AllReceives(B.iv, ts[1..]));
      FilledConcat<CompressionRow, Interaction>(SentBy, CompressionsOf(H, B, ws[0]), BatchCompressions(H, B, ws[1..]));
    }
  }

  lemma {:induction false} StepPushed(H: HashFn, B: Blake, w: CheckedWitness, step: nat)
    requires step < RealRows(|w.merklePath|)
    ensures AllPushed(B, StepCompressions(B.iv, ValuesAt(H, B, w, step)))
  {
  }

  lemma {:induction false} NodesPushed(H: HashFn, B: Blake, w: CheckedWitness, n: nat)
    requires n <= RealRows(|w.merklePath|)
    ensures AllPushed(B, NodeCompressions(H, B, w, n))
  {
    if n > 0 {
      NodesPushed(H, B, w, n - 1);
      StepPushed(H, B, w, n - 1);
      PushedConcat(B, NodeCompressions(H, B, w, n - 1), StepCompressions(B.iv, ValuesAt(H, B, w, n - 1)));
    }
  }

  lemma {:induction false} PushedConcat(B: Blake, a: seq<CompressionRow>, b: seq<CompressionRow>)
    requires AllPushed(B, a) && AllPushed(B, b)
    ensures AllPushed(B, a + b)
  {
  }

  lemma {:induction false} WitnessPushed(H: HashFn, B: Blake, w: CheckedWitness)
    requires |w.leafPayload| <= MAX_PAYLOAD
    ensures AllPushed(B, CompressionsOf(H, B, w))
  {
    NodesPushed(H, B, w, RealRows(|w.merklePath|));
  }

  lemma {:induction false} BatchPushed(H: HashFn, B: Blake, ws: seq<CheckedWitness>)
    requires SmallPayloads(ws)
    ensures AllPushed(B, BatchCompressions(H, B, ws))
  {
    if ws != [] {
      WitnessPushed(H, B, ws[0]);
      BatchPushed(H, B, ws[1..]);
    }
  }

  lemma {:induction false} FilledAt<A, R>(fill: A -> R, items: seq<A>, i: nat)
    requires i < |items|
    ensures Filled(fill, items)[i] == fill(items[i])
  {
    if i < |items| - 1 { FilledAt(fill, items[..|items| - 1], i); }
  }

  function ZeroCompression(): CompressionRow {
    CompressionRow(RawInput(Zeros(64), Zeros(32), Zeros(8), Zeros(4), Zeros(4)), Zeros(32))
  }

  lemma {:induction false} ZeroByteBits(n: nat)
    ensures ByteBits(Zeros(n)) == Zeros(8 * n)
  {
    if n > 0 {
      assert Zeros(n)[1..] == Zeros(n - 1);
      ZeroByteBits(n - 1);
      ZeroBits(8);
    }
  }

  lemma {:induction false} ZeroBits(n: nat)
    ensures BitsOf(0, n) == Zeros(n)
  {
    if n > 0 { ZeroBits(n - 1); }
  }

  /** The unfilled row of an empty batch reads as zeros compressed to zeros. */
  lemma {:induction false} ZeroRowIsFilled()
    ensures ZeroBlakeRow() == BlakeColumns(ZeroCompression())
  {
    ZeroByteBits(64);
    ZeroByteBits(32);
    ZeroByteBits(8);
    ZeroByteBits(4);
  }

  ghost predicate ZeroRowComputes(B: Blake) {
    ZeroCompression().output == B.compress(ZeroCompression().input)
  }

  ghost predicate AllValid(B: Blake, rows: seq<BlakeRow>) {
    forall i :: 0 <= i < |rows| ==> ValidBlakeRow(B, rows[i])
  }

  lemma {:induction false} BlakeRowValid(B: Blake, cs: seq<CompressionRow>, rows: seq<BlakeRow>, i: nat)
    requires cs != [] && BuiltBlake(B, cs, rows) && i < |rows|
    ensures ValidBlakeRow(B, rows[i])
  {
    PaddedAt<BlakeRow>(FilledRows(B, cs), FillBlakeRow(B, DummyCompression(B)), Pow2(Depth(|cs|)), i);
    if i < |cs| {
      FilledAt<CompressionRow, BlakeRow>(Filler(B), cs, i);
      FilledRowIsValid(B, cs[i]);
    } else {
      FilledRowIsValid(B, DummyCompression(B));
    }
  }

  lemma {:induction false} OneRowValid(B: Blake, r: BlakeRow, rows: seq<BlakeRow>)
    requires rows == [r]
    ensures AllValid(B, rows) <==> ValidBlakeRow(B, r)
  {
    assert rows[0] == r;
  }

  lemma {:induction false} BlakeTableValid(B: Blake, cs: seq<CompressionRow>, rows: seq<BlakeRow>)
    requires BuiltBlake(B, cs, rows)
    ensures AllValid(B, rows) <==> cs != [] || ZeroRowComputes(B)
  {
    if cs == [] {
      ZeroRowIsFilled();
      ColumnsAreValid(B, ZeroCompression());
      OneRowValid(B, ZeroBlakeRow(), rows);
    } else {
      forall i | 0 <= i < |rows| ensures ValidBlakeRow(B, rows[i]) { BlakeRowValid(B, cs, rows, i); }
    }
  }

  lemma {:induction false} SilentRow(r: BlakeRow)
    requires BlakeSend(r).mult == 0
    ensures Live(Sends([r])) == []
  {
    LiveSendsSnoc([], r);
    assert [] + [r] == [r];
  }

  lemma {:induction false} PaddedBlakeLive(B: Blake, cs: seq<CompressionRow>, pad: BlakeRow, h: nat)
    requires AllPushed(B, cs) && |cs| <= h && BlakeSend(pad).mult == 0
    ensures Live(Sends(Padded<BlakeRow>(FilledRows(B, cs), pad, h))) == AllSent(cs)
  {
    FilledSends(B, cs);
    PaddedSends(FilledRows(B, cs), pad, h);
  }

  lemma {:induction false} SilentFlags(c: CompressionRow)
    requires c.input.flags[0] == 0
    ensures BlakeSend(BlakeColumns(c)).mult == 0
  {
    RowSends(c);
  }

  lemma {:induction false} BlakeTableLive(B: Blake, cs: seq<CompressionRow>, rows: seq<BlakeRow>)
    requires AllPushed(B, cs) && BuiltBlake(B, cs, rows)
    ensures Live(Sends(rows)) == AllSent(cs)
  {
    if cs == [] {
      ZeroRowIsFilled();
      SilentFlags(ZeroCompression());
      SilentRow(ZeroBlakeRow());
    } else {
      SilentFlags(DummyCompression(B));
      PaddedBlakeLive(B, cs, FillBlakeRow(B, DummyCompression(B)), Pow2(Depth(|cs|)));
    }
  }

  lemma {:induction false} BatchBalanced(B: Blake, ts: seq<seq<Row>>, cs: seq<CompressionRow>, rows: seq<BlakeRow>)
    requires Live(AllReceives(B.iv, ts)) == AllSent(cs) && AllPushed(B, cs) && BuiltBlake(B, cs, rows)
    ensures Balanced(AllReceives(B.iv, ts), Sends(rows))
  {
    BlakeTableLive(B, cs, rows);
    SameLiveBalances(AllReceives(B.iv, ts), Sends(rows));
  }

  ghost predicate AllSatisfied(ws: seq<CheckedWitness>, ts: seq<seq<Row>>)
    requires |ts| == |ws|
  {
    forall i :: 0 <= i < |ws| ==> Satisfies(ts[i], PublicsFor(ws[i]))
  }

  ghost predicate AllProvable(ws: seq<CheckedWitness>) { forall i :: 0 <= i < |ws| ==> Provable(ws[i]) }

  lemma {:induction false} BatchSatisfied(H: HashFn, B: Blake, ws: seq<CheckedWitness>, ts: seq<seq<Row>>)
    requires HashesChunks(H, B) && CheckedBatch(H, ws) && BuiltTables(H, B, ws, ts)
    ensures AllSatisfied(ws, ts) <==> AllProvable(ws)
  {
    forall i | 0 <= i < |ws|
      ensures Satisfies(ts[i], PublicsFor(ws[i])) <==> Provable(ws[i])
    {
      TableCompleteness(H, B, ws[i], ts[i]);
    }
  }

  lemma {:induction false} NonEmptyBatch(H: HashFn, B: Blake, ws: seq<CheckedWitness>)
    requires SmallPayloads(ws)
    ensures BatchCompressions(H, B, ws) == [] <==> ws == []
  {
    if ws != [] { assert |CompressionsOf(H, B, ws[0])| > 0; }
  }

  /** Completeness for a whole batch.  The lookups balance for every batch; the
      membership tables are satisfied exactly when every witness is provable, and
      the Blake3 rows are valid exactly when the batch is not empty (or zeros
      happen to compress to zeros). */
  lemma {:induction false} BatchCompleteness(H: HashFn, B: Blake, ws: seq<CheckedWitness>, ts: seq<seq<Row>>,
                                             rows: seq<BlakeRow>)
    requires HashesChunks(H, B) && CheckedBatch(H, ws) && BuiltTables(H, B, ws, ts)
    requires BuiltBlake(B, BatchCompressions(H, B, ws), rows)
    ensures Balanced(AllReceives(B.iv, ts), Sends(rows))
    ensures AllSatisfied(ws, ts) <==> AllProvable(ws)
    ensures AllValid(B, rows) <==> ws != [] || ZeroRowComputes(B)
  {
    var cs := BatchCompressions(H, B, ws);
    BatchPushed(H, B, ws);
    BatchLive(H, B, ws, ts);
    BatchBalanced(B, ts, cs, rows);
    BatchSatisfied(H, B, ws, ts);
    NonEmptyBatch(H, B, ws);
    BlakeTableValid(B, cs, rows);
  }

  ghost predicate BuiltPrefix(H: HashFn, B: Blake, ws: seq<CheckedWitness>, ts: seq<seq<Row>>, n: nat) {
    |ts| == n <= |ws| && forall k :: 0 <= k < n ==> BuiltTable(H, B, ws[k], ts[k])
  }

  lemma {:induction false} PrefixSnoc(H: HashFn, B: Blake, ws: seq<CheckedWitness>, ts: seq<seq<Row>>, t: seq<Row>)
    requires |ts| < |ws| && BuiltPrefix(H, B, ws, ts, |ts|) && BuiltTable(H, B, ws[|ts|], t)
    ensures BuiltPrefix(H, B, ws, ts + [t], |ts| + 1)
  {
    forall k | 0 <= k <= |ts|
      ensures BuiltTable(H, B, ws[k], (ts + [t])[k])
    {
      if k < |ts| { assert (ts + [t])[k] == ts[k]; }
    }
  }

  lemma {:induction false} BatchStep(H: HashFn, B: Blake, ws: seq<CheckedWitness>, i: nat, before: seq<CompressionRow>)
    requires SmallPayloads(ws) && i < |ws|
    ensures before + BatchCompressions(H, B, ws[i..])
         == (before + CompressionsOf(H, B, ws[i])) + BatchCompressions(H, B, ws[i + 1..])
  {
    assert ws[i..][1..] == ws[i + 1..];
    Concat3(before, CompressionsOf(H, B, ws[i]), BatchCompressions(H, B, ws[i + 1..]));
  }

  lemma {:induction false} WholeBatch(H: HashFn, B: Blake, ws: seq<CheckedWitness>, cs: seq<CompressionRow>)
    requires SmallPayloads(ws)
    ensures [] + BatchCompressions(H, B, ws[0..]) == BatchCompressions(H, B, ws)
    ensures cs + BatchCompressions(H, B, ws[|ws|..]) == cs
  {
    assert ws[0..] == ws;
  }

  /** The loop of `build_traces`: one table per witness, one shared list of compressions. */
  method BuildMembershipTraces(B: Blake, ws: seq<CheckedWitness>, ghost H: HashFn)
      returns (ts: seq<seq<Row>>, compressions: seq<CompressionRow>)
    requires HashesChunks(H, B) && CheckedBatch(H, ws)
    ensures BuiltPrefix(H, B, ws, ts, |ws|) && compressions == BatchCompressions(H, B, ws)
  {
    ts, compressions := [], [];
    ghost var all := BatchCompressions(H, B, ws);
    WholeBatch(H, B, ws, all);
    for i := 0 to |ws|
      invariant BuiltPrefix(H, B, ws, ts, i)
      invariant compressions + BatchCompressions(H, B, ws[i..]) == all
    {
      BatchStep(H, B, ws, i, compressions);
      var t: seq<Row>;
      t, compressions := BuildMembershipTrace(B, ws[i], compressions, H);
      PrefixSnoc(H, B, ws, ts, t);
      ts := ts + [t];
    }
    WholeBatch(H, B, ws, compressions);
  }

  /** `build_traces` */
  method BuildTraces(B: Blake, ws: seq<CheckedWitness>, ghost H: HashFn)
      returns (ts: seq<seq<Row>>, blake: seq<BlakeRow>)
    requires ComputesAll(B) && HashesChunks(H, B) && CheckedBatch(H, ws)
    ensures BuiltTables(H, B, ws, ts) && BuiltBlake(B, BatchCompressions(H, B, ws), blake)
  {
    var compressions: seq<CompressionRow>;
    ts, compressions := BuildMembershipTraces(B, ws, H);
    blake := BuildBlakeTrace(B, compressions);
  }

  /** `build_traces` with what its result satisfies. */
  method BuildProvenTraces(B: Blake, ws: seq<CheckedWitness>, ghost H: HashFn)
      returns (ts: seq<seq<Row>>, rows: seq<BlakeRow>)
    requires ComputesAll(B) && HashesChunks(H, B) && CheckedBatch(H, ws)
    ensures |ts| == |ws| && Balanced(AllReceives(B.iv, ts), Sends(rows))
    ensures AllSatisfied(ws, ts) <==> AllProvable(ws)
    ensures AllValid(B, rows) <==> ws != [] || ZeroRowComputes(B)
  {
    ts, rows := BuildTraces(B, ws, H);
    BatchCompleteness(H, B, ws, ts, rows);
  }

  /** The same over the concrete compression, with BLAKE3 on one chunk as the hash. */
  method BuildStandardTraces(ws: seq<CheckedWitness>) returns (ts: seq<seq<Row>>, rows: seq<BlakeRow>)
    requires CheckedBatch(ChunkBlake3, ws)
    ensures |ts| == |ws| && Balanced(AllReceives(Standard().iv, ts), Sends(rows))
    ensures AllSatisfied(ws, ts) <==> AllProvable(ws)
    ensures AllValid(Standard(), rows) <==> ws != [] || ZeroRowComputes(Standard())
  {
    StandardComputes();
    ChunkBlake3Hashes();
    ts, rows := BuildProvenTraces(Standard(), ws, ChunkBlake3);
  }
}
