/** What the constraints can be satisfied for: a batch has satisfying tables if and only
    if every claim is attested, as long as it receives fewer tuples than the field has
    elements, and no longer. */
module CircuitExact {
  import opened Arith
  import opened Bytes
  import opened BabyBear
  import opened Fold
  import opened Merkle
  import opened Claims
  import opened Compression
  import opened Blake3Hash
  import opened Circuit
  import opened Lookups
  import opened CircuitSoundness
  import opened TraceBuilder
  import opened CircuitCompleteness
  import opened LookupBalance

  ghost predicate AllClaimsAttested(H: HashFn, cs: seq<Claim>) { forall k :: 0 <= k < |cs| ==> Attested(H, cs[k]) }

  // ----- A table for every attested claim -----

  /** A first row of depth 0 with the left column empty, as the constraint wants it. */
  function Mended(l: Row): Row { l.(left := Zeros(32)) }

  lemma {:induction false} MendedFits(H: HashFn, B: Blake, w: CheckedWitness)
    requires Checked(H, w) && w.merklePath == []
    ensures Fits(Mended(RowAt(H, B, w, 0)), PublicsFor(w), |w.leafPayload|)
  {
    var v := ValuesAt(H, B, w, 0);
    BuiltPayload(w, v);
    LastNodeIsRoot(H, w);
    FirstRowPacks(FillRealRow(w, v), w.publicInputs.leafIndex);
  }

  /** One real row and padding. */
  lemma {:induction false} OneRowSatisfies(l: Row, t: seq<Row>, pub: Publics, len: nat)
    requires Fits(l, pub, len) && FirstRowConstraints(l) && l.isLast == 1
    requires |t| > 1 && t[0] == l && forall i :: 0 < i < |t| ==> t[i] == PaddingRow()
    ensures Satisfies(t, pub)
  {
    PaddingRowIsPadding();
    forall i | 0 <= i < |t| ensures RowConstraints(t[i], pub) { RowHolds(t[i], pub, len); }
    forall i | 0 <= i < |t| - 1 ensures Transition(t[i], t[i + 1]) { StopRow(t[i], t[i + 1]); }
    ZeroHolds(0, 1);
    Assembled(t, pub);
  }

  /** The left column is not part of any live tuple of a row without a node. */
  lemma {:induction false} MendedRow(iv: Hash, l: Row)
    requires l.isReal == 1 && l.hasNode == 0
    ensures Live(RowReceives(iv, Mended(l))) == Live(RowReceives(iv, l))
  {
    var a, b := RowReceives(iv, l), RowReceives(iv, Mended(l));
    GateValues();
    assert a[0] == b[0] && a[1].mult == b[1].mult == 0 && a[2].mult == b[2].mult == 0;
    LiveThree(a[0], a[1], a[2]);
    LiveThree(b[0], b[1], b[2]);
  }

  lemma {:induction false} LiveFirst(iv: Hash, l: Row, rest: seq<Row>)
    ensures Live(Receives(iv, [l] + rest)) == Live(RowReceives(iv, l)) + Live(Receives(iv, rest))
  {
    assert ([l] + rest)[1..] == rest;
    LiveConcat(RowReceives(iv, l), Receives(iv, rest));
  }

  lemma {:induction false} MendedReceives(iv: Hash, l: Row, rest: seq<Row>)
    requires l.isReal == 1 && l.hasNode == 0
    ensures Live(Receives(iv, [Mended(l)] + rest)) == Live(Receives(iv, [l] + rest))
  {
    MendedRow(iv, l);
    LiveFirst(iv, l, rest);
    LiveFirst(iv, Mended(l), rest);
  }

  lemma {:induction false} HeightFits(n: nat)
    requires 0 < n < 256
    ensures TraceHeight(n) < P
  {
    assert Pow2(8) == 256 by { assert Pow2(4) == 16; }
    DepthIsLeast(n, 8);
    Pow2Monotone(Depth(n), 8);
  }

  /** What a table has to do for a witness: satisfy the constraints and receive the witness's compressions. */
  ghost predicate Serves(H: HashFn, B: Blake, w: CheckedWitness, t: seq<Row>)
    requires |w.leafPayload| <= MAX_PAYLOAD
  {
    && Satisfies(t, PublicsFor(w)) && |t| < P
    && Live(Receives(B.iv, t)) == AllSent(CompressionsOf(H, B, w))
  }

  lemma {:induction false} BuiltServes(H: HashFn, B: Blake, w: CheckedWitness, t: seq<Row>)
    requires HashesChunks(H, B) && Checked(H, w) && Provable(w) && BuiltTable(H, B, w, t)
    ensures Serves(H, B, w, t)
  {
    TableCompleteness(H, B, w, t);
    TableLive(H, B, w, t);
    HeightFits(RealRows(|w.merklePath|));
  }

  lemma {:induction false} MendedSatisfies(H: HashFn, B: Blake, w: CheckedWitness, built: seq<Row>)
    requires Checked(H, w) && w.merklePath == [] && BuiltTable(H, B, w, built)
    ensures |built| > 1 && built[0].isReal == 1 && built[0].hasNode == 0
    ensures Satisfies([Mended(built[0])] + built[1..], PublicsFor(w))
  {
    var t := [Mended(built[0])] + built[1..];
    MendedFits(H, B, w);
    BuiltRow(H, B, w, built, 0);
    forall i | 0 < i < |t|
      ensures t[i] == PaddingRow()
    {
      BuiltRow(H, B, w, built, i);
    }
    OneRowSatisfies(t[0], t, PublicsFor(w), |w.leafPayload|);
  }

  lemma {:induction false} MendedLive(iv: Hash, built: seq<Row>)
    requires |built| > 1 && built[0].isReal == 1 && built[0].hasNode == 0
    ensures Live(Receives(iv, [Mended(built[0])] + built[1..])) == Live(Receives(iv, built))
  {
    MendedReceives(iv, built[0], built[1..]);
    assert built == [built[0]] + built[1..];
  }

  lemma {:induction false} MendedServes(H: HashFn, B: Blake, w: CheckedWitness, built: seq<Row>)
    requires HashesChunks(H, B) && Checked(H, w) && w.merklePath == [] && BuiltTable(H, B, w, built)
    ensures |built| > 1 && Serves(H, B, w, [Mended(built[0])] + built[1..])
  {
    MendedSatisfies(H, B, w, built);
    MendedLive(B.iv, built);
    TableLive(H, B, w, built);
    HeightFits(1);
  }

  /** Every checked witness, of depth 0 too, has a satisfying table. */
  lemma {:induction false} WitnessTable(H: HashFn, B: Blake, w: CheckedWitness) returns (t: seq<Row>)
    requires HashesChunks(H, B) && Checked(H, w)
    ensures Serves(H, B, w, t)
  {
    var n := RealRows(|w.merklePath|);
    t := Padded<Row>(RowsTo(H, B, w, n), PaddingRow(), TraceHeight(n));
    if w.merklePath == [] {
      MendedServes(H, B, w, t);
      t := [Mended(t[0])] + t[1..];
    } else {
      BuiltServes(H, B, w, t);
    }
  }

  // ----- Batches -----

  ghost predicate AllServe(H: HashFn, B: Blake, ws: seq<CheckedWitness>, ts: seq<seq<Row>>)
    requires SmallPayloads(ws)
  {
    |ts| == |ws| && forall k :: 0 <= k < |ws| ==> Serves(H, B, ws[k], ts[k])
  }

  lemma {:induction false} WitnessTables(H: HashFn, B: Blake, ws: seq<CheckedWitness>) returns (ts: seq<seq<Row>>)
    requires HashesChunks(H, B) && CheckedBatch(H, ws)
    ensures AllServe(H, B, ws, ts)
  {
    ts := [];
    if ws != [] {
      var t := WitnessTable(H, B, ws[0]);
      var others := WitnessTables(H, B, ws[1..]);
      ts := [t] + others;
      forall k | 0 <= k < |ws|
        ensures Serves(H, B, ws[k], ts[k])
      {
        if k > 0 { assert Serves(H, B, ws[1..][k - 1], others[k - 1]); }
      }
    }
  }

  lemma {:induction false} ServedLive(H: HashFn, B: Blake, ws: seq<CheckedWitness>, ts: seq<seq<Row>>)
    requires SmallPayloads(ws) && AllServe(H, B, ws, ts)
    ensures Live(AllReceives(B.iv, ts)) == AllSent(BatchCompressions(H, B, ws))
  {
    if ws != [] {
      assert Serves(H, B, ws[0], ts[0]);
      ServedLive(H, B, ws[1..], ts[1..]);
      LiveConcat(Receives(B.iv, ts[0]), AllReceives(B.iv, ts[1..]));
      FilledConcat<CompressionRow, Interaction>(SentBy, CompressionsOf(H, B, ws[0]), BatchCompressions(H, B, ws[1..]));
    }
  }

  lemma {:induction false} DummySilent(B: Blake)
    ensures ValidBlakeRow(B, FillBlakeRow(B, DummyCompression(B)))
    ensures BlakeSend(FillBlakeRow(B, DummyCompression(B))).mult == 0
  {
    FilledRowIsValid(B, DummyCompression(B));
  }

  lemma {:induction false} OneSilentRow(B: Blake, row: BlakeRow)
    requires ValidBlakeRow(B, row) && BlakeSend(row).mult == 0
    ensures AllValid(B, [row]) && Live(Sends([row])) == []
  {
    OneRowValid(B, row, [row]);
    SilentRow(row);
  }

  /** Valid Blake3 rows that send exactly these compressions; a dummy row when there are none. */
  lemma {:induction false} BlakeRowsFor(B: Blake, cs: seq<CompressionRow>) returns (rows: seq<BlakeRow>)
    requires AllPushed(B, cs)
    ensures rows != [] && AllValid(B, rows) && Live(Sends(rows)) == AllSent(cs)
  {
    var dummy := FillBlakeRow(B, DummyCompression(B));
    if cs == [] {
      rows := [dummy];
      DummySilent(B);
      OneSilentRow(B, dummy);
    } else {
      rows := Padded<BlakeRow>(FilledRows(B, cs), dummy, Pow2(Depth(|cs|)));
      BlakeTableValid(B, cs, rows);
      BlakeTableLive(B, cs, rows);
    }
  }

  /** Tables that satisfy every constraint of a batch of claims. */
  ghost predicate Satisfying(B: Blake, cs: seq<Claim>, ts: seq<seq<Row>>, rows: seq<BlakeRow>) {
    && |ts| == |cs| && (forall k :: 0 <= k < |ts| ==> Satisfies(ts[k], PublicsOf(cs[k])) && |ts[k]| < P)
    && rows != [] && AllValid(B, rows)
    && Balanced(AllReceives(B.iv, ts), Sends(rows))
  }

  ghost predicate Satisfiable(B: Blake, cs: seq<Claim>) {
    exists ts: seq<seq<Row>>, rows: seq<BlakeRow> :: Satisfying(B, cs, ts, rows)
  }

  /** A witness for an attested claim. */
  function WitnessFor(H: HashFn, c: Claim, payload: ByteString, path: seq<Hash>): CheckedWitness {
    CheckedWitness(ClaimPublicInputs(c.subTreeId, c.leafIndex, c.treeDepth, c.root, Zeros(32), Zeros(32), Zeros(32)),
                   payload, path, LeafHash(H, c.subTreeId, c.leafIndex, payload))
  }

  ghost predicate Witnesses(H: HashFn, cs: seq<Claim>, ws: seq<CheckedWitness>) {
    |ws| == |cs| && forall k :: 0 <= k < |cs| ==> Checked(H, ws[k]) && ClaimOf(ws[k].publicInputs) == cs[k]
  }

  lemma {:induction false} AttestedWitnesses(H: HashFn, cs: seq<Claim>) returns (ws: seq<CheckedWitness>)
    requires AllClaimsAttested(H, cs)
    ensures Witnesses(H, cs, ws)
  {
    ws := [];
    if cs != [] {
      var payload: ByteString, path: seq<Hash> :| AttestedBy(H, cs[0], payload, path);
      var others := AttestedWitnesses(H, cs[1..]);
      ws := [WitnessFor(H, cs[0], payload, path)] + others;
      forall k | 0 <= k < |cs|
        ensures Checked(H, ws[k]) && ClaimOf(ws[k].publicInputs) == cs[k]
      {
        if k > 0 { assert ws[k] == others[k - 1] && cs[k] == cs[1..][k - 1]; }
      }
    }
  }

  lemma {:induction false} WitnessesSatisfy(H: HashFn, B: Blake, cs: seq<Claim>, ws: seq<CheckedWitness>)
      returns (ts: seq<seq<Row>>, rows: seq<BlakeRow>)
    requires HashesChunks(H, B) && Witnesses(H, cs, ws)
    ensures Satisfying(B, cs, ts, rows)
  {
    assert CheckedBatch(H, ws);
    ts := WitnessTables(H, B, ws);
    BatchPushed(H, B, ws);
    rows := BlakeRowsFor(B, BatchCompressions(H, B, ws));
    ServedLive(H, B, ws, ts);
    SameLiveBalances(AllReceives(B.iv, ts), Sends(rows));
    forall k | 0 <= k < |ts|
      ensures Satisfies(ts[k], PublicsOf(cs[k])) && |ts[k]| < P
    {
      assert Serves(H, B, ws[k], ts[k]);
    }
  }

  lemma {:induction false} SatisfiableAttests(H: HashFn, B: Blake, cs: seq<Claim>)
    requires HashesChunks(H, B) && Received(cs) < P && Satisfiable(B, cs)
    ensures AllClaimsAttested(H, cs)
  {
    var ts: seq<seq<Row>>, rows: seq<BlakeRow> :| Satisfying(B, cs, ts, rows);
    BatchSoundness(H, B, ts, cs, rows);
  }

  /** The circuit says exactly what it should: a batch that receives fewer tuples than
      the field has elements can be satisfied if and only if every claim is attested. */
  lemma {:induction false} BatchExact(H: HashFn, B: Blake, cs: seq<Claim>)
    requires HashesChunks(H, B) && Received(cs) < P
    ensures Satisfiable(B, cs) <==> AllClaimsAttested(H, cs)
  {
    if Satisfiable(B, cs) {
      SatisfiableAttests(H, B, cs);
    } else if AllClaimsAttested(H, cs) {
      var ws := AttestedWitnesses(H, cs);
      var ts, rows := WitnessesSatisfy(H, B, cs, ws);
      assert false;
    }
  }

  /** The same with the concrete compression, and BLAKE3 on one chunk as the hash. */
  lemma {:induction false} StandardExact(cs: seq<Claim>)
    requires Received(cs) < P
    ensures Satisfiable(Standard(), cs) <==> AllClaimsAttested(ChunkBlake3, cs)
  {
    ChunkBlake3Hashes();
    BatchExact(ChunkBlake3, Standard(), cs);
  }

  // ----- At the field size -----

  lemma {:induction false} ConstantChunks(H: HashFn, B: Blake, value: Hash)
    requires (forall b: ByteString :: H(b) == value) && forall i: Input :: B.compress(i) == value
    ensures HashesChunks(H, B)
  {
    forall b: ByteString ensures HashesChunk(H, B, b) { ConstantRest(B, B.iv, b, CHUNK_START, value); }
  }

  lemma {:induction false} ConstantRest(B: Blake, cv: Hash, b: ByteString, start: nat, value: Hash)
    requires start <= CHUNK_START && forall i: Input :: B.compress(i) == value
    ensures ChunkRest(B, cv, b, start) == value
    decreases |b|
  {
    if |b| > 64 { ConstantRest(B, B.compress(MakeInput(b[..64], cv, 64, start)), b[64..], 0, value); }
  }

  function Repeated(c: Claim, n: nat): (cs: seq<Claim>)
    ensures |cs| == n && forall k :: 0 <= k < n ==> cs[k] == c
  {
    if n == 0 then [] else [c] + Repeated(c, n - 1)
  }

  lemma {:induction false} RepeatedReceived(c: Claim, n: nat)
    ensures Received(Repeated(c, n)) == n * (1 + 2 * c.treeDepth)
  {
    if n > 0 {
      assert Repeated(c, n)[1..] == Repeated(c, n - 1);
      RepeatedReceived(c, n - 1);
      assert n * (1 + 2 * c.treeDepth) == (n - 1) * (1 + 2 * c.treeDepth) + (1 + 2 * c.treeDepth);
    }
  }

  /** Under a constant hash every walk ends where it starts. */
  lemma {:induction false} ConstantWalk(H: HashFn, index: nat, path: seq<Hash>, value: Hash)
    requires forall b: ByteString :: H(b) == value
    ensures Walk(NodeHash(H), value, index, path) == value
    decreases |path|
  {
    if path != [] {
      var sibling := path[0];
      assert H(NodePreimage(value, sibling)) == value && H(NodePreimage(sibling, value)) == value;
      ConstantWalk(H, index / 2, path[1..], value);
    }
  }

  /** Every claim has a satisfying table: the one made under the constant hash that is its root. */
  lemma {:induction false} ClaimTable(c: Claim) returns (t: seq<Row>)
    ensures Satisfies(t, PublicsOf(c)) && |t| < P
  {
    var H: HashFn, B := (b: ByteString) => c.root, Blake((i: Input) => c.root, c.root);
    ConstantChunks(H, B, c.root);
    var path := seq(c.treeDepth, _ => c.root);
    ConstantWalk(H, c.leafIndex, path, c.root);
    t := WitnessTable(H, B, WitnessFor(H, c, [], path));
  }

  /** P copies of any satisfying table, whatever its hash columns hold, satisfy a batch of P claims. */
  lemma {:induction false} CopiesSatisfy(B: Blake, c: Claim, t: seq<Row>, row: BlakeRow)
    requires Satisfies(t, PublicsOf(c)) && |t| < P
    requires AllValid(B, [row]) && Live(Sends([row])) == []
    ensures Satisfying(B, Repeated(c, P), Repeat(t, P), [row])
  {
    RepeatedBalance(B.iv, t);
    assert Live(Sends([])) == [];
    SameLiveBalances(Sends([]), Sends([row]));
  }

  lemma {:induction false} CopiesSatisfiable(B: Blake, c: Claim, t: seq<Row>)
    requires Satisfies(t, PublicsOf(c)) && |t| < P
    ensures Satisfiable(B, Repeated(c, P))
  {
    var row := FillBlakeRow(B, DummyCompression(B));
    DummySilent(B);
    OneSilentRow(B, row);
    CopiesSatisfy(B, c, t, row);
  }

  /** At P received tuples and beyond soundness is lost.  Whatever the compression, P copies
      of any claim have satisfying tables, which is right only if the claim is attested. */
  lemma {:induction false} FieldSizeFails(H: HashFn, B: Blake, c: Claim, cs: seq<Claim>)
    requires cs == Repeated(c, P)
    ensures Satisfiable(B, cs) && Received(cs) == P * (1 + 2 * c.treeDepth)
    ensures AllClaimsAttested(H, cs) <==> Attested(H, c)
  {
    RepeatedReceived(c, P);
    assert Satisfiable(B, cs) by {
      var t := ClaimTable(c);
      CopiesSatisfiable(B, c, t);
    }
    assert cs[0] == c;
  }

  /** The batches of at most `n` received tuples are decided rightly. */
  ghost predicate ExactUpTo(H: HashFn, B: Blake, n: nat) {
    forall cs: seq<Claim> :: Received(cs) <= n ==> (Satisfiable(B, cs) <==> AllClaimsAttested(H, cs))
  }

  /** The bound is tight: with an unattested claim to a one-item sub-tree at hand, the
      batches of at most `n` received tuples are decided rightly exactly when `n` is below P. */
  lemma {:induction false} BoundIsTight(H: HashFn, B: Blake, c: Claim, n: nat)
    requires HashesChunks(H, B) && c.treeDepth == 0 && !Attested(H, c)
    ensures ExactUpTo(H, B, n) <==> n < P
  {
    if n < P {
      forall cs: seq<Claim> | Received(cs) <= n
        ensures Satisfiable(B, cs) <==> AllClaimsAttested(H, cs)
      {
        BatchExact(H, B, cs);
      }
    } else {
      var cs := Repeated(c, P);
      FieldSizeFails(H, B, c, cs);
      assert Received(cs) <= n;
    }
  }
}
