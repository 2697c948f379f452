/** Batches of any size: what the lookup argument lets through when tuples are only
    counted in the field. */
module Unbounded {
  import opened Bytes
  import opened BabyBear
  import opened Compression
  import opened Circuit
  import opened Lookups
  import opened CircuitSoundness
  import opened TraceBuilder
  import opened LookupBalance
  import opened CircuitExact

  /** The tuple of a compression that is flagged as the first or the last of its chunk. */
  ghost predicate SentFor(B: Blake, input: Input, t: Felts) { input.flags[0] % 4 != 0 && t == TupleOf(B, input) }

  ghost predicate Sendable(B: Blake, t: Felts) { exists input: Input :: SentFor(B, input, t) }

  /** Every tuple that is not received a multiple of P times is that of a flagged compression. */
  ghost predicate OnlySendable(B: Blake, xs: seq<Interaction>) {
    forall t: Felts :: Weight(xs, t) != 0 ==> Sendable(B, t)
  }

  // ----- What valid rows send -----

  lemma {:induction false} LiveSource(xs: seq<Interaction>, t: Felts) returns (i: nat)
    requires Weight(xs, t) != 0
    ensures i < |xs| && xs[i].tuple == t && xs[i].mult != 0
  {
    if xs[0].tuple == t && xs[0].mult != 0 {
      i := 0;
    } else {
      i := LiveSource(xs[1..], t);
      i := i + 1;
    }
  }

  lemma {:induction false} PackLow(bits: Felts)
    requires |bits| == 8 && AllBits(bits)
    ensures Pack(bits, 8) % 4 == bits[0] + 2 * bits[1]
  {
    PackIsValue(bits, 8);
    assert bits[..8] == bits;
    var rest := BitsValue(bits[1..][1..]);
    assert BitsValue(bits) == bits[0] + 2 * (bits[1] + 2 * rest);
  }

  lemma {:induction false} FlagsSet(flags: Felts)
    requires |flags| == 32 && AllBits(flags) && EitherFlag(flags[0], flags[1]) != 0
    ensures PackBytes(flags)[0] % 4 != 0
  {
    PackLow(flags[..8]);
    assert flags[..8][0] == flags[0] && flags[..8][1] == flags[1];
  }

  lemma {:induction false} ValidSends(B: Blake, r: BlakeRow)
    requires ValidBlakeRow(B, r) && BlakeSend(r).mult != 0
    ensures Sendable(B, BlakeSend(r).tuple)
  {
    var input: Input, out: Hash :| RowComputes(B, r, input, out);
    FlagsSet(r.flags);
    assert SentFor(B, input, BlakeTuple(r));
  }

  lemma {:induction false} BalancedSends(B: Blake, xs: seq<Interaction>, rows: seq<BlakeRow>)
    requires AllValid(B, rows) && Balanced(xs, Sends(rows))
    ensures OnlySendable(B, xs)
  {
    forall t: Felts | Weight(xs, t) != 0
      ensures Sendable(B, t)
    {
      assert Weight(Sends(rows), t) != 0;
      var i := LiveSource(Sends(rows), t);
      SendAt(rows, i);
      ValidSends(B, rows[i]);
    }
  }

  // ----- Rows for any weights -----

  lemma {:induction false} SendsCons(r: BlakeRow, rows: seq<BlakeRow>)
    ensures Sends([r] + rows) == [BlakeSend(r)] + Sends(rows)
  {
    assert ([r] + rows)[1..] == rows;
  }

  /** `sent` has `n` more of the tuple `key` than `before`, and as much of every other. */
  ghost predicate MoreBy(before: seq<Interaction>, sent: seq<Interaction>, key: Felts, n: Felt) {
    forall t: Felts :: Weight(sent, t) == Add(if t == key then n else 0, Weight(before, t))
  }

  lemma {:induction false} AddOneMore(n: Felt, w: Felt)
    ensures Add(0, w) == w && (n + 1 < P ==> Add(1, Add(n, w)) == Add(n + 1, w))
  {
    AddAssoc(1, n, w);
  }

  lemma {:induction false} NoneMore(sent: seq<Interaction>, key: Felts)
    ensures MoreBy(sent, sent, key, 0)
  {
    forall t: Felts ensures Weight(sent, t) == Add(0, Weight(sent, t)) { AddOneMore(0, Weight(sent, t)); }
  }

  lemma {:induction false} OneMoreAt(before: seq<Interaction>, sent: seq<Interaction>, key: Felts, n: Felt, t: Felts)
    requires n + 1 < P && MoreBy(before, sent, key, n)
    ensures Weight([Interaction(key, 1)] + sent, t) == Add(if t == key then n + 1 else 0, Weight(before, t))
  {
    var w := Weight(before, t);
    WeightCons(Interaction(key, 1), sent, t);
    AddOneMore(n, w);
    AddOneMore(n, Weight(sent, t));
    assert Weight(sent, t) == Add(if t == key then n else 0, w);
  }

  lemma {:induction false} OneMore(before: seq<Interaction>, sent: seq<Interaction>, key: Felts, n: Felt,
                                   more: seq<Interaction>)
    requires n + 1 < P && MoreBy(before, sent, key, n) && more == [Interaction(key, 1)] + sent
    ensures MoreBy(before, more, key, n + 1)
  {
    forall t: Felts
      ensures Weight(more, t) == Add(if t == key then n + 1 else 0, Weight(before, t))
    {
      OneMoreAt(before, sent, key, n, t);
    }
  }

  lemma {:induction false} ConsValid(B: Blake, r: BlakeRow, rows: seq<BlakeRow>, all: seq<BlakeRow>)
    requires ValidBlakeRow(B, r) && AllValid(B, rows) && all == [r] + rows
    ensures AllValid(B, all) && Sends(all) == [BlakeSend(r)] + Sends(rows)
  {
    SendsCons(r, rows);
  }

  lemma {:induction false} CopyInFront(B: Blake, r: BlakeRow, key: Felts, n: Felt, before: seq<Interaction>,
                                       others: seq<BlakeRow>, all: seq<BlakeRow>)
    requires ValidBlakeRow(B, r) && BlakeSend(r) == Interaction(key, 1) && AllValid(B, others) && all == [r] + others
    requires n + 1 < P && MoreBy(before, Sends(others), key, n)
    ensures AllValid(B, all) && MoreBy(before, Sends(all), key, n + 1)
  {
    ConsValid(B, r, others, all);
    OneMore(before, Sends(others), key, n, Sends(all));
  }

  /** `n` copies of a row in front of others. */
  lemma {:induction false} CopiesInFront(B: Blake, r: BlakeRow, key: Felts, n: Felt, rows: seq<BlakeRow>)
      returns (all: seq<BlakeRow>)
    requires ValidBlakeRow(B, r) && BlakeSend(r) == Interaction(key, 1) && AllValid(B, rows)
    ensures AllValid(B, all) && MoreBy(Sends(rows), Sends(all), key, n)
    decreases n
  {
    if n == 0 {
      all := rows;
      NoneMore(Sends(rows), key);
    } else {
      var others := CopiesInFront(B, r, key, n - 1, rows);
      all := [r] + others;
      CopyInFront(B, r, key, n - 1, Sends(rows), others, all);
    }
  }

  /** Each of the tuples `keys` is sent as often as `xs` receives it, and nothing else is. */
  ghost predicate Serve(sent: seq<Interaction>, keys: seq<Felts>, xs: seq<Interaction>) {
    forall t: Felts :: Weight(sent, t) == if t in keys then Weight(xs, t) else 0
  }

  lemma {:induction false} ServeOneMore(before: seq<Interaction>, sent: seq<Interaction>, keys: seq<Felts>, key: Felts,
                                        xs: seq<Interaction>)
    requires Serve(before, keys, xs) && key !in keys && MoreBy(before, sent, key, Weight(xs, key))
    ensures Serve(sent, keys + [key], xs)
  {
  }

  lemma {:induction false} SendingRow(B: Blake, t: Felts) returns (r: BlakeRow)
    requires Sendable(B, t)
    ensures ValidBlakeRow(B, r) && BlakeSend(r) == Interaction(t, 1)
  {
    var input: Input :| SentFor(B, input, t);
    var c := CompressionRow(input, B.compress(input));
    FilledRowIsValid(B, c);
    r := FillBlakeRow(B, c);
  }

  lemma {:induction false} RowsForKey(B: Blake, xs: seq<Interaction>, key: Felts, rows: seq<BlakeRow>)
      returns (all: seq<BlakeRow>)
    requires OnlySendable(B, xs) && AllValid(B, rows)
    ensures AllValid(B, all) && MoreBy(Sends(rows), Sends(all), key, Weight(xs, key))
  {
    if Weight(xs, key) == 0 {
      all := rows;
      NoneMore(Sends(rows), key);
    } else {
      var r := SendingRow(B, key);
      all := CopiesInFront(B, r, key, Weight(xs, key), rows);
    }
  }

  lemma {:induction false} UnreceivedWeight(xs: seq<Interaction>, t: Felts)
    requires forall i :: 0 <= i < |xs| ==> xs[i].tuple != t
    ensures Weight(xs, t) == 0
  {
    if xs != [] { UnreceivedWeight(xs[1..], t); }
  }

  /** The tuples of the first `n` interactions, each once, and rows that send them as often as `xs` receives them. */
  lemma {:induction false} RowsForFirst(B: Blake, xs: seq<Interaction>, n: nat)
      returns (keys: seq<Felts>, rows: seq<BlakeRow>)
    requires n <= |xs| && OnlySendable(B, xs)
    ensures AllValid(B, rows) && Serve(Sends(rows), keys, xs) && forall i :: 0 <= i < n ==> xs[i].tuple in keys
  {
    keys, rows := [], [];
    if n > 0 {
      keys, rows := RowsForFirst(B, xs, n - 1);
      var key := xs[n - 1].tuple;
      if key !in keys {
        var all := RowsForKey(B, xs, key, rows);
        ServeOneMore(Sends(rows), Sends(all), keys, key, xs);
        keys, rows := keys + [key], all;
      }
    }
  }

  lemma {:induction false} SendableBalances(B: Blake, xs: seq<Interaction>) returns (rows: seq<BlakeRow>)
    requires OnlySendable(B, xs)
    ensures AllValid(B, rows) && Balanced(xs, Sends(rows))
  {
    var keys;
    keys, rows := RowsForFirst(B, xs, |xs|);
    forall t: Felts
      ensures Weight(xs, t) == Weight(Sends(rows), t)
    {
      if t !in keys { UnreceivedWeight(xs, t); }
    }
  }

  lemma {:induction false} SilentBalances(xs: seq<Interaction>, sent: seq<Interaction>, silent: Interaction)
    requires Balanced(xs, sent) && silent.mult == 0
    ensures Balanced(xs, [silent] + sent)
  {
    forall t: Felts
      ensures Weight(xs, t) == Weight([silent] + sent, t)
    {
      WeightCons(silent, sent, t);
    }
  }

  /** Tables for the claims, each for itself. */
  ghost predicate TablesFor(cs: seq<Claim>, ts: seq<seq<Row>>) {
    |ts| == |cs| && forall k :: 0 <= k < |ts| ==> Satisfies(ts[k], PublicsOf(cs[k])) && |ts[k]| < P
  }

  ghost predicate Lookable(B: Blake, cs: seq<Claim>, ts: seq<seq<Row>>) {
    TablesFor(cs, ts) && OnlySendable(B, AllReceives(B.iv, ts))
  }

  lemma {:induction false} LookableSatisfies(B: Blake, cs: seq<Claim>, ts: seq<seq<Row>>) returns (rows: seq<BlakeRow>)
    requires Lookable(B, cs, ts)
    ensures Satisfying(B, cs, ts, rows)
  {
    var silent := FillBlakeRow(B, DummyCompression(B));
    DummySilent(B);
    var others := SendableBalances(B, AllReceives(B.iv, ts));
    rows := [silent] + others;
    ConsValid(B, silent, others, rows);
    SilentBalances(AllReceives(B.iv, ts), Sends(others), BlakeSend(silent));
  }

  /** A batch of any size can be satisfied if and only if each claim has a table such that
      every tuple received, over all the tables, a number of times that P does not divide is
      the tuple of a flagged compression. */
  lemma {:induction false} SatisfiableIff(B: Blake, cs: seq<Claim>)
    ensures Satisfiable(B, cs) <==> exists ts: seq<seq<Row>> :: Lookable(B, cs, ts)
  {
    if Satisfiable(B, cs) {
      var ts: seq<seq<Row>>, rows: seq<BlakeRow> :| Satisfying(B, cs, ts, rows);
      BalancedSends(B, AllReceives(B.iv, ts), rows);
      assert Lookable(B, cs, ts);
    }
    if exists ts: seq<seq<Row>> :: Lookable(B, cs, ts) {
      var ts: seq<seq<Row>> :| Lookable(B, cs, ts);
      var rows := LookableSatisfies(B, cs, ts);
    }
  }
}
