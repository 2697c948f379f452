/** What whole runs of committed entries do: replicas agree however entries are
    batched, and a snapshot stands for the entries before it. */
module LedgerRuns {
  import opened Bytes
  import opened Ledger
  import opened LedgerWriter

  // ----- Batching -----

  lemma {:induction false} EntriesSplit(env: Env, s: State, a: seq<Entry>, b: seq<Entry>, n: nat)
    requires n <= |b|
    ensures ApplyEntries(env, s, a + b, |a| + n) == ApplyEntries(env, ApplyEntries(env, s, a, |a|), b, n)
  {
    if n == 0 {
      EntriesPrefix(env, s, a, b, |a|);
    } else {
      EntriesSplit(env, s, a, b, n - 1);
      assert (a + b)[|a| + n - 1] == b[n - 1];
    }
  }

  lemma {:induction false} EntriesPrefix(env: Env, s: State, a: seq<Entry>, b: seq<Entry>, n: nat)
    requires n <= |a|
    ensures ApplyEntries(env, s, a + b, n) == ApplyEntries(env, s, a, n)
    ensures Responses(env, s, a + b, n) == Responses(env, s, a, n)
  {
    if n > 0 {
      EntriesPrefix(env, s, a, b, n - 1);
      assert (a + b)[n - 1] == a[n - 1];
    }
  }

  /** The state with a membership saved. */
  function WithMembership(s: State, m: Option<MetaValue>): State {
    if m.Some? then SaveMeta(s, LastMembership, m) else s
  }

  lemma {:induction false} MembershipCommutes(env: Env, s: State, m: Option<MetaValue>, es: seq<Entry>, n: nat)
    requires n <= |es|
    ensures ApplyEntries(env, WithMembership(s, m), es, n) == WithMembership(ApplyEntries(env, s, es, n), m)
  {
    if n > 0 {
      MembershipCommutes(env, s, m, es, n - 1);
      StepCommutes(env, ApplyEntries(env, s, es, n - 1), m, es[n - 1]);
    }
  }

  lemma {:induction false} StepCommutes(env: Env, s: State, m: Option<MetaValue>, e: Entry)
    ensures ApplyEntry(env, WithMembership(s, m), e) == WithMembership(ApplyEntry(env, s, e), m)
  {
    if m.Some? {
      var v, c := m.value, LogIdValue(e.logId);
      assert s.meta[LastMembership := v][LastApplied := c] == s.meta[LastApplied := c][LastMembership := v];
    }
  }

  lemma {:induction false} LatestOfConcat(a: seq<Entry>, b: seq<Entry>)
    ensures LatestMembership(a + b) == if LatestMembership(b).Some? then LatestMembership(b) else LatestMembership(a)
  {
    if b == [] {
      assert a + b == a;
    } else {
      LatestOfConcat(a, b[..|b| - 1]);
      assert (a + b)[..|a + b| - 1] == a + b[..|b| - 1];
    }
  }

  lemma {:induction false} MembershipTwice(s: State, m: Option<MetaValue>, m': Option<MetaValue>)
    ensures WithMembership(WithMembership(s, m), m') == WithMembership(s, if m'.Some? then m' else m)
  {
    if m.Some? && m'.Some? {
      assert s.meta[LastMembership := m.value][LastMembership := m'.value] == s.meta[LastMembership := m'.value];
    }
  }

  /** Two batches one after the other are one batch. */
  lemma {:induction false} TwoBatches(env: Env, s: State, a: seq<Entry>, b: seq<Entry>)
    ensures ApplyBatch(env, ApplyBatch(env, s, a), b) == ApplyBatch(env, s, a + b)
  {
    var ma, mb := LatestMembership(a), LatestMembership(b);
    var afterA := ApplyEntries(env, s, a, |a|);
    MembershipCommutes(env, afterA, ma, b, |b|);
    EntriesSplit(env, s, a, b, |b|);
    LatestOfConcat(a, b);
    MembershipTwice(ApplyEntries(env, afterA, b, |b|), ma, mb);
  }

  lemma {:induction false} ResponsesSplit(env: Env, s: State, a: seq<Entry>, b: seq<Entry>, n: nat)
    requires n <= |b|
    ensures Responses(env, s, a + b, |a| + n)
         == Responses(env, s, a, |a|) + Responses(env, ApplyEntries(env, s, a, |a|), b, n)
  {
    if n == 0 {
      EntriesPrefix(env, s, a, b, |a|);
    } else {
      ResponsesSplit(env, s, a, b, n - 1);
      EntriesSplit(env, s, a, b, n - 1);
      assert (a + b)[|a| + n - 1] == b[n - 1];
    }
  }

  lemma {:induction false} ResponsesIgnoreMembership(env: Env, s: State, m: Option<MetaValue>, es: seq<Entry>, n: nat)
    requires n <= |es|
    ensures Responses(env, WithMembership(s, m), es, n) == Responses(env, s, es, n)
  {
    if n > 0 {
      ResponsesIgnoreMembership(env, s, m, es, n - 1);
      MembershipCommutes(env, s, m, es, n - 1);
    }
  }

  lemma {:induction false} TwoResponses(env: Env, s: State, a: seq<Entry>, b: seq<Entry>)
    ensures Responses(env, s, a, |a|) + Responses(env, ApplyBatch(env, s, a), b, |b|)
         == Responses(env, s, a + b, |a + b|)
  {
    ResponsesSplit(env, s, a, b, |b|);
    ResponsesIgnoreMembership(env, ApplyEntries(env, s, a, |a|), LatestMembership(a), b, |b|);
  }

  function Flatten(batches: seq<seq<Entry>>): seq<Entry> {
    if batches == [] then [] else Flatten(batches[..|batches| - 1]) + batches[|batches| - 1]
  }

  function ApplyBatches(env: Env, s: State, batches: seq<seq<Entry>>): State {
    if batches == [] then s
    else ApplyBatch(env, ApplyBatches(env, s, batches[..|batches| - 1]), batches[|batches| - 1])
  }

  function BatchResponses(env: Env, s: State, batches: seq<seq<Entry>>): seq<Response> {
    if batches == [] then []
    else
      var init, last := batches[..|batches| - 1], batches[|batches| - 1];
      BatchResponses(env, s, init) + Responses(env, ApplyBatches(env, s, init), last, |last|)
  }

  /** However the entries are batched, they act as one batch. */
  lemma {:induction false} BatchesAreOne(env: Env, s: State, batches: seq<seq<Entry>>)
    ensures ApplyBatches(env, s, batches) == ApplyBatch(env, s, Flatten(batches))
    ensures BatchResponses(env, s, batches) == Responses(env, s, Flatten(batches), |Flatten(batches)|)
  {
    if batches != [] {
      var init, last := batches[..|batches| - 1], batches[|batches| - 1];
      BatchesAreOne(env, s, init);
      TwoBatches(env, s, Flatten(init), last);
      TwoResponses(env, s, Flatten(init), last);
    }
  }

  /** Two replicas that apply one entry sequence, each in its own batches, end with
      the same tables, cursor and membership, and give the same responses. */
  lemma {:induction false} ReplicasAgree(env: Env, s: State, xs: seq<seq<Entry>>, ys: seq<seq<Entry>>)
    requires Flatten(xs) == Flatten(ys)
    ensures ApplyBatches(env, s, xs) == ApplyBatches(env, s, ys)
    ensures BatchResponses(env, s, xs) == BatchResponses(env, s, ys)
  {
    BatchesAreOne(env, s, xs);
    BatchesAreOne(env, s, ys);
  }

  // ----- Snapshots -----

  /** Equal but for the note about the latest snapshot. */
  ghost predicate SameLedger(s: State, t: State) {
    s.books == t.books && s.log == t.log && s.genesis == t.genesis && s.meta - {SnapshotMeta} == t.meta - {SnapshotMeta}
  }

  lemma {:induction false} SameAfterEntry(env: Env, s: State, t: State, e: Entry)
    requires SameLedger(s, t)
    ensures SameLedger(ApplyEntry(env, s, e), ApplyEntry(env, t, e))
  {
    var c := LogIdValue(e.logId);
    assert s.meta[LastApplied := c] - {SnapshotMeta} == (s.meta - {SnapshotMeta})[LastApplied := c];
    assert t.meta[LastApplied := c] - {SnapshotMeta} == (t.meta - {SnapshotMeta})[LastApplied := c];
  }

  lemma {:induction false} SameAfterEntries(env: Env, s: State, t: State, es: seq<Entry>, n: nat)
    requires n <= |es| && SameLedger(s, t)
    ensures SameLedger(ApplyEntries(env, s, es, n), ApplyEntries(env, t, es, n))
  {
    if n > 0 {
      SameAfterEntries(env, s, t, es, n - 1);
      SameAfterEntry(env, ApplyEntries(env, s, es, n - 1), ApplyEntries(env, t, es, n - 1), es[n - 1]);
    }
  }

  lemma {:induction false} SameAfterBatch(env: Env, s: State, t: State, es: seq<Entry>)
    requires SameLedger(s, t)
    ensures SameLedger(ApplyBatch(env, s, es), ApplyBatch(env, t, es))
  {
    SameAfterEntries(env, s, t, es, |es|);
    var m := LatestMembership(es);
    if m.Some? {
      var a, b := ApplyEntries(env, s, es, |es|).meta, ApplyEntries(env, t, es, |es|).meta;
      assert a[LastMembership := m.value] - {SnapshotMeta} == (a - {SnapshotMeta})[LastMembership := m.value];
      assert b[LastMembership := m.value] - {SnapshotMeta} == (b - {SnapshotMeta})[LastMembership := m.value];
    }
  }

  lemma {:induction false} SameAfterBatches(env: Env, s: State, t: State, batches: seq<seq<Entry>>)
    requires SameLedger(s, t)
    ensures SameLedger(ApplyBatches(env, s, batches), ApplyBatches(env, t, batches))
  {
    if batches != [] {
      var init, last := batches[..|batches| - 1], batches[|batches| - 1];
      SameAfterBatches(env, s, t, init);
      SameAfterBatch(env, ApplyBatches(env, s, init), ApplyBatches(env, t, init), last);
    }
  }

  lemma {:induction false} NoteIsIgnored(s: State, note: MetaValue)
    ensures SameLedger(SaveMeta(s, SnapshotMeta, Some(note)), s)
  {
    assert s.meta[SnapshotMeta := note] - {SnapshotMeta} == s.meta - {SnapshotMeta};
  }

  /** Installing the snapshot of a prefix, which replaces every table and then notes the
      snapshot, and applying the rest gives the ledger tables, cursor and membership of
      applying the whole sequence. */
  lemma {:induction false} SnapshotStandsForPrefix(env: Env, s: State, note: MetaValue,
                                                   xs: seq<seq<Entry>>, ys: seq<seq<Entry>>, whole: seq<Entry>)
    requires whole == Flatten(xs) + Flatten(ys)
    ensures var installed := SaveMeta(ApplyBatches(env, s, xs), SnapshotMeta, Some(note));
            SameLedger(ApplyBatches(env, installed, ys), ApplyBatch(env, s, whole))
  {
    var prefix := ApplyBatches(env, s, xs);
    NoteIsIgnored(prefix, note);
    SameAfterBatches(env, SaveMeta(prefix, SnapshotMeta, Some(note)), prefix, ys);
    BatchesAreOne(env, prefix, ys);
    BatchesAreOne(env, s, xs);
    TwoBatches(env, s, Flatten(xs), Flatten(ys));
  }
}
