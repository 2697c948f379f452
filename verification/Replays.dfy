/** Entries applied again: a whole suffix of the log may be replayed and nothing changes. */
module Replays {
  import opened Bytes
  import opened Claims
  import opened Ledger
  import opened LedgerWriter
  import opened LedgerRuns
  import opened LedgerInvariant

  /** What fits the larger tables fits the smaller ones. */
  lemma {:induction false} InsertableBefore(H: HashFn, b: Books, later: Books, ps: seq<ClaimPublicInputs>,
                                            ws: seq<ClaimWitness>, block: U64, n: nat)
    requires n <= |ps| == |ws| && Grown(b, later) && Insertable(H, later, ps, ws, block, n)
    ensures Insertable(H, b, ps, ws, block, n)
  {
    var m: nat :| Extends(b, later, m);
    forall i | 0 <= i < n ensures Fresh(H, b, ps, ws, block, i) { assert Fresh(H, later, ps, ws, block, i); }
  }

  lemma {:induction false} StillRejected(env: Env, b: Books, later: Books, block: U64, c: OmegaCommitment,
                                         claim: ClaimTx)
    requires Grown(b, later) && ApplyClaim(env, b, block, c, claim).Err?
    ensures ApplyClaim(env, later, block, c, claim).Err?
  {
    AcceptedIff(env, b, block, c, claim);
    AcceptedIff(env, later, block, c, claim);
    if ApplyClaim(env, later, block, c, claim).Ok? {
      var ps, ws := ClaimedInputs(claim), WitnessesOf(claim);
      InsertableBefore(env.hash, b, later, ps, ws, block, |ps|);
    }
  }

  lemma {:induction false} EmptyClaim(env: Env, b: Books, block: U64, c: OmegaCommitment, claim: ClaimTx)
    requires ClaimedInputs(claim) == []
    ensures Attempt(env, b, block, c, claim) == b
  {
  }

  /** Once attempted, a claim changes nothing on any tables that have only grown since. */
  lemma {:induction false} AttemptSettles(env: Env, b: Books, later: Books, block: U64, c: OmegaCommitment,
                                          claim: ClaimTx)
    requires Grown(Attempt(env, b, block, c, claim), later)
    ensures Attempt(env, later, block, c, claim) == later
  {
    var r := ApplyClaim(env, b, block, c, claim);
    var ps := ClaimedInputs(claim);
    if r.Err? {
      StillRejected(env, b, later, block, c, claim);
    } else if ps == [] {
      EmptyClaim(env, later, block, c, claim);
    } else {
      AcceptedClaim(env, b, block, c, claim, r.value);
      var m: nat :| Extends(r.value, later, m);
      RecordedIsRejected(env, later, block, c, claim, ps[0]);
    }
  }

  lemma {:induction false} EntrySettles(env: Env, b: Books, later: Books, e: Entry)
    requires Grown(EntryBooks(env, b, e), later)
    ensures EntryBooks(env, later, e) == later
  {
    if e.payload.Normal? {
      AttemptSettles(env, b, later, e.payload.block, e.payload.commitment, e.payload.claim);
    }
  }

  /** Entries already applied leave tables that have only grown since as they are. */
  lemma {:induction false} EntriesSettle(env: Env, s: State, later: State, es: seq<Entry>, n: nat)
    requires n <= |es| && Grown(ApplyEntries(env, s, es, |es|).books, later.books)
    ensures ApplyEntries(env, later, es, n).books == later.books
  {
    if n > 0 {
      EntriesSettle(env, s, later, es, n - 1);
      EntriesGrow(env, s, es, n, |es|);
      GrownTransitive(ApplyEntries(env, s, es, n).books, ApplyEntries(env, s, es, |es|).books, later.books);
      EntrySettles(env, ApplyEntries(env, s, es, n - 1).books, later.books, es[n - 1]);
    }
  }

  /** The cursor follows the entries, and nothing else but the ledger tables changes. */
  lemma {:induction false} EntriesMeta(env: Env, s: State, es: seq<Entry>, n: nat)
    requires n <= |es|
    ensures var t := ApplyEntries(env, s, es, n);
            && t.log == s.log && t.genesis == s.genesis
            && t.meta == if n == 0 then s.meta else s.meta[LastApplied := LogIdValue(es[n - 1].logId)]
  {
    if n > 0 { EntriesMeta(env, s, es, n - 1); }
  }

  /** The metadata after a batch: its last cursor and its last membership are saved. */
  function MetaAfter(meta: map<MetaKey, MetaValue>, es: seq<Entry>): map<MetaKey, MetaValue> {
    var cursor := if es == [] then meta else meta[LastApplied := LogIdValue(es[|es| - 1].logId)];
    match LatestMembership(es)
    case Some(m) => cursor[LastMembership := m]
    case None => cursor
  }

  lemma {:induction false} MetaTwice(meta: map<MetaKey, MetaValue>, es: seq<Entry>)
    ensures MetaAfter(MetaAfter(meta, es), es) == MetaAfter(meta, es)
  {
  }

  lemma {:induction false} BatchParts(env: Env, s: State, es: seq<Entry>)
    ensures ApplyBatch(env, s, es)
         == State(ApplyEntries(env, s, es, |es|).books, MetaAfter(s.meta, es), s.log, s.genesis)
  {
    EntriesMeta(env, s, es, |es|);
  }

  /** A batch applied twice is applied once. */
  lemma {:induction false} BatchIdempotent(env: Env, s: State, es: seq<Entry>)
    ensures ApplyBatch(env, ApplyBatch(env, s, es), es) == ApplyBatch(env, s, es)
  {
    var once := ApplyBatch(env, s, es);
    BatchParts(env, s, es);
    BatchParts(env, once, es);
    MetaTwice(s.meta, es);
    GrownItself(once.books);
    EntriesSettle(env, s, once, es, |es|);
  }

  /** Re-applying any suffix of the log, however it is batched, gives back the same state. */
  lemma {:induction false} SuffixReplays(env: Env, s: State, xs: seq<seq<Entry>>, zs: seq<seq<Entry>>)
    ensures var end := ApplyBatch(env, s, Flatten(xs) + Flatten(zs));
            ApplyBatches(env, ApplyBatches(env, s, xs), zs) == end && ApplyBatches(env, end, zs) == end
  {
    var prefix := ApplyBatches(env, s, xs);
    BatchesAreOne(env, s, xs);
    BatchesAreOne(env, prefix, zs);
    TwoBatches(env, s, Flatten(xs), Flatten(zs));
    var end := ApplyBatch(env, s, Flatten(xs) + Flatten(zs));
    BatchesAreOne(env, end, zs);
    BatchIdempotent(env, prefix, Flatten(zs));
  }

  /** A snapshot whose copy is taken `zs` later than its cursor was read still stands for
      the prefix: installing it and applying everything after the noted cursor, `zs` for the
      second time and then `ys`, ends with the ledger of applying each entry once. */
  lemma {:induction false} LateCopyStandsForPrefix(env: Env, s: State, note: MetaValue, xs: seq<seq<Entry>>,
                                                   zs: seq<seq<Entry>>, ys: seq<seq<Entry>>)
    ensures var copied := ApplyBatches(env, ApplyBatches(env, s, xs), zs);
            var installed := SaveMeta(copied, SnapshotMeta, Some(note));
            SameLedger(ApplyBatches(env, ApplyBatches(env, installed, zs), ys),
                       ApplyBatch(env, s, Flatten(xs) + Flatten(zs) + Flatten(ys)))
  {
    var copied := ApplyBatches(env, ApplyBatches(env, s, xs), zs);
    var installed := SaveMeta(copied, SnapshotMeta, Some(note));
    SuffixReplays(env, s, xs, zs);
    NoteIsIgnored(copied, note);
    SameAfterBatches(env, installed, copied, zs);
    SameAfterBatches(env, ApplyBatches(env, installed, zs), copied, ys);
    BatchesAreOne(env, copied, ys);
    TwoBatches(env, s, Flatten(xs) + Flatten(zs), Flatten(ys));
  }
}
