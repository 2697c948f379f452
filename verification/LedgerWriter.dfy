/** The writer thread: an object whose methods are the commands, each one a
    transaction over the tables, proved against functions on the table contents. */
module LedgerWriter {
  import opened Bytes
  import opened Claims
  import opened Ledger

  // ----- Raft entries -----

  datatype LogId = LogId(term: U64, index: U64)

  datatype EntryPayload =
    | Blank
    | Membership(config: ByteString)
    | Normal(block: U64, commitment: OmegaCommitment, claim: ClaimTx)

  datatype Entry = Entry(logId: LogId, payload: EntryPayload)

  datatype Response = Accepted | Rejected(error: LedgerError)

  // ----- Table contents -----

  datatype MetaKey = Vote | Committed | LastApplied | LastMembership | LastPurged | SnapshotMeta

  datatype MetaValue =
    | LogIdValue(id: LogId)
    | MembershipValue(logId: LogId, config: ByteString)
    | SnapshotNote(lastApplied: Option<LogId>, membership: Option<MetaValue>, snapshotId: string)
    | Opaque(bytes: ByteString)

  datatype LogRow = LogRow(term: U64, entry: Entry)

  /** The five tables. */
  datatype State = State(
    books: Books, meta: map<MetaKey, MetaValue>, log: map<nat, LogRow>, genesis: map<ByteString, ByteString>)

  /** `save_raft_meta` */
  function SaveMeta(s: State, key: MetaKey, value: Option<MetaValue>): State {
    match value
    case Some(v) => s.(meta := s.meta[key := v])
    case None => s.(meta := s.meta - {key})
  }

  /** A saved value reads back, a removed one is gone, and no other key is touched. */
  lemma {:induction false} MetaReadsBack(s: State, key: MetaKey, value: Option<MetaValue>, other: MetaKey)
    ensures var after := SaveMeta(s, key, value);
            && (key in after.meta <==> value.Some?) && (value.Some? ==> after.meta[key] == value.value)
            && (other != key ==> (other in after.meta <==> other in s.meta))
            && (other != key && other in s.meta ==> after.meta[other] == s.meta[other])
            && after.books == s.books && after.log == s.log && after.genesis == s.genesis
  {
  }

  /** One committed entry: the claim's transaction, then the cursor. */
  function ApplyEntry(env: Env, s: State, e: Entry): State {
    SaveMeta(s.(books := EntryBooks(env, s.books, e)), LastApplied, Some(LogIdValue(e.logId)))
  }

  /** What the entry does to the two ledger tables. */
  function EntryBooks(env: Env, b: Books, e: Entry): Books {
    if e.payload.Normal? then Attempt(env, b, e.payload.block, e.payload.commitment, e.payload.claim) else b
  }

  function EntryResponse(env: Env, b: Books, e: Entry): Response {
    if e.payload.Normal? then
      match ApplyClaim(env, b, e.payload.block, e.payload.commitment, e.payload.claim)
      case Ok(_) => Accepted
      case Err(error) => Rejected(error)
    else
      Accepted
  }

  /** The first `n` entries, in order. */
  function ApplyEntries(env: Env, s: State, es: seq<Entry>, n: nat): State
    requires n <= |es|
  {
    if n == 0 then s else ApplyEntry(env, ApplyEntries(env, s, es, n - 1), es[n - 1])
  }

  function Responses(env: Env, s: State, es: seq<Entry>, n: nat): (rs: seq<Response>)
    requires n <= |es|
    ensures |rs| == n
  {
    if n == 0 then []
    else Responses(env, s, es, n - 1) + [EntryResponse(env, ApplyEntries(env, s, es, n - 1).books, es[n - 1])]
  }

  /** An entry that is no claim, or a claim that meets every condition on the tables before it. */
  ghost predicate Admissible(env: Env, b: Books, e: Entry) {
    e.payload.Normal? ==>
      var block, ps, ws := e.payload.block, ClaimedInputs(e.payload.claim), WitnessesOf(e.payload.claim);
      && block < I64_LIMIT && |ps| == |ws| && env.verify(e.payload.commitment, ps, e.payload.claim.proof)
      && Insertable(env.hash, b, ps, ws, block, |ps|)
  }

  lemma {:induction false} ResponseAt(env: Env, s: State, es: seq<Entry>, n: nat, i: nat)
    requires i < n <= |es|
    ensures Responses(env, s, es, n)[i] == EntryResponse(env, ApplyEntries(env, s, es, i).books, es[i])
  {
    if i < n - 1 { ResponseAt(env, s, es, n - 1, i); }
  }

  /** Over every run, an entry is answered with acceptance if and only if it is no claim or a
      claim that meets every condition on the tables before it, and otherwise with the error of
      the first check that fails. */
  lemma {:induction false} ResponseMeaning(env: Env, s: State, es: seq<Entry>, i: nat, error: LedgerError)
    requires i < |es|
    ensures var response, b := Responses(env, s, es, |es|)[i], ApplyEntries(env, s, es, i).books;
            && (response == Accepted <==> Admissible(env, b, es[i]))
            && (response == Rejected(error) <==>
                es[i].payload.Normal? && var p := es[i].payload;
                RefusedWith(env, b, p.block, p.commitment, p.claim, error))
  {
    ResponseAt(env, s, es, |es|, i);
    if es[i].payload.Normal? {
      var b, p := ApplyEntries(env, s, es, i).books, es[i].payload;
      AcceptedIff(env, b, p.block, p.commitment, p.claim);
      RefusedIff(env, b, p.block, p.commitment, p.claim, error);
    }
  }

  /** The membership carried by the last membership entry of a batch. */
  function LatestMembership(es: seq<Entry>): Option<MetaValue> {
    if es == [] then None
    else
      var last := es[|es| - 1];
      if last.payload.Membership? then Some(MembershipValue(last.logId, last.payload.config))
      else LatestMembership(es[..|es| - 1])
  }

  /** The value saved is that of a membership entry after which there is no other. */
  lemma {:induction false} LatestMembershipIff(es: seq<Entry>, v: MetaValue)
    ensures LatestMembership(es).None? <==> forall i :: 0 <= i < |es| ==> !es[i].payload.Membership?
    ensures LatestMembership(es) == Some(v) <==>
              exists i :: 0 <= i < |es| && es[i].payload.Membership?
                       && v == MembershipValue(es[i].logId, es[i].payload.config)
                       && forall j :: i < j < |es| ==> !es[j].payload.Membership?
  {
    if es != [] {
      var init, last := es[..|es| - 1], es[|es| - 1];
      LatestMembershipIff(init, v);
      if !last.payload.Membership? {
        forall i | 0 <= i < |init| ensures init[i] == es[i] { }
      }
    }
  }

  /** `apply_to_state_machine`: all entries, and the batch's membership at the end. */
  function ApplyBatch(env: Env, s: State, es: seq<Entry>): State {
    var applied := ApplyEntries(env, s, es, |es|);
    match LatestMembership(es)
    case Some(m) => SaveMeta(applied, LastMembership, Some(m))
    case None => applied
  }

  // ----- Raft log edits -----

  /** `append_raft_logs`: the first `n` rows upserted, or the error that rolls them all back. */
  function AppendRows(log: map<nat, LogRow>, es: seq<Entry>, n: nat): Result<map<nat, LogRow>, LedgerError>
    requires n <= |es|
  {
    if n == 0 then Ok(log)
    else
      match AppendRows(log, es, n - 1)
      case Err(e) => Err(e)
      case Ok(before) =>
        var id := es[n - 1].logId;
        if id.index >= I64_LIMIT then Err(IntegerOutOfRange(id.index))
        else if id.term >= I64_LIMIT then Err(IntegerOutOfRange(id.term))
        else Ok(before[id.index := LogRow(id.term, es[n - 1])])
  }

  /** Entry `i` is the first whose index or term cannot be stored. */
  ghost predicate AppendFails(es: seq<Entry>, i: nat, e: LedgerError)
    requires i < |es|
  {
    && (forall j :: 0 <= j < i ==> es[j].logId.index < I64_LIMIT && es[j].logId.term < I64_LIMIT)
    && if es[i].logId.index >= I64_LIMIT then e == IntegerOutOfRange(es[i].logId.index)
       else es[i].logId.term >= I64_LIMIT && e == IntegerOutOfRange(es[i].logId.term)
  }

  lemma {:induction false} AppendErrorIff(log: map<nat, LogRow>, es: seq<Entry>, n: nat, e: LedgerError)
    requires n <= |es|
    ensures AppendRows(log, es, n).Ok? <==>
              forall j :: 0 <= j < n ==> es[j].logId.index < I64_LIMIT && es[j].logId.term < I64_LIMIT
    ensures AppendRows(log, es, n) == Err(e) <==> exists i :: 0 <= i < n && AppendFails(es, i, e)
  {
    if n > 0 {
      AppendErrorIff(log, es, n - 1, e);
      if AppendRows(log, es, n - 1).Ok? && AppendRows(log, es, n) == Err(e) { assert AppendFails(es, n - 1, e); }
      if i :| 0 <= i < n && AppendFails(es, i, e) {
        if i < n - 1 { assert AppendRows(log, es, n - 1) == Err(e); }
      }
    }
  }

  /** `delete_raft_logs_since` */
  function DeleteSince(log: map<nat, LogRow>, index: U64): map<nat, LogRow> {
    map i | i in log && i < index :: log[i]
  }

  /** `purge_raft_logs_upto`, the log table. */
  function PurgeUpTo(log: map<nat, LogRow>, index: U64): map<nat, LogRow> {
    map i | i in log && i > index :: log[i]
  }

  lemma {:induction false} AppendStops(log: map<nat, LogRow>, es: seq<Entry>, n: nat, m: nat)
    requires n <= m <= |es| && AppendRows(log, es, n).Err?
    ensures AppendRows(log, es, m) == AppendRows(log, es, n)
  {
    if n < m { AppendStops(log, es, n, m - 1); }
  }

  // ----- The loops of a claim's transaction -----

  /** `reject_replay` for every public input. */
  method ProbeReplays(b: Books, ps: seq<ClaimPublicInputs>) returns (e: Option<LedgerError>)
    ensures e == FirstReplay(b, ps, |ps|)
  {
    for i := 0 to |ps|
      invariant FirstReplay(b, ps, i).None?
    {
      var replay := RejectReplay(b, ps[i]);
      if replay.Some? {
        ReplayStops(b, ps, i + 1);
        return replay;
      }
    }
    return None;
  }

  /** The two inserts for every item; an error rolls the transaction back. */
  method InsertAll(H: HashFn, b: Books, ps: seq<ClaimPublicInputs>, ws: seq<ClaimWitness>, block: U64)
      returns (r: Result<Books, LedgerError>)
    requires |ps| == |ws|
    ensures r == InsertItems(H, b, ps, ws, block, |ps|)
  {
    var tx := b;
    for ordinal := 0 to |ps|
      invariant InsertItems(H, b, ps, ws, block, ordinal) == Ok(tx)
    {
      var inserted := InsertItem(H, tx, ps[ordinal], ws[ordinal], block, ordinal);
      InsertNext(H, b, ps, ws, block, ordinal, tx, inserted);
      if inserted.Err? {
        ConflictStops(H, b, ps, ws, block, ordinal + 1);
        return Err(inserted.error);
      }
      tx := inserted.value;
    }
    return Ok(tx);
  }

  lemma {:induction false} InsertNext(H: HashFn, b: Books, ps: seq<ClaimPublicInputs>, ws: seq<ClaimWitness>,
                                      block: U64, i: nat, tx: Books, inserted: Result<Books, LedgerError>)
    requires i < |ps| == |ws| && InsertItems(H, b, ps, ws, block, i) == Ok(tx)
    requires inserted == InsertItem(H, tx, ps[i], ws[i], block, i)
    ensures InsertItems(H, b, ps, ws, block, i + 1) == inserted
  {
  }

  // ----- The writer -----

  class Writer {
    var books: Books
    var meta: map<MetaKey, MetaValue>
    var log: map<nat, LogRow>
    var genesis: map<ByteString, ByteString>

    function Contents(): State
      reads this
    {
      State(books, meta, log, genesis)
    }

    constructor (s: State)
      ensures Contents() == s
    {
      books, meta, log, genesis := s.books, s.meta, s.log, s.genesis;
    }

    /** `apply_claim_tx` */
    method ApplyClaimTx(env: Env, block: U64, c: OmegaCommitment, claim: ClaimTx) returns (r: Result<(), LedgerError>)
      modifies this
      ensures Contents() == old(Contents()).(books := Attempt(env, old(books), block, c, claim))
      ensures r == match ApplyClaim(env, old(books), block, c, claim) case Ok(_) => Ok(()) case Err(e) => Err(e)
    {
      if block >= I64_LIMIT { return Err(IntegerOutOfRange(block)); }
      var parsed := ParseClaim(claim);
      if parsed.Err? { return Err(parsed.error); }
      var x := parsed.value;
      if !env.verify(c, x.publicInputs, x.proof) { return Err(VerifyFailed); }

      var replay := ProbeReplays(books, x.publicInputs);
      if replay.Some? { return Err(replay.value); }
      var tx := InsertAll(env.hash, books, x.publicInputs, x.witnesses, block);
      if tx.Err? { return Err(tx.error); }
      books := tx.value;
      return Ok(());
    }

    /** `insert_synthetic_claim` */
    method InsertSyntheticClaim(env: Env, id: Byte, leafIndex: U64, block: U64) returns (r: Result<(), LedgerError>)
      modifies this
      ensures var x := InsertSynthetic(env.hash, old(books), id, leafIndex, block);
              && (x.Ok? ==> r.Ok? && Contents() == old(Contents()).(books := x.value))
              && (x.Err? ==> r == Err(x.error) && Contents() == old(Contents()))
    {
      if leafIndex >= I64_LIMIT { return Err(IntegerOutOfRange(leafIndex)); }
      if block >= I64_LIMIT { return Err(IntegerOutOfRange(block)); }
      var recipient: Hash := seq(32, _ => 0xC7);
      var utxo := UtxoId(env.hash, recipient, BE(leafIndex, 8) + BE(block, 8), block, leafIndex);
      var tx := books;
      if Key(id, leafIndex) in tx.nullifiers { return Err(PrimaryKeyConflict); }
      tx := tx.(nullifiers := tx.nullifiers[Key(id, leafIndex) := block]);
      var value := if leafIndex == TWO_64 - 1 then leafIndex else leafIndex + 1;
      if value >= I64_LIMIT { return Err(IntegerOutOfRange(value)); }
      if utxo in tx.utxos { return Err(PrimaryKeyConflict); }
      tx := tx.(utxos := tx.utxos[utxo := Utxo(recipient, value, block)]);
      books := tx;
      return Ok(());
    }

    /** `save_raft_meta` */
    method SaveRaftMeta(key: MetaKey, value: Option<MetaValue>)
      modifies this
      ensures Contents() == SaveMeta(old(Contents()), key, value)
    {
      if value.Some? { meta := meta[key := value.value]; } else { meta := meta - {key}; }
    }

    /** `apply_raft_entries` */
    method ApplyRaftEntries(env: Env, es: seq<Entry>, lastMembership: Option<MetaValue>) returns (rs: seq<Response>)
      modifies this
      ensures rs == Responses(env, old(Contents()), es, |es|)
      ensures lastMembership.None? ==> Contents() == ApplyEntries(env, old(Contents()), es, |es|)
      ensures lastMembership.Some? ==>
                Contents() == SaveMeta(ApplyEntries(env, old(Contents()), es, |es|), LastMembership, lastMembership)
    {
      rs := [];
      for i := 0 to |es|
        invariant Contents() == ApplyEntries(env, old(Contents()), es, i)
        invariant rs == Responses(env, old(Contents()), es, i)
      {
        var response := Accepted;
        if es[i].payload.Normal? {
          var command := es[i].payload;
          var r := ApplyClaimTx(env, command.block, command.commitment, command.claim);
          if r.Err? { response := Rejected(r.error); }
        }
        SaveRaftMeta(LastApplied, Some(LogIdValue(es[i].logId)));
        rs := rs + [response];
      }
      if lastMembership.Some? { SaveRaftMeta(LastMembership, lastMembership); }
    }

    /** `apply_to_state_machine` */
    method ApplyToStateMachine(env: Env, es: seq<Entry>) returns (rs: seq<Response>)
      modifies this
      ensures Contents() == ApplyBatch(env, old(Contents()), es)
      ensures rs == Responses(env, old(Contents()), es, |es|)
    {
      var lastMembership: Option<MetaValue> := None;
      for i := 0 to |es|
        invariant lastMembership == LatestMembership(es[..i])
        invariant Contents() == old(Contents())
      {
        assert es[..i + 1][..i] == es[..i];
        if es[i].payload.Membership? { lastMembership := Some(MembershipValue(es[i].logId, es[i].payload.config)); }
      }
      assert es[..|es|] == es;
      rs := ApplyRaftEntries(env, es, lastMembership);
    }

    /** `append_raft_logs` */
    method AppendRaftLogs(es: seq<Entry>) returns (r: Result<(), LedgerError>)
      modifies this
      ensures match AppendRows(old(log), es, |es|)
              case Ok(after) => r.Ok? && Contents() == old(Contents()).(log := after)
              case Err(e) => r == Err(e) && Contents() == old(Contents())
    {
      var tx := log;
      for i := 0 to |es|
        invariant AppendRows(log, es, i) == Ok(tx)
        invariant Contents() == old(Contents())
      {
        var id := es[i].logId;
        if id.index >= I64_LIMIT {
          AppendStops(log, es, i + 1, |es|);
          return Err(IntegerOutOfRange(id.index));
        }
        if id.term >= I64_LIMIT {
          AppendStops(log, es, i + 1, |es|);
          return Err(IntegerOutOfRange(id.term));
        }
        tx := tx[id.index := LogRow(id.term, es[i])];
      }
      log := tx;
      return Ok(());
    }

    /** `delete_raft_logs_since` */
    method DeleteRaftLogsSince(index: U64) returns (r: Result<(), LedgerError>)
      modifies this
      ensures r.Ok? <==> index < I64_LIMIT
      ensures r.Err? ==> r.error == IntegerOutOfRange(index)
      ensures Contents() == if r.Ok? then old(Contents()).(log := DeleteSince(old(log), index)) else old(Contents())
    {
      if index >= I64_LIMIT { return Err(IntegerOutOfRange(index)); }
      log := DeleteSince(log, index);
      return Ok(());
    }

    /** `purge_raft_logs_upto` */
    method PurgeRaftLogsUpto(upTo: LogId) returns (r: Result<(), LedgerError>)
      modifies this
      ensures r.Ok? <==> upTo.index < I64_LIMIT
      ensures r.Err? ==> r.error == IntegerOutOfRange(upTo.index)
      ensures r.Ok? ==>
                var purged := old(Contents()).(log := PurgeUpTo(old(log), upTo.index));
                Contents() == SaveMeta(purged, LastPurged, Some(LogIdValue(upTo)))
      ensures r.Err? ==> Contents() == old(Contents())
    {
      if upTo.index >= I64_LIMIT { return Err(IntegerOutOfRange(upTo.index)); }
      log := PurgeUpTo(log, upTo.index);
      meta := meta[LastPurged := LogIdValue(upTo)];
      return Ok(());
    }

    /** `snapshot`: a copy of every table. */
    method Snapshot() returns (s: State)
      ensures s == Contents()
    {
      s := State(books, meta, log, genesis);
    }

    /** `restore_snapshot`: every table is emptied and refilled. */
    method RestoreSnapshot(s: State)
      modifies this
      ensures Contents() == s
    {
      books, meta, log, genesis := s.books, s.meta, s.log, s.genesis;
    }
  }

  lemma {:induction false} ReplayStops(b: Books, ps: seq<ClaimPublicInputs>, n: nat)
    requires 0 < n <= |ps| && FirstReplay(b, ps, n - 1).None? && RejectReplay(b, ps[n - 1]).Some?
    ensures FirstReplay(b, ps, |ps|) == RejectReplay(b, ps[n - 1])
  {
    ReplayStays(b, ps, n, |ps|);
  }

  lemma {:induction false} ReplayStays(b: Books, ps: seq<ClaimPublicInputs>, n: nat, m: nat)
    requires n <= m <= |ps| && FirstReplay(b, ps, n).Some?
    ensures FirstReplay(b, ps, m) == FirstReplay(b, ps, n)
  {
    if n < m { ReplayStays(b, ps, n, m - 1); }
  }

  lemma {:induction false} ConflictStops(H: HashFn, b: Books, ps: seq<ClaimPublicInputs>, ws: seq<ClaimWitness>,
                                         block: U64, n: nat)
    requires n <= |ps| == |ws| && InsertItems(H, b, ps, ws, block, n).Err?
    ensures InsertItems(H, b, ps, ws, block, |ps|) == InsertItems(H, b, ps, ws, block, n)
  {
    ConflictStays(H, b, ps, ws, block, n, |ps|);
  }

  lemma {:induction false} ConflictStays(H: HashFn, b: Books, ps: seq<ClaimPublicInputs>, ws: seq<ClaimWitness>,
                                         block: U64, n: nat, m: nat)
    requires n <= m <= |ps| == |ws| && InsertItems(H, b, ps, ws, block, n).Err?
    ensures InsertItems(H, b, ps, ws, block, m) == InsertItems(H, b, ps, ws, block, n)
  {
    if n < m { ConflictStays(H, b, ps, ws, block, n, m - 1); }
  }
}
