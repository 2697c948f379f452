/** What every run of writer commands keeps. */
module LedgerInvariant {
  import opened Bytes
  import opened Claims
  import opened Ledger
  import opened LedgerWriter

  /** The live tables and the snapshot files beside them. */
  datatype World = World(live: State, files: seq<State>)

  datatype Command =
    | ApplyClaimCmd(block: U64, commitment: OmegaCommitment, claim: ClaimTx)
    | SyntheticCmd(id: Byte, leafIndex: U64, block: U64)
    | MetaCmd(key: MetaKey, value: Option<MetaValue>)
    | EntriesCmd(entries: seq<Entry>)
    | AppendCmd(entries: seq<Entry>)
    | DeleteCmd(index: U64)
    | PurgeCmd(upTo: LogId)
    | SnapshotCmd
    | RestoreCmd(file: nat)

  /** One turn of the writer's loop. */
  function Exec(env: Env, w: World, c: Command): World {
    match c
    case ApplyClaimCmd(block, commitment, claim) =>
      w.(live := w.live.(books := Attempt(env, w.live.books, block, commitment, claim)))
    case SyntheticCmd(id, leafIndex, block) =>
      (match InsertSynthetic(env.hash, w.live.books, id, leafIndex, block)
       case Ok(after) => w.(live := w.live.(books := after))
       case Err(_) => w)
    case MetaCmd(key, value) => w.(live := SaveMeta(w.live, key, value))
    case EntriesCmd(entries) => w.(live := ApplyBatch(env, w.live, entries))
    case AppendCmd(entries) =>
      (match AppendRows(w.live.log, entries, |entries|)
       case Ok(log) => w.(live := w.live.(log := log))
       case Err(_) => w)
    case DeleteCmd(index) =>
      if index < I64_LIMIT then w.(live := w.live.(log := DeleteSince(w.live.log, index))) else w
    case PurgeCmd(upTo) =>
      if upTo.index < I64_LIMIT then
        w.(live := SaveMeta(w.live.(log := PurgeUpTo(w.live.log, upTo.index)), LastPurged, Some(LogIdValue(upTo))))
      else w
    case SnapshotCmd => w.(files := w.files + [w.live])
    case RestoreCmd(file) => if file < |w.files| then w.(live := w.files[file]) else w
  }

  function Run(env: Env, w: World, cs: seq<Command>): World {
    if cs == [] then w else Exec(env, Run(env, w, cs[..|cs| - 1]), cs[|cs| - 1])
  }

  // ----- Equal sizes -----

  ghost predicate Even(b: Books) { |b.nullifiers| == |b.utxos| }

  ghost predicate AllEven(w: World) {
    Even(w.live.books) && forall i :: 0 <= i < |w.files| ==> Even(w.files[i].books)
  }

  /** Rows are only ever added, as many to one table as to the other. */
  ghost predicate Grown(b: Books, after: Books) {
    exists n: nat :: Extends(b, after, n)
  }

  lemma {:induction false} GrownTransitive(a: Books, b: Books, c: Books)
    requires Grown(a, b) && Grown(b, c)
    ensures Grown(a, c)
  {
    var m: nat :| Extends(a, b, m);
    var n: nat :| Extends(b, c, n);
    ExtendsTransitive(a, b, c, m, n);
  }

  lemma {:induction false} GrownItself(b: Books)
    ensures Grown(b, b)
  {
    assert Extends(b, b, 0);
  }

  lemma {:induction false} AttemptGrows(env: Env, b: Books, block: U64, c: OmegaCommitment, claim: ClaimTx)
    ensures Grown(b, Attempt(env, b, block, c, claim))
  {
    var r := ApplyClaim(env, b, block, c, claim);
    if r.Ok? {
      AcceptedClaim(env, b, block, c, claim, r.value);
    } else {
      GrownItself(b);
    }
  }

  lemma {:induction false} SyntheticGrows(H: HashFn, b: Books, id: Byte, leafIndex: U64, block: U64, after: Books)
    requires InsertSynthetic(H, b, id, leafIndex, block) == Ok(after)
    ensures Grown(b, after)
  {
    assert Extends(b, after, 1);
  }

  lemma {:induction false} EntryGrows(env: Env, b: Books, e: Entry)
    ensures Grown(b, EntryBooks(env, b, e))
  {
    if e.payload.Normal? {
      AttemptGrows(env, b, e.payload.block, e.payload.commitment, e.payload.claim);
    } else {
      GrownItself(b);
    }
  }

  lemma {:induction false} EntriesGrow(env: Env, s: State, es: seq<Entry>, m: nat, n: nat)
    requires m <= n <= |es|
    ensures Grown(ApplyEntries(env, s, es, m).books, ApplyEntries(env, s, es, n).books)
  {
    if m == n {
      GrownItself(ApplyEntries(env, s, es, n).books);
    } else {
      EntriesGrow(env, s, es, m, n - 1);
      EntryGrows(env, ApplyEntries(env, s, es, n - 1).books, es[n - 1]);
      GrownTransitive(ApplyEntries(env, s, es, m).books, ApplyEntries(env, s, es, n - 1).books,
                      ApplyEntries(env, s, es, n).books);
    }
  }

  /** Every command but a restore only adds rows. */
  lemma {:induction false} ExecGrows(env: Env, w: World, c: Command)
    requires !c.RestoreCmd?
    ensures Grown(w.live.books, Exec(env, w, c).live.books)
  {
    match c
    case ApplyClaimCmd(block, commitment, claim) => AttemptGrows(env, w.live.books, block, commitment, claim);
    case SyntheticCmd(id, leafIndex, block) =>
      var r := InsertSynthetic(env.hash, w.live.books, id, leafIndex, block);
      if r.Ok? {
        SyntheticGrows(env.hash, w.live.books, id, leafIndex, block, r.value);
      } else {
        GrownItself(w.live.books);
      }
    case EntriesCmd(entries) => EntriesGrow(env, w.live, entries, 0, |entries|);
    case _ => GrownItself(w.live.books);
  }

  lemma {:induction false} ExecKeepsEven(env: Env, w: World, c: Command)
    requires AllEven(w)
    ensures AllEven(Exec(env, w, c))
  {
    if !c.RestoreCmd? {
      ExecGrows(env, w, c);
      var n: nat :| Extends(w.live.books, Exec(env, w, c).live.books, n);
    }
  }

  /** In every run, with any restores, the two tables have equal size. */
  lemma {:induction false} RunKeepsEven(env: Env, w: World, cs: seq<Command>)
    requires AllEven(w)
    ensures AllEven(Run(env, w, cs))
  {
    if cs != [] {
      RunKeepsEven(env, w, cs[..|cs| - 1]);
      ExecKeepsEven(env, Run(env, w, cs[..|cs| - 1]), cs[|cs| - 1]);
    }
  }

  // ----- Nullifiers only grow -----

  ghost predicate NoRestore(cs: seq<Command>) { forall i :: 0 <= i < |cs| ==> !cs[i].RestoreCmd? }

  /** Without a restore, every row stays as it was, from any point of the run to any later one. */
  lemma {:induction false} RunGrows(env: Env, w: World, cs: seq<Command>, i: nat)
    requires i <= |cs| && NoRestore(cs[i..])
    ensures Grown(Run(env, w, cs[..i]).live.books, Run(env, w, cs).live.books)
  {
    if i == |cs| {
      assert cs[..i] == cs;
      GrownItself(Run(env, w, cs).live.books);
    } else {
      var init := cs[..|cs| - 1];
      assert init[..i] == cs[..i];
      forall k | 0 <= k < |init[i..]| ensures !init[i..][k].RestoreCmd? { assert init[i..][k] == cs[i..][k]; }
      RunGrows(env, w, init, i);
      assert cs[i..][|cs| - 1 - i] == cs[|cs| - 1];
      ExecGrows(env, Run(env, w, init), cs[|cs| - 1]);
      GrownTransitive(Run(env, w, cs[..i]).live.books, Run(env, w, init).live.books, Run(env, w, cs).live.books);
    }
  }

  // ----- A key is claimed once -----

  /** One attempt of a run to record keys: a command, or one entry of a batch. */
  datatype Attempted = Attempted(command: nat, entry: nat)

  ghost predicate Earlier(a: Attempted, b: Attempted) {
    a.command < b.command || (a.command == b.command && a.entry < b.entry)
  }

  function KeysOf(ps: seq<ClaimPublicInputs>): set<Key> { set p | p in ps :: KeyOf(p) }

  /** The attempt exists: direct and synthetic claims, and the claims among committed entries. */
  ghost predicate Occurs(cs: seq<Command>, a: Attempted) {
    && a.command < |cs|
    && match cs[a.command]
       case ApplyClaimCmd(_, _, _) => a.entry == 0
       case SyntheticCmd(_, _, _) => a.entry == 0
       case EntriesCmd(es) => a.entry < |es| && es[a.entry].payload.Normal?
       case _ => false
  }

  /** The keys it tries to record. */
  function KeysAt(cs: seq<Command>, a: Attempted): set<Key>
    requires Occurs(cs, a)
  {
    match cs[a.command]
    case ApplyClaimCmd(_, _, claim) => KeysOf(ClaimedInputs(claim))
    case SyntheticCmd(id, leafIndex, _) => {Key(id, leafIndex)}
    case EntriesCmd(es) => KeysOf(ClaimedInputs(es[a.entry].payload.claim))
  }

  /** The ledger tables just before it. */
  function BooksBefore(env: Env, w: World, cs: seq<Command>, a: Attempted): Books
    requires Occurs(cs, a)
  {
    var live := Run(env, w, cs[..a.command]).live;
    match cs[a.command]
    case EntriesCmd(es) => ApplyEntries(env, live, es, a.entry).books
    case _ => live.books
  }

  /** Its outcome. */
  function OutcomeAt(env: Env, w: World, cs: seq<Command>, a: Attempted): Result<Books, LedgerError>
    requires Occurs(cs, a)
  {
    var b := BooksBefore(env, w, cs, a);
    match cs[a.command]
    case ApplyClaimCmd(block, commitment, claim) => ApplyClaim(env, b, block, commitment, claim)
    case SyntheticCmd(id, leafIndex, block) => InsertSynthetic(env.hash, b, id, leafIndex, block)
    case EntriesCmd(es) =>
      var e := es[a.entry].payload;
      ApplyClaim(env, b, e.block, e.commitment, e.claim)
  }

  ghost predicate AcceptedAt(env: Env, w: World, cs: seq<Command>, a: Attempted) {
    Occurs(cs, a) && OutcomeAt(env, w, cs, a).Ok?
  }

  /** The keys are new before the attempt and recorded after it. */
  ghost predicate Records(before: Books, after: Books, keys: set<Key>) {
    forall k :: k in keys ==> k !in before.nullifiers && k in after.nullifiers
  }

  lemma {:induction false} ClaimRecords(env: Env, b: Books, block: U64, c: OmegaCommitment, claim: ClaimTx,
                                        after: Books)
    requires ApplyClaim(env, b, block, c, claim) == Ok(after)
    ensures Records(b, after, KeysOf(ClaimedInputs(claim)))
  {
    var ps := ClaimedInputs(claim);
    AcceptedClaim(env, b, block, c, claim, after);
    forall k | k in KeysOf(ps)
      ensures k !in b.nullifiers && k in after.nullifiers
    {
      var p :| p in ps && KeyOf(p) == k;
      var i :| 0 <= i < |ps| && ps[i] == p;
      if k in b.nullifiers { RecordedIsRejected(env, b, block, c, claim, p); }
    }
  }

  lemma {:induction false} AcceptedRecords(env: Env, w: World, cs: seq<Command>, a: Attempted)
    requires AcceptedAt(env, w, cs, a)
    ensures Records(BooksBefore(env, w, cs, a), OutcomeAt(env, w, cs, a).value, KeysAt(cs, a))
  {
    var b, after := BooksBefore(env, w, cs, a), OutcomeAt(env, w, cs, a).value;
    match cs[a.command]
    case ApplyClaimCmd(block, commitment, claim) => ClaimRecords(env, b, block, commitment, claim, after);
    case SyntheticCmd(id, leafIndex, block) =>
    case EntriesCmd(es) =>
      var e := es[a.entry].payload;
      ClaimRecords(env, b, e.block, e.commitment, e.claim, after);
  }

  lemma {:induction false} RunNext(env: Env, w: World, cs: seq<Command>, i: nat)
    requires i < |cs|
    ensures Run(env, w, cs[..i + 1]) == Exec(env, Run(env, w, cs[..i]), cs[i])
  {
    assert cs[..i + 1][..i] == cs[..i];
  }

  lemma {:induction false} EntryGrowsToEnd(env: Env, live: State, es: seq<Entry>, i: nat)
    requires i < |es|
    ensures Grown(EntryBooks(env, ApplyEntries(env, live, es, i).books, es[i]), ApplyBatch(env, live, es).books)
  {
    EntriesGrow(env, live, es, i + 1, |es|);
  }

  /** From an accepted attempt the tables only grow to the end of its command. */
  lemma {:induction false} GrowsAfter(env: Env, w: World, cs: seq<Command>, a: Attempted)
    requires AcceptedAt(env, w, cs, a)
    ensures Grown(OutcomeAt(env, w, cs, a).value, Run(env, w, cs[..a.command + 1]).live.books)
  {
    RunNext(env, w, cs, a.command);
    if cs[a.command].EntriesCmd? {
      EntryGrowsToEnd(env, Run(env, w, cs[..a.command]).live, cs[a.command].entries, a.entry);
    } else {
      GrownItself(OutcomeAt(env, w, cs, a).value);
    }
  }

  /** From the start of its command the tables only grow up to an attempt. */
  lemma {:induction false} GrowsBefore(env: Env, w: World, cs: seq<Command>, b: Attempted)
    requires Occurs(cs, b)
    ensures Grown(Run(env, w, cs[..b.command]).live.books, BooksBefore(env, w, cs, b))
  {
    var live := Run(env, w, cs[..b.command]).live;
    if cs[b.command].EntriesCmd? {
      EntriesGrow(env, live, cs[b.command].entries, 0, b.entry);
    } else {
      GrownItself(live.books);
    }
  }

  lemma {:induction false} GrowsBetween(env: Env, w: World, cs: seq<Command>, a: Attempted, b: Attempted)
    requires Earlier(a, b) && AcceptedAt(env, w, cs, a) && Occurs(cs, b)
    requires a.command < b.command ==> NoRestore(cs[a.command + 1..b.command])
    ensures Grown(OutcomeAt(env, w, cs, a).value, BooksBefore(env, w, cs, b))
  {
    var i, j := a.command, b.command;
    if i == j {
      var live, es := Run(env, w, cs[..i]).live, cs[i].entries;
      assert ApplyEntries(env, live, es, a.entry + 1).books == OutcomeAt(env, w, cs, a).value;
      EntriesGrow(env, live, es, a.entry + 1, b.entry);
    } else {
      GrowsAfter(env, w, cs, a);
      var run := cs[..j];
      assert run[..i + 1] == cs[..i + 1] && run[i + 1..] == cs[i + 1..j];
      RunGrows(env, w, run, i + 1);
      GrowsBefore(env, w, cs, b);
      GrownTransitive(OutcomeAt(env, w, cs, a).value, Run(env, w, cs[..i + 1]).live.books,
                      Run(env, w, cs[..j]).live.books);
      GrownTransitive(OutcomeAt(env, w, cs, a).value, Run(env, w, cs[..j]).live.books, BooksBefore(env, w, cs, b));
    }
  }

  /** Any two accepted attempts of a run, direct, synthetic or among the entries of
      batches, share no key, unless a restore comes between them. */
  lemma {:induction false} ClaimedOnce(env: Env, w: World, cs: seq<Command>, a: Attempted, b: Attempted)
    requires Earlier(a, b) && AcceptedAt(env, w, cs, a) && AcceptedAt(env, w, cs, b)
    requires a.command < b.command ==> NoRestore(cs[a.command + 1..b.command])
    ensures KeysAt(cs, a) !! KeysAt(cs, b)
  {
    AcceptedRecords(env, w, cs, a);
    AcceptedRecords(env, w, cs, b);
    GrowsBetween(env, w, cs, a, b);
    var n: nat :| Extends(OutcomeAt(env, w, cs, a).value, BooksBefore(env, w, cs, b), n);
  }

  // ----- Failures leave no trace -----

  /** The command is refused. */
  ghost predicate Refused(env: Env, w: World, c: Command) {
    match c
    case ApplyClaimCmd(block, commitment, claim) => ApplyClaim(env, w.live.books, block, commitment, claim).Err?
    case SyntheticCmd(id, leafIndex, block) => InsertSynthetic(env.hash, w.live.books, id, leafIndex, block).Err?
    case AppendCmd(entries) => AppendRows(w.live.log, entries, |entries|).Err?
    case DeleteCmd(index) => index >= I64_LIMIT
    case PurgeCmd(upTo) => upTo.index >= I64_LIMIT
    case RestoreCmd(file) => file >= |w.files|
    case _ => false
  }

  lemma {:induction false} RefusedChangesNothing(env: Env, w: World, c: Command)
    requires Refused(env, w, c)
    ensures Exec(env, w, c) == w
  {
  }

  function Without<T>(s: seq<T>, i: nat): seq<T>
    requires i < |s|
  {
    s[..i] + s[i + 1..]
  }

  lemma {:induction false} WithoutInit<T>(s: seq<T>, i: nat)
    requires i < |s| - 1
    ensures Without(s, i) == Without(s[..|s| - 1], i) + [s[|s| - 1]]
  {
  }

  /** A refused command, at whichever item it fails, might as well not have been sent:
      the run without it ends in the same tables, log, metadata and snapshots. */
  lemma {:induction false} RefusedLeavesNoTrace(env: Env, w: World, cs: seq<Command>, i: nat)
    requires i < |cs| && Refused(env, Run(env, w, cs[..i]), cs[i])
    ensures Run(env, w, cs) == Run(env, w, Without(cs, i))
  {
    var init := cs[..|cs| - 1];
    if i == |cs| - 1 {
      RefusedChangesNothing(env, Run(env, w, init), cs[i]);
      assert Without(cs, i) == init;
    } else {
      assert init[..i] == cs[..i];
      RefusedLeavesNoTrace(env, w, init, i);
      WithoutInit(cs, i);
      var without := Without(cs, i);
      assert without[..|without| - 1] == Without(init, i);
    }
  }

  // ----- The writer runs the commands -----

  /** One turn of the writer's loop, by its methods; the snapshot files are kept by the caller. */
  method ExecuteOne(writer: Writer, env: Env, files: seq<State>, c: Command) returns (after: seq<State>)
    modifies writer
    ensures World(writer.Contents(), after) == Exec(env, World(old(writer.Contents()), files), c)
  {
    after := files;
    match c
    case ApplyClaimCmd(block, commitment, claim) =>
      var _ := writer.ApplyClaimTx(env, block, commitment, claim);
    case SyntheticCmd(id, leafIndex, block) =>
      var _ := writer.InsertSyntheticClaim(env, id, leafIndex, block);
    case MetaCmd(key, value) => writer.SaveRaftMeta(key, value);
    case EntriesCmd(entries) =>
      var _ := writer.ApplyToStateMachine(env, entries);
    case AppendCmd(entries) =>
      var _ := writer.AppendRaftLogs(entries);
    case DeleteCmd(index) =>
      var _ := writer.DeleteRaftLogsSince(index);
    case PurgeCmd(upTo) =>
      var _ := writer.PurgeRaftLogsUpto(upTo);
    case SnapshotCmd =>
      var s := writer.Snapshot();
      after := files + [s];
    case RestoreCmd(file) => if file < |files| { writer.RestoreSnapshot(files[file]); }
  }

  /** Every run of the model is what the writer does. */
  method ExecuteAll(writer: Writer, env: Env, cs: seq<Command>) returns (files: seq<State>)
    modifies writer
    ensures World(writer.Contents(), files) == Run(env, World(old(writer.Contents()), []), cs)
  {
    files := [];
    for i := 0 to |cs|
      invariant World(writer.Contents(), files) == Run(env, World(old(writer.Contents()), []), cs[..i])
    {
      RunNext(env, World(old(writer.Contents()), []), cs, i);
      files := ExecuteOne(writer, env, files, cs[i]);
    }
    assert cs[..|cs|] == cs;
  }
}
