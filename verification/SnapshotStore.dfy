/** Building, installing and reading back the ledger's own snapshots: the image files
    beside the tables, and when the noted snapshot is there to be read, crashes included. */
module SnapshotStore {
  import opened Bytes
  import opened Ledger
  import opened LedgerWriter
  import opened LedgerRuns
  import opened Replays

  /** An image file: a copy of the tables, or what is on disk while one is being written. */
  datatype Image = Whole(tables: State) | Torn

  /** The tables, and the image files by snapshot id. */
  datatype Disk = Disk(tables: State, images: map<string, Image>)

  datatype Note = Note(lastApplied: Option<LogId>, membership: Option<MetaValue>, snapshotId: string)

  /** A snapshot as handed to raft. */
  datatype Snapshot = Snapshot(note: Note, image: State)

  /** What reading the current snapshot finds. */
  datatype Found = Found(note: Note, image: Image)

  datatype StoreError = ImageMissing

  function Decimal(n: nat): string {
    if n < 10 then ["0123456789"[n]] else Decimal(n / 10) + ["0123456789"[n % 10]]
  }

  function DigitOf(c: char): nat { if '0' <= c <= '9' then c as int - '0' as int else 10 }

  /** The number that a text of decimal digits spells. */
  function Spelled(text: string): nat {
    if text == "" then 0 else 10 * Spelled(text[..|text| - 1]) + DigitOf(text[|text| - 1])
  }

  lemma {:induction false} DigitMeaning(n: nat)
    requires n < 10
    ensures '0' <= "0123456789"[n] <= '9' && DigitOf("0123456789"[n]) == n && (n > 0 ==> "0123456789"[n] != '0')
  {
  }

  /** Decimal digits, the most significant first, and no leading zero. */
  lemma {:induction false} DecimalMeaning(n: nat)
    ensures Spelled(Decimal(n)) == n && Decimal(n) != ""
    ensures forall i :: 0 <= i < |Decimal(n)| ==> '0' <= Decimal(n)[i] <= '9'
    ensures n > 0 ==> Decimal(n)[0] != '0'
  {
    DigitMeaning(n % 10);
    var text := Decimal(n);
    if n < 10 {
      assert text[..0] == "";
    } else {
      DecimalMeaning(n / 10);
      assert text[..|text| - 1] == Decimal(n / 10);
    }
  }

  function BeforeDash(text: string): string {
    if text == "" || text[0] == '-' then "" else [text[0]] + BeforeDash(text[1..])
  }

  lemma {:induction false} DashEnds(a: string, b: string)
    requires forall i :: 0 <= i < |a| ==> a[i] != '-'
    ensures BeforeDash(a + "-" + b) == a
  {
    var x := a + "-" + b;
    if a != "" {
      assert x[0] == a[0] && x[1..] == a[1..] + "-" + b;
      DashEnds(a[1..], b);
    }
  }

  /** Different pairs have different names: the dash is the only character that is no digit. */
  lemma {:induction false} NameInjective(a: string, b: string, c: string, d: string)
    requires a + "-" + b == c + "-" + d
    requires (forall i :: 0 <= i < |a| ==> a[i] != '-') && forall i :: 0 <= i < |c| ==> c[i] != '-'
    ensures a == c && b == d
  {
    DashEnds(a, b);
    DashEnds(c, d);
    assert (a + "-" + b)[|a| + 1..] == b && (c + "-" + d)[|c| + 1..] == d;
  }

  /** `last_applied_state` */
  function AppliedTo(s: State): Option<LogId> {
    if LastApplied in s.meta && s.meta[LastApplied].LogIdValue? then Some(s.meta[LastApplied].id) else None
  }

  function MembershipIn(s: State): Option<MetaValue> {
    if LastMembership in s.meta then Some(s.meta[LastMembership]) else None
  }

  /** Snapshots are named after the cursor. */
  function NoteFor(s: State): Note {
    var cursor := AppliedTo(s);
    Note(cursor, MembershipIn(s),
         match cursor case Some(id) => Decimal(id.term) + "-" + Decimal(id.index) case None => "empty")
  }

  /** A snapshot id is the term and the index of the cursor in decimal, so it names one cursor. */
  lemma {:induction false} NoteNamesCursor(s: State, t: State)
    requires NoteFor(s).snapshotId == NoteFor(t).snapshotId
    ensures NoteFor(s).lastApplied == NoteFor(t).lastApplied
  {
    var a, b := AppliedTo(s), AppliedTo(t);
    if a.Some? { NameParts(a.value); }
    if b.Some? { NameParts(b.value); }
    if a.Some? && b.Some? {
      NameInjective(Decimal(a.value.term), Decimal(a.value.index), Decimal(b.value.term), Decimal(b.value.index));
    }
  }

  lemma {:induction false} NameParts(id: LogId)
    ensures Spelled(Decimal(id.term)) == id.term && Spelled(Decimal(id.index)) == id.index
    ensures forall i :: 0 <= i < |Decimal(id.term)| ==> Decimal(id.term)[i] != '-'
    ensures Decimal(id.term) + "-" + Decimal(id.index) != "empty"
  {
    DecimalMeaning(id.term);
    DecimalMeaning(id.index);
    assert (Decimal(id.term) + "-" + Decimal(id.index))[0] == Decimal(id.term)[0];
    assert "empty"[0] == 'e';
  }

  function AsMeta(note: Note): MetaValue { SnapshotNote(note.lastApplied, note.membership, note.snapshotId) }

  function Noted(s: State, note: Note): State { SaveMeta(s, SnapshotMeta, Some(AsMeta(note))) }

  /** The note in the metadata table. */
  function NoteIn(s: State): Option<Note> {
    if SnapshotMeta in s.meta && s.meta[SnapshotMeta].SnapshotNote? then
      var m := s.meta[SnapshotMeta];
      Some(Note(m.lastApplied, m.membership, m.snapshotId))
    else
      None
  }

  /** `build_snapshot`, its note made, after its first `steps` durable steps: an old image
      removed, the new one begun, the new one written, the snapshot noted. */
  function BuiltTo(d: Disk, note: Note, steps: nat): Disk {
    var id := note.snapshotId;
    if steps == 0 then d
    else if steps == 1 then d.(images := d.images - {id})
    else if steps == 2 then d.(images := d.images[id := Torn])
    else if steps == 3 then d.(images := d.images[id := Whole(d.tables)])
    else Disk(Noted(d.tables, note), d.images[id := Whole(d.tables)])
  }

  const BUILD_STEPS: nat := 4

  /** `install_snapshot` after its first `steps` durable steps: the image begun, the image
      written, the tables replaced, the image removed, the snapshot noted. */
  function InstalledTo(d: Disk, s: Snapshot, steps: nat): Disk {
    var id := s.note.snapshotId;
    if steps == 0 then d
    else if steps == 1 then d.(images := d.images[id := Torn])
    else if steps == 2 then d.(images := d.images[id := Whole(s.image)])
    else if steps == 3 then Disk(s.image, d.images[id := Whole(s.image)])
    else if steps == 4 then Disk(s.image, d.images - {id})
    else Disk(Noted(s.image, s.note), d.images - {id})
  }

  const INSTALL_STEPS: nat := 5

  /** `get_current_snapshot` */
  function Current(d: Disk): Result<Option<Found>, StoreError> {
    match NoteIn(d.tables)
    case None => Ok(None)
    case Some(note) =>
      if note.snapshotId in d.images then Ok(Some(Found(note, d.images[note.snapshotId]))) else Err(ImageMissing)
  }

  /** A note made after a batch has the id of its last entry for the cursor and, if there is a
      membership entry among them, the latest for the membership. */
  lemma {:induction false} NoteHoldsLatest(env: Env, s: State, es: seq<Entry>)
    requires es != []
    ensures var note := NoteFor(ApplyBatch(env, s, es));
            && note.lastApplied == Some(es[|es| - 1].logId)
            && (LatestMembership(es).Some? ==> note.membership == LatestMembership(es))
            && (LatestMembership(es).None? ==> note.membership == NoteFor(s).membership)
  {
    BatchParts(env, s, es);
  }

  // ----- Crashes -----

  /** The note in force names an image that is only partly there. */
  predicate HalfWritten(d: Disk) { Current(d).Ok? && Current(d).value.Some? && Current(d).value.value.image.Torn? }

  predicate TornAt(d: Disk, id: string) { id in d.images && d.images[id].Torn? }

  /** A crash part way through an install is documented to leave no installed snapshot, and
      never a note about half-written state.  It leaves none exactly when the tables in
      force, the old ones before the restore and the installed ones after it, hold no note.
      It leaves half-written state exactly when their note has the id of the image being
      written, or of one that an earlier crash has left. */
  lemma {:induction false} CrashedInstall(d: Disk, s: Snapshot, steps: nat)
    requires steps < INSTALL_STEPS
    ensures var after, note, id :=
              InstalledTo(d, s, steps), NoteIn(if steps < 3 then d.tables else s.image), s.note.snapshotId;
            && (Current(after) == Ok(None) <==> note.None?)
            && (HalfWritten(after) <==> note.Some? && if note.value.snapshotId == id && steps > 0 then steps == 1
                                                      else TornAt(d, note.value.snapshotId))
            && (Current(after).Err? <==> note.Some? && if note.value.snapshotId == id && steps > 0 then steps == 4
                                                       else note.value.snapshotId !in d.images)
  {
  }

  /** A crash part way through a build leaves the old note, and the old image with it
      unless both have the id of the new one: then the image is missing while the old one
      is removed, and half written while the new one is copied. */
  lemma {:induction false} CrashedBuild(d: Disk, new_: Note, steps: nat)
    requires steps < BUILD_STEPS
    ensures var after, note, id := BuiltTo(d, new_, steps), NoteIn(d.tables), new_.snapshotId;
            && (Current(after) == Ok(None) <==> note.None?)
            && (HalfWritten(after) <==> note.Some? && if note.value.snapshotId == id && steps > 0 then steps == 2
                                                      else TornAt(d, note.value.snapshotId))
            && (Current(after).Err? <==> note.Some? && if note.value.snapshotId == id && steps > 0 then steps == 1
                                                       else note.value.snapshotId !in d.images)
  {
  }

  // ----- Whole runs -----

  datatype StoreOp = Build(note: Note) | Install(snapshot: Snapshot) | Apply(entries: seq<Entry>)

  /** An operation, complete or cut short by a crash after some of its durable steps. */
  datatype StoreStep = Done(op: StoreOp) | Cut(op: StoreOp, steps: nat)

  function Perform(env: Env, d: Disk, op: StoreOp): Disk {
    match op
    case Build(note) => BuiltTo(d, note, BUILD_STEPS)
    case Install(s) => InstalledTo(d, s, INSTALL_STEPS)
    case Apply(es) => d.(tables := ApplyBatch(env, d.tables, es))
  }

  function PerformAll(env: Env, d: Disk, ops: seq<StoreOp>): Disk {
    if ops == [] then d else Perform(env, PerformAll(env, d, ops[..|ops| - 1]), ops[|ops| - 1])
  }

  /** An interrupted batch has applied a prefix of its entries. */
  function Take(env: Env, d: Disk, step: StoreStep): Disk {
    match step
    case Done(op) => Perform(env, d, op)
    case Cut(Build(note), steps) => BuiltTo(d, note, steps)
    case Cut(Install(s), steps) => InstalledTo(d, s, steps)
    case Cut(Apply(es), steps) => if steps <= |es| then d.(tables := ApplyEntries(env, d.tables, es, steps)) else d
  }

  function TakeAll(env: Env, d: Disk, run: seq<StoreStep>): Disk {
    if run == [] then d else Take(env, TakeAll(env, d, run[..|run| - 1]), run[|run| - 1])
  }

  /** The crash falls into the writing of image `id`. */
  predicate Tears(step: StoreStep, id: string) {
    match step
    case Cut(Build(note), steps) => steps == 2 && note.snapshotId == id
    case Cut(Install(s), steps) => steps == 1 && s.note.snapshotId == id
    case _ => false
  }

  /** The step writes or removes image `id`. */
  predicate Touches(step: StoreStep, id: string) {
    match step
    case Done(Build(note)) => note.snapshotId == id
    case Done(Install(s)) => s.note.snapshotId == id
    case Cut(Build(note), steps) => steps > 0 && note.snapshotId == id
    case Cut(Install(s), steps) => steps > 0 && s.note.snapshotId == id
    case _ => false
  }

  /** The latest step of the run that touched image `id` tore it. */
  ghost predicate LeftTorn(run: seq<StoreStep>, id: string) {
    exists i :: 0 <= i < |run| && Tears(run[i], id) && forall j :: i < j < |run| ==> !Touches(run[j], id)
  }

  lemma {:induction false} LeftTornSnoc(init: seq<StoreStep>, last: StoreStep, id: string)
    ensures LeftTorn(init + [last], id) <==> Tears(last, id) || (!Touches(last, id) && LeftTorn(init, id))
  {
    var run := init + [last];
    if LeftTorn(run, id) {
      var i :| 0 <= i < |run| && Tears(run[i], id) && forall j :: i < j < |run| ==> !Touches(run[j], id);
      if i < |init| {
        assert run[i] == init[i] && !Touches(run[|init|], id);
        forall j | i < j < |init| ensures !Touches(init[j], id) { assert run[j] == init[j]; }
      }
    }
    if Tears(last, id) {
      assert Tears(run[|init|], id);
    } else if !Touches(last, id) && LeftTorn(init, id) {
      var i :| 0 <= i < |init| && Tears(init[i], id) && forall j :: i < j < |init| ==> !Touches(init[j], id);
      assert run[i] == init[i];
      forall j | i < j < |run| ensures !Touches(run[j], id) { if j < |init| { assert run[j] == init[j]; } }
    }
  }

  lemma {:induction false} TornStep(env: Env, d: Disk, step: StoreStep, id: string)
    ensures TornAt(Take(env, d, step), id) <==> Tears(step, id) || (!Touches(step, id) && TornAt(d, id))
  {
  }

  /** Over every run with crashes anywhere, an image is half written at the end if and only
      if the latest step that touched it was a crash during its writing. */
  lemma {:induction false} TornIff(env: Env, d: Disk, run: seq<StoreStep>, id: string)
    requires !TornAt(d, id)
    ensures TornAt(TakeAll(env, d, run), id) <==> LeftTorn(run, id)
  {
    if run != [] {
      var init, last := run[..|run| - 1], run[|run| - 1];
      TornIff(env, d, init, id);
      TornStep(env, TakeAll(env, d, init), last, id);
      LeftTornSnoc(init, last, id);
      assert run == init + [last];
    }
  }

  /** The documented promise over whole runs: the note in force points at half-written state
      if and only if the latest step that touched the image it names was a crash during its writing. */
  lemma {:induction false} HalfWrittenIff(env: Env, d: Disk, run: seq<StoreStep>)
    requires forall id :: id in d.images ==> d.images[id].Whole?
    ensures var end := TakeAll(env, d, run);
            HalfWritten(end) <==> NoteIn(end.tables).Some? && LeftTorn(run, NoteIn(end.tables).value.snapshotId)
  {
    var note := NoteIn(TakeAll(env, d, run).tables);
    if note.Some? { TornIff(env, d, run, note.value.snapshotId); }
  }

  // ----- When the current snapshot can be read -----

  /** A built snapshot reads back as the tables it was built from. */
  lemma {:induction false} BuiltIsCurrent(d: Disk, note: Note)
    ensures Current(BuiltTo(d, note, BUILD_STEPS)) == Ok(Some(Found(note, Whole(d.tables))))
  {
  }

  /** An install removes the image that it then notes: no current snapshot can be read after it. */
  lemma {:induction false} InstalledIsMissing(d: Disk, s: Snapshot)
    ensures Current(InstalledTo(d, s, INSTALL_STEPS)) == Err(ImageMissing)
  {
  }

  /** A leader that builds twice ships an image with its earlier note, so a follower's
      crash after the restore finds a note: the documented outcome fails from then on. */
  lemma {:induction false} SecondBuildIsNoted(env: Env, d: Disk, first: Note, second: Note, es: seq<Entry>,
                                              follower: Disk, steps: nat)
    requires steps == 3 || steps == 4
    ensures var again := ApplyBatch(env, BuiltTo(d, first, BUILD_STEPS).tables, es);
            Current(InstalledTo(follower, Snapshot(second, again), steps)) != Ok(None)
  {
    EntriesKeepNote(env, BuiltTo(d, first, BUILD_STEPS).tables, es, |es|);
  }

  /** The latest build or install of the sequence is an install. */
  predicate EndsInstalled(ops: seq<StoreOp>) {
    ops != [] && match ops[|ops| - 1]
                 case Build(_) => false
                 case Install(_) => true
                 case Apply(_) => EndsInstalled(ops[..|ops| - 1])
  }

  lemma {:induction false} EntriesKeepNote(env: Env, s: State, es: seq<Entry>, n: nat)
    requires n <= |es|
    ensures NoteIn(ApplyEntries(env, s, es, n)) == NoteIn(s)
  {
    if n > 0 { EntriesKeepNote(env, s, es, n - 1); }
  }

  /** Over every run from a store whose current snapshot can be read: it can be read at
      the end if and only if the latest build or install was not an install. */
  lemma {:induction false} CurrentIff(env: Env, d: Disk, ops: seq<StoreOp>)
    requires Current(d).Ok?
    ensures Current(PerformAll(env, d, ops)).Ok? <==> !EndsInstalled(ops)
  {
    if ops != [] {
      var before, last := PerformAll(env, d, ops[..|ops| - 1]), ops[|ops| - 1];
      CurrentIff(env, d, ops[..|ops| - 1]);
      match last
      case Build(note) => BuiltIsCurrent(before, note);
      case Install(s) => InstalledIsMissing(before, s);
      case Apply(es) => EntriesKeepNote(env, before.tables, es, |es|);
    }
  }

  // ----- The store as an object -----

  class SnapshotStorage {
    const writer: Writer
    var images: map<string, Image>

    function Contents(): Disk
      reads this, writer
    {
      Disk(writer.Contents(), images)
    }

    constructor (tables: State)
      ensures Contents() == Disk(tables, map[]) && fresh(writer)
    {
      writer := new Writer(tables);
      images := map[];
    }

    /** The first half of `build_snapshot`: the cursor and the membership are read. */
    method BeginSnapshot() returns (note: Note)
      ensures note == NoteFor(writer.Contents())
    {
      var id := "empty";
      var lastApplied: Option<LogId> := None;
      if LastApplied in writer.meta && writer.meta[LastApplied].LogIdValue? {
        lastApplied := Some(writer.meta[LastApplied].id);
        id := Decimal(lastApplied.value.term) + "-" + Decimal(lastApplied.value.index);
      }
      return Note(lastApplied, MembershipIn(writer.Contents()), id);
    }

    /** The second half of `build_snapshot`, when other commands may have come in between:
        the tables are copied as they are now, and noted as they were. */
    method FinishSnapshot(note: Note) returns (s: Snapshot)
      modifies this, writer
      ensures Contents() == BuiltTo(old(Contents()), note, BUILD_STEPS)
      ensures s == Snapshot(note, old(writer.Contents()))
    {
      var tables := writer.Snapshot();
      if note.snapshotId in images { images := images - {note.snapshotId}; }
      assert images == old(images) - {note.snapshotId};
      assert Contents() == BuiltTo(old(Contents()), note, 1);
      images := images[note.snapshotId := Whole(tables)];
      assert images == old(images)[note.snapshotId := Whole(tables)];
      assert Contents() == BuiltTo(old(Contents()), note, 3);
      writer.SaveRaftMeta(SnapshotMeta, Some(AsMeta(note)));
      return Snapshot(note, images[note.snapshotId].tables);
    }

    /** `install_snapshot` */
    method InstallSnapshot(s: Snapshot)
      modifies this, writer
      ensures Contents() == InstalledTo(old(Contents()), s, INSTALL_STEPS)
    {
      var id := s.note.snapshotId;
      images := images[id := Whole(s.image)];
      assert Contents() == InstalledTo(old(Contents()), s, 2);
      writer.RestoreSnapshot(images[id].tables);
      assert Contents() == InstalledTo(old(Contents()), s, 3);
      images := images - {id};
      assert images == old(images) - {id};
      assert Contents() == InstalledTo(old(Contents()), s, 4);
      writer.SaveRaftMeta(SnapshotMeta, Some(AsMeta(s.note)));
    }

    /** `get_current_snapshot` */
    method GetCurrentSnapshot() returns (r: Result<Option<Found>, StoreError>)
      ensures r == Current(Contents())
    {
      var note := NoteIn(writer.Contents());
      if note.None? { return Ok(None); }
      if note.value.snapshotId !in images { return Err(ImageMissing); }
      return Ok(Some(Found(note.value, images[note.value.snapshotId])));
    }
  }

  method ApplyAll(writer: Writer, env: Env, batches: seq<seq<Entry>>)
    modifies writer
    ensures writer.Contents() == ApplyBatches(env, old(writer.Contents()), batches)
  {
    ghost var before := writer.Contents();
    for i := 0 to |batches|
      invariant writer.Contents() == ApplyBatches(env, before, batches[..i])
    {
      assert batches[..i + 1][..i] == batches[..i];
      var _ := writer.ApplyToStateMachine(env, batches[i]);
    }
    assert batches[..|batches|] == batches;
  }

  /** One replica applies `xs`, reads its cursor for a snapshot, applies `zs` and only then
      copies its tables; another, in any state, installs the copy and applies everything
      after the noted cursor, `zs` and `ys`.  The second one ends with the ledger tables,
      log, cursor and membership of applying each entry once. */
  method CatchUp(leader: SnapshotStorage, follower: SnapshotStorage, env: Env, xs: seq<seq<Entry>>,
                 zs: seq<seq<Entry>>, ys: seq<seq<Entry>>)
    requires leader != follower && leader.writer != follower.writer
    modifies leader, leader.writer, follower, follower.writer
    ensures SameLedger(follower.writer.Contents(),
                       ApplyBatch(env, old(leader.writer.Contents()), Flatten(xs) + Flatten(zs) + Flatten(ys)))
  {
    ghost var start := leader.writer.Contents();
    ApplyAll(leader.writer, env, xs);
    var note := leader.BeginSnapshot();
    ApplyAll(leader.writer, env, zs);
    var snapshot := leader.FinishSnapshot(note);
    follower.InstallSnapshot(snapshot);
    ApplyAll(follower.writer, env, zs);
    ApplyAll(follower.writer, env, ys);
    LateCopyStandsForPrefix(env, start, AsMeta(note), xs, zs, ys);
  }
}
