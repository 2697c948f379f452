/** What the snapshot receiver guarantees over every run of frames, aborts and
    file-system faults. */
module SnapshotSafety {
  import opened Bytes
  import opened SnapshotTransfer

  // ----- Runs with their history -----

  /** What a session declared and accepted.  It is clean while no write was cut short or unsynced. */
  datatype Session = Session(init: Init, accepted: seq<Chunk>, clean: bool)

  /** The receiver, the open session, and the session that last replaced the installed file. */
  datatype Trace = Trace(receiver: Receiver, session: Option<Session>, completed: Option<Session>)

  datatype Event = Deliver(frame: Frame, faults: Faults) | LeaderChange(faults: Faults)

  /** The finalize frame gets as far as the rename. */
  predicate Renames(H: HashFn, r: Receiver, id: ByteString, digest: Hash, f: Faults) {
    && r.active.Some? && FinalizeError(r.active.value, id, digest).None?
    && !f.sync && !f.read && !f.rename && !(Installed in r.files && f.removeInstalled)
    && H(FileAt(r.files, r.active.value.path)) == digest
  }

  function NextSession(t: Trace, frame: Frame, result: Result<Ack, ReceiveError>): Option<Session> {
    match frame
    case InitFrame(init) => if result.Ok? then Some(Session(init, [], true)) else t.session
    case ChunkFrame(chunk) =>
      if t.session.None? then None
      else if result.Ok? then Some(t.session.value.(accepted := t.session.value.accepted + [chunk]))
      else if result == Err(Io) then Some(t.session.value.(clean := false))
      else t.session
    case FinalizeFrame(_, _) => None
  }

  function Step(H: HashFn, t: Trace, e: Event): Trace {
    match e
    case Deliver(frame, f) =>
      var o := Receive(H, t.receiver, frame, f);
      var renamed := frame.FinalizeFrame? && Renames(H, t.receiver, frame.id, frame.digest, f);
      Trace(o.receiver, NextSession(t, frame, o.result), if renamed then t.session else t.completed)
    case LeaderChange(f) => Trace(Abort(t.receiver, f), None, t.completed)
  }

  function Run(H: HashFn, t: Trace, es: seq<Event>): Trace {
    if es == [] then t else Step(H, Run(H, t, es[..|es| - 1]), es[|es| - 1])
  }

  // ----- Safety -----

  function Joined(cs: seq<Chunk>): ByteString {
    if cs == [] then [] else Joined(cs[..|cs| - 1]) + cs[|cs| - 1].payload
  }

  lemma {:induction false} JoinedSnoc(cs: seq<Chunk>, c: Chunk)
    ensures Joined(cs + [c]) == Joined(cs) + c.payload
  {
    assert (cs + [c])[..|cs|] == cs;
  }

  /** Chunks 0, 1, 2, ... of the session, none too large. */
  ghost predicate InSequence(s: Session) {
    && |s.accepted| <= s.init.totalChunks
    && forall k :: 0 <= k < |s.accepted| ==>
         s.accepted[k].index == k && s.accepted[k].id == s.init.id && |s.accepted[k].payload| <= MAX_CHUNK
  }

  /** The 64-bit counter holds the number of accepted bytes; it can only wrap when the
      declared total is within one chunk of 2^64. */
  ghost predicate Counts(s: Session, counter: nat) {
    && counter == |Joined(s.accepted)| % TWO_64
    && (s.init.totalBytes + MAX_CHUNK < TWO_64 ==> counter == |Joined(s.accepted)|)
  }

  /** The open session is the receiver's active one. */
  ghost predicate Tracks(H: HashFn, a: Active, files: map<Path, ByteString>, s: Session) {
    && a.init == s.init && a.next == |s.accepted| && Counts(s, a.received) && a.received <= s.init.totalBytes
    && a.path == StagedPath(H, s.init.id) && InSequence(s)
    && (s.clean ==> FileAt(files, a.path) == Joined(s.accepted))
  }

  /** The content is what the completed session declared. */
  ghost predicate Vouched(H: HashFn, content: ByteString, s: Session) {
    && H(content) == s.init.digest
    && InSequence(s) && |s.accepted| == s.init.totalChunks && Counts(s, s.init.totalBytes)
    && (s.clean ==> content == Joined(s.accepted))
  }

  /** Every installed file is vouched for by the session that completed it, unless it was there at the start. */
  ghost predicate Safe(H: HashFn, start: map<Path, ByteString>, t: Trace) {
    && (t.receiver.active.Some? <==> t.session.Some?)
    && (t.session.Some? ==> Tracks(H, t.receiver.active.value, t.receiver.files, t.session.value))
    && (Installed in t.receiver.files && t.completed.None? ==>
          Installed in start && t.receiver.files[Installed] == start[Installed])
    && (Installed in t.receiver.files && t.completed.Some? ==>
          Vouched(H, t.receiver.files[Installed], t.completed.value))
  }

  lemma {:induction false} InitSafe(H: HashFn, start: map<Path, ByteString>, t: Trace, init: Init, f: Faults)
    requires Safe(H, start, t)
    ensures Safe(H, start, Step(H, t, Deliver(InitFrame(init), f)))
  {
  }

  lemma {:induction false} CountsOneMore(s: Session, a: Active, c: Chunk)
    requires Counts(s, a.received) && a.init == s.init && a.received <= s.init.totalBytes && |c.payload| <= MAX_CHUNK
    ensures Counts(s.(accepted := s.accepted + [c]), NewTotal(a, c))
  {
    JoinedSnoc(s.accepted, c);
    AddModulo(|Joined(s.accepted)|, |c.payload|);
  }

  lemma {:induction false} AddModulo(m: nat, n: nat)
    ensures (m % TWO_64 + n) % TWO_64 == (m + n) % TWO_64
  {
  }

  lemma {:induction false} ChunkSafe(H: HashFn, start: map<Path, ByteString>, t: Trace, c: Chunk, f: Faults)
    requires Safe(H, start, t)
    ensures Safe(H, start, Step(H, t, Deliver(ChunkFrame(c), f)))
  {
    if ChunkError(t.receiver, c).None? {
      var s, a := t.session.value, t.receiver.active.value;
      JoinedSnoc(s.accepted, c);
      CountsOneMore(s, a, c);
    }
  }

  lemma {:induction false} FinalizeSafe(H: HashFn, start: map<Path, ByteString>, t: Trace, id: ByteString, digest: Hash,
                                        f: Faults)
    requires Safe(H, start, t)
    ensures Safe(H, start, Step(H, t, Deliver(FinalizeFrame(id, digest), f)))
  {
  }

  lemma {:induction false} StepSafe(H: HashFn, start: map<Path, ByteString>, t: Trace, e: Event)
    requires Safe(H, start, t)
    ensures Safe(H, start, Step(H, t, e))
  {
    match e
    case Deliver(frame, f) =>
      match frame {
        case InitFrame(init) => InitSafe(H, start, t, init, f);
        case ChunkFrame(chunk) => ChunkSafe(H, start, t, chunk, f);
        case FinalizeFrame(id, digest) => FinalizeSafe(H, start, t, id, digest, f);
      }
    case LeaderChange(f) =>
  }

  /** For every sequence of frames, aborts and faults: an installed file hashes to the
      digest declared by the session that completed it, that session accepted exactly
      its chunks in order, and without write faults the file is those chunks joined. */
  lemma {:induction false} RunSafe(H: HashFn, files: map<Path, ByteString>, es: seq<Event>)
    ensures Safe(H, files, Run(H, Trace(Receiver(files, None), None, None), es))
  {
    if es != [] {
      RunSafe(H, files, es[..|es| - 1]);
      StepSafe(H, files, Run(H, Trace(Receiver(files, None), None, None), es[..|es| - 1]), es[|es| - 1]);
    }
  }

  // ----- When an installed file is lost -----

  /** The event completes a transfer but for the rename, which fails: the old file is already removed. */
  ghost predicate Loses(H: HashFn, r: Receiver, e: Event) {
    && e.Deliver? && e.frame.FinalizeFrame? && e.faults.rename
    && Renames(H, r, e.frame.id, e.frame.digest, e.faults.(rename := false))
  }

  /** The event replaces the installed file. */
  ghost predicate Replaces(H: HashFn, r: Receiver, e: Event) {
    e.Deliver? && e.frame.FinalizeFrame? && Renames(H, r, e.frame.id, e.frame.digest, e.faults)
  }

  /** The active session stages its file beside the installed one. */
  ghost predicate StagedApart(r: Receiver) { r.active.Some? ==> r.active.value.path.Staged? }

  /** Over every frame, abort and fault: an installed file disappears if and only if a
      transfer completes but for a failing rename, and it is new or different only if
      a transfer completes. */
  lemma {:induction false} InstalledIff(H: HashFn, t: Trace, e: Event)
    requires StagedApart(t.receiver)
    ensures Installed in t.receiver.files ==> (Installed !in Step(H, t, e).receiver.files <==> Loses(H, t.receiver, e))
    ensures Installed in Step(H, t, e).receiver.files && !Replaces(H, t.receiver, e) ==>
              Installed in t.receiver.files && Step(H, t, e).receiver.files[Installed] == t.receiver.files[Installed]
    ensures Loses(H, t.receiver, e) ==> Installed !in Step(H, t, e).receiver.files
    ensures Replaces(H, t.receiver, e) ==> Installed in Step(H, t, e).receiver.files
  {
    match e
    case Deliver(frame, f) =>
      match frame {
        case InitFrame(init) =>
        case ChunkFrame(chunk) =>
        case FinalizeFrame(id, digest) =>
      }
    case LeaderChange(f) =>
  }

  ghost predicate SameFile(a: map<Path, ByteString>, b: map<Path, ByteString>, p: Path) {
    (p in a <==> p in b) && FileAt(a, p) == FileAt(b, p)
  }

  /** A leader change and a refused finalize frame end the session and remove its staged file,
      unless the removal fails, and touch no other file. */
  lemma {:induction false} EndedSession(H: HashFn, r: Receiver, id: ByteString, digest: Hash, f: Faults)
    requires r.active.Some? && FinalizeError(r.active.value, id, digest).Some?
    ensures var path, refused := r.active.value.path, Receive(H, r, FinalizeFrame(id, digest), f).receiver;
            && refused == Abort(r, f) && refused.active == None
            && (path in refused.files <==> path in r.files && f.removeStaged)
            && forall p :: p != path ==> SameFile(refused.files, r.files, p)
  {
  }

  /** The run from an idle receiver over these files. */
  function RunFrom(H: HashFn, files: map<Path, ByteString>, es: seq<Event>): Trace {
    Run(H, Trace(Receiver(files, None), None, None), es)
  }

  ghost predicate InstalledAfter(H: HashFn, files: map<Path, ByteString>, es: seq<Event>) {
    Installed in RunFrom(H, files, es).receiver.files
  }

  lemma {:induction false} RunStagesApart(H: HashFn, files: map<Path, ByteString>, es: seq<Event>)
    ensures StagedApart(RunFrom(H, files, es).receiver)
  {
    RunSafe(H, files, es);
  }

  ghost predicate LosesAt(H: HashFn, files: map<Path, ByteString>, es: seq<Event>, k: nat)
    requires k < |es|
  {
    Loses(H, RunFrom(H, files, es[..k]).receiver, es[k])
  }

  ghost predicate ReplacesAt(H: HashFn, files: map<Path, ByteString>, es: seq<Event>, k: nat)
    requires k < |es|
  {
    Replaces(H, RunFrom(H, files, es[..k]).receiver, es[k])
  }

  /** Event `k` loses the file, and none after it installs another. */
  ghost predicate LostAt(H: HashFn, files: map<Path, ByteString>, es: seq<Event>, k: nat)
    requires k < |es|
  {
    LosesAt(H, files, es, k) && forall j :: k < j < |es| ==> !ReplacesAt(H, files, es, j)
  }

  lemma {:induction false} SameEvents(H: HashFn, files: map<Path, ByteString>, es: seq<Event>, k: nat)
    requires k < |es| - 1
    ensures LosesAt(H, files, es, k) <==> LosesAt(H, files, es[..|es| - 1], k)
    ensures ReplacesAt(H, files, es, k) <==> ReplacesAt(H, files, es[..|es| - 1], k)
  {
    assert es[..|es| - 1][..k] == es[..k];
  }

  lemma {:induction false} SameLoss(H: HashFn, files: map<Path, ByteString>, es: seq<Event>, k: nat)
    requires k < |es| - 1
    ensures LostAt(H, files, es, k) <==> LostAt(H, files, es[..|es| - 1], k) && !ReplacesAt(H, files, es, |es| - 1)
  {
    var init := es[..|es| - 1];
    SameEvents(H, files, es, k);
    forall j | k < j < |init|
      ensures ReplacesAt(H, files, es, j) <==> ReplacesAt(H, files, init, j)
    {
      SameEvents(H, files, es, j);
    }
    if LostAt(H, files, init, k) && !ReplacesAt(H, files, es, |es| - 1) {
      forall j | k < j < |es|
        ensures !ReplacesAt(H, files, es, j)
      {
        if j < |init| { assert !ReplacesAt(H, files, init, j); }
      }
    }
    if LostAt(H, files, es, k) {
      forall j | k < j < |init| ensures !ReplacesAt(H, files, init, j) { assert !ReplacesAt(H, files, es, j); }
    }
  }

  /** What the last event of a run does to the installed file. */
  lemma {:induction false} LastEvent(H: HashFn, files: map<Path, ByteString>, es: seq<Event>)
    requires es != []
    ensures LosesAt(H, files, es, |es| - 1) ==> !InstalledAfter(H, files, es)
    ensures ReplacesAt(H, files, es, |es| - 1) ==> InstalledAfter(H, files, es)
    ensures !LosesAt(H, files, es, |es| - 1) && !ReplacesAt(H, files, es, |es| - 1) ==>
              (InstalledAfter(H, files, es) <==> InstalledAfter(H, files, es[..|es| - 1]))
  {
    var init, last := es[..|es| - 1], es[|es| - 1];
    RunStagesApart(H, files, init);
    InstalledIff(H, RunFrom(H, files, init), last);
  }

  /** Once installed, a file is missing at the end of the run if and only if some event
      lost it and no later transfer completed. */
  lemma {:induction false} LostIff(H: HashFn, files: map<Path, ByteString>, es: seq<Event>, i: nat)
    requires i <= |es| && InstalledAfter(H, files, es[..i])
    ensures !InstalledAfter(H, files, es) <==> exists k :: i <= k < |es| && LostAt(H, files, es, k)
  {
    if i == |es| {
      assert es[..i] == es;
    } else {
      var init, n := es[..|es| - 1], |es| - 1;
      LastEvent(H, files, es);
      assert init[..i] == es[..i];
      LostIff(H, files, init, i);
      forall k | i <= k < n
        ensures LostAt(H, files, es, k) <==> LostAt(H, files, init, k) && !ReplacesAt(H, files, es, n)
      {
        SameLoss(H, files, es, k);
      }
      if LosesAt(H, files, es, n) {
        assert LostAt(H, files, es, n);
      } else if !InstalledAfter(H, files, init) && !ReplacesAt(H, files, es, n) {
        var k :| i <= k < |init| && LostAt(H, files, init, k);
        assert LostAt(H, files, es, k);
      }
    }
  }

  // ----- What a frame is answered -----

  /** The answer to a chunk, from what the open session declared and has accepted: the next
      index acknowledged is the number of chunks accepted, this one included. */
  ghost predicate ChunkAnswer(s: Option<Session>, c: Chunk, f: Faults, r: Result<Ack, ReceiveError>) {
    if s.None? then r == Err(NoActiveSnapshot)
    else
      var init, n := s.value.init, |s.value.accepted|;
      var total := (|Joined(s.value.accepted)| + |c.payload|) % TWO_64;
      if c.id != init.id then r == Err(SnapshotIdMismatch(init.id, c.id))
      else if c.index != n then r == Err(OutOfOrderChunk(n, c.index))
      else if n >= init.totalChunks then r == Err(UnexpectedChunk(init.totalChunks, c.index))
      else if |c.payload| > 1024 * 1024 then r == Err(ChunkTooLarge(|c.payload|))
      else if total > init.totalBytes then r == Err(BytesExceedTotal(total, init.totalBytes))
      else if f.sync || (f.write.Some? && f.write.value < |c.payload|) then r == Err(Io)
      else r == Ok(Accepted(init.id, n + 1))
  }

  ghost predicate InitAnswer(s: Option<Session>, init: Init, f: Faults, staged: bool, r: Result<Ack, ReceiveError>) {
    if s.Some? then r == Err(ActiveSnapshot)
    else if f.createDir || (staged && f.removeStaged) || f.open || f.sync then r == Err(Io)
    else r == Ok(Accepted(init.id, 0))
  }

  /** The answer to a finalize frame, from the session and the staged file. */
  ghost predicate FinalizeAnswer(H: HashFn, s: Option<Session>, file: ByteString, id: ByteString, digest: Hash,
                                 f: Faults, staged: bool, installed: bool, r: Result<Ack, ReceiveError>) {
    if s.None? then r == Err(NoActiveSnapshot)
    else
      var init, n, received := s.value.init, |s.value.accepted|, |Joined(s.value.accepted)| % TWO_64;
      var unremoved := staged && f.removeStaged;
      if id != init.id then r == Err(if unremoved then Io else SnapshotIdMismatch(init.id, id))
      else if n != init.totalChunks then r == Err(if unremoved then Io else FinalizeBeforeAllChunks(init.totalChunks,
          n))
      else if received != init.totalBytes then
        r == Err(if unremoved then Io else ByteCountMismatch(init.totalBytes, received))
      else if digest != init.digest then r == Err(if unremoved then Io else HashMismatch)
      else if f.sync || f.read then r == Err(Io)
      else if H(file) != digest then r == Err(if unremoved then Io else HashMismatch)
      else if (installed && f.removeInstalled) || f.rename || f.syncDir then r == Err(Io)
      else r == Ok(Complete(init.id))
  }

  /** After every run the next frame is answered from the session's own history. */
  lemma {:induction false} AnswerMeaning(H: HashFn, files: map<Path, ByteString>, es: seq<Event>, frame: Frame,
                                         f: Faults)
    ensures var t := RunFrom(H, files, es);
            var r := Receive(H, t.receiver, frame, f).result;
            match frame
            case InitFrame(init) => InitAnswer(t.session, init, f, StagedPath(H, init.id) in t.receiver.files, r)
            case ChunkFrame(c) => ChunkAnswer(t.session, c, f, r)
            case FinalizeFrame(id, digest) =>
              var path := if t.session.Some? then StagedPath(H, t.session.value.init.id) else Installed;
              FinalizeAnswer(H, t.session, FileAt(t.receiver.files, path), id, digest, f, path in t.receiver.files,
                             Installed in t.receiver.files, r)
  {
    RunSafe(H, files, es);
    var t := RunFrom(H, files, es);
    if t.session.Some? && frame.ChunkFrame? {
      AddModulo(|Joined(t.session.value.accepted)|, |frame.chunk.payload|);
    }
  }
}
