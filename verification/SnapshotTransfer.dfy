/** The snapshot chunk protocol: a sender that cuts bytes into frames, and a
    receiver that stages them on disk and installs the result. */
module SnapshotTransfer {
  import opened Bytes

  const MAX_CHUNK: nat := 1048576

  // ----- Frames -----

  datatype Init = Init(id: ByteString, totalChunks: U64, totalBytes: U64, digest: Hash)

  datatype Chunk = Chunk(id: ByteString, index: U64, payload: ByteString)

  datatype Frame =
    | InitFrame(init: Init)
    | ChunkFrame(chunk: Chunk)
    | FinalizeFrame(id: ByteString, digest: Hash)

  datatype Ack = Accepted(id: ByteString, next: nat) | Complete(id: ByteString)

  datatype ReceiveError =
    | ActiveSnapshot
    | NoActiveSnapshot
    | SnapshotIdMismatch(expectedId: ByteString, actualId: ByteString)
    | OutOfOrderChunk(expected: nat, actual: nat)
    | UnexpectedChunk(totalChunks: nat, actual: nat)
    | ChunkTooLarge(actual: nat)
    | BytesExceedTotal(actual: nat, expected: nat)
    | FinalizeBeforeAllChunks(expected: nat, actual: nat)
    | ByteCountMismatch(expected: nat, actual: nat)
    | HashMismatch
    | Io

  // ----- The receiver's state -----

  datatype Path = Installed | Staged(name: ByteString)

  datatype Active = Active(init: Init, next: nat, received: nat, path: Path)

  datatype Receiver = Receiver(files: map<Path, ByteString>, active: Option<Active>)

  /** Which file operations fail while a frame is handled.  A write may stop part way. */
  datatype Faults = Faults(
    createDir: bool, removeStaged: bool, open: bool, sync: bool, write: Option<nat>,
    read: bool, removeInstalled: bool, rename: bool, syncDir: bool)

  const NO_FAULTS: Faults := Faults(false, false, false, false, None, false, false, false, false)

  /** `staged_path` */
  function StagedPath(H: HashFn, id: ByteString): Path { Staged(H(id)[..8]) }

  datatype Outcome = Outcome(receiver: Receiver, result: Result<Ack, ReceiveError>)

  /** `receive_init` */
  function ReceiveInit(H: HashFn, r: Receiver, init: Init, f: Faults): Outcome {
    var path := StagedPath(H, init.id);
    if r.active.Some? then Outcome(r, Err(ActiveSnapshot))
    else if f.createDir then Outcome(r, Err(Io))
    else if path in r.files && f.removeStaged then Outcome(r, Err(Io))
    else if f.open then Outcome(r.(files := r.files - {path}), Err(Io))
    else
      var files := r.files[path := []];
      if f.sync then Outcome(Receiver(files, None), Err(Io))
      else Outcome(Receiver(files, Some(Active(init, 0, 0, path))), Ok(Accepted(init.id, 0)))
  }

  /** The byte counter after a chunk: an unchecked 64-bit addition. */
  function NewTotal(a: Active, c: Chunk): U64 { (a.received + |c.payload|) % TWO_64 }

  /** The protocol checks of `receive_chunk`. */
  function ChunkError(r: Receiver, c: Chunk): Option<ReceiveError> {
    if r.active.None? then Some(NoActiveSnapshot)
    else
      var a := r.active.value;
      if c.id != a.init.id then Some(SnapshotIdMismatch(a.init.id, c.id))
      else if c.index != a.next then Some(OutOfOrderChunk(a.next, c.index))
      else if a.next >= a.init.totalChunks then Some(UnexpectedChunk(a.init.totalChunks, c.index))
      else if |c.payload| > MAX_CHUNK then Some(ChunkTooLarge(|c.payload|))
      else if NewTotal(a, c) > a.init.totalBytes then Some(BytesExceedTotal(NewTotal(a, c), a.init.totalBytes))
      else None
  }

  function FileAt(files: map<Path, ByteString>, path: Path): ByteString { if path in files then files[path] else [] }

  /** `receive_chunk`: counters move only when the write and the sync succeed. */
  function ReceiveChunk(r: Receiver, c: Chunk, f: Faults): Outcome {
    var error := ChunkError(r, c);
    if error.Some? then Outcome(r, Err(error.value))
    else
      var a := r.active.value;
      var staged := FileAt(r.files, a.path);
      if f.write.Some? && f.write.value < |c.payload| then
        Outcome(r.(files := r.files[a.path := staged + c.payload[..f.write.value]]), Err(Io))
      else
        var files := r.files[a.path := staged + c.payload];
        if f.sync then Outcome(r.(files := files), Err(Io))
        else
          Outcome(Receiver(files, Some(a.(received := NewTotal(a, c), next := a.next + 1))),
                  Ok(Accepted(a.init.id, a.next + 1)))
  }

  /** The checks of `receive_finalize` before the staged file is read. */
  function FinalizeError(a: Active, id: ByteString, digest: Hash): Option<ReceiveError> {
    if id != a.init.id then Some(SnapshotIdMismatch(a.init.id, id))
    else if a.next != a.init.totalChunks then Some(FinalizeBeforeAllChunks(a.init.totalChunks, a.next))
    else if a.received != a.init.totalBytes then Some(ByteCountMismatch(a.init.totalBytes, a.received))
    else if digest != a.init.digest then Some(HashMismatch)
    else None
  }

  /** `receive_finalize`: the session ends whatever happens; the staged file replaces the
      installed one only when its digest is the declared one. */
  function ReceiveFinalize(H: HashFn, r: Receiver, id: ByteString, digest: Hash, f: Faults): Outcome {
    if r.active.None? then Outcome(r, Err(NoActiveSnapshot))
    else
      var a := r.active.value;
      var error := FinalizeError(a, id, digest);
      if error.Some? then Discard(r, a.path, error.value, f)
      else if f.sync || f.read then Outcome(r.(active := None), Err(Io))
      else if H(FileAt(r.files, a.path)) != digest then Discard(r, a.path, HashMismatch, f)
      else if Installed in r.files && f.removeInstalled then Outcome(r.(active := None), Err(Io))
      else if f.rename then Outcome(Receiver(r.files - {Installed}, None), Err(Io))
      else
        Outcome(Receiver((r.files - {a.path})[Installed := FileAt(r.files, a.path)], None),
                if f.syncDir then Err(Io) else Ok(Complete(a.init.id)))
  }

  /** `remove_active`, then the error; a failing removal is reported instead. */
  function Discard(r: Receiver, path: Path, error: ReceiveError, f: Faults): Outcome {
    if path in r.files && f.removeStaged then Outcome(r.(active := None), Err(Io))
    else Outcome(Receiver(r.files - {path}, None), Err(error))
  }

  /** `receive` */
  function Receive(H: HashFn, r: Receiver, frame: Frame, f: Faults): Outcome {
    match frame
    case InitFrame(init) => ReceiveInit(H, r, init, f)
    case ChunkFrame(chunk) => ReceiveChunk(r, chunk, f)
    case FinalizeFrame(id, digest) => ReceiveFinalize(H, r, id, digest, f)
  }

  /** `abort_on_leader_change` */
  function Abort(r: Receiver, f: Faults): Receiver {
    if r.active.None? then r
    else
      var path := r.active.value.path;
      if path in r.files && f.removeStaged then r.(active := None) else Receiver(r.files - {path}, None)
  }

  // ----- The receiver as an object -----

  class SnapshotFileReceiver {
    var files: map<Path, ByteString>
    var active: Option<Active>

    function Contents(): Receiver
      reads this
    {
      Receiver(files, active)
    }

    constructor (existing: map<Path, ByteString>)
      ensures Contents() == Receiver(existing, None)
    {
      files, active := existing, None;
    }

    /** `remove_if_exists` */
    method RemoveIfExists(path: Path, fails: bool) returns (ok: bool)
      modifies this`files
      ensures ok == !(path in old(files) && fails)
      ensures files == if ok then old(files) - {path} else old(files)
    {
      if path in files && fails { return false; }
      files := files - {path};
      return true;
    }

    method TakeInit(H: HashFn, init: Init, f: Faults) returns (r: Result<Ack, ReceiveError>)
      modifies this
      ensures Outcome(Contents(), r) == ReceiveInit(H, old(Contents()), init, f)
    {
      if active.Some? { return Err(ActiveSnapshot); }
      if f.createDir { return Err(Io); }
      var path := StagedPath(H, init.id);
      var removed := RemoveIfExists(path, f.removeStaged);
      if !removed { return Err(Io); }
      if f.open { return Err(Io); }
      files := files[path := []];
      assert files == old(files)[path := []];
      if f.sync { return Err(Io); }
      active := Some(Active(init, 0, 0, path));
      return Ok(Accepted(init.id, 0));
    }

    method TakeChunk(c: Chunk, f: Faults) returns (r: Result<Ack, ReceiveError>)
      modifies this
      ensures Outcome(Contents(), r) == ReceiveChunk(old(Contents()), c, f)
    {
      if active.None? { return Err(NoActiveSnapshot); }
      var a := active.value;
      if c.id != a.init.id { return Err(SnapshotIdMismatch(a.init.id, c.id)); }
      if c.index != a.next { return Err(OutOfOrderChunk(a.next, c.index)); }
      if a.next >= a.init.totalChunks { return Err(UnexpectedChunk(a.init.totalChunks, c.index)); }
      if |c.payload| > MAX_CHUNK { return Err(ChunkTooLarge(|c.payload|)); }
      var newTotal := NewTotal(a, c);
      if newTotal > a.init.totalBytes { return Err(BytesExceedTotal(newTotal, a.init.totalBytes)); }
      if f.write.Some? && f.write.value < |c.payload| {
        files := files[a.path := FileAt(files, a.path) + c.payload[..f.write.value]];
        return Err(Io);
      }
      files := files[a.path := FileAt(files, a.path) + c.payload];
      if f.sync { return Err(Io); }
      active := Some(a.(received := newTotal, next := a.next + 1));
      return Ok(Accepted(a.init.id, a.next + 1));
    }

    /** Removes the staged file of an ended session, then reports the error. */
    method DiscardStaged(path: Path, error: ReceiveError, f: Faults) returns (r: Result<Ack, ReceiveError>)
      requires active.None?
      modifies this`files
      ensures Outcome(Contents(), r) == Discard(old(Contents()), path, error, f)
    {
      var removed := RemoveIfExists(path, f.removeStaged);
      if !removed { return Err(Io); }
      return Err(error);
    }

    method TakeFinalize(H: HashFn, id: ByteString, digest: Hash, f: Faults) returns (r: Result<Ack, ReceiveError>)
      modifies this
      ensures Outcome(Contents(), r) == ReceiveFinalize(H, old(Contents()), id, digest, f)
    {
      if active.None? { return Err(NoActiveSnapshot); }
      var a := active.value;
      active := None;
      if id != a.init.id {
        r := DiscardStaged(a.path, SnapshotIdMismatch(a.init.id, id), f);
        return;
      }
      if a.next != a.init.totalChunks {
        r := DiscardStaged(a.path, FinalizeBeforeAllChunks(a.init.totalChunks, a.next), f);
        return;
      }
      if a.received != a.init.totalBytes {
        r := DiscardStaged(a.path, ByteCountMismatch(a.init.totalBytes, a.received), f);
        return;
      }
      if digest != a.init.digest {
        r := DiscardStaged(a.path, HashMismatch, f);
        return;
      }
      if f.sync || f.read { return Err(Io); }
      var staged := FileAt(files, a.path);
      if H(staged) != digest {
        r := DiscardStaged(a.path, HashMismatch, f);
        return;
      }
      var removed := RemoveIfExists(Installed, f.removeInstalled);
      if !removed { return Err(Io); }
      if f.rename { return Err(Io); }
      files := (files - {a.path})[Installed := staged];
      assert files == (old(files) - {a.path})[Installed := staged];
      if f.syncDir { return Err(Io); }
      return Ok(Complete(a.init.id));
    }

    method Take(H: HashFn, frame: Frame, f: Faults) returns (r: Result<Ack, ReceiveError>)
      modifies this
      ensures Outcome(Contents(), r) == Receive(H, old(Contents()), frame, f)
    {
      match frame
      case InitFrame(init) => r := TakeInit(H, init, f);
      case ChunkFrame(chunk) => r := TakeChunk(chunk, f);
      case FinalizeFrame(id, digest) => r := TakeFinalize(H, id, digest, f);
    }

    method AbortOnLeaderChange(f: Faults) returns (r: Result<bool, ReceiveError>)
      modifies this
      ensures Contents() == Abort(old(Contents()), f)
      ensures r.Err? <==> old(active).Some? && old(active).value.path in old(files) && f.removeStaged
      ensures r.Ok? ==> r.value == old(active).Some?
    {
      if active.None? { return Ok(false); }
      var path := active.value.path;
      active := None;
      var removed := RemoveIfExists(path, f.removeStaged);
      if !removed { return Err(Io); }
      return Ok(true);
    }
  }
}
