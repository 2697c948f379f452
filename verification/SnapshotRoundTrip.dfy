/** Sending a snapshot: the frames, and what a receiver makes of them. */
module SnapshotRoundTrip {
  import opened Bytes
  import opened SnapshotTransfer

  // ----- The sender -----

  /** `chunks(MAX)`: pieces of the largest size, then the remainder. */
  function ChunksOf(id: ByteString, b: ByteString, index: nat): seq<Frame>
    requires index + |b| < TWO_64
  {
    if b == [] then []
    else if |b| <= MAX_CHUNK then [ChunkFrame(Chunk(id, index, b))]
    else [ChunkFrame(Chunk(id, index, b[..MAX_CHUNK]))] + ChunksOf(id, b[MAX_CHUNK..], index + 1)
  }

  function DivCeil(n: nat, d: nat): nat
    requires d > 0
  {
    (n + d - 1) / d
  }

  lemma {:induction false} ChunkCount(id: ByteString, b: ByteString, index: nat)
    requires index + |b| < TWO_64
    ensures |ChunksOf(id, b, index)| == DivCeil(|b|, MAX_CHUNK)
  {
    if |b| > MAX_CHUNK { ChunkCount(id, b[MAX_CHUNK..], index + 1); }
  }

  /** One mebibyte, or what is left. */
  function Piece(b: ByteString, from: nat): ByteString
    requires from <= |b|
  {
    b[from..if from + 1048576 <= |b| then from + 1048576 else |b|]
  }

  /** Chunk `i` carries the piece that starts at mebibyte `i`. */
  lemma {:induction false} ChunkMeaning(id: ByteString, b: ByteString, index: nat, i: nat)
    requires index + |b| < TWO_64 && i < |ChunksOf(id, b, index)|
    ensures 1048576 * i < |b| && ChunksOf(id, b, index)[i] == ChunkFrame(Chunk(id, index + i, Piece(b, 1048576 * i)))
  {
    if i > 0 {
      ChunkMeaning(id, b[MAX_CHUNK..], index + 1, i - 1);
    }
  }

  function InitOf(H: HashFn, id: ByteString, b: ByteString): Init
    requires |b| < TWO_64
  {
    Init(id, DivCeil(|b|, MAX_CHUNK), |b|, H(b))
  }

  function Frames(H: HashFn, id: ByteString, b: ByteString): seq<Frame>
    requires |b| < TWO_64
  {
    [InitFrame(InitOf(H, id, b))] + ChunksOf(id, b, 0) + [FinalizeFrame(id, H(b))]
  }

  /** `chunk_snapshot_bytes` */
  method ChunkSnapshotBytes(H: HashFn, id: ByteString, b: ByteString) returns (frames: seq<Frame>)
    requires |b| < TWO_64
    ensures frames == Frames(H, id, b)
  {
    var digest := H(b);
    var totalChunks := if |b| == 0 then 0 else DivCeil(|b|, MAX_CHUNK);
    frames := [InitFrame(Init(id, totalChunks, |b|, digest))];
    var offset, index := 0, 0;
    while offset < |b|
      invariant offset <= |b| && index <= offset
      invariant frames + ChunksOf(id, b[offset..], index) == [InitFrame(InitOf(H, id, b))] + ChunksOf(id, b, 0)
    {
      var end := if offset + MAX_CHUNK <= |b| then offset + MAX_CHUNK else |b|;
      NextPiece(id, b, offset, end, index);
      frames := frames + [ChunkFrame(Chunk(id, index, b[offset..end]))];
      offset, index := end, index + 1;
    }
    frames := frames + [FinalizeFrame(id, digest)];
  }

  lemma {:induction false} NextPiece(id: ByteString, b: ByteString, offset: nat, end: nat, index: nat)
    requires offset < |b| && index + |b| - offset < TWO_64
    requires end == if offset + MAX_CHUNK <= |b| then offset + MAX_CHUNK else |b|
    ensures ChunksOf(id, b[offset..], index)
         == [ChunkFrame(Chunk(id, index, b[offset..end]))] + ChunksOf(id, b[end..], index + 1)
  {
    var rest := b[offset..];
    if |rest| <= MAX_CHUNK {
      assert b[offset..end] == rest && b[end..] == [];
    } else {
      assert rest[..MAX_CHUNK] == b[offset..end] && rest[MAX_CHUNK..] == b[end..];
    }
  }

  // ----- The receiver fed with frames -----

  /** The receiver after a list of frames, without file-system faults. */
  function Feed(H: HashFn, r: Receiver, frames: seq<Frame>): Receiver
    decreases |frames|
  {
    if frames == [] then r else Feed(H, Receive(H, r, frames[0], NO_FAULTS).receiver, frames[1..])
  }

  lemma {:induction false} FeedConcat(H: HashFn, r: Receiver, a: seq<Frame>, b: seq<Frame>)
    ensures Feed(H, r, a + b) == Feed(H, Feed(H, r, a), b)
    decreases |a|
  {
    if a == [] {
      assert a + b == b;
    } else {
      assert (a + b)[1..] == a[1..] + b;
      FeedConcat(H, Receive(H, r, a[0], NO_FAULTS).receiver, a[1..], b);
    }
  }

  /** The session has staged `done`. */
  ghost predicate Staging(H: HashFn, r: Receiver, init: Init, next: nat, done: ByteString) {
    && r.active == Some(Active(init, next, |done|, StagedPath(H, init.id)))
    && FileAt(r.files, StagedPath(H, init.id)) == done
  }

  lemma {:induction false} OneChunkAccepted(H: HashFn, r: Receiver, init: Init, next: nat, done: ByteString,
                                            piece: ByteString)
    requires Staging(H, r, init, next, done) && next < init.totalChunks && |piece| <= MAX_CHUNK
    requires |done| + |piece| <= init.totalBytes
    ensures Staging(H, Receive(H, r, ChunkFrame(Chunk(init.id, next, piece)), NO_FAULTS).receiver, init, next + 1,
                    done + piece)
  {
  }

  lemma {:induction false} ChunksAccepted(H: HashFn, r: Receiver, init: Init, next: nat, done: ByteString,
                                          rest: ByteString)
    requires next + |rest| < TWO_64 && Staging(H, r, init, next, done)
    requires |done| + |rest| == init.totalBytes && next + |ChunksOf(init.id, rest, next)| == init.totalChunks
    ensures Staging(H, Feed(H, r, ChunksOf(init.id, rest, next)), init, init.totalChunks, done + rest)
    decreases |rest|
  {
    if rest == [] {
      assert done + rest == done;
    } else {
      var end := if |rest| <= MAX_CHUNK then |rest| else MAX_CHUNK;
      var piece := rest[..end];
      var frames := ChunksOf(init.id, rest, next);
      NextPiece(init.id, rest, 0, end, next);
      assert rest[0..] == rest && rest[0..end] == piece;
      var others := ChunksOf(init.id, rest[end..], next + 1);
      var after := Receive(H, r, ChunkFrame(Chunk(init.id, next, piece)), NO_FAULTS).receiver;
      OneChunkAccepted(H, r, init, next, done, piece);
      assert frames[0] == ChunkFrame(Chunk(init.id, next, piece)) && frames[1..] == others;
      ChunksAccepted(H, after, init, next + 1, done + piece, rest[end..]);
      assert (done + piece) + rest[end..] == done + rest;
    }
  }

  lemma {:induction false} FinalizeInstalls(H: HashFn, r: Receiver, init: Init, b: ByteString)
    requires Staging(H, r, init, init.totalChunks, b) && |b| == init.totalBytes && H(b) == init.digest
    ensures var after := Receive(H, r, FinalizeFrame(init.id, init.digest), NO_FAULTS);
            && after.result == Ok(Complete(init.id)) && after.receiver.active.None?
            && Installed in after.receiver.files && after.receiver.files[Installed] == b
  {
  }

  /** Feeding the frames of `b` to an idle receiver installs exactly `b`, for every `b`. */
  lemma {:induction false} TransferInstalls(H: HashFn, r: Receiver, id: ByteString, b: ByteString)
    requires r.active.None? && |b| < TWO_64
    ensures var after := Feed(H, r, Frames(H, id, b));
            after.active.None? && Installed in after.files && after.files[Installed] == b
  {
    var init, chunks, last := InitOf(H, id, b), ChunksOf(id, b, 0), [FinalizeFrame(id, H(b))];
    var started := Receive(H, r, InitFrame(init), NO_FAULTS).receiver;
    FeedConcat(H, r, [InitFrame(init)] + chunks, last);
    FeedConcat(H, r, [InitFrame(init)], chunks);
    assert [InitFrame(init)][1..] == [];
    ChunkCount(id, b, 0);
    assert [] + b == b;
    ChunksAccepted(H, started, init, 0, [], b);
    FinalizeInstalls(H, Feed(H, started, chunks), init, b);
    assert last[1..] == [];
  }

  // ----- Interleaved with refused frames -----

  /** An init or chunk frame that the receiver refuses. */
  ghost predicate Refused(H: HashFn, r: Receiver, frame: Frame) {
    !frame.FinalizeFrame? && Receive(H, r, frame, NO_FAULTS).result.Err?
  }

  lemma {:induction false} RefusedChangesNothing(H: HashFn, r: Receiver, frame: Frame)
    requires Refused(H, r, frame)
    ensures Receive(H, r, frame, NO_FAULTS).receiver == r
  {
  }

  /** `all` is `own` with refused frames in between. */
  ghost predicate Interleaved(H: HashFn, r: Receiver, own: seq<Frame>, all: seq<Frame>)
    decreases |all|
  {
    if all == [] then own == []
    else
      || (own != [] && all[0] == own[0]
          && Interleaved(H, Receive(H, r, all[0], NO_FAULTS).receiver, own[1..], all[1..]))
      || (Refused(H, r, all[0]) && Interleaved(H, r, own, all[1..]))
  }

  lemma {:induction false} InterleavingIsHarmless(H: HashFn, r: Receiver, own: seq<Frame>, all: seq<Frame>)
    requires Interleaved(H, r, own, all)
    ensures Feed(H, r, all) == Feed(H, r, own)
    decreases |all|
  {
    if all != [] {
      var next := Receive(H, r, all[0], NO_FAULTS).receiver;
      if own != [] && all[0] == own[0] && Interleaved(H, next, own[1..], all[1..]) {
        InterleavingIsHarmless(H, Receive(H, r, all[0], NO_FAULTS).receiver, own[1..], all[1..]);
      } else {
        RefusedChangesNothing(H, r, all[0]);
        InterleavingIsHarmless(H, r, own, all[1..]);
      }
    }
  }

  /** A transfer installs exactly what was sent, whatever refused init and chunk frames
      of others come in between. */
  lemma {:induction false} InterleavedTransferInstalls(H: HashFn, r: Receiver, id: ByteString, b: ByteString,
                                                       all: seq<Frame>)
    requires r.active.None? && |b| < TWO_64 && Interleaved(H, r, Frames(H, id, b), all)
    ensures var after := Feed(H, r, all);
            after.active.None? && Installed in after.files && after.files[Installed] == b
  {
    InterleavingIsHarmless(H, r, Frames(H, id, b), all);
    TransferInstalls(H, r, id, b);
  }
}
