# Omega commitment: a verified model

This project models, in Dafny 4.11, the parts of the Omega commitment crates
that carry its promises, and proves them for all inputs and all runs.

* **The membership circuit** (`Circuit`, `Lookups`, `CircuitSoundness`,
  `TraceBuilder`, `BitColumns`, `CircuitCompleteness`, `LookupBalance`,
  `CircuitExact`, `Unbounded`). The constraints and lookups are predicates over
  tables of elements of the BabyBear field (`BabyBear`, whose modulus is proved
  prime). A batch that receives fewer tuples than the field has elements can be
  satisfied exactly when every claim has a Merkle path, a batch of any size
  exactly when its wrong tuples cancel, and the tables the builder fills satisfy
  the constraints exactly when the witnesses are provable.
* **Blake3** (`Compression`, `Blake3`, `Blake3Hash`, `Blake3Rows`). The in-place
  compression and the column-wise schedule that fills a trace row both refine
  one definition, the rows of the Blake3 table are written by that schedule, and
  the leaf and node compressions are the single-chunk hashes of their preimages.
* **The Merkle trees** (`Sorting`, `Fold`, `Merkle`, `MerkleBinding`). One
  layer fold with the node hash as a parameter serves the v1, legacy and SHA3
  trees. The v1 root binds positions and commits to the payload set.
* **The verifier and the whole pipeline** (`Claims`, `Verifier`, `EndToEnd`).
  What verification decides, from an accepted proof down to the committed
  payload, and an honest proof that verifies.
* **The ledger** (`Ledger`, `LedgerWriter`, `LedgerRuns`, `CrashRecovery`,
  `LedgerInvariant`, `Replays`, `RaftLog`, `SnapshotStore`). Whole-run safety,
  replica agreement, snapshots that stand for prefixes however late they are
  copied, convergence after crashes, replays that change nothing, the log table
  as a contiguous log, and when the noted snapshot can be read.
* **Snapshot transfer** (`SnapshotTransfer`, `SnapshotSafety`,
  `SnapshotRoundTrip`). The receiver under every sequence of frames, aborts and
  file-system faults.
* **The codecs** (`Cbor`, `ClaimCodec`, `Reservations`, `ClaimWire`, `UtxoLeaf`,
  `Ingest`, `IngestParsers`, `IngestFormat`, `TokenPolicies`). Round trips, byte
  layouts, canonicality, prefix-freeness, the memory reserved for declared
  lengths, the exact error of the UTXO parser, a written form of its input that
  it reads back, and the agreement of the two ingest parsers.

`Arith` and `Bytes` hold arithmetic and byte strings.

## Conventions

Hash functions are parameters, with no injectivity assumed. A binding result
says "equal, or here are two distinct inputs, out of two explicit finite sets,
with one hash" (`Collision`). The Blake3 compression is a parameter where only
its relation to the hash matters (`HashesChunks`), and the 32-bit one where rows
are written (`ComputesAll`, met by `Blake3Hash.Standard`). The STARK is a record
of an acceptance predicate and an envelope decoder. `StarkSound` says it accepts
only public values with satisfying tables, `StarkComplete` that it accepts what
the prover makes from satisfying ones. Whether a ledger claim's proof verifies
is a parameter of the ledger (`Env`), instantiated by the verifier in
`EndToEnd`. File-system faults are an argument of every receiver step, and
crashes are steps of the recovery machine. Integers are unbounded and their
widths (`U32`, `U64`, the signed 63-bit range of the database, 128-bit totals,
the wrapping byte counter of a transfer) are written out.

What a specification function computes is fixed apart from its body: words by
their bits, orders by the first difference, preimages and encodings by literal
bytes at their offsets, refusals by the condition of each check, answers by the
history of the run.

Objects and loops of the code are classes and methods proved against
specification functions. The results over whole runs are lemmas about those
functions. Ghost parameters of some methods (`H`, `node`, `get`, `tail`,
`goal`) only name what the result is compared with.

## Where the code and its documentation disagree

The model follows the code.

* The node preimage is 77 bytes, since the node tag has 13; the comment in
  `omega-claim-prover/src/blake3_trace.rs` says 4 + 32 + 32 = 68.
* The index in the duplicate-payload error is that of the first of the two
  equal neighbours; its documentation says the second.
* The circuit takes payloads of at most 34 bytes; the documentation of the
  verifier and of the leaf hash says 64.
* The documentation asks a verifier to refuse indices not below the item count.
  `verify` does not compare the two. It accepts such an index exactly when the
  item count is not a power of two: the sentinel then names a padding leaf
  (`EndToEnd.OutOfRangeAcceptedIff`). The prover compares, and the ledger's
  signed index range excludes the sentinel (`EndToEnd.LedgerAcceptsRecorded`).
* At depth 0 the builder copies the leaf into the left column while the
  constraints ask for zero, so the prover's tables for a one-item sub-tree fail
  unless its leaf hash is zero (`CircuitCompleteness.DepthZeroFails`), although
  satisfying tables exist (`CircuitExact.WitnessTable`). For an empty batch the
  Blake3 table keeps an unfilled row.
* A crash during an install is documented to leave no installed snapshot, and
  never a note about half-written state. After the restore it leaves whatever
  note the installed image carries (`SnapshotStore.CrashedInstall`,
  `SecondBuildIsNoted`), and the note in force names a half-written image exactly
  when a crash has cut short the writing of that image and nothing has touched it
  since (`SnapshotStore.HalfWrittenIff`).
* Map keys out of order and trailing bytes are documented as error variants of
  their own. The UTXO parser reports both, and a script credential of the wrong
  length, under the catch-all variant; the model keeps them apart by message.
* UTXO encoding is documented as independent of asset order. That holds exactly
  up to the order of assets with one id (`UtxoLeaf.SameEncodingIff`,
  `DuplicateIdsKeepOrder`).
* Only the payload of a claim envelope is compared with its re-encoding. The
  envelope around it may use longer heads (`ClaimCodec.AcceptedIsCanonicalIff`,
  `LooseEnvelopeAccepted`).
* The two ingest parsers read one format, but the token-policy parser wants
  32-byte addresses where the UTXO parser takes any length.

Some consequences of the code are not mentioned in its documentation. `verify`
puts no bound on its list of public inputs, and is sound below p received tuples
and not from p on (`EndToEnd.VerifyBoundIsTight`, `FieldSizeAccepted`). The
decoders reserve memory for any declared length, and go on to refuse every input
whose bytes cannot fill it (`Reservations.OversizedIff`, `AcceptedFits`). An install
removes the image that it then notes, so no current snapshot can be read until
the next build (`SnapshotStore.CurrentIff`). A finalize frame removes the
installed snapshot before the rename, so it is lost exactly when only the rename
fails (`SnapshotSafety.InstalledIff`, `LostIff`).

## Model

| member | source | states |
|---|---|---|
| `CircuitSoundness.BatchSoundness` | omega-commitment/crates/omega-claim-prover/src/lib.rs:635-760 | For a batch of tables of any heights below p, padding included: if every table satisfies its row, transition, first-row and last-row constraints, every Blake3 row is genuine, the lookups balance in the field, and the claims receive fewer than p tuples in all (one for the leaf and two per level), then each claim has a payload of at most 34 bytes and a path of exactly its tree depth that walks from the leaf hash at the public index to the public root, and the real rows of each table are a prefix of exactly max(1, depth) rows. |
| `CircuitSoundness.TableLives` | omega-commitment/crates/omega-claim-prover/src/lib.rs:777-825 | However tall and padded, a satisfying table receives at most one tuple for its leaf and two per level. |
| `CircuitExact.BatchExact` | omega-commitment/crates/omega-claim-prover/src/lib.rs:635-859 | The constraints say exactly what they should: below p received tuples a batch of claims, the empty one and depth 0 included, has satisfying tables if and only if every claim has a payload and a path. |
| `CircuitExact.WitnessTable` | omega-commitment/crates/omega-claim-prover/src/lib.rs:635-760 | Every checked witness, of depth 0 too, has a satisfying table that receives exactly its compressions. |
| `CircuitExact.StandardExact` | omega-commitment/crates/omega-claim-prover/src/blake3_trace.rs:287-322 | The same for the concrete 32-bit compression with BLAKE3 on one chunk as the hash. |
| `Blake3Hash.RotateMeaning` | omega-commitment/crates/omega-claim-prover/src/blake3_trace.rs:336-345 | Rotation to the right by n bits: the low n bits come back on the left, the others move down. |
| `Blake3Hash.XorMeaning` | omega-commitment/crates/omega-claim-prover/src/blake3_trace.rs:336-345 | Bit i of an exclusive or is 1 exactly when bits i of the two words differ. |
| `Blake3Hash.AddMeaning` | omega-commitment/crates/omega-claim-prover/src/blake3_trace.rs:336-345 | Addition wraps once, at 2^32. |
| `Blake3Hash.IvMeaning` | omega-commitment/crates/omega-claim-prover/src/blake3_trace.rs:47-56 | The initial value is made of the first 32 fractional bits of the square roots of the first eight primes. |
| `Blake3.MixMeaning` | omega-commitment/crates/omega-claim-prover/src/blake3_trace.rs:336-345 | The quarter round, whatever the words, is the eight equations of section 2.2 of the BLAKE3 paper with rotations by 16, 12, 8 and 7. |
| `Blake3.MessageSchedule` | omega-commitment/crates/omega-claim-prover/src/blake3_trace.rs:346-348 | The message words of rounds 2 to 7, by position: the permutation of the BLAKE3 paper applied one to six times. |
| `CircuitExact.FieldSizeFails` | omega-commitment/crates/omega-claim-prover/src/lib.rs:777-859 | At p received tuples and beyond soundness is lost: for every compression, the concrete one included, and every claim, attested or not, p copies of the claim have satisfying tables. |
| `CircuitExact.BoundIsTight` | omega-commitment/crates/omega-claim-prover/src/lib.rs:777-859 | With an unattested claim to a one-item sub-tree at hand, the batches of at most n received tuples are satisfiable exactly when attested if and only if n is below p. |
| `Unbounded.SatisfiableIff` | omega-commitment/crates/omega-claim-prover/src/lib.rs:777-859 | For batches of any size: satisfying tables exist if and only if each claim has a table such that every tuple received, over all tables, a number of times that p does not divide is the tuple of a flagged compression. |
| `Lookups.RepeatedBalance` | omega-commitment/crates/omega-claim-prover/src/lib.rs:777-859 | P copies of any table, whatever its columns hold, balance against no Blake3 row at all. |
| `CircuitSoundness.TableSoundness` | omega-commitment/crates/omega-claim-prover/src/lib.rs:635-760 | The same for one table whose received tuples are all genuine compressions. |
| `CircuitSoundness.RowCount` | omega-commitment/crates/omega-claim-prover/src/lib.rs:700-760 | The number of real rows is max(1, depth), although the stop condition and the step counter are only equations modulo p; a row without a node hash occurs only at depth 0. |
| `CircuitSoundness.StepCounts` | omega-commitment/crates/omega-claim-prover/src/lib.rs:737-759 | The step column of real row i is i: counting modulo p never wraps in a table shorter than p. |
| `CircuitSoundness.BitsHoldIndex` | omega-commitment/crates/omega-claim-prover/src/lib.rs:1402-1418 | The 64 bit columns of real row i spell the public leaf index shifted right by i, and the direction bit is its parity. |
| `CircuitSoundness.PackedIndex` | omega-commitment/crates/omega-claim-prover/src/lib.rs:1402-1418 | Bit groups that pack to the eight big-endian bytes of a number spell that number. |
| `CircuitSoundness.OneHot` | omega-commitment/crates/omega-claim-prover/src/lib.rs:1381-1400 | Selector bits that sum to one have exactly one set position, and the weighted sum names it, so the payload length is unambiguous. |
| `CircuitSoundness.LeafBlockIsPreimage` | omega-commitment/crates/omega-claim-prover/src/lib.rs:1456-1484 | The 64 block columns of the first row are exactly the domain-separated leaf preimage of the claim, padded with zeros. |
| `CircuitSoundness.LeafLookup` | omega-commitment/crates/omega-claim-prover/src/lib.rs:1456-1484 | A first row whose leaf tuple is a genuine compression carries the leaf hash of some payload of at most 34 bytes at the public index. |
| `CircuitSoundness.NodeLookup` | omega-commitment/crates/omega-claim-prover/src/lib.rs:1486-1519 | A row whose two node tuples are genuine compressions has as current node the node hash of its left and right columns. |
| `CircuitSoundness.StepRow` | omega-commitment/crates/omega-claim-prover/src/lib.rs:635-760 | Such a row takes one step of the Merkle walk, oriented by the low index bit. |
| `CircuitSoundness.PathTo` | omega-commitment/crates/omega-claim-prover/src/lib.rs:1259-1271 | The nodes of the first j rows are a walk of length j from the leaf. |
| `CircuitSoundness.BalancedLookup` | omega-commitment/crates/omega-claim-prover/src/lib.rs:777-859 | When fewer than p live receives of multiplicity 1 balance the sends in the field, with any number of dead ones, every live receive is the tuple of a genuine Blake3 row. |
| `BabyBear.PIsPrime` | omega-commitment/crates/omega-claim-prover/src/lib.rs:179-180 | The field modulus 2013265921 has no factorisation, proved from the order of an element of two-power order; this is what lets a product constraint be read as a disjunction. |
| `BabyBear.ZeroProduct` | omega-commitment/crates/omega-claim-prover/src/lib.rs:635-760 | A product constraint `when(x).assert_zero(y)` means x = 0 or y = 0. |
| `Compression.LeafIsOneBlock` | omega-commitment/crates/omega-claim-prover/src/blake3_trace.rs:133-149 | The one-block leaf compression is the single-chunk hash of the leaf preimage (section 2.4 of the BLAKE3 paper), for every payload of at most 34 bytes. |
| `Compression.NodeIsTwoBlocks` | omega-commitment/crates/omega-claim-prover/src/blake3_trace.rs:167-197 | The two chained node compressions are the single-chunk hash of the 77-byte node preimage. |
| `TraceBuilder.DummyMeaning` | omega-commitment/crates/omega-claim-prover/src/blake3_trace.rs:248-252 | A dummy row compresses sixty-four zero bytes under the initial value, with counter, length and flags zero. |
| `Compression.FlagWords` | omega-commitment/crates/omega-claim-prover/src/blake3_trace.rs:26-43 | The flag words of leaf, first node, second node and dummy block are 11, 1, 10 and 0. |
| `TraceBuilder.ValidateWitness` | omega-commitment/crates/omega-claim-prover/src/lib.rs:1038-1102 | A witness is accepted if and only if its public inputs agree with the commitment, its index is below the item count, and its payload and path attest the claim; an accepted witness is returned unchanged with its leaf hash, a refused one with the error of the first check that fails. |
| `TraceBuilder.BuildRealRows` | omega-commitment/crates/omega-claim-prover/src/lib.rs:1126-1199 | The row loop, carrying the current node and the halving index, produces exactly the rows that the walk defines and pushes exactly the node compressions of the path. |
| `TraceBuilder.NodeAtStep` | omega-commitment/crates/omega-claim-prover/src/lib.rs:1214-1241 | The node that a row hands on is the next node of the Merkle walk. |
| `TraceBuilder.BuildMembershipTrace` | omega-commitment/crates/omega-claim-prover/src/lib.rs:1126-1199 | The table has a power-of-two height of at least 8, real rows first and one padding row repeated after them; the shared list is extended by the leaf compression followed by the node compressions. |
| `TraceBuilder.HeightMeaning` | omega-commitment/crates/omega-claim-prover/src/lib.rs:1126-1136 | The height of a table is the least power of two that is at least 8 and holds its real rows. |
| `BitColumns.PackedBits` | omega-commitment/crates/omega-claim-prover/src/lib.rs:1402-1441 | The written index bits pack, eight at a time, to the big-endian bytes of the index. |
| `BitColumns.BitsHalved` | omega-commitment/crates/omega-claim-prover/src/lib.rs:1126-1199 | Halving the index shifts the bit columns down by one and clears the top bit, for every index below 2^n. |
| `BitColumns.PackByteBits` | omega-commitment/crates/omega-claim-prover/src/lib.rs:1521-1562 | The bit columns of a byte string pack back to that byte string. |
| `BitColumns.SelectorSums` | omega-commitment/crates/omega-claim-prover/src/lib.rs:1381-1400 | A one-hot selector has the prefix sums and the weighted sum that the length constraints ask for. |
| `CircuitCompleteness.TableCompleteness` | omega-commitment/crates/omega-claim-prover/src/lib.rs:1126-1241 | The built table of a checked witness satisfies every constraint if and only if its path is not empty or its leaf hash is zero. |
| `CircuitCompleteness.DepthZeroFails` | omega-commitment/crates/omega-claim-prover/src/lib.rs:1160-1164 | Under every hash and every commitment with a sub-tree of one item: its only witness passes validation, and its built table satisfies the constraints if and only if the leaf hash is zero. |
| `CircuitCompleteness.BuiltRowFits` | omega-commitment/crates/omega-claim-prover/src/lib.rs:1214-1241 | Each built real row meets the row constraints with its own payload length and node values. |
| `LookupBalance.TableLive` | omega-commitment/crates/omega-claim-prover/src/lib.rs:777-825 | A built table receives exactly the tuples of the compressions pushed for it, in order and with multiplicity one. |
| `LookupBalance.FilledRowIsValid` | omega-commitment/crates/omega-claim-prover/src/blake3_trace.rs:350-436 | A filled row is genuine whatever output its compression records, since the output is computed anew, and it sends the tuple of the genuine compression exactly when a first- or last-block flag is set. |
| `LookupBalance.ColumnsAreValid` | omega-commitment/crates/omega-claim-prover/src/lib.rs:1521-1562 | The columns of a recorded compression are genuine if and only if the recorded output is the compression of the input. |
| `LookupBalance.BlakeTableValid` | omega-commitment/crates/omega-claim-prover/src/blake3_trace.rs:238-255 | Every row of the built Blake3 table is genuine if and only if the batch pushed some compression, or zeros happen to compress to zeros. |
| `LookupBalance.BatchCompleteness` | omega-commitment/crates/omega-claim-prover/src/lib.rs:1104-1241 | For every batch of checked witnesses: the lookups balance; all membership tables are satisfied if and only if every witness is provable; all Blake3 rows are genuine if and only if the batch is not empty or zeros compress to zeros. |
| `LookupBalance.BuildMembershipTraces` | omega-commitment/crates/omega-claim-prover/src/lib.rs:1104-1124 | One built table per witness, and one list holding all their compressions in order. |
| `LookupBalance.BuildStandardTraces` | omega-commitment/crates/omega-claim-prover/src/lib.rs:1104-1124 | With the concrete 32-bit compression: the lookups of the built tables balance, the membership tables are satisfied if and only if every witness is provable, and the Blake3 rows are genuine if and only if the batch is not empty or zeros compress to zeros. |
| `LookupBalance.BuildTraces` | omega-commitment/crates/omega-claim-prover/src/lib.rs:1104-1124 | The tables and the Blake3 rows of a batch are the ones the completeness result speaks about. |
| `Blake3.G` | omega-commitment/crates/omega-claim-prover/src/blake3_trace.rs:335-344 | One quarter round in place mixes exactly the four positions of one column or diagonal and leaves the other twelve words alone. |
| `Blake3.Round` | omega-commitment/crates/omega-claim-prover/src/blake3_trace.rs:324-333 | Eight in-place quarter rounds are one round: all columns, then all diagonals. |
| `Blake3.Compress` | omega-commitment/crates/omega-claim-prover/src/blake3_trace.rs:287-322 | The in-place loop of seven rounds and the feed-forward compute the sixteen output words of the compression function (section 2.2 of the BLAKE3 paper), for every word type. |
| `Blake3.XorHalves` | omega-commitment/crates/omega-claim-prover/src/blake3_trace.rs:287-322 | The last loop is the feed-forward of both halves. |
| `Blake3.SteppedIsStep` | omega-commitment/crates/omega-claim-prover/src/blake3_trace.rs:438-496 | A state whose four columns (or diagonals) are the mixed ones is determined: there is only one such state. |
| `Blake3.HalfRounds` | omega-commitment/crates/omega-claim-prover/src/blake3_trace.rs:438-513 | A loop of half rounds over the 4 by 4 state changes every column (or diagonal) by one half round of its own message words. |
| `Blake3.FillRound` | omega-commitment/crates/omega-claim-prover/src/blake3_trace.rs:438-496 | Four loops of half rounds on the 4 by 4 state are one round of the flat state, and the four states saved on the way are the ones after each half round. |
| `Blake3.SavedIsRound` | omega-commitment/crates/omega-claim-prover/src/blake3_trace.rs:438-496 | States saved after the four half rounds, each from the one before, end in the round of the reference form. |
| `Blake3.FillOutputs` | omega-commitment/crates/omega-claim-prover/src/blake3_trace.rs:350-436 | The column-wise half-round schedule that fills a trace row yields the same sixteen outputs as the compression function, and saves after every half round of its seven rounds the state that the schedule has there, for all inputs and every word type. |
| `Blake3.WriteOutputs` | omega-commitment/crates/omega-claim-prover/src/blake3_trace.rs:350-436 | The four output words per column, written column by column, are the feed-forward of the flattened state. |
| `Blake3Hash.WordsRoundTrip` | omega-commitment/crates/omega-claim-prover/src/blake3_trace.rs:275-285 | Packing bytes into little-endian words loses nothing. |
| `Blake3Hash.BytesRoundTrip` | omega-commitment/crates/omega-claim-prover/src/blake3_trace.rs:208-214 | Writing words as little-endian bytes loses nothing. |
| `Blake3Rows.WordBitsOfBytes` | omega-commitment/crates/omega-claim-prover/src/blake3_trace.rs:531-534 | Bytes taken as words and written bit by bit are the bit columns of the bytes, so the byte expressions of the lookup read them back. |
| `Blake3Rows.FillTraceRow` | omega-commitment/crates/omega-claim-prover/src/blake3_trace.rs:350-436 | The row written word by word, its outputs computed by the half-round schedule over 32-bit words, is the row whose output columns hold the standard compression of its input. |
| `Blake3Rows.BuildBlakeTrace` | omega-commitment/crates/omega-claim-prover/src/blake3_trace.rs:238-255 | One such row per compression, then dummy rows up to a power of two; the one row of an empty batch stays unfilled. |
| `Fold.DepthIsLeast` | omega-commitment/crates/omega-commitment-core/src/tree.rs:263-289 | The padded leaf count is the least power of two at least max(n, 1), and the depth its logarithm. |
| `Fold.PaddedIff` | omega-commitment/crates/omega-commitment-core/src/tree.rs:263-289 | Padding is added exactly when the item count is not a power of two. |
| `Fold.FoldLayer` | omega-commitment/crates/omega-commitment-core/src/tree.rs:291-305 | One layer up: neighbours combined in pairs. |
| `Fold.BuildLayers` | omega-commitment/crates/omega-commitment-core/src/tree.rs:291-305 | The layer loop stops at one node after depth rounds, each layer the pairwise fold of the one below. |
| `Fold.FoldEndsInRoot` | omega-commitment/crates/omega-commitment-core/src/tree.rs:291-305 | Every layer folds to the same root, and the last layer is that root alone. |
| `Fold.RootSplits` | omega-commitment/crates/omega-commitment-core/src/tree.rs:291-305 | The root combines the roots of the two halves of the leaf layer. |
| `Fold.FoldToRoot` | omega-commitment/crates/omega-commitment-bundle/src/recompute.rs:176-199 | The loop that keeps only the current layer computes the same root. |
| `Fold.PadLeaves` | omega-commitment/crates/omega-commitment-core/src/tree.rs:263-289 | Padding keeps every leaf in place and adds only the pad value. |
| `Fold.SiblingsWalkToRoot` | omega-commitment/crates/omega-commitment-core/src/witness.rs:51-67 | For every slot of every tree, the sibling path walks back to the root. |
| `Fold.SlotWalks` | omega-commitment/crates/omega-claim-prover/src/lib.rs:1259-1271 | At an index of any size, the leaf at the slot of its low bits walks to the root: only those bits orient a walk. |
| `Fold.CollectSiblings` | omega-commitment/crates/omega-commitment-core/src/witness.rs:51-67 | The loop over layers with a halving index collects exactly the sibling path. |
| `Fold.ReplayPath` | omega-commitment/crates/omega-claim-prover/src/lib.rs:1259-1271 | The replay loop, oriented by the parity of the halving index, computes the walk. |
| `Merkle.FindDuplicate` | omega-commitment/crates/omega-commitment-core/src/tree.rs:263-289 | On a sorted list the neighbour scan finds nothing exactly when all payloads are distinct, and otherwise reports the first of the first equal pair. |
| `Merkle.NeighboursDecide` | omega-commitment/crates/omega-commitment-core/src/tree.rs:263-289 | A sorted list without equal neighbours has no equal payloads at all. |
| `Merkle.HashLeaves` | omega-commitment/crates/omega-commitment-core/src/tree.rs:263-289 | The leaf layer holds the index-bound leaf hashes of the sorted payloads and then sentinel leaves. |
| `Merkle.LeafLayout` | omega-commitment/crates/omega-commitment-core/src/tree.rs:132-140 | A leaf preimage holds the text omega:v2:leaf, the sub-tree, the index and the length in eight bytes each, and the payload, at offsets 0, 13, 14, 22 and 30. |
| `Merkle.NodeLayout` | omega-commitment/crates/omega-commitment-core/src/tree.rs:169-175 | A node preimage holds the text omega:v2:node, the left and the right hash at offsets 0, 13 and 45. |
| `Merkle.PaddingLayout` | omega-commitment/crates/omega-commitment-core/src/tree.rs:263-300 | A padding leaf has eight bytes of ones for its index and an empty payload. |
| `Merkle.PlainLayout` | omega-commitment/crates/omega-commitment-core/src/tree.rs:345-380 | An untagged node hashes 64 bytes, left before right. |
| `Merkle.BuildV1` | omega-commitment/crates/omega-commitment-core/src/tree.rs:263-305 | Building fails exactly when two payloads are equal, naming their sorted position; otherwise the tree folds the sorted, index-bound, sentinel-padded leaf layer, with the least sufficient depth. |
| `Sorting.LexMeaning` | omega-commitment/crates/omega-commitment-core/src/tree.rs:263-264 | Payloads are compared as byte strings: one precedes another exactly when the other goes on after it or the first byte in which they differ is smaller. |
| `Merkle.TreeRoot` | omega-commitment/crates/omega-commitment-core/src/tree.rs:382-395 | The reported root is the recursive root of the leaves at the reported depth. |
| `Merkle.BuildLegacy` | omega-commitment/crates/omega-commitment-core/src/tree.rs:345-368 | Sorted leaves, zero padding, untagged nodes, the same fold. |
| `Merkle.Sha3Root` | omega-commitment/crates/omega-commitment-bundle/src/recompute.rs:176-199 | The SHA3 root is a second fold over the very leaf layer of the v1 tree. |
| `Merkle.BuildAtIndex` | omega-commitment/crates/omega-commitment-core/src/witness.rs:51-67 | A witness exists exactly for indices in range, and its path walks from that leaf to the root. |
| `Merkle.BuildForLeaf` | omega-commitment/crates/omega-commitment-core/src/witness.rs:85-101 | A witness exists exactly for leaves of the tree; it names the first occurrence, with the position cut to 32 bits, and the path of that cut position. |
| `Merkle.VerifyWitness` | omega-commitment/crates/omega-commitment-core/src/witness.rs:164-191 | Accepts exactly the witnesses less than 32 deep with an index in range whose path walks to the root. |
| `Merkle.WitnessRoundTrip` | omega-commitment/crates/omega-commitment-core/src/witness.rs:164-191 | A legacy tree of any size accepts its own witness for any slot exactly when it is less than 32 deep. |
| `MerkleBinding.TreeBinding` | omega-commitment/crates/omega-commitment-core/src/tree.rs:132-175 | Two trees of any shape with tagged leaves and one root are the same tree, depth included, or two distinct hash inputs among theirs collide. |
| `MerkleBinding.WalkBinding` | omega-commitment/crates/omega-commitment-core/src/tree.rs:132-175 | A path that walks from the hash of x to the root of a perfect tree started at the leaf its index names, or a collision is exhibited. |
| `MerkleBinding.SlotInjective` | omega-commitment/crates/omega-commitment-core/src/tree.rs:263-289 | A slot of the leaf layer decides sub-tree, payload and whether it is padding. |
| `MerkleBinding.V1TreeRoot` | omega-commitment/crates/omega-commitment-core/src/tree.rs:263-305 | The published root is the root of the tree over the slots. |
| `MerkleBinding.PositionBinding` | omega-commitment/crates/omega-commitment-core/src/tree.rs:263-305 | If any path of the depth of the tree walks from the leaf hash of (id, i, p) to the root over a payload list, then p is its i-th sorted payload, or i is the sentinel with an empty p and the tree has padding, or two distinct hash inputs at hand collide. |
| `MerkleBinding.PaddingOpens` | omega-commitment/crates/omega-commitment-core/src/tree.rs:48-62 | When there is padding, the sentinel index with an empty payload opens the root: its bits are all ones, so it lands on the last slot. |
| `MerkleBinding.OutOfRangeIff` | omega-commitment/crates/omega-commitment-core/src/tree.rs:48-62 | The root refuses every index from the item count on, up to an exhibited collision, if and only if the item count is a power of two. |
| `MerkleBinding.SetCommitment` | omega-commitment/crates/omega-commitment-core/src/tree.rs:263-305 | Permuted lists under one id have one root; conversely equal roots mean equal ids and lists that are permutations of each other, or an exhibited collision. |
| `Sorting.SortedUnique` | omega-commitment/crates/omega-commitment-core/src/tree.rs:263-289 | Two sorted arrangements of one multiset are equal when only equal elements compare both ways, so the order of the input does not matter. |
| `Verifier.BindingInjective` | omega-commitment/crates/omega-claim-prover/src/lib.rs:1332-1371 | The binding preimage determines the commitment and the whole list of public inputs, for lists of any length. |
| `Verifier.HeaderLayout` | omega-commitment/crates/omega-claim-prover/src/lib.rs:1344-1358 | The fixed part of the binding preimage: the text omega:proof:v2:binding, the bundle root, seven roots, seven item counts, seven leaf counts and seven depths, at their byte offsets. |
| `Verifier.EntryLayout` | omega-commitment/crates/omega-claim-prover/src/lib.rs:1359-1369 | The 138 bytes of one public input: sub-tree, index, depth, root, bundle root, nullifier and recipient at offsets 0, 1, 9, 10, 42, 74 and 106. |
| `Verifier.BindingLayout` | omega-commitment/crates/omega-claim-prover/src/lib.rs:1344-1371 | The header, the number of inputs at offset 418, and input i at offset 426 + 138 i. |
| `Verifier.DigestBinding` | omega-commitment/crates/omega-claim-prover/src/lib.rs:1344-1371 | Equal binding digests mean equal statements, or the two preimages collide. |
| `Verifier.ValuesMatchMeaning` | omega-commitment/crates/omega-claim-verifier/src/lib.rs:315-349 | The position-by-position comparison accepts exactly the values the prover writes for one claim. |
| `Verifier.EnvelopeValuesMeaning` | omega-commitment/crates/omega-claim-verifier/src/lib.rs:315-349 | The comparisons over the whole envelope accept exactly the value lists the prover writes. |
| `Verifier.ValuesReadBack` | omega-commitment/crates/omega-claim-prover/src/lib.rs:1296-1317 | The field elements of the public values give back the claim the circuit is about. |
| `Verifier.ValidateMeaning` | omega-commitment/crates/omega-claim-verifier/src/lib.rs:286-313 | Validation passes exactly when every public input agrees with the commitment, and otherwise reports the error of the first that does not. |
| `Verifier.VerifyMeaning` | omega-commitment/crates/omega-claim-verifier/src/lib.rs:262-284 | `verify` accepts if and only if the proof decodes to an envelope of the right version for this commitment and these inputs, all inputs agree with the commitment, the values match and the STARK accepts. |
| `Verifier.VerifyErrorIff` | omega-commitment/crates/omega-claim-verifier/src/lib.rs:262-374 | `verify` fails with exactly the error of the first check that fails, with the index and the fields of the first public input that does not agree. |
| `Verifier.VerifySound` | omega-commitment/crates/omega-claim-verifier/src/lib.rs:262-374 | If the STARK accepts only public values with satisfying tables, an accepted list of public inputs that receives fewer than p tuples agrees with the commitment entry by entry, and each entry has a payload and a path of the recorded depth to the recorded root. |
| `Verifier.AcceptedIsSatisfiable` | omega-commitment/crates/omega-claim-verifier/src/lib.rs:262-374 | Whatever list `verify` accepts, of any length, agrees with the commitment entry by entry and its claims have satisfying tables. |
| `Verifier.AssignmentIsSatisfying` | omega-commitment/crates/omega-claim-prover/src/lib.rs:1296-1317 | The satisfying assignments for the written public values are exactly the satisfying tables for the claims. |
| `EndToEnd.MemberIsRecorded` | omega-commitment/crates/omega-commitment-core/src/tree.rs:263-305 | A member of a committed sub-tree is the payload committed at its index, or its claim names a padding leaf, or a collision is exhibited. |
| `EndToEnd.AcceptedIsRecorded` | omega-commitment/crates/omega-claim-verifier/src/lib.rs:262-374 | Whatever `verify` accepts below p received tuples, at any index, opens the committed set at exactly that index, or names a padding leaf, or a collision is exhibited. |
| `EndToEnd.LedgerAcceptsRecorded` | omega-commitment/crates/omega-mock-ledger/src/writer.rs:321-360 | Whatever claim the ledger accepts, each of its inputs opens the committed set at its own index, or a collision is exhibited: the signed 64-bit index range rules out the padding leaf. |
| `EndToEnd.ValidateWitnesses` | omega-commitment/crates/omega-claim-prover/src/lib.rs:1027-1036 | The batch passes exactly when every witness is good; otherwise the first bad one is reported. |
| `EndToEnd.ProveCollection` | omega-commitment/crates/omega-claim-prover/src/lib.rs:974-1025 | A proof is made exactly when the bundle root recomputes and every witness is good, and it is the honest envelope over the built tables. |
| `Claims.BundleLayout` | omega-commitment/crates/omega-claim-prover/src/lib.rs:1373-1379 | The bundle root hashes 224 bytes, the seven sub-tree roots in order. |
| `EndToEnd.BuiltAssignment` | omega-commitment/crates/omega-claim-prover/src/lib.rs:974-1025 | The built tables of a non-empty batch of provable witnesses are a satisfying assignment for the written public values. |
| `EndToEnd.HonestProofVerifies` | omega-commitment/crates/omega-claim-verifier/src/lib.rs:262-374 | For a complete STARK, what `prove_collection` returns for a non-empty batch of provable witnesses, `verify` accepts. |
| `EndToEnd.VerifyDecides` | omega-commitment/crates/omega-claim-verifier/src/lib.rs:262-374 | Over a sound and complete STARK, some proof for a list of public inputs of any length is accepted if and only if each input agrees with the commitment and the claims together have satisfying tables. |
| `EndToEnd.VerifyExact` | omega-commitment/crates/omega-claim-verifier/src/lib.rs:262-374 | Below p received tuples: some proof is accepted if and only if each input agrees with the commitment and has a payload and a path. |
| `EndToEnd.FieldSizeAccepted` | omega-commitment/crates/omega-claim-verifier/src/lib.rs:262-374 | `verify` has no bound on the list, and accepts p copies of any public input that agrees with the commitment, attested or not. |
| `EndToEnd.VerifyBoundIsTight` | omega-commitment/crates/omega-claim-verifier/src/lib.rs:262-374 | With an unattested input to a one-item sub-tree at hand, `verify` decides the lists of at most n received tuples rightly if and only if n is below p. |
| `EndToEnd.OutOfRangeAcceptedIff` | omega-commitment/crates/omega-claim-verifier/src/lib.rs:262-374 | For a committed sub-tree `verify` accepts an index from the item count on if and only if the item count is not a power of two, up to an exhibited collision: then the sentinel is accepted. |
| `Ledger.ParseClaim` | omega-commitment/crates/omega-mock-ledger/src/writer.rs:368-386 | Fails exactly when a collection has unequal numbers of inputs and witnesses. |
| `Ledger.InsertItemsExtend` | omega-commitment/crates/omega-mock-ledger/src/writer.rs:406-447 | Items that were all inserted add exactly their keys, all new and all different, with the given block. |
| `Ledger.InsertItemsIff` | omega-commitment/crates/omega-mock-ledger/src/writer.rs:406-447 | All items can be inserted if and only if each fits the tables as they were and no two collide in key or UTxO id. |
| `Ledger.AcceptedClaim` | omega-commitment/crates/omega-mock-ledger/src/writer.rs:321-360 | An accepted claim was verified, has storable indices, and records each of its keys for the first time and once, one UTxO per key. |
| `Ledger.AcceptedCredits` | omega-commitment/crates/omega-mock-ledger/src/writer.rs:419-460 | An accepted claim gives each item its own row: the recipient of the item, the block, and the value in bytes 8 to 15 of its payload or none for a payload under 16 bytes; no other row is added. |
| `Ledger.UtxoLayout` | omega-commitment/crates/omega-mock-ledger/src/lib.rs:438-452 | The id preimage holds the text omega:mock-ledger:v1:utxo, the recipient, block, ordinal, length and payload at offsets 0, 25, 57, 65, 73 and 81. |
| `Ledger.UtxoIdBinding` | omega-commitment/crates/omega-mock-ledger/src/lib.rs:438-452 | An id belongs to one recipient, block, ordinal and payload, or two distinct preimages collide. |
| `Ledger.AcceptedIff` | omega-commitment/crates/omega-mock-ledger/src/writer.rs:321-360 | A claim is accepted if and only if its block fits 63 bits, its lists match, its proof verifies, and its items fit the tables and each other. |
| `Ledger.RefusedIff` | omega-commitment/crates/omega-mock-ledger/src/writer.rs:321-460 | A claim is refused with exactly the error of the first check that fails: block range, list lengths, proof, the first input out of range or recorded, the first item whose key, value or id does not fit. |
| `Ledger.RecordedIsRejected` | omega-commitment/crates/omega-mock-ledger/src/writer.rs:388-404 | A claim with any key already recorded is rejected, wherever in the list the key stands. |
| `Ledger.AttemptIdempotent` | omega-commitment/crates/omega-mock-ledger/src/writer.rs:321-360 | A second attempt at the same claim changes nothing, whether the first one succeeded or failed. |
| `LedgerWriter.MetaReadsBack` | omega-commitment/crates/omega-mock-ledger/src/writer.rs:550-563 | A saved value reads back, a removed one is gone, and no other key is touched. |
| `LedgerWriter.ProbeReplays` | omega-commitment/crates/omega-mock-ledger/src/writer.rs:388-404 | The replay loop reports the first public input that is out of range or recorded. |
| `LedgerWriter.InsertAll` | omega-commitment/crates/omega-mock-ledger/src/writer.rs:406-447 | The insert loop inserts every item in order, or reports the error of the first that cannot be. |
| `LedgerWriter.Writer.ApplyClaimTx` | omega-commitment/crates/omega-mock-ledger/src/writer.rs:321-360 | All or nothing: the tables become those of the accepted claim, or stay as they were and the error says why. |
| `LedgerWriter.Writer.InsertSyntheticClaim` | omega-commitment/crates/omega-mock-ledger/src/writer.rs:515-548 | All or nothing: the synthetic key and its UTxO are both recorded, or neither. |
| `Ledger.SyntheticMeaning` | omega-commitment/crates/omega-mock-ledger/src/writer.rs:515-548 | Exactly when a synthetic claim is recorded, and the two rows it adds: value one more than the index, for a fixed recipient. |
| `LedgerWriter.Writer.ApplyRaftEntries` | omega-commitment/crates/omega-mock-ledger/src/writer.rs:610-644 | The loop applies each entry to the tables, moves the cursor after each, and answers each with its outcome; the membership is saved once at the end. |
| `LedgerWriter.Writer.ApplyToStateMachine` | omega-commitment/crates/omega-mock-ledger/src/storage.rs:384-404 | A batch saves the last membership among its entries and gives one response per entry. |
| `LedgerWriter.ResponseMeaning` | omega-commitment/crates/omega-mock-ledger/src/writer.rs:610-644 | Over every run, entry i is answered with acceptance if and only if it is no claim or a claim that meets every condition on the tables before it, and with an error if and only if that is the error of its first failing check. |
| `LedgerWriter.LatestMembershipIff` | omega-commitment/crates/omega-mock-ledger/src/storage.rs:384-404 | The membership saved is the id and configuration of a membership entry after which the batch has no other. |
| `LedgerWriter.Writer.AppendRaftLogs` | omega-commitment/crates/omega-mock-ledger/src/writer.rs:566-581 | All rows are written, or none. |
| `LedgerWriter.AppendErrorIff` | omega-commitment/crates/omega-mock-ledger/src/writer.rs:566-583 | Rows are refused exactly when some index or term cannot be stored, with the first such number. |
| `LedgerRuns.TwoBatches` | omega-commitment/crates/omega-mock-ledger/src/storage.rs:384-404 | Two batches one after the other are one batch: tables, log, cursor and membership. |
| `LedgerRuns.BatchesAreOne` | omega-commitment/crates/omega-mock-ledger/src/storage.rs:384-404 | Any number of batches act as their concatenation, responses included. |
| `LedgerRuns.ReplicasAgree` | omega-commitment/crates/omega-mock-ledger/src/storage.rs:384-404 | Two replicas that apply one entry sequence, each split in its own way, end in the same state and gave the same responses. |
| `LedgerRuns.SnapshotStandsForPrefix` | omega-commitment/crates/omega-mock-ledger/src/storage.rs:428-449 | Installing the snapshot of a prefix and applying the rest, in any batches, gives the ledger tables, log, cursor and membership of applying the whole sequence. |
| `Replays.AttemptSettles` | omega-commitment/crates/omega-mock-ledger/src/writer.rs:321-360 | Once attempted, a claim, accepted or refused, changes nothing on any tables that have only grown since. |
| `Replays.BatchIdempotent` | omega-commitment/crates/omega-mock-ledger/src/storage.rs:384-404 | A batch applied twice leaves exactly the state, cursor and membership of applying it once. |
| `Replays.SuffixReplays` | omega-commitment/crates/omega-mock-ledger/src/storage.rs:384-404 | Re-applying any suffix of the entries, in any batches, gives back the same state. |
| `Replays.LateCopyStandsForPrefix` | omega-commitment/crates/omega-mock-ledger/src/storage.rs:469-496 | A snapshot copied any number of entries after its cursor was read still stands for the prefix: installing it and applying everything after the noted cursor, part of it for the second time, gives the ledger of applying each entry once. |
| `SnapshotStore.CatchUp` | omega-commitment/crates/omega-mock-ledger/src/storage.rs:428-496 | One replica applies a prefix, reads its cursor, applies more and then copies its tables; another, in any state, installs the copy and applies everything after the noted cursor: it ends with the tables, log, cursor and membership of applying each entry once. |
| `SnapshotStore.BuiltIsCurrent` | omega-commitment/crates/omega-mock-ledger/src/storage.rs:469-496 | A built snapshot reads back as the tables it was copied from, under its own note. |
| `SnapshotStore.CurrentIff` | omega-commitment/crates/omega-mock-ledger/src/storage.rs:451-465 | Over every run of builds, installs and entries, the current snapshot can be read at the end if and only if the latest build or install was not an install, which removes the image it notes. |
| `SnapshotStore.CrashedInstall` | omega-commitment/crates/omega-mock-ledger/src/storage.rs:428-449 | A crash at any durable step of an install, the writing of the image included: it leaves no installed snapshot, as documented, exactly when the tables then in force hold no note; half-written state under the note exactly when the note has the id of the image being written or of one torn earlier; and an unreadable snapshot exactly when the noted image is gone. |
| `SnapshotStore.CrashedBuild` | omega-commitment/crates/omega-mock-ledger/src/writer.rs:466-480 | The same for a build, which removes an old image of its id before it copies: the old note is left with a missing or half-written image exactly when it has that id. |
| `SnapshotStore.TornIff` | omega-commitment/crates/omega-mock-ledger/src/storage.rs:428-496 | Over every run of builds, installs and entries with crashes anywhere, an image is half written at the end if and only if the latest step that touched it was a crash during its writing. |
| `SnapshotStore.HalfWrittenIff` | omega-commitment/crates/omega-mock-ledger/src/storage.rs:428-449 | The documented promise over whole runs: the note in force points at half-written state if and only if the latest step that touched the image it names was a crash during its writing. |
| `SnapshotStore.SecondBuildIsNoted` | omega-commitment/crates/omega-mock-ledger/src/storage.rs:428-496 | The second snapshot a leader builds carries the note of the first, so a crash after its restore never leaves no installed snapshot. |
| `SnapshotStore.SnapshotStorage.BeginSnapshot` | omega-commitment/crates/omega-mock-ledger/src/storage.rs:469-479 | The note holds the cursor and the membership as they are now, and its id is the cursor in decimal. |
| `SnapshotStore.NoteHoldsLatest` | omega-commitment/crates/omega-mock-ledger/src/storage.rs:469-479 | A note made after a batch names the last entry of the batch, and holds its latest membership if it has one. |
| `SnapshotStore.NoteNamesCursor` | omega-commitment/crates/omega-mock-ledger/src/storage.rs:469-475 | A snapshot id is the term and the index in decimal, so one id names one cursor. |
| `SnapshotStore.SnapshotStorage.FinishSnapshot` | omega-commitment/crates/omega-mock-ledger/src/storage.rs:480-496 | Whatever came in since the note was made, the image is a copy of the tables as they are, written before it is noted. |
| `SnapshotStore.SnapshotStorage.InstallSnapshot` | omega-commitment/crates/omega-mock-ledger/src/storage.rs:428-449 | The durable steps in order: the image written, the tables replaced, the image removed, the snapshot noted. |
| `SnapshotStore.SnapshotStorage.GetCurrentSnapshot` | omega-commitment/crates/omega-mock-ledger/src/storage.rs:451-465 | Nothing without a note, the noted image, whole or not, if it is there, and an error if it is not. |
| `CrashRecovery.StepConsistent` | omega-commitment/crates/omega-mock-ledger/src/writer.rs:610-644 | Every commit, cursor write, other metadata write and crash keeps the tables one entry at most ahead of the cursor. |
| `CrashRecovery.UndisturbedApplies` | omega-commitment/crates/omega-mock-ledger/src/writer.rs:610-644 | Left alone, two commits per entry make exactly the state of applying the entries. |
| `CrashRecovery.RunConsistent` | omega-commitment/crates/omega-mock-ledger/src/writer.rs:610-644 | The same over every run. |
| `CrashRecovery.CrashesConverge` | omega-commitment/crates/omega-mock-ledger/src/writer.rs:610-644 | However often the writer crashes, and between whichever commits, once every entry is applied the two ledger tables and the cursor are those of the uninterrupted run. |
| `CrashRecovery.RecoveryConverges` | omega-commitment/crates/omega-mock-ledger/src/writer.rs:610-644 | After any prefix of steps, applying the entries after the saved cursor suffices to reach the tables and cursor of the uninterrupted run. |
| `LedgerInvariant.RunKeepsEven` | omega-commitment/crates/omega-mock-ledger/src/writer.rs:254-319 | In every run of commands, restores included, the nullifier and UTxO tables have equal size. |
| `LedgerInvariant.ExecuteAll` | omega-commitment/crates/omega-mock-ledger/src/writer.rs:254-318 | Every run of the command machine is what the methods of the writer do. |
| `LedgerInvariant.RunGrows` | omega-commitment/crates/omega-mock-ledger/src/writer.rs:254-319 | Between any two points of a run without a restore between them, every row stays as it was and rows are only added. |
| `LedgerInvariant.ClaimedOnce` | omega-commitment/crates/omega-mock-ledger/src/writer.rs:254-319 | Any two accepted attempts of a run share no key, be they direct claims, synthetic ones or committed entries, of one batch or of different commands, unless a restore comes between them. |
| `LedgerInvariant.RefusedLeavesNoTrace` | omega-commitment/crates/omega-mock-ledger/src/writer.rs:254-319 | A refused command, at whichever item it fails, might as well not have been sent: the run without it ends in the same tables, log, metadata and snapshots. |
| `RaftLog.RangeBoundsMeaning` | omega-commitment/crates/omega-mock-ledger/src/storage.rs:542-560 | The half-open interval computed from the bounds holds exactly the indices within them. |
| `RaftLog.ReadMeaning` | omega-commitment/crates/omega-mock-ledger/src/storage.rs:186-242 | A successful read returns exactly the stored entries within the bounds, in index order. |
| `RaftLog.ReadErrorIff` | omega-commitment/crates/omega-mock-ledger/src/storage.rs:186-242 | A read fails exactly when a bound has to be moved past the largest index, or when the range is not empty and starts or ends beyond 63 bits; the error names the first such end. |
| `RaftLog.RunStands` | omega-commitment/crates/omega-mock-ledger/src/writer.rs:566-608 | Every sequence of appends, tail deletions and purges made in raft order keeps the log table and the stored purge point one contiguous log, the one the calls spell out. |
| `RaftLog.PerformAll` | omega-commitment/crates/omega-mock-ledger/src/storage.rs:316-354 | The writer methods, called in that order, all succeed and leave that log. |
| `RaftLog.PurgeIff` | omega-commitment/crates/omega-mock-ledger/src/writer.rs:591-608 | A purge keeps table and purge point one log if and only if it does not go back before the start of the log. |
| `RaftLog.PurgeReportIff` | omega-commitment/crates/omega-mock-ledger/src/storage.rs:286-310 | After a purge the reported last id is the one before the next index, if and only if the log still held entries or the purge does not go back. |
| `RaftLog.RegressingPurge` | omega-commitment/crates/omega-mock-ledger/src/writer.rs:591-608 | Two purges, to 10 and then to 3: the reported last id falls from 10 to 3. |
| `RaftLog.ReadIsSlice` | omega-commitment/crates/omega-mock-ledger/src/storage.rs:186-242 | On such a table a successful read is the slice of the contiguous log. |
| `RaftLog.LogStateMeaning` | omega-commitment/crates/omega-mock-ledger/src/storage.rs:286-310 | After such calls the reported last log id is that of the last entry, or of the last purge when the log is empty; if there is one, it is the id just before the next index to append. |
| `SnapshotTransfer.SnapshotFileReceiver.TakeInit` | omega-commitment/crates/omega-network/src/snapshot.rs:261-289 | The new state and the answer to an init frame, for every fault: a second session is refused, a stale staged file removed. |
| `SnapshotTransfer.SnapshotFileReceiver.TakeChunk` | omega-commitment/crates/omega-network/src/snapshot.rs:291-341 | The new state and the answer to a chunk frame, for every fault, a write cut short and a wrapping 64-bit byte counter included. |
| `SnapshotTransfer.SnapshotFileReceiver.TakeFinalize` | omega-commitment/crates/omega-network/src/snapshot.rs:343-394 | The new state and the answer to a finalize frame, for every fault: the session ends whatever happens. |
| `SnapshotTransfer.SnapshotFileReceiver.Take` | omega-commitment/crates/omega-network/src/snapshot.rs:238-244 | The dispatch over the three kinds of frame. |
| `SnapshotTransfer.SnapshotFileReceiver.AbortOnLeaderChange` | omega-commitment/crates/omega-network/src/snapshot.rs:252-259 | The session is gone and its staged file removed if it can be; an error exactly when the file exists and its removal fails, and otherwise whether there was a session. |
| `SnapshotTransfer.SnapshotFileReceiver.DiscardStaged` | omega-commitment/crates/omega-network/src/snapshot.rs:437-441 | Removes the staged file of the ended session, and only that. |
| `SnapshotTransfer.SnapshotFileReceiver.RemoveIfExists` | omega-commitment/crates/omega-network/src/snapshot.rs:443-449 | Fails only on an existing file whose removal fails. |
| `SnapshotSafety.StepSafe` | omega-commitment/crates/omega-network/src/snapshot.rs:238-394 | Every frame, abort and fault keeps the safety invariant. |
| `SnapshotSafety.RunSafe` | omega-commitment/crates/omega-network/src/snapshot.rs:238-394 | For every sequence of frames, aborts and file-system faults: an installed file hashes to the digest declared by the session that completed it, that session accepted exactly its chunks 0 to total-1 in order, their bytes count up to the declared total in the 64-bit counter (and truly so when the total is not within one chunk of 2^64), and without write faults the file is those chunks joined. |
| `SnapshotSafety.InstalledIff` | omega-commitment/crates/omega-network/src/snapshot.rs:238-394 | Over every frame, abort and fault: an installed file disappears if and only if a transfer completes but for a failing rename, and it is new or different only if a transfer completes. |
| `SnapshotSafety.LostIff` | omega-commitment/crates/omega-network/src/snapshot.rs:343-394 | Over every run: a file once installed is missing at the end if and only if some event lost it in that way and no later transfer completed. |
| `SnapshotSafety.AnswerMeaning` | omega-commitment/crates/omega-network/src/snapshot.rs:238-400 | After every run the next frame is answered from the history of the session: the index acknowledged is the number of chunks accepted, and every refusal names what the session declared and has accepted. |
| `SnapshotSafety.EndedSession` | omega-commitment/crates/omega-network/src/snapshot.rs:252-260 | A leader change and a refused finalize frame end the session, remove its staged file unless that fails, and touch no other file. |
| `SnapshotRoundTrip.ChunkCount` | omega-commitment/crates/omega-network/src/snapshot.rs:159-187 | There are as many chunks as the announced ceiling of the length over the chunk size. |
| `SnapshotRoundTrip.ChunkMeaning` | omega-commitment/crates/omega-network/src/snapshot.rs:159-200 | Chunk i carries the bytes from mebibyte i on, one mebibyte or what is left. |
| `SnapshotRoundTrip.ChunkSnapshotBytes` | omega-commitment/crates/omega-network/src/snapshot.rs:159-187 | The sending loop produces the init frame, the numbered pieces and the finalize frame. |
| `SnapshotRoundTrip.TransferInstalls` | omega-commitment/crates/omega-network/src/snapshot.rs:159-187 | Feeding the frames of b to an idle receiver installs exactly b, for every b, the empty one and exact multiples included. |
| `SnapshotRoundTrip.RefusedChangesNothing` | omega-commitment/crates/omega-network/src/snapshot.rs:261-341 | A refused init or chunk frame leaves the receiver as it was. |
| `SnapshotRoundTrip.InterleavedTransferInstalls` | omega-commitment/crates/omega-network/src/snapshot.rs:159-187 | The same with any refused init and chunk frames of others in between. |
| `Cbor.HeadRoundTrip` | omega-commitment/crates/omega-claim-tx/src/lib.rs:521-596 | The shortest head of any type and value reads back (section 3 of RFC 8949). |
| `Cbor.HeadBytes` | omega-commitment/crates/omega-claim-tx/src/lib.rs:423-435 | The bytes of a head: the major type in the three high bits, and an argument of up to 23 in the others or behind a marker in one, two, four or eight bytes. |
| `Cbor.HeadAtLeast` | omega-commitment/crates/omega-claim-tx/src/lib.rs:684-722 | Any accepted head is at least as long as the shortest one, and is the shortest one if it is no longer (section 4.2.1 of RFC 8949). |
| `Cbor.BytesRoundTrip` | omega-commitment/crates/omega-claim-tx/src/lib.rs:682-694 | A byte string of any length reads back, and what follows it is left. |
| `ClaimCodec.ClaimRoundTrip` | omega-commitment/crates/omega-claim-tx/src/lib.rs:527-680 | A claim of any length with matching lists reads back from its encoding, whatever follows. |
| `ClaimCodec.PayloadRoundTrip` | omega-commitment/crates/omega-claim-tx/src/lib.rs:598-603 | Decoding the encoded payload gives the claim. |
| `ClaimCodec.EnvelopeRoundTrip` | omega-commitment/crates/omega-claim-tx/src/lib.rs:423-505 | `from_cbor` reads the envelope of every claim with matching lists back as that claim. |
| `ClaimCodec.PayloadInjective` | omega-commitment/crates/omega-claim-tx/src/lib.rs:521-596 | Different claims have different payloads. |
| `ClaimCodec.PublicBytes` | omega-commitment/crates/omega-claim-tx/src/lib.rs:567-583 | Public inputs as bytes: 0x87, three numbers, and four hashes each behind 0x58 0x20, in order. |
| `ClaimCodec.WitnessBytes` | omega-commitment/crates/omega-claim-tx/src/lib.rs:585-596 | A witness as bytes: 0x83, the payload, the siblings and the signing-key proof. |
| `ClaimCodec.UtxoPayloadBytes` | omega-commitment/crates/omega-claim-tx/src/lib.rs:83-84 | A single claim starts with 0x82 0x00 0x83. |
| `ClaimCodec.CollectionPayloadBytes` | omega-commitment/crates/omega-claim-tx/src/lib.rs:83-84 | A collection starts with 0x82 0x01 0x83 and its two lists. |
| `ClaimCodec.EnvelopeBytesOf` | omega-commitment/crates/omega-claim-tx/src/lib.rs:423-435 | An envelope starts with 0x83 0x02 and ends with the checksum behind 0x58 0x20. |
| `ClaimCodec.AcceptedPayload` | omega-commitment/crates/omega-claim-tx/src/lib.rs:484-505 | An accepted envelope carries exactly the encoding of the claim it decodes to, and its hash. |
| `ClaimCodec.EnvelopeErrors` | omega-commitment/crates/omega-claim-tx/src/lib.rs:484-505 | A version error exactly when the version can be read and is not 2, a checksum error exactly when a well-formed envelope has another checksum, a canonicity error exactly when the payload decodes but is not the encoding of what it decodes to. |
| `ClaimCodec.PayloadErrors` | omega-commitment/crates/omega-claim-tx/src/lib.rs:597-650 | An unknown kind, lists of different lengths and bytes behind the claim are each refused exactly when they are there, with the numbers found. |
| `ClaimCodec.ArrayErrors` | omega-commitment/crates/omega-claim-tx/src/lib.rs:682-714 | An array is refused as indefinite exactly when it starts with 0x9F, and for its length exactly when it has another; a hash exactly when it has not 32 bytes; the errors name what was expected and found. |
| `ClaimCodec.AcceptedAgree` | omega-commitment/crates/omega-claim-tx/src/lib.rs:484-505 | Two accepted envelopes carry the same payload and checksum if and only if they decode to the same claim. |
| `ClaimCodec.AcceptedIsCanonicalIff` | omega-commitment/crates/omega-claim-tx/src/lib.rs:484-505 | An accepted envelope is at least as long as the encoder's, and is the encoder's if and only if it is no longer. |
| `ClaimCodec.LooseEnvelopeAccepted` | omega-commitment/crates/omega-claim-tx/src/lib.rs:484-505 | For every claim, an envelope that differs from the encoder's (a version in a two-byte head) and is accepted all the same. |
| `ClaimWire.EncodePublicInputs` | omega-commitment/crates/omega-claim-tx/src/lib.rs:567-581 | The encoder's calls append exactly the specified bytes of one public input. |
| `ClaimWire.EncodeWitness` | omega-commitment/crates/omega-claim-tx/src/lib.rs:583-596 | The same for a witness, sibling by sibling. |
| `ClaimWire.EncodeCollection` | omega-commitment/crates/omega-claim-tx/src/lib.rs:550-565 | The same for a collection, both lists of any length. |
| `ClaimWire.EncodeClaimTx` | omega-commitment/crates/omega-claim-tx/src/lib.rs:527-548 | The same for a claim of either kind. |
| `ClaimWire.PayloadBytes` | omega-commitment/crates/omega-claim-tx/src/lib.rs:521-525 | A fresh encoder yields the payload. |
| `ClaimWire.EncodeEnvelope` | omega-commitment/crates/omega-claim-tx/src/lib.rs:423-435 | Yields the envelope of the payload and its hash exactly when the lists match, and otherwise the arity error. |
| `ClaimWire.WriteAndRead` | omega-commitment/crates/omega-claim-tx/src/lib.rs:423-505 | What the encoder writes, the decoder reads back, for claims of any length; a claim whose lists do not match is not written. |
| `ClaimWire.Decoder.ArrayLength` | omega-commitment/crates/omega-claim-tx/src/lib.rs:712-714 | The cursor reads one array head of definite length and advances past it, or reports the error. |
| `ClaimWire.Decoder.Expect` | omega-commitment/crates/omega-claim-tx/src/lib.rs:696-710 | The cursor accepts exactly the wanted length. |
| `ClaimWire.Decoder.HashBytes` | omega-commitment/crates/omega-claim-tx/src/lib.rs:682-694 | The cursor reads exactly 32 bytes. |
| `ClaimWire.DecodePublicInputs` | omega-commitment/crates/omega-claim-tx/src/lib.rs:652-663 | The cursor's calls read what the specification reads, leave the same rest, and give the same error. |
| `ClaimWire.DecodeWitness` | omega-commitment/crates/omega-claim-tx/src/lib.rs:665-680 | The same for a witness, with a path of any length, for which exactly the declared length is reserved. |
| `ClaimWire.DecodeUtxo` | omega-commitment/crates/omega-claim-tx/src/lib.rs:614-621 | The same for a single claim. |
| `ClaimWire.DecodeCollection` | omega-commitment/crates/omega-claim-tx/src/lib.rs:623-650 | The same for a collection, with its arity check; its lists are reserved by their declared lengths, as far as decoding gets. |
| `ClaimWire.DecodeClaimTx` | omega-commitment/crates/omega-claim-tx/src/lib.rs:605-612 | The same for the tagged claim, reservations included. |
| `ClaimWire.CheckEnd` | omega-commitment/crates/omega-claim-tx/src/lib.rs:716-722 | Accepts exactly when nothing is left. |
| `ClaimWire.DecodePayloadBytes` | omega-commitment/crates/omega-claim-tx/src/lib.rs:598-603 | The loop decoder and the specification agree on every byte string, errors and reservations included; an accepted payload reserves no more items than it has bytes for. |
| `ClaimWire.DecodeEnvelope` | omega-commitment/crates/omega-claim-tx/src/lib.rs:484-505 | The same for the whole envelope: version, checksum, re-encoding and arity. |
| `Reservations.OversizedIff` | omega-commitment/crates/omega-claim-tx/src/lib.rs:623-680 | Decoding a claim reserves more items than bytes are left if and only if it overdeclares: at the siblings of a single claim, at the first list of a collection, at the second after a first that can be read, or at a witness after some that can be read. |
| `Reservations.AcceptedFits` | omega-commitment/crates/omega-claim-tx/src/lib.rs:484-505 | No accepted envelope makes the decoder reserve more items than it has bytes for. |
| `Reservations.AnyLengthReserved` | omega-commitment/crates/omega-claim-tx/src/lib.rs:623-630 | Any 64-bit length is reserved as declared: for a collection that ends behind its first length nothing is left to fill it. |
| `Cbor.ManyReserveIff` | omega-commitment/crates/omega-claim-tx/src/lib.rs:623-650 | Reading a list of items reserves too much exactly when, after some number of items that can be read, the next one does. |
| `UtxoLeaf.UtxoBack` | omega-commitment/crates/omega-commitment-core/src/utxo_leaf.rs:230-279 | An encoded UTXO followed by anything reads back as the UTXO with its assets sorted, and the reader stops at its end. |
| `UtxoLeaf.PrefixFree` | omega-commitment/crates/omega-commitment-core/src/utxo_leaf.rs:230-279 | If two encodings with anything after them agree, so do the UTXOs up to asset order and what follows. |
| `UtxoLeaf.SameEncodingIff` | omega-commitment/crates/omega-commitment-core/src/utxo_leaf.rs:230-279 | Two UTXOs have one encoding if and only if they agree but for their assets, and assets with one id come in the same order in both. |
| `UtxoLeaf.SameEncodingSameAssets` | omega-commitment/crates/omega-commitment-core/src/utxo_leaf.rs:230-279 | Equal encodings hold the same assets with the same multiplicities. |
| `UtxoLeaf.OrderIndependent` | omega-commitment/crates/omega-commitment-core/src/utxo_leaf.rs:230-279 | When no two different assets share an id, asset order does not matter. |
| `UtxoLeaf.DuplicateIdsKeepOrder` | omega-commitment/crates/omega-commitment-core/src/utxo_leaf.rs:230-279 | With one id twice it does: a UTXO whose two asset orders encode differently. |
| `UtxoLeaf.LengthError` | omega-commitment/crates/omega-commitment-core/src/utxo_leaf.rs:230-279 | There is a length error exactly when some length does not fit its field. |
| `UtxoLeaf.FitsMeaning` | omega-commitment/crates/omega-commitment-core/src/utxo_leaf.rs:195-203 | An encoding is refused exactly when a length does not fit its field: two bytes for addresses and asset ids, four for counts, inline data and scripts. |
| `UtxoLeaf.EncodeAssets` | omega-commitment/crates/omega-commitment-core/src/utxo_leaf.rs:230-279 | The asset loop appends the specified bytes, or stops exactly when some id is too long. |
| `UtxoLeaf.Encode` | omega-commitment/crates/omega-commitment-core/src/utxo_leaf.rs:230-279 | Succeeds exactly when every length fits, with the specified bytes, and otherwise reports the first length met that does not. |
| `UtxoLeaf.EncodedLayout` | omega-commitment/crates/omega-commitment-core/src/utxo_leaf.rs:205-228 | The documented layout: id, index, address behind its length, value and count at their offsets, then the assets by ascending id, the datum and the script with their tags. |
| `UtxoLeaf.FrontLayout` | omega-commitment/crates/omega-commitment-core/src/utxo_leaf.rs:205-228 | The offsets of the fields before the assets. |
| `Sorting.SortStable` | omega-commitment/crates/omega-commitment-core/src/utxo_leaf.rs:230-279 | The sort keeps the order of elements that compare equal. |
| `Sorting.SameSortIff` | omega-commitment/crates/omega-commitment-core/src/utxo_leaf.rs:230-279 | Two lists sort to the same list if and only if elements that compare equal come in the same order in both. |
| `IngestParsers.ParseNames` | omega-commitment/crates/omega-commitment-ingest/src/utxo.rs:94-140 | The inner loop accepts exactly strictly ascending names, and yields the assets under the policy; it reports a map out of order exactly when ascending names are followed by one that can be read and is not greater. |
| `IngestParsers.HoldingsLoop` | omega-commitment/crates/omega-commitment-ingest/src/utxo.rs:94-140 | The policy loop accepts exactly canonical maps and yields their assets in order; it reports a map out of order exactly when a canonical beginning is followed by a policy that can be read and is not greater, or whose names are out of order. |
| `IngestParsers.ParseMultiAssets` | omega-commitment/crates/omega-commitment-ingest/src/utxo.rs:94-140 | The same with the map head. |
| `IngestParsers.ParseBase` | omega-commitment/crates/omega-commitment-ingest/src/utxo.rs:43-54 | Arity and output index are checked as soon as they are read: the error is a schema violation exactly when one of them is wrong, whatever follows. |
| `IngestParsers.ParseEntry` | omega-commitment/crates/omega-commitment-ingest/src/utxo.rs:38-76 | One entry is accepted exactly when it parses, its index fits 32 bits and its assets are canonical; the script credential is skipped; which check it fails is stated for every error but malformed input. |
| `IngestParsers.IngestUtxos` | omega-commitment/crates/omega-commitment-ingest/src/utxo.rs:38-76 | A file is accepted exactly when it parses to its last byte with good entries only, and yields their UTXOs in order; each error other than malformed input is returned exactly when good entries are followed by one that fails that check, or, for trailing bytes, by more input; the declared number of entries is reserved, and fits an accepted file. |
| `IngestFormat.IngestWritten` | omega-commitment/crates/omega-commitment-ingest/src/utxo.rs:26-76 | Any list of UTXOs that the documented format can express, in the short or the long form and with any script credentials, is returned exactly: every field and every asset, in order. |
| `IngestFormat.FileBack` | omega-commitment/crates/omega-commitment-ingest/src/utxo.rs:26-76 | The grammar reads a written file back, entry by entry. |
| `IngestFormat.GroupCanonical` | omega-commitment/crates/omega-commitment-ingest/src/utxo.rs:78-140 | Assets in ascending order of their ids make a canonical map of policies and names. |
| `IngestFormat.GroupBack` | omega-commitment/crates/omega-commitment-ingest/src/utxo.rs:78-140 | Flattening the map gives back the assets. |
| `Ingest.IndefiniteRefused` | omega-commitment/crates/omega-commitment-ingest/src/cbor.rs:53-59 | Arrays and maps of indefinite length are refused. |
| `Ingest.CredentialMeaning` | omega-commitment/crates/omega-commitment-ingest/src/utxo.rs:142-160 | A script credential is null, or three elements of 28 bytes, one byte and four bytes. |
| `IngestParsers.FileFits` | omega-commitment/crates/omega-commitment-ingest/src/utxo.rs:38-42 | A well-formed file declares at most as many entries as it has bytes. |
| `IngestParsers.AnyCountReserved` | omega-commitment/crates/omega-commitment-ingest/src/utxo.rs:38-42 | A bare head reserves any 64-bit number of entries. |
| `Ingest.AssetsStrict` | omega-commitment/crates/omega-commitment-ingest/src/utxo.rs:94-140 | Canonical maps give strictly ascending asset ids across all policies. |
| `Ingest.IngestedAreSorted` | omega-commitment/crates/omega-commitment-core/src/utxo_leaf.rs:230-279 | The encoder's sort leaves ingested assets as they are. |
| `Ingest.EntriesAgree` | omega-commitment/crates/omega-commitment-ingest/src/token_policy.rs:34-96 | Each policy's total is the sum of the quantities, over all UTXOs, of the assets whose id starts with the policy. |
| `Ingest.FilePays` | omega-commitment/crates/omega-commitment-ingest/src/token_policy.rs:34-96 | A well-formed file holds at most as many asset entries as it has bytes. |
| `Ingest.TotalsBound` | omega-commitment/crates/omega-commitment-ingest/src/token_policy.rs:34-96 | No total exceeds the number of asset entries times the largest quantity. |
| `TokenPolicies.SafeMeaning` | omega-commitment/crates/omega-commitment-ingest/src/token_policy.rs:59-70 | The running totals are kept exactly as long as sixteen bytes can hold them. |
| `TokenPolicies.PolicyTotal` | omega-commitment/crates/omega-commitment-ingest/src/token_policy.rs:34-96 | The inner loop accepts exactly names that parse with a sum below 2^128, yields the sum, and overflows only on 2^64 or more bytes. |
| `TokenPolicies.CheckedAdd` | omega-commitment/crates/omega-commitment-ingest/src/token_policy.rs:34-96 | Adds a policy's sum to its running total, or overflows exactly when it does not fit, which takes 2^64 bytes of input. |
| `TokenPolicies.TotalsLoop` | omega-commitment/crates/omega-commitment-ingest/src/token_policy.rs:34-96 | The loop over policies adds every holding to the running totals. |
| `TokenPolicies.EntryTotals` | omega-commitment/crates/omega-commitment-ingest/src/token_policy.rs:34-96 | One entry is accepted exactly when it parses, its address has 32 bytes and the totals still fit. |
| `TokenPolicies.ListPolicies` | omega-commitment/crates/omega-commitment-ingest/src/token_policy.rs:85-95 | The output lists each total once, by strictly ascending policy id, with the issuance slot zero. |
| `TokenPolicies.IngestTokenPolicies` | omega-commitment/crates/omega-commitment-ingest/src/token_policy.rs:34-96 | A file is accepted exactly when it parses to its last byte, every address has 32 bytes and the totals fit; it yields one policy per total; on any input shorter than 2^64 bytes, well formed or not, the overflow branches are out of reach. |
| `TokenPolicies.ParsersAgree` | omega-commitment/crates/omega-commitment-ingest/src/token_policy.rs:34-96 | On every byte string both parsers accept, each policy's total is the quantity the UTXOs hold under it. |
| `TokenPolicies.OverflowUnreachable` | omega-commitment/crates/omega-commitment-ingest/src/token_policy.rs:34-96 | A well-formed file shorter than 2^64 bytes is accepted if and only if every address has 32 bytes. |

## Left out

- Plonky3 (FRI, Poseidon2, challenger, the probability in LogUp, `verify_batch`) and the constraints of the upstream Blake3 AIR: library code, present as `StarkSound`, `StarkComplete` and `ValidBlakeRow`.
- CircuitSoundness.BatchSoundness: takes tables shorter than p and fewer than p received tuples in all as hypotheses; `CircuitExact.BoundIsTight` shows that the second cannot be relaxed.
- Verifier.VerifySound: takes fewer than p received tuples in all as a hypothesis, which a caller can compute from the depths in the public inputs; `verify` itself has no such bound, and `EndToEnd.VerifyBoundIsTight` shows that none larger would do. What is accepted at any length is `EndToEnd.VerifyDecides`.
- EndToEnd.VerifyExact: the same bound.
- EndToEnd.AcceptedIsRecorded: the same bound.
- EndToEnd.LedgerAcceptsRecorded: the same bound on the inputs of one claim.
- EndToEnd.OutOfRangeAcceptedIff: the same bound, in the direction from acceptance.
- Blake3.FillOutputs: says which states the columns of a round save, not their layout in 16-bit limbs and bits.
- TraceBuilder.BuildMembershipTrace: rows are records in a sequence, not a flat row-major buffer of field elements.
- Blake3Rows.FillTraceRow: covers the columns that the lookup reads; the other eight output words and the helper bits are constrained only by the upstream AIR.
- EndToEnd.HonestProofVerifies: for non-empty batches of provable witnesses only, as the code fails on the others; that a proof follows from satisfying tables is the hypothesis `StarkComplete`.
- That a credited value is the value of the proven payload: `verify` never sees the witness the value is read from.
- CrashRecovery.CrashesConverge: speaks of the two ledger tables and the cursor; the membership is saved only at the end of a batch, so a crash can lose it until later entries set it again.
- LedgerRuns.SnapshotStandsForPrefix: speaks of everything but the note about the latest snapshot; that vote and committed index are those of the snapshot's metadata table follows the code.
- SnapshotStore.SnapshotStorage.InstallSnapshot: its file and database operations succeed; failures are modelled as crashes between and during them. A half-written image is one value, and installing one is not modelled.
- SQLite, write-ahead log, reader pool, threads and channels: tables are maps, transactions are atomic, commands come one at a time.
- openraft's election and commit rules: the committed entries are given.
- libp2p, discovery, framing, JSON-RPC, node lifecycle and the command-line tools.
- SnapshotRoundTrip.ChunkSnapshotBytes: snapshots shorter than 2^64 bytes, the range of the byte counter.
- SnapshotTransfer.SnapshotFileReceiver.TakeChunk: the byte counter wraps as in a release build; a debug build stops there instead.
- ClaimCodec.EnvelopeRoundTrip: lists and byte strings shorter than 2^64, the range of a length on the wire.
- The CBOR library itself: heads, lengths and byte strings as in section 3 of RFC 8949, with one error for malformed input.
- Reservations too large for the machine: the decoders record each one and go on, where the code stops; `Reservations.OversizedIff` and `IngestParsers.FileFits` say which ones there are.
- IngestParsers.IngestUtxos: malformed input is one error, the one left when no other check fails.
- Error texts, witness numbers and field names inside errors.
- MerkleBinding.PositionBinding: payloads shorter than 2^64 bytes, the range of the length in a leaf preimage.
- Fixed-width leaf encoders (header, transaction index, token policy, script), uniqueness helpers, manifest checks and serde adapters: concatenations of fixed fields and plain comparisons.
- Golden hash values: they need the concrete hash functions.
