/** The raft log table as the storage adaptor reads it, and the contiguous log it stands for. */
module RaftLog {
  import opened Bytes
  import opened Ledger
  import opened LedgerWriter

  // ----- Range reads -----

  datatype Bound = Included(value: U64) | Excluded(value: U64) | Unbounded

  datatype ReadError = RangeOverflow | OutOfRange(value: nat)

  datatype Range = Range(start: U64, end: Option<U64>)

  /** `range_bounds`: half-open bounds, refusing to step past the largest index. */
  function RangeBounds(lower: Bound, upper: Bound): Result<Range, ReadError> {
    if lower.Excluded? && lower.value == TWO_64 - 1 then Err(RangeOverflow)
    else if upper.Included? && upper.value == TWO_64 - 1 then Err(RangeOverflow)
    else
      var start: U64 := match lower case Included(v) => v case Excluded(v) => v + 1 case Unbounded => 0;
      var end: Option<U64> :=
        match upper case Included(v) => Some(v + 1) case Excluded(v) => Some(v) case Unbounded => None;
      Ok(Range(start, end))
  }

  /** The index lies between the two bounds. */
  ghost predicate Within(lower: Bound, upper: Bound, i: nat) {
    && (match lower case Included(v) => v <= i case Excluded(v) => v < i case Unbounded => true)
    && (match upper case Included(v) => i <= v case Excluded(v) => i < v case Unbounded => true)
  }

  lemma {:induction false} RangeBoundsMeaning(lower: Bound, upper: Bound, i: nat)
    requires RangeBounds(lower, upper).Ok?
    ensures var r := RangeBounds(lower, upper).value;
            (r.start <= i && (r.end.Some? ==> i < r.end.value)) <==> Within(lower, upper, i)
  {
  }

  /** The entries at indices `lo` to `hi`, ascending. */
  function Rows(log: map<nat, LogRow>, lo: nat, hi: nat): seq<Entry>
    decreases hi - lo
  {
    if lo >= hi then []
    else if lo in log then [log[lo].entry] + Rows(log, lo + 1, hi)
    else Rows(log, lo + 1, hi)
  }

  /** `try_get_log_entries` */
  function TryGetLogEntries(log: map<nat, LogRow>, lower: Bound, upper: Bound): Result<seq<Entry>, ReadError> {
    match RangeBounds(lower, upper)
    case Err(e) => Err(e)
    case Ok(r) =>
      if r.end.Some? && r.end.value <= r.start then Ok([])
      else if r.start >= I64_LIMIT then Err(OutOfRange(r.start))
      else if r.end.Some? && r.end.value >= I64_LIMIT then Err(OutOfRange(r.end.value))
      else Ok(Rows(log, r.start, if r.end.Some? then r.end.value else I64_LIMIT))
  }

  /** Every row is stored under the index of its entry, and the index fits. */
  ghost predicate Indexed(log: map<nat, LogRow>) {
    forall i :: i in log ==> i < I64_LIMIT && log[i].entry.logId.index == i && log[i].term == log[i].entry.logId.term
  }

  /** The entry is in the log, at an index between the bounds. */
  ghost predicate Stored(log: map<nat, LogRow>, lo: nat, hi: nat, e: Entry) {
    lo <= e.logId.index < hi && e.logId.index in log && log[e.logId.index].entry == e
  }

  ghost predicate Ascending(es: seq<Entry>) {
    forall j, k :: 0 <= j < k < |es| ==> es[j].logId.index < es[k].logId.index
  }

  lemma {:induction false} RowsMeaning(log: map<nat, LogRow>, lo: nat, hi: nat)
    requires Indexed(log)
    ensures Ascending(Rows(log, lo, hi))
    ensures forall e :: e in Rows(log, lo, hi) <==> Stored(log, lo, hi, e)
    decreases hi - lo
  {
    if lo < hi {
      RowsMeaning(log, lo + 1, hi);
      var rest := Rows(log, lo + 1, hi);
      if lo in log {
        var first := log[lo].entry;
        assert Rows(log, lo, hi) == [first] + rest;
        forall k | 0 <= k < |rest| ensures lo < rest[k].logId.index { assert rest[k] in rest; }
        forall e
          ensures e in [first] + rest <==> Stored(log, lo, hi, e)
        {
          assert e in [first] + rest <==> e == first || e in rest;
        }
      }
    }
  }

  /** A successful read returns exactly the stored entries between the bounds, in index order. */
  lemma {:induction false} ReadMeaning(log: map<nat, LogRow>, lower: Bound, upper: Bound, es: seq<Entry>)
    requires Indexed(log) && TryGetLogEntries(log, lower, upper) == Ok(es)
    ensures Ascending(es)
    ensures forall e :: e in es <==> Stored(log, 0, I64_LIMIT, e) && Within(lower, upper, e.logId.index)
  {
    var r := RangeBounds(lower, upper).value;
    var hi := if r.end.Some? then r.end.value else I64_LIMIT;
    RowsMeaning(log, r.start, hi);
    forall e
      ensures e in es <==> Stored(log, 0, I64_LIMIT, e) && Within(lower, upper, e.logId.index)
    {
      RangeBoundsMeaning(lower, upper, e.logId.index);
    }
  }

  // ----- When a read succeeds -----

  /** A bound that has to be moved past the largest 64-bit index. */
  predicate Overflows(lower: Bound, upper: Bound) {
    lower == Excluded(0xFFFF_FFFF_FFFF_FFFF) || upper == Included(0xFFFF_FFFF_FFFF_FFFF)
  }

  /** The first index from the lower bound on, and the first from the upper bound on. */
  function FirstFrom(lower: Bound): nat {
    match lower case Included(v) => v case Excluded(v) => v + 1 case Unbounded => 0
  }

  function FirstPast(upper: Bound): Option<nat> {
    match upper case Included(v) => Some(v + 1) case Excluded(v) => Some(v) case Unbounded => None
  }

  lemma {:induction false} EmptyIff(lower: Bound, upper: Bound)
    ensures (forall i: nat :: !Within(lower, upper, i)) <==>
              FirstPast(upper).Some? && FirstPast(upper).value <= FirstFrom(lower)
  {
    if !(FirstPast(upper).Some? && FirstPast(upper).value <= FirstFrom(lower)) {
      assert Within(lower, upper, FirstFrom(lower));
    }
  }

  /** A read fails exactly when a bound overflows, or when the range is not empty and starts or
      ends beyond the signed 64-bit integers of the database; the error names the first such end. */
  lemma {:induction false} ReadErrorIff(log: map<nat, LogRow>, lower: Bound, upper: Bound, e: ReadError)
    ensures TryGetLogEntries(log, lower, upper) == Err(e) <==>
              if Overflows(lower, upper) then e == RangeOverflow
              else if forall i: nat :: !Within(lower, upper, i) then false
              else if FirstFrom(lower) >= 0x8000_0000_0000_0000 then e == OutOfRange(FirstFrom(lower))
              else FirstPast(upper).Some? && FirstPast(upper).value >= 0x8000_0000_0000_0000
                   && e == OutOfRange(FirstPast(upper).value)
  {
    EmptyIff(lower, upper);
  }

  // ----- The log it stands for -----

  /** A contiguous log: the entries at `first`, `first + 1`, and so on. */
  datatype Log = Log(first: nat, entries: seq<Entry>) {
    function Next(): nat { first + |entries| }

    ghost predicate Valid() {
      && Next() <= I64_LIMIT
      && forall k :: 0 <= k < |entries| ==> entries[k].logId.index == first + k && entries[k].logId.term < I64_LIMIT
    }

    function At(i: nat): Entry
      requires first <= i < Next()
    {
      entries[i - first]
    }

    /** The position of index `i`, clamped to the log. */
    function Position(i: nat): (k: nat)
      ensures k <= |entries|
    {
      if i <= first then 0 else if i >= Next() then |entries| else i - first
    }

    /** The entries at indices `lo` to `hi`. */
    function Slice(lo: nat, hi: nat): seq<Entry> {
      if lo < hi then entries[Position(lo)..Position(hi)] else []
    }
  }

  ghost predicate StandsFor(log: map<nat, LogRow>, abs: Log) {
    && abs.Valid()
    && (forall i :: i in log <==> abs.first <= i < abs.Next())
    && (forall i :: i in log ==> log[i] == LogRow(abs.At(i).logId.term, abs.At(i)))
  }

  datatype LogOp = Append(entries: seq<Entry>) | DeleteFrom(index: U64) | Purge(upTo: LogId)

  /** The operation comes in raft order: appends continue the log, deletions cut its tail. */
  ghost predicate InOrder(abs: Log, op: LogOp) {
    match op
    case Append(es) =>
      && abs.Next() + |es| <= I64_LIMIT
      && forall k :: 0 <= k < |es| ==> es[k].logId.index == abs.Next() + k && es[k].logId.term < I64_LIMIT
    case DeleteFrom(index) => abs.first <= index <= abs.Next() && index < I64_LIMIT
    case Purge(upTo) => upTo.index < I64_LIMIT
  }

  function Abstract(abs: Log, op: LogOp): Log {
    match op
    case Append(es) => Log(abs.first, abs.entries + es)
    case DeleteFrom(index) =>
      if abs.first <= index <= abs.Next() then Log(abs.first, abs.entries[..index - abs.first]) else abs
    case Purge(upTo) =>
      if upTo.index < abs.first then abs
      else if upTo.index + 1 >= abs.Next() then Log(upTo.index + 1, [])
      else Log(upTo.index + 1, abs.entries[upTo.index + 1 - abs.first..])
  }

  function Concrete(log: map<nat, LogRow>, op: LogOp): map<nat, LogRow> {
    match op
    case Append(es) => (match AppendRows(log, es, |es|) case Ok(after) => after case Err(_) => log)
    case DeleteFrom(index) => if index < I64_LIMIT then DeleteSince(log, index) else log
    case Purge(upTo) => if upTo.index < I64_LIMIT then PurgeUpTo(log, upTo.index) else log
  }

  lemma {:induction false} AppendStands(log: map<nat, LogRow>, abs: Log, es: seq<Entry>, n: nat)
    requires StandsFor(log, abs) && n <= |es| && InOrder(abs, Append(es))
    ensures AppendRows(log, es, n).Ok? && StandsFor(AppendRows(log, es, n).value, Log(abs.first, abs.entries + es[..n]))
  {
    if n == 0 {
      assert abs.entries + es[..0] == abs.entries;
    } else {
      AppendStands(log, abs, es, n - 1);
      var before, e := AppendRows(log, es, n - 1).value, es[n - 1];
      assert abs.entries + es[..n] == (abs.entries + es[..n - 1]) + [e];
      AppendOneStands(before, Log(abs.first, abs.entries + es[..n - 1]), e);
    }
  }

  lemma {:induction false} AppendOneStands(log: map<nat, LogRow>, abs: Log, e: Entry)
    requires StandsFor(log, abs) && e.logId.index == abs.Next() < I64_LIMIT && e.logId.term < I64_LIMIT
    ensures StandsFor(log[e.logId.index := LogRow(e.logId.term, e)], Log(abs.first, abs.entries + [e]))
  {
  }

  lemma {:induction false} DeleteStands(log: map<nat, LogRow>, abs: Log, index: U64)
    requires StandsFor(log, abs) && abs.first <= index <= abs.Next()
    ensures StandsFor(DeleteSince(log, index), Log(abs.first, abs.entries[..index - abs.first]))
  {
    var cut := Log(abs.first, abs.entries[..index - abs.first]);
    forall i | cut.first <= i < cut.Next() ensures cut.At(i) == abs.At(i) { }
  }

  lemma {:induction false} DropStands(log: map<nat, LogRow>, abs: Log, index: U64)
    requires StandsFor(log, abs) && abs.first <= index < abs.Next()
    ensures StandsFor(PurgeUpTo(log, index), Log(index + 1, abs.entries[index + 1 - abs.first..]))
  {
    var rest := Log(index + 1, abs.entries[index + 1 - abs.first..]);
    forall i | rest.first <= i < rest.Next() ensures rest.At(i) == abs.At(i) { }
  }

  lemma {:induction false} PurgeNothing(log: map<nat, LogRow>, abs: Log, index: nat)
    requires StandsFor(log, abs) && index < abs.first
    ensures PurgeUpTo(log, index) == log
  {
  }

  lemma {:induction false} PurgeAll(log: map<nat, LogRow>, abs: Log, index: nat)
    requires StandsFor(log, abs) && abs.Next() <= index + 1 <= I64_LIMIT
    ensures StandsFor(PurgeUpTo(log, index), Log(index + 1, []))
  {
    assert forall i :: i !in PurgeUpTo(log, index);
  }

  lemma {:induction false} PurgeStands(log: map<nat, LogRow>, abs: Log, upTo: LogId)
    requires StandsFor(log, abs) && upTo.index < I64_LIMIT
    ensures StandsFor(PurgeUpTo(log, upTo.index), Abstract(abs, Purge(upTo)))
  {
    var index, purged := upTo.index, Abstract(abs, Purge(upTo));
    if index < abs.first {
      assert PurgeUpTo(log, index) == log && purged == abs by { PurgeNothing(log, abs, index); }
    } else if index + 1 >= abs.Next() {
      assert purged == Log(index + 1, []);
      PurgeAll(log, abs, index);
    } else {
      assert purged == Log(index + 1, abs.entries[index + 1 - abs.first..]);
      DropStands(log, abs, index);
    }
  }

  lemma {:induction false} StepStands(log: map<nat, LogRow>, abs: Log, op: LogOp)
    requires StandsFor(log, abs) && InOrder(abs, op)
    ensures StandsFor(Concrete(log, op), Abstract(abs, op))
  {
    match op
    case Append(es) =>
      AppendStands(log, abs, es, |es|);
      assert es[..|es|] == es;
    case DeleteFrom(index) => DeleteStands(log, abs, index);
    case Purge(upTo) => PurgeStands(log, abs, upTo);
  }

  // ----- Reading a contiguous log -----

  lemma {:induction false} SliceCons<T>(s: seq<T>, a: nat, b: nat)
    requires a < b <= |s|
    ensures s[a..b] == [s[a]] + s[a + 1..b]
  {
  }

  lemma {:induction false} SliceStep(abs: Log, lo: nat, hi: nat)
    requires lo < hi
    ensures abs.Slice(lo, hi) == (if abs.first <= lo < abs.Next() then [abs.At(lo)] else []) + abs.Slice(lo + 1, hi)
  {
    var a, c, b := abs.Position(lo), abs.Position(lo + 1), abs.Position(hi);
    if abs.first <= lo < abs.Next() {
      assert c == a + 1;
      SliceCons(abs.entries, a, b);
      assert lo + 1 == hi ==> abs.entries[c..b] == [];
    } else {
      assert a == c;
      assert [] + abs.entries[a..b] == abs.entries[a..b];
      assert lo + 1 == hi ==> abs.entries[a..b] == [];
    }
  }

  lemma {:induction false} RowsAreSlice(log: map<nat, LogRow>, abs: Log, lo: nat, hi: nat)
    requires StandsFor(log, abs)
    ensures Rows(log, lo, hi) == abs.Slice(lo, hi)
    decreases hi - lo
  {
    if lo < hi {
      RowsAreSlice(log, abs, lo + 1, hi);
      SliceStep(abs, lo, hi);
    }
  }

  lemma {:induction false} SliceToEnd(abs: Log, lo: nat, hi: nat)
    requires abs.Next() <= hi
    ensures abs.Slice(lo, hi) == abs.Slice(lo, abs.Next())
  {
    if lo >= abs.Next() {
      assert abs.Position(lo) == abs.Position(hi) == |abs.entries|;
    }
  }

  /** After calls in raft order, a successful read is the slice of the contiguous log. */
  lemma {:induction false} ReadIsSlice(log: map<nat, LogRow>, abs: Log, lower: Bound, upper: Bound, es: seq<Entry>)
    requires StandsFor(log, abs) && TryGetLogEntries(log, lower, upper) == Ok(es)
    ensures var r := RangeBounds(lower, upper).value;
            es == abs.Slice(r.start, if r.end.Some? then r.end.value else abs.Next())
  {
    var r := RangeBounds(lower, upper).value;
    RowsAreSlice(log, abs, r.start, if r.end.Some? then r.end.value else I64_LIMIT);
    SliceToEnd(abs, r.start, I64_LIMIT);
  }

  // ----- Log state -----

  /** The largest stored index below `hi`. */
  function LatestBelow(log: map<nat, LogRow>, hi: nat): (r: Option<nat>)
    ensures r.Some? ==> r.value in log
  {
    if hi == 0 then None else if hi - 1 in log then Some(hi - 1) else LatestBelow(log, hi - 1)
  }

  /** `get_log_state`, the last log id: that of the last entry, or else the purge point. */
  function LastLogId(s: State): Option<LogId> {
    match LatestBelow(s.log, I64_LIMIT)
    case Some(i) => Some(s.log[i].entry.logId)
    case None => PurgePoint(s)
  }

  function PurgePoint(s: State): Option<LogId> {
    if LastPurged in s.meta && s.meta[LastPurged].LogIdValue? then Some(s.meta[LastPurged].id) else None
  }

  lemma {:induction false} LatestMeaning(log: map<nat, LogRow>, hi: nat)
    ensures LatestBelow(log, hi).Some? ==>
              LatestBelow(log, hi).value < hi && LatestBelow(log, hi).value in log &&
              forall i :: i in log && i < hi ==> i <= LatestBelow(log, hi).value
    ensures LatestBelow(log, hi).None? ==> forall i :: i in log ==> i >= hi
  {
    if hi > 0 && hi - 1 !in log { LatestMeaning(log, hi - 1); }
  }

  lemma {:induction false} LastOfTable(s: State, abs: Log)
    requires StandsFor(s.log, abs)
    ensures LastLogId(s) == if abs.entries == [] then PurgePoint(s) else Some(abs.entries[|abs.entries| - 1].logId)
  {
    LatestMeaning(s.log, I64_LIMIT);
    if abs.entries == [] {
      assert forall i :: i !in s.log;
    } else {
      assert abs.Next() - 1 in s.log;
    }
  }

  // ----- The log with its purge point, over runs -----

  /** A contiguous log, and the last id purged before it. */
  datatype Kept = Kept(log: Log, purged: Option<LogId>) {
    /** The log continues where it was purged. */
    ghost predicate Valid() { purged.Some? ==> purged.value.index + 1 == log.first }
  }

  /** The log table and the stored purge point stand for the log that was kept. */
  ghost predicate Stands(s: State, k: Kept) {
    StandsFor(s.log, k.log) && PurgePoint(s) == k.purged && k.Valid()
  }

  /** Raft order with the purge point: a purge does not go back before the log's start. */
  ghost predicate Orderly(k: Kept, op: LogOp) {
    InOrder(k.log, op) && (op.Purge? ==> op.upTo.index + 1 >= k.log.first)
  }

  function KeptAfter(k: Kept, op: LogOp): Kept {
    Kept(Abstract(k.log, op), if op.Purge? then Some(op.upTo) else k.purged)
  }

  /** The writer's log commands on the tables. */
  function Edit(s: State, op: LogOp): State {
    var edited := s.(log := Concrete(s.log, op));
    if op.Purge? && op.upTo.index < I64_LIMIT then SaveMeta(edited, LastPurged, Some(LogIdValue(op.upTo))) else edited
  }

  /** A purge keeps table and purge point one log if and only if it does not go back. */
  lemma {:induction false} PurgeIff(s: State, k: Kept, upTo: LogId)
    requires Stands(s, k) && upTo.index < I64_LIMIT
    ensures Stands(Edit(s, Purge(upTo)), KeptAfter(k, Purge(upTo))) <==> upTo.index + 1 >= k.log.first
  {
    PurgeStands(s.log, k.log, upTo);
    assert PurgePoint(Edit(s, Purge(upTo))) == Some(upTo);
  }

  lemma {:induction false} EditStands(s: State, k: Kept, op: LogOp)
    requires Stands(s, k) && Orderly(k, op)
    ensures Stands(Edit(s, op), KeptAfter(k, op))
  {
    if op.Purge? { PurgeIff(s, k, op.upTo); } else { StepStands(s.log, k.log, op); }
  }

  function EditAll(s: State, ops: seq<LogOp>): State {
    if ops == [] then s else Edit(EditAll(s, ops[..|ops| - 1]), ops[|ops| - 1])
  }

  function KeptAll(k: Kept, ops: seq<LogOp>): Kept {
    if ops == [] then k else KeptAfter(KeptAll(k, ops[..|ops| - 1]), ops[|ops| - 1])
  }

  ghost predicate AllOrderly(k: Kept, ops: seq<LogOp>) {
    forall i :: 0 <= i < |ops| ==> Orderly(KeptAll(k, ops[..i]), ops[i])
  }

  lemma {:induction false} OrderlyInit(k: Kept, ops: seq<LogOp>)
    requires ops != [] && AllOrderly(k, ops)
    ensures AllOrderly(k, ops[..|ops| - 1]) && Orderly(KeptAll(k, ops[..|ops| - 1]), ops[|ops| - 1])
  {
    var init := ops[..|ops| - 1];
    forall i | 0 <= i < |init| ensures Orderly(KeptAll(k, init[..i]), init[i]) { assert init[..i] == ops[..i]; }
  }

  /** Calls made in raft order keep table and purge point one contiguous log, the one they spell out. */
  lemma {:induction false} RunStands(s: State, k: Kept, ops: seq<LogOp>)
    requires Stands(s, k) && AllOrderly(k, ops)
    ensures Stands(EditAll(s, ops), KeptAll(k, ops))
  {
    if ops != [] {
      var init := ops[..|ops| - 1];
      OrderlyInit(k, ops);
      RunStands(s, k, init);
      EditStands(EditAll(s, init), KeptAll(k, init), ops[|ops| - 1]);
    }
  }

  /** The reported last log id is that of the last entry, or the id purged before an empty
      log.  If there is one, it is the id just before the next index to append. */
  lemma {:induction false} LogStateMeaning(s: State, k: Kept)
    requires Stands(s, k)
    ensures LastLogId(s) == if k.log.entries == [] then k.purged else Some(k.log.entries[|k.log.entries| - 1].logId)
    ensures LastLogId(s).Some? ==> LastLogId(s).value.index + 1 == k.log.Next()
    ensures LastLogId(s).None? <==> k.log.entries == [] && k.purged.None?
  {
    LastOfTable(s, k.log);
  }

  /** After a purge the reported last id is the one before the next index, if and only if
      the log still held entries or the purge does not go back.  A purge that goes back
      on an emptied log takes the reported id back with it. */
  lemma {:induction false} PurgeReportIff(s: State, k: Kept, upTo: LogId)
    requires Stands(s, k) && upTo.index < I64_LIMIT
    ensures var last, next := LastLogId(Edit(s, Purge(upTo))), KeptAfter(k, Purge(upTo)).log.Next();
            last.Some? && (last.value.index + 1 == next <==> k.log.entries != [] || upTo.index + 1 >= k.log.first)
    ensures k.log.entries == [] && upTo.index + 1 < k.log.first ==> LastLogId(Edit(s, Purge(upTo))) == Some(upTo)
  {
    PurgeStands(s.log, k.log, upTo);
    LastOfTable(Edit(s, Purge(upTo)), Abstract(k.log, Purge(upTo)));
  }

  /** Two purges, the second one back: the report falls from 10 to 3. */
  lemma {:induction false} RegressingPurge(s: State)
    requires Stands(s, Kept(Log(0, []), None))
    ensures LastLogId(EditAll(s, [Purge(LogId(1, 10))])) == Some(LogId(1, 10))
    ensures LastLogId(EditAll(s, [Purge(LogId(1, 10)), Purge(LogId(1, 3))])) == Some(LogId(1, 3))
  {
    var once, twice := [Purge(LogId(1, 10))], [Purge(LogId(1, 10)), Purge(LogId(1, 3))];
    var k := Kept(Log(0, []), None);
    assert once[..|once| - 1] == [] && twice[..|twice| - 1] == once;
    assert EditAll(s, once) == Edit(s, Purge(LogId(1, 10)));
    EditStands(s, k, Purge(LogId(1, 10)));
    assert KeptAfter(k, Purge(LogId(1, 10))) == Kept(Log(11, []), Some(LogId(1, 10)));
    LogStateMeaning(EditAll(s, once), Kept(Log(11, []), Some(LogId(1, 10))));
    PurgeReportIff(EditAll(s, once), Kept(Log(11, []), Some(LogId(1, 10))), LogId(1, 3));
  }

  /** The writer's methods, called in raft order, all succeed and keep the log. */
  method PerformAll(w: Writer, ops: seq<LogOp>, ghost k: Kept)
    requires Stands(w.Contents(), k) && AllOrderly(k, ops)
    modifies w
    ensures w.Contents() == EditAll(old(w.Contents()), ops)
    ensures Stands(w.Contents(), KeptAll(k, ops))
  {
    ghost var before := w.Contents();
    for i := 0 to |ops|
      invariant w.Contents() == EditAll(before, ops[..i])
      invariant Stands(w.Contents(), KeptAll(k, ops[..i]))
    {
      assert ops[..i + 1][..i] == ops[..i];
      EditStands(w.Contents(), KeptAll(k, ops[..i]), ops[i]);
      PerformOne(w, ops[i], KeptAll(k, ops[..i]));
    }
    assert ops[..|ops|] == ops;
  }

  method PerformOne(w: Writer, op: LogOp, ghost k: Kept)
    requires Stands(w.Contents(), k) && Orderly(k, op)
    modifies w
    ensures w.Contents() == Edit(old(w.Contents()), op)
  {
    match op
    case Append(es) =>
      AppendStands(w.log, k.log, es, |es|);
      var r := w.AppendRaftLogs(es);
      assert r.Ok?;
    case DeleteFrom(index) =>
      var r := w.DeleteRaftLogsSince(index);
      assert r.Ok?;
    case Purge(upTo) =>
      var r := w.PurgeRaftLogsUpto(upTo);
      assert r.Ok?;
  }
}
