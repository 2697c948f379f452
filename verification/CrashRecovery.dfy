/** The writer commits a claim and its cursor separately.  A crash may fall
    between the two, any number of times, and the ledger still converges. */
module CrashRecovery {
  import opened Bytes
  import opened Ledger
  import opened LedgerWriter

  /** The committed entries come in strictly increasing log order. */
  ghost predicate Ordered(es: seq<Entry>) {
    forall i, j :: 0 <= i < j < |es| ==> es[i].logId.index < es[j].logId.index
  }

  /** How many entries a saved cursor covers. */
  function Covered(es: seq<Entry>, cursor: Option<MetaValue>): (k: nat)
    ensures k <= |es|
  {
    if es == [] then 0
    else if cursor.Some? && cursor.value.LogIdValue? && es[|es| - 1].logId.index <= cursor.value.id.index then |es|
    else Covered(es[..|es| - 1], cursor)
  }

  function Cursor(s: State): Option<MetaValue> {
    if LastApplied in s.meta then Some(s.meta[LastApplied]) else None
  }

  /** The durable tables, and the volatile position of the writer: the entry it is
      working on, and whether that entry's claim is already committed. */
  datatype Machine = Machine(disk: State, next: nat, claimed: bool)

  datatype Step =
    | CommitClaim
    | SaveCursor
    | SaveOther(key: MetaKey, value: Option<MetaValue>)
    | Crash

  /** One commit, or a crash after which the entries past the saved cursor are applied again. */
  function Do(env: Env, es: seq<Entry>, m: Machine, step: Step): Machine {
    match step
    case CommitClaim =>
      if m.next < |es| && !m.claimed then
        m.(disk := m.disk.(books := EntryBooks(env, m.disk.books, es[m.next])), claimed := true)
      else m
    case SaveCursor =>
      if m.next < |es| && m.claimed then
        Machine(SaveMeta(m.disk, LastApplied, Some(LogIdValue(es[m.next].logId))), m.next + 1, false)
      else m
    case SaveOther(key, value) => if key == LastApplied then m else m.(disk := SaveMeta(m.disk, key, value))
    case Crash => Machine(m.disk, Covered(es, Cursor(m.disk)), false)
  }

  function Run(env: Env, es: seq<Entry>, m: Machine, steps: seq<Step>): Machine {
    if steps == [] then m else Do(env, es, Run(env, es, m, steps[..|steps| - 1]), steps[|steps| - 1])
  }

  /** The uninterrupted run's tables after `k` entries. */
  function BooksAfter(env: Env, b: Books, es: seq<Entry>, k: nat): Books
    requires k <= |es|
  {
    if k == 0 then b else EntryBooks(env, BooksAfter(env, b, es, k - 1), es[k - 1])
  }

  lemma {:induction false} BooksAfterEntries(env: Env, s: State, es: seq<Entry>, k: nat)
    requires k <= |es|
    ensures ApplyEntries(env, s, es, k).books == BooksAfter(env, s.books, es, k)
    ensures Cursor(ApplyEntries(env, s, es, k)) == if k == 0 then Cursor(s) else Some(LogIdValue(es[k - 1].logId))
  {
    if k > 0 { BooksAfterEntries(env, s, es, k - 1); }
  }

  /** The steps of applying the first `k` entries without a crash. */
  function Undisturbed(k: nat): seq<Step> {
    if k == 0 then [] else Undisturbed(k - 1) + [CommitClaim, SaveCursor]
  }

  lemma {:induction false} RunTwo(env: Env, es: seq<Entry>, m: Machine, steps: seq<Step>, a: Step, b: Step)
    ensures Run(env, es, m, steps + [a, b]) == Do(env, es, Do(env, es, Run(env, es, m, steps), a), b)
  {
    assert (steps + [a, b])[..|steps| + 1] == steps + [a];
    assert (steps + [a])[..|steps|] == steps;
  }

  /** Left alone, the machine is the batch: two commits per entry, and the state of applying them. */
  lemma {:induction false} UndisturbedApplies(env: Env, s: State, es: seq<Entry>, k: nat)
    requires k <= |es|
    ensures Run(env, es, Machine(s, 0, false), Undisturbed(k)) == Machine(ApplyEntries(env, s, es, k), k, false)
  {
    if k > 0 {
      UndisturbedApplies(env, s, es, k - 1);
      RunTwo(env, es, Machine(s, 0, false), Undisturbed(k - 1), CommitClaim, SaveCursor);
    }
  }

  /** The tables are those of the entries the cursor covers, or of one entry more. */
  ghost predicate Consistent(env: Env, b: Books, es: seq<Entry>, start: Option<MetaValue>, m: Machine) {
    && m.next <= |es| && m.next == Covered(es, Cursor(m.disk))
    && Cursor(m.disk) == (if m.next == 0 then start else Some(LogIdValue(es[m.next - 1].logId)))
    && (m.claimed ==> m.next < |es| && m.disk.books == BooksAfter(env, b, es, m.next + 1))
    && (|| m.disk.books == BooksAfter(env, b, es, m.next)
        || (m.next < |es| && m.disk.books == BooksAfter(env, b, es, m.next + 1)))
  }

  lemma {:induction false} CoveredByOwn(es: seq<Entry>, k: nat)
    requires Ordered(es) && k < |es|
    ensures Covered(es, Some(LogIdValue(es[k].logId))) == k + 1
  {
    if k < |es| - 1 {
      var init := es[..|es| - 1];
      assert es[k].logId.index < es[|es| - 1].logId.index;
      CoveredByOwn(init, k);
    }
  }

  lemma {:induction false} EntryIdempotent(env: Env, b: Books, e: Entry)
    ensures EntryBooks(env, EntryBooks(env, b, e), e) == EntryBooks(env, b, e)
  {
    if e.payload.Normal? { AttemptIdempotent(env, b, e.payload.block, e.payload.commitment, e.payload.claim); }
  }

  lemma {:induction false} CommitConsistent(env: Env, b: Books, es: seq<Entry>, start: Option<MetaValue>, m: Machine)
    requires Consistent(env, b, es, start, m) && m.next < |es| && !m.claimed
    ensures Consistent(env, b, es, start, Do(env, es, m, CommitClaim))
  {
    EntryIdempotent(env, BooksAfter(env, b, es, m.next), es[m.next]);
  }

  lemma {:induction false} SaveConsistent(env: Env, b: Books, es: seq<Entry>, start: Option<MetaValue>, m: Machine)
    requires Ordered(es) && Consistent(env, b, es, start, m) && m.next < |es| && m.claimed
    ensures Consistent(env, b, es, start, Do(env, es, m, SaveCursor))
  {
    CoveredByOwn(es, m.next);
  }

  lemma {:induction false} OtherConsistent(env: Env, b: Books, es: seq<Entry>, start: Option<MetaValue>, m: Machine,
                                           key: MetaKey, value: Option<MetaValue>)
    requires Consistent(env, b, es, start, m)
    ensures Consistent(env, b, es, start, Do(env, es, m, SaveOther(key, value)))
  {
    if key != LastApplied { assert Cursor(SaveMeta(m.disk, key, value)) == Cursor(m.disk); }
  }

  lemma {:induction false} StepConsistent(env: Env, b: Books, es: seq<Entry>, start: Option<MetaValue>, m: Machine,
                                          step: Step)
    requires Ordered(es) && Consistent(env, b, es, start, m)
    ensures Consistent(env, b, es, start, Do(env, es, m, step))
  {
    match step
    case CommitClaim => if m.next < |es| && !m.claimed { CommitConsistent(env, b, es, start, m); }
    case SaveCursor => if m.next < |es| && m.claimed { SaveConsistent(env, b, es, start, m); }
    case SaveOther(key, value) => OtherConsistent(env, b, es, start, m, key, value);
    case Crash =>
  }

  lemma {:induction false} RunConsistent(env: Env, b: Books, es: seq<Entry>, start: Option<MetaValue>, m: Machine,
                                         steps: seq<Step>)
    requires Ordered(es) && Consistent(env, b, es, start, m)
    ensures Consistent(env, b, es, start, Run(env, es, m, steps))
  {
    if steps != [] {
      RunConsistent(env, b, es, start, m, steps[..|steps| - 1]);
      StepConsistent(env, b, es, start, Run(env, es, m, steps[..|steps| - 1]), steps[|steps| - 1]);
    }
  }

  /** However often the writer crashes, and between whichever commits, once every
      entry is applied the tables and the cursor are those of the uninterrupted run. */
  lemma {:induction false} CrashesConverge(env: Env, s: State, es: seq<Entry>, steps: seq<Step>)
    requires Ordered(es) && Covered(es, Cursor(s)) == 0
    requires Run(env, es, Machine(s, 0, false), steps).next == |es|
    ensures var end, direct := Run(env, es, Machine(s, 0, false), steps).disk, ApplyEntries(env, s, es, |es|);
            end.books == direct.books && Cursor(end) == Cursor(direct)
  {
    RunConsistent(env, s.books, es, Cursor(s), Machine(s, 0, false), steps);
    BooksAfterEntries(env, s, es, |es|);
  }

  /** After any crash the remaining entries can be applied from the cursor, and that suffices. */
  lemma {:induction false} RecoveryConverges(env: Env, s: State, es: seq<Entry>, steps: seq<Step>)
    requires Ordered(es) && Covered(es, Cursor(s)) == 0
    ensures var disk := Run(env, es, Machine(s, 0, false), steps).disk;
            var k := Covered(es, Cursor(disk));
            var end, direct := ApplyEntries(env, disk, es[k..], |es| - k), ApplyEntries(env, s, es, |es|);
            end.books == direct.books && Cursor(end) == Cursor(direct)
  {
    var m := Run(env, es, Machine(s, 0, false), steps);
    RunConsistent(env, s.books, es, Cursor(s), Machine(s, 0, false), steps);
    var k := m.next;
    BooksAfterEntries(env, m.disk, es[k..], |es| - k);
    BooksAfterEntries(env, s, es, |es|);
    if k < |es| {
      EntryIdempotent(env, BooksAfter(env, s.books, es, k), es[k]);
      RestOfBooks(env, s.books, m.disk.books, es, k, |es|);
    }
  }

  lemma {:induction false} RestOfBooks(env: Env, b: Books, disk: Books, es: seq<Entry>, k: nat, n: nat)
    requires k < n <= |es|
    requires EntryBooks(env, disk, es[k]) == BooksAfter(env, b, es, k + 1)
    ensures BooksAfter(env, disk, es[k..], n - k) == BooksAfter(env, b, es, n)
  {
    if n == k + 1 {
      assert es[k..][0] == es[k];
      assert BooksAfter(env, disk, es[k..], 1) == EntryBooks(env, BooksAfter(env, disk, es[k..], 0), es[k]);
    } else {
      RestOfBooks(env, b, disk, es, k, n - 1);
      assert es[k..][n - 1 - k] == es[n - 1];
    }
  }
}
