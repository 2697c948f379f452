/** The token-policy parser, and its agreement with the UTXO parser. */
module TokenPolicies {
  import opened Bytes
  import opened Sorting
  import opened Cbor
  import opened Ingest
  import opened IngestParsers

  /** Every total fits an unsigned 128-bit integer. */
  predicate Safe(totals: map<PolicyId, nat>) {
    forall p :: p in totals ==> totals[p] < U128_LIMIT
  }

  /** The totals are safe exactly when sixteen bytes can hold each of them. */
  lemma {:induction false} SafeMeaning(totals: map<PolicyId, nat>)
    ensures Safe(totals) <==> forall p :: p in totals ==> totals[p] < Pow256(16)
  {
    Pow256Widths();
    assert Pow256(10) == 256 * (256 * Pow256(8));
    assert Pow256(12) == 256 * (256 * Pow256(10));
    assert Pow256(14) == 256 * (256 * Pow256(12));
    assert Pow256(16) == 256 * (256 * Pow256(14));
    assert Pow256(16) == U128_LIMIT;
  }

  // ----- What bytes can pay for -----

  /** The largest total that `n` bytes of input can hold. */
  function Budget(n: nat): nat { n * (TWO_64 - 1) }

  lemma {:induction false} BudgetGrows(m: nat, n: nat)
    requires m <= n
    ensures Budget(m) <= Budget(n)
  {
  }

  lemma {:induction false} BudgetAdds(m: nat, n: nat)
    ensures Budget(m + n) == Budget(m) + Budget(n)
  {
  }

  lemma {:induction false} BudgetFits(n: nat)
    requires Budget(n) >= U128_LIMIT
    ensures n >= TWO_64
  {
    if n < TWO_64 { BelowLimit(n); }
  }

  /** Every total is paid for by `paid` bytes. */
  ghost predicate Within(totals: map<PolicyId, nat>, paid: nat) {
    forall p :: p in totals ==> totals[p] <= Budget(paid)
  }

  lemma {:induction false} WithinMore(totals: map<PolicyId, nat>, m: nat, n: nat)
    requires Within(totals, m) && m <= n
    ensures Within(totals, n)
  {
    BudgetGrows(m, n);
  }

  // ----- One policy -----

  lemma {:induction false} SumSnoc(xs: seq<NameQty>, x: NameQty)
    ensures Sum(xs + [x]) == Sum(xs) + x.quantity
  {
    assert (xs + [x])[..|xs|] == xs;
  }

  lemma {:induction false} SumGrows(xs: seq<NameQty>, more: seq<NameQty>)
    ensures Sum(xs + more) >= Sum(xs)
  {
    if more == [] {
      assert xs + more == xs;
    } else {
      SumGrows(xs, more[..|more| - 1]);
      assert xs + more == (xs + more[..|more| - 1]) + [more[|more| - 1]];
      SumSnoc(xs + more[..|more| - 1], more[|more| - 1]);
    }
  }

  ghost predicate SmallSum(p: Get<seq<NameQty>>) { p.Ok? && Sum(p.value.value) < U128_LIMIT }

  /** The loop over names has summed those seen, with `n` left. */
  ghost predicate Summing(get: ByteString -> Get<NameQty>, seen: seq<NameQty>, total: nat, rest: ByteString, n: nat,
                          goal: Get<seq<NameQty>>) {
    After(seen, ReadMany(get, rest, n)) == goal && total == Sum(seen) < U128_LIMIT
  }

  lemma {:induction false} SumOne(get: ByteString -> Get<NameQty>, seen: seq<NameQty>, total: nat, rest: ByteString,
                                  n: nat, goal: Get<seq<NameQty>>)
    requires n > 0 && Summing(get, seen, total, rest, n, goal) && get(rest).Ok?
    ensures var x := get(rest).value;
            if total + x.value.quantity < U128_LIMIT then
              Summing(get, seen + [x.value], total + x.value.quantity, x.rest, n - 1, goal)
            else
              !SmallSum(goal)
  {
    var x := get(rest).value;
    NextItem(get, rest, n, seen);
    SumSnoc(seen, x.value);
    if goal.Ok? { SumGrows(seen + [x.value], ReadMany(get, x.rest, n - 1).value.value); }
  }

  lemma {:induction false} SumEnds(get: ByteString -> Get<NameQty>, seen: seq<NameQty>, total: nat, rest: ByteString,
                                   goal: Get<seq<NameQty>>)
    requires Summing(get, seen, total, rest, 0, goal)
    ensures SmallSum(goal) && Got(total, rest) == Got(Sum(goal.value.value), goal.value.rest)
  {
    NoMore(get, rest, seen);
  }

  lemma {:induction false} OnePays(total: nat, quantity: U64, before: nat, after: nat, all: nat)
    requires total <= Budget(before) && before < after <= all
    ensures total + quantity <= Budget(after)
    ensures total + quantity >= U128_LIMIT ==> all >= TWO_64
  {
    BudgetAdds(before, 1);
    BudgetGrows(before + 1, after);
    if total + quantity >= U128_LIMIT { BudgetFits(after); }
  }

  lemma {:induction false} NameErrors(b: ByteString)
    ensures GetName(b) != Err(SupplyOverflow)
  {
  }

  /** The inner loop: the total of one policy, with checked additions. */
  method PolicyTotal(ghost get: ByteString -> Get<NameQty>, b: ByteString, n: U64) returns (r: Get<nat>)
    requires ReadsNames(get)
    ensures r.Ok? <==> SmallSum(ReadMany(get, b, n))
    ensures r.Ok? ==> r.value == Got(Sum(ReadMany(get, b, n).value.value), ReadMany(get, b, n).value.rest)
    ensures r.Ok? ==> |r.value.rest| <= |b| && r.value.value <= Budget(|b| - |r.value.rest|)
    ensures r == Err(SupplyOverflow) ==> |b| >= TWO_64
  {
    var rest: ByteString, total: nat := b, 0;
    ghost var goal := ReadMany(get, b, n);
    ghost var seen: seq<NameQty> := [];
    AtStart(goal);
    var left: nat := n;
    while left > 0
      invariant Summing(get, seen, total, rest, left, goal)
      invariant |rest| <= |b| && total <= Budget(|b| - |rest|)
    {
      NextItem(get, rest, left, seen);
      var item := GetName(rest);
      assert item == get(rest);
      if item.Err? {
        NameErrors(rest);
        return Err(item.error);
      }
      SumOne(get, seen, total, rest, left, goal);
      OnePays(total, item.value.value.quantity, |b| - |rest|, |b| - |item.value.rest|, |b|);
      if total + item.value.value.quantity >= U128_LIMIT { return Err(SupplyOverflow); }
      seen := seen + [item.value.value];
      total := total + item.value.value.quantity;
      rest, left := item.value.rest, left - 1;
    }
    SumEnds(get, seen, total, rest, goal);
    return Ok(Got(total, rest));
  }

  ghost predicate SmallHolding(p: Get<Holding>) { p.Ok? && Sum(p.value.value.assets) < U128_LIMIT }

  lemma {:induction false} HeadShrinks(b: ByteString)
    ensures GetFixed(b, POLICY_LEN) != Err(SupplyOverflow)
    ensures GetFixed(b, POLICY_LEN).Ok? ==>
              var rest := GetFixed(b, POLICY_LEN).value.rest;
              |rest| <= |b| && GetLength(rest, MAP) != Err(SupplyOverflow) &&
              (GetLength(rest, MAP).Ok? ==> |GetLength(rest, MAP).value.rest| <= |rest|)
  {
    ReadsLeaveTails(b, MAP);
    if GetFixed(b, POLICY_LEN).Ok? { ReadsLeaveTails(GetFixed(b, POLICY_LEN).value.rest, MAP); }
  }

  /** A policy with its total. */
  method HoldingTotal(b: ByteString) returns (r: Get<(PolicyId, nat)>)
    ensures r.Ok? <==> SmallHolding(GetHolding(b))
    ensures r.Ok? ==> var g := GetHolding(b).value; r.value == Got((g.value.policy, Sum(g.value.assets)), g.rest)
    ensures r.Ok? ==> |r.value.rest| <= |b| && r.value.value.1 <= Budget(|b| - |r.value.rest|)
    ensures r == Err(SupplyOverflow) ==> |b| >= TWO_64
  {
    HeadShrinks(b);
    var policy :- GetFixed(b, POLICY_LEN);
    var count :- GetLength(policy.rest, MAP);
    var sum :- PolicyTotal(GetName, count.rest, count.value);
    BudgetGrows(|count.rest| - |sum.rest|, |b| - |sum.rest|);
    return Ok(Got((policy.value, sum.value), sum.rest));
  }

  // ----- All policies of an entry -----

  lemma {:induction false} AddSnoc(totals: map<PolicyId, nat>, hs: seq<Holding>, h: Holding)
    ensures AddHoldings(totals, hs + [h]) == Plus(AddHoldings(totals, hs), h.policy, Sum(h.assets))
  {
    assert (hs + [h])[..|hs|] == hs;
  }

  /** No total shrinks. */
  ghost predicate Above(low: map<PolicyId, nat>, high: map<PolicyId, nat>) {
    forall p :: p in low ==> p in high && low[p] <= high[p]
  }

  lemma {:induction false} AddGrows(totals: map<PolicyId, nat>, hs: seq<Holding>, more: seq<Holding>)
    ensures Above(AddHoldings(totals, hs), AddHoldings(totals, hs + more))
  {
    if more == [] {
      assert hs + more == hs;
    } else {
      var init, last := more[..|more| - 1], more[|more| - 1];
      AddGrows(totals, hs, init);
      assert hs + more == (hs + init) + [last];
      AddSnoc(totals, hs + init, last);
    }
  }

  ghost predicate SafeHoldings(totals: map<PolicyId, nat>, p: Get<seq<Holding>>) {
    p.Ok? && Safe(AddHoldings(totals, p.value.value))
  }

  /** The loop over policies has added the holdings seen, with `n` left. */
  ghost predicate Tallying(get: ByteString -> Get<Holding>, start: map<PolicyId, nat>, seen: seq<Holding>,
                           totals: map<PolicyId, nat>, rest: ByteString, n: nat, goal: Get<seq<Holding>>) {
    After(seen, ReadMany(get, rest, n)) == goal && totals == AddHoldings(start, seen) && Safe(totals)
  }

  lemma {:induction false} TallyOne(get: ByteString -> Get<Holding>, start: map<PolicyId, nat>, seen: seq<Holding>,
                                    totals: map<PolicyId, nat>, rest: ByteString, n: nat, goal: Get<seq<Holding>>,
                                    h: Holding)
    requires n > 0 && Tallying(get, start, seen, totals, rest, n, goal)
    requires get(rest).Ok? && get(rest).value.value == h && Total(totals, h.policy) + Sum(h.assets) < U128_LIMIT
    ensures Tallying(get, start, seen + [h], Plus(totals, h.policy, Sum(h.assets)), get(rest).value.rest, n - 1, goal)
  {
    NextItem(get, rest, n, seen);
    AddSnoc(start, seen, h);
  }

  lemma {:induction false} TallyOverflow(get: ByteString -> Get<Holding>, start: map<PolicyId, nat>, seen: seq<Holding>,
                                         totals: map<PolicyId, nat>, rest: ByteString, n: nat, goal: Get<seq<Holding>>,
                                         h: Holding)
    requires n > 0 && Tallying(get, start, seen, totals, rest, n, goal)
    requires get(rest).Ok? && get(rest).value.value == h && Total(totals, h.policy) + Sum(h.assets) >= U128_LIMIT
    ensures !SafeHoldings(start, goal)
  {
    NextItem(get, rest, n, seen);
    AddSnoc(start, seen, h);
    if goal.Ok? {
      AddGrows(start, seen + [h], ReadMany(get, get(rest).value.rest, n - 1).value.value);
      assert h.policy in AddHoldings(start, seen + [h]);
    }
  }

  lemma {:induction false} TallyStops(get: ByteString -> Get<Holding>, start: map<PolicyId, nat>, seen: seq<Holding>,
                                      totals: map<PolicyId, nat>, rest: ByteString, n: nat, goal: Get<seq<Holding>>)
    requires n > 0 && Tallying(get, start, seen, totals, rest, n, goal) && !SmallHolding(get(rest))
    ensures !SafeHoldings(start, goal)
  {
    NextItem(get, rest, n, seen);
    if get(rest).Ok? { TallyOverflow(get, start, seen, totals, rest, n, goal, get(rest).value.value); }
  }

  lemma {:induction false} TallyEnds(get: ByteString -> Get<Holding>, start: map<PolicyId, nat>, seen: seq<Holding>,
                                     totals: map<PolicyId, nat>, rest: ByteString, goal: Get<seq<Holding>>)
    requires Tallying(get, start, seen, totals, rest, 0, goal)
    ensures SafeHoldings(start, goal) && Got(totals, rest) == Got(AddHoldings(start, goal.value.value), goal.value.rest)
  {
    NoMore(get, rest, seen);
  }

  lemma {:induction false} TallyStarts(get: ByteString -> Get<Holding>, start: map<PolicyId, nat>, b: ByteString,
                                       n: nat)
    requires Safe(start)
    ensures Tallying(get, start, [], start, b, n, ReadMany(get, b, n))
  {
    AtStart(ReadMany(get, b, n));
  }

  /** `entry.checked_add(policy_total)` */
  method CheckedAdd(totals: map<PolicyId, nat>, policy: PolicyId, n: nat, ghost paid: nat, ghost more: nat)
      returns (r: Result<map<PolicyId, nat>, IngestError>)
    requires Within(totals, paid) && n <= Budget(more)
    ensures r.Ok? <==> Total(totals, policy) + n < U128_LIMIT
    ensures r.Ok? ==> r.value == Plus(totals, policy, n) && Within(r.value, paid + more)
    ensures r.Err? ==> r.error == SupplyOverflow && paid + more >= TWO_64
  {
    var before := Total(totals, policy);
    BudgetAdds(paid, more);
    if before + n >= U128_LIMIT {
      BudgetFits(paid + more);
      return Err(SupplyOverflow);
    }
    return Ok(totals[policy := before + n]);
  }

  /** One policy: its total, added to the running totals. */
  method NextTotal(ghost get: ByteString -> Get<Holding>, ghost start: map<PolicyId, nat>, ghost seen: seq<Holding>,
                   totals: map<PolicyId, nat>, rest: ByteString, ghost n: nat, ghost goal: Get<seq<Holding>>,
                   ghost paid: nat)
      returns (r: Get<map<PolicyId, nat>>, ghost h: Holding)
    requires n > 0 && ReadsHoldings(get) && Tallying(get, start, seen, totals, rest, n, goal) && Within(totals, paid)
    ensures r.Err? ==> !SafeHoldings(start, goal)
    ensures r.Ok? ==> Tallying(get, start, seen + [h], r.value.value, r.value.rest, n - 1, goal)
    ensures r.Ok? ==> |r.value.rest| <= |rest| && Within(r.value.value, paid + |rest| - |r.value.rest|)
    ensures r == Err(SupplyOverflow) ==> paid + |rest| >= TWO_64
  {
    var read := HoldingTotal(rest);
    assert get(rest) == GetHolding(rest);
    h := if get(rest).Ok? then get(rest).value.value else Holding(Zeros(POLICY_LEN), []);
    if read.Err? {
      TallyStops(get, start, seen, totals, rest, n, goal);
      return Err(read.error), h;
    }
    var added := CheckedAdd(totals, read.value.value.0, read.value.value.1, paid, |rest| - |read.value.rest|);
    if added.Err? {
      TallyOverflow(get, start, seen, totals, rest, n, goal, h);
      return Err(added.error), h;
    }
    TallyOne(get, start, seen, totals, rest, n, goal, h);
    return Ok(Got(added.value, read.value.rest)), h;
  }

  /** The loop over the policies of one entry. */
  method TotalsLoop(ghost get: ByteString -> Get<Holding>, start: map<PolicyId, nat>, b: ByteString, n: U64,
                    ghost paid: nat)
      returns (r: Get<map<PolicyId, nat>>)
    requires ReadsHoldings(get) && Safe(start) && Within(start, paid)
    ensures r.Ok? <==> SafeHoldings(start, ReadMany(get, b, n))
    ensures r.Ok? ==>
              r.value == Got(AddHoldings(start, ReadMany(get, b, n).value.value), ReadMany(get, b, n).value.rest)
    ensures r.Ok? ==> |r.value.rest| <= |b| && Within(r.value.value, paid + |b| - |r.value.rest|)
    ensures r == Err(SupplyOverflow) ==> paid + |b| >= TWO_64
  {
    var rest, totals := b, start;
    ghost var goal := ReadMany(get, b, n);
    ghost var seen: seq<Holding> := [];
    TallyStarts(get, start, b, n);
    var left: nat := n;
    while left > 0
      invariant Tallying(get, start, seen, totals, rest, left, goal)
      invariant |rest| <= |b| && Within(totals, paid + |b| - |rest|)
    {
      var next, h := NextTotal(get, start, seen, totals, rest, left, goal, paid + |b| - |rest|);
      if next.Err? { return Err(next.error); }
      seen := seen + [h];
      totals, rest, left := next.value.value, next.value.rest, left - 1;
    }
    TallyEnds(get, start, seen, totals, rest, goal);
    return Ok(Got(totals, rest));
  }

  // ----- All entries -----

  /** The running totals after an entry, if it parses, its address has 32 bytes and they still fit. */
  ghost predicate SafeEntry(totals: map<PolicyId, nat>, p: Get<Entry>) {
    p.Ok? && |p.value.value.address| == 32 && Safe(AddHoldings(totals, p.value.value.holdings))
  }

  lemma {:induction false} LengthShrinks(b: ByteString, kind: nat)
    ensures GetLength(b, kind) != Err(SupplyOverflow)
    ensures GetLength(b, kind).Ok? ==> |GetLength(b, kind).value.rest| <= |b|
  {
    ReadsLeaveTails(b, kind);
  }

  method ExtensionTotals(totals: map<PolicyId, nat>, b: ByteString, ghost paid: nat)
      returns (r: Get<map<PolicyId, nat>>)
    requires Safe(totals) && Within(totals, paid)
    ensures r.Ok? <==> SafeHoldings(totals, GetExtension(b))
    ensures r.Ok? ==> r.value == Got(AddHoldings(totals, GetExtension(b).value.value), GetExtension(b).value.rest)
    ensures r.Ok? ==> |r.value.rest| <= |b| && Within(r.value.value, paid + |b| - |r.value.rest|)
    ensures r == Err(SupplyOverflow) ==> paid + |b| >= TWO_64
  {
    LengthShrinks(b, MAP);
    var count :- GetLength(b, MAP);
    var added :- TotalsLoop(GetHolding, totals, count.rest, count.value, paid);
    CredentialErrors(added.rest);
    CredentialShrinks(added.rest);
    var credential := GetCredential(added.rest);
    if credential.Err? { return Err(if credential.error == CredentialArity then Schema else credential.error); }
    WithinMore(added.value, paid + |count.rest| - |added.rest|, paid + |b| - |credential.value.rest|);
    return Ok(Got(added.value, credential.value.rest));
  }

  lemma {:induction false} BaseErrors(b: ByteString)
    ensures GetBase(b) != Err(SupplyOverflow)
  {
  }

  /** One turn of the loop of `ingest_token_policies`. */
  method EntryTotals(totals: map<PolicyId, nat>, b: ByteString, ghost paid: nat) returns (r: Get<map<PolicyId, nat>>)
    requires Safe(totals) && Within(totals, paid)
    ensures r.Ok? <==> SafeEntry(totals, GetEntry(b))
    ensures r.Ok? ==> r.value == Got(AddHoldings(totals, GetEntry(b).value.value.holdings), GetEntry(b).value.rest)
    ensures r.Ok? ==> |r.value.rest| <= |b| && Within(r.value.value, paid + |b| - |r.value.rest|)
    ensures r == Err(SupplyOverflow) ==> paid + |b| >= TWO_64
  {
    BaseErrors(b);
    var base :- GetBase(b);
    if |base.value.address| != 32 { return Err(BadCbor); }
    if !base.value.extended {
      WithinMore(totals, paid, paid + |b| - |base.rest|);
      return Ok(Got(totals, base.rest));
    }
    r := ExtensionTotals(totals, base.rest, paid);
    if r.Ok? { WithinMore(r.value.value, paid + |base.rest| - |r.value.rest|, paid + |b| - |r.value.rest|); }
  }

  ghost predicate SafeFile(entries: seq<Entry>) {
    Safe(Totals(entries)) && forall i :: 0 <= i < |entries| ==> |entries[i].address| == 32
  }

  ghost predicate SafeEntries(p: Get<seq<Entry>>) { p.Ok? && SafeFile(p.value.value) }

  lemma {:induction false} TotalsSnoc(entries: seq<Entry>, e: Entry)
    ensures Totals(entries + [e]) == AddHoldings(Totals(entries), e.holdings)
  {
    assert (entries + [e])[..|entries|] == entries;
  }

  lemma {:induction false} TotalsGrow(entries: seq<Entry>, more: seq<Entry>)
    ensures Above(Totals(entries), Totals(entries + more))
  {
    if more == [] {
      assert entries + more == entries;
    } else {
      var init, last := more[..|more| - 1], more[|more| - 1];
      TotalsGrow(entries, init);
      assert entries + more == (entries + init) + [last];
      TotalsSnoc(entries + init, last);
      AddGrows(Totals(entries + init), [], last.holdings);
      assert [] + last.holdings == last.holdings;
    }
  }

  /** The loop over entries has added those seen, with `n` left. */
  ghost predicate Counting(get: ByteString -> Get<Entry>, seen: seq<Entry>, totals: map<PolicyId, nat>,
                           rest: ByteString, n: nat, goal: Get<seq<Entry>>) {
    After(seen, ReadMany(get, rest, n)) == goal && totals == Totals(seen) && SafeFile(seen)
  }

  lemma {:induction false} CountOne(get: ByteString -> Get<Entry>, seen: seq<Entry>, totals: map<PolicyId, nat>,
                                    rest: ByteString, n: nat, goal: Get<seq<Entry>>)
    requires n > 0 && Counting(get, seen, totals, rest, n, goal) && SafeEntry(totals, get(rest))
    ensures var g := get(rest).value;
            Counting(get, seen + [g.value], AddHoldings(totals, g.value.holdings), g.rest, n - 1, goal)
  {
    var e := get(rest).value.value;
    NextItem(get, rest, n, seen);
    TotalsSnoc(seen, e);
    forall i | 0 <= i < |seen + [e]| ensures |(seen + [e])[i].address| == 32 {
      if i < |seen| { assert (seen + [e])[i] == seen[i]; }
    }
    assert SafeFile(seen + [e]);
  }

  lemma {:induction false} CountStops(get: ByteString -> Get<Entry>, seen: seq<Entry>, totals: map<PolicyId, nat>,
                                      rest: ByteString, n: nat, goal: Get<seq<Entry>>)
    requires n > 0 && Counting(get, seen, totals, rest, n, goal) && !SafeEntry(totals, get(rest))
    ensures !SafeEntries(goal)
  {
    NextItem(get, rest, n, seen);
    if goal.Ok? {
      var e, others := get(rest).value.value, ReadMany(get, get(rest).value.rest, n - 1).value.value;
      assert goal.value.value[|seen|] == e;
      TotalsSnoc(seen, e);
      TotalsGrow(seen + [e], others);
    }
  }

  lemma {:induction false} CountEnds(get: ByteString -> Get<Entry>, seen: seq<Entry>, totals: map<PolicyId, nat>,
                                     rest: ByteString, goal: Get<seq<Entry>>)
    requires Counting(get, seen, totals, rest, 0, goal)
    ensures SafeEntries(goal) && Got(totals, rest) == Got(Totals(goal.value.value), goal.value.rest)
  {
    NoMore(get, rest, seen);
  }

  method NextCount(ghost get: ByteString -> Get<Entry>, ghost seen: seq<Entry>, totals: map<PolicyId, nat>,
                   rest: ByteString, ghost n: nat, ghost goal: Get<seq<Entry>>,
                   ghost paid: nat)
      returns (r: Get<map<PolicyId, nat>>, ghost e: Entry)
    requires n > 0 && ReadsEntries(get) && Counting(get, seen, totals, rest, n, goal) && Within(totals, paid)
    ensures r.Err? ==> !SafeEntries(goal)
    ensures r.Ok? ==> Counting(get, seen + [e], r.value.value, r.value.rest, n - 1, goal)
    ensures r.Ok? ==> |r.value.rest| <= |rest| && Within(r.value.value, paid + |rest| - |r.value.rest|)
    ensures r == Err(SupplyOverflow) ==> paid + |rest| >= TWO_64
  {
    r := EntryTotals(totals, rest, paid);
    assert get(rest) == GetEntry(rest);
    e := if get(rest).Ok? then get(rest).value.value else Entry(Zeros(32), 0, [], 0, []);
    if r.Err? { CountStops(get, seen, totals, rest, n, goal); } else { CountOne(get, seen, totals, rest, n, goal); }
  }

  /** The loop of `ingest_token_policies`. */
  method CountLoop(ghost get: ByteString -> Get<Entry>, b: ByteString, n: U64) returns (r: Get<map<PolicyId, nat>>)
    requires ReadsEntries(get)
    ensures r.Ok? <==> SafeEntries(ReadMany(get, b, n))
    ensures r.Ok? ==> r.value == Got(Totals(ReadMany(get, b, n).value.value), ReadMany(get, b, n).value.rest)
    ensures r == Err(SupplyOverflow) ==> |b| >= TWO_64
  {
    var rest: ByteString, totals: map<PolicyId, nat> := b, map[];
    ghost var goal := ReadMany(get, b, n);
    ghost var seen: seq<Entry> := [];
    AtStart(goal);
    var left: nat := n;
    while left > 0
      invariant Counting(get, seen, totals, rest, left, goal)
      invariant |rest| <= |b| && Within(totals, |b| - |rest|)
    {
      var next, e := NextCount(get, seen, totals, rest, left, goal, |b| - |rest|);
      if next.Err? { return Err(next.error); }
      seen := seen + [e];
      totals, rest, left := next.value.value, next.value.rest, left - 1;
    }
    CountEnds(get, seen, totals, rest, goal);
    return Ok(Got(totals, rest));
  }

  // ----- The output list -----

  datatype TokenPolicy = TokenPolicy(policyId: PolicyId, firstIssuanceSlot: nat, totalSupply: nat)

  function PolicyFor(totals: map<PolicyId, nat>, p: PolicyId): TokenPolicy
    requires p in totals
  {
    TokenPolicy(p, 0, totals[p])
  }

  /** The list holds each total once, by ascending policy id, with the slot pinned to zero. */
  ghost predicate Lists(out: seq<TokenPolicy>, totals: map<PolicyId, nat>) {
    && (forall i, j :: 0 <= i < j < |out| ==> LexLess(out[i].policyId, out[j].policyId))
    && (forall i :: 0 <= i < |out| ==>
          && out[i].policyId in totals && out[i].firstIssuanceSlot == 0
          && out[i].totalSupply == totals[out[i].policyId])
    && (forall p :: p in totals ==> exists i :: 0 <= i < |out| && out[i].policyId == p)
  }

  /** The keys of the map, in no order. */
  method KeysOf(totals: map<PolicyId, nat>) returns (keys: seq<ByteString>)
    ensures Distinct(keys) && forall k :: k in keys <==> |k| == POLICY_LEN && k in totals
  {
    var left := totals.Keys;
    keys := [];
    while left != {}
      invariant left <= totals.Keys && Distinct(keys)
      invariant forall k :: k in keys <==> |k| == POLICY_LEN && k in totals && k !in left
      decreases |left|
    {
      var k: PolicyId :| k in left;
      left := left - {k};
      keys := keys + [k];
    }
  }

  lemma {:induction false} SortedKeys(keys: seq<ByteString>, sorted: seq<ByteString>)
    requires Distinct(keys) && sorted == Sort(LexLe, keys)
    ensures forall i, j :: 0 <= i < j < |sorted| ==> LexLess(sorted[i], sorted[j])
    ensures forall k :: k in sorted <==> k in keys
  {
    LexTotalOrder();
    SortSorted(LexLe, keys);
    DistinctPermutation(sorted, keys);
    assert forall k :: k in sorted <==> k in multiset(sorted);
    assert forall k :: k in keys <==> k in multiset(keys);
  }

  /** `totals.into_iter()` over an ordered map, one policy each. */
  method ListPolicies(totals: map<PolicyId, nat>) returns (out: seq<TokenPolicy>)
    ensures Lists(out, totals)
  {
    var keys := KeysOf(totals);
    var sorted := Sort(LexLe, keys);
    SortedKeys(keys, sorted);
    out := [];
    for i := 0 to |sorted|
      invariant |out| == i
      invariant forall k :: 0 <= k < i ==>
                  && out[k].policyId == sorted[k] && out[k].policyId in totals
                  && out[k] == PolicyFor(totals, out[k].policyId)
    {
      assert sorted[i] in sorted;
      var key: PolicyId := sorted[i];
      out := out + [PolicyFor(totals, key)];
    }
    forall p | p in totals
      ensures exists i :: 0 <= i < |out| && out[i].policyId == p
    {
      assert p in sorted;
      var i :| 0 <= i < |sorted| && sorted[i] == p;
      assert out[i].policyId == p;
    }
  }

  ghost predicate Accepted(p: Result<seq<Entry>, IngestError>) { p.Ok? && SafeFile(p.value) }

  /** `ingest_token_policies`.  Whether or not the file is well formed, the overflow
      branches are out of reach below 2^64 bytes. */
  method IngestTokenPolicies(b: ByteString) returns (r: Result<seq<TokenPolicy>, IngestError>)
    ensures r.Ok? <==> Accepted(GetFile(b))
    ensures r.Ok? ==> Lists(r.value, Totals(GetFile(b).value))
    ensures r == Err(SupplyOverflow) ==> |b| >= TWO_64
  {
    LengthShrinks(b, ARRAY);
    var count :- GetLength(b, ARRAY);
    var totals :- CountLoop(GetEntry, count.rest, count.value);
    if totals.rest != [] { return Err(Trailing); }
    var policies := ListPolicies(totals.value);
    return Ok(policies);
  }

  // ----- Agreement -----

  /** On every file that both parsers accept, each policy's total is the quantity the
      UTXOs hold under it, over all of them. */
  lemma {:induction false} ParsersAgree(b: ByteString, policy: PolicyId)
    requires GoodFile(GetFile(b)) && Accepted(GetFile(b))
    ensures Total(Totals(GetFile(b).value), policy) == Supply(policy, UtxosOf(GetFile(b).value))
  {
    EntriesAgree(GetFile(b).value, policy);
  }

  /** Below 2^64 bytes of input no total can overflow: only addresses decide. */
  lemma {:induction false} OverflowUnreachable(b: ByteString)
    requires |b| < TWO_64 && GetFile(b).Ok?
    ensures Safe(Totals(GetFile(b).value))
    ensures Accepted(GetFile(b)) <==> forall i :: 0 <= i < |GetFile(b).value| ==> |GetFile(b).value[i].address| == 32
  {
    var entries := GetFile(b).value;
    FilePays(b);
    forall p | p in Totals(entries)
      ensures Totals(entries)[p] < U128_LIMIT
    {
      TotalsBound(entries, p);
      BelowLimit(FileSize(entries));
    }
  }

  lemma {:induction false} BelowLimit(n: nat)
    requires n < TWO_64
    ensures n * (TWO_64 - 1) < U128_LIMIT
  {
  }
}
