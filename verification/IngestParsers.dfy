/** The UTXO parser as loops over a cursor. */
module IngestParsers {
  import opened Bytes
  import opened Sorting
  import opened Cbor
  import opened UtxoLeaf
  import opened Ingest

  // ----- Ascending keys -----

  lemma {:induction false} AscendingSnoc(keys: seq<ByteString>, key: ByteString)
    requires Ascending(keys)
    ensures Ascending(keys + [key]) <==> keys == [] || LexLess(keys[|keys| - 1], key)
  {
    var all := keys + [key];
    if keys != [] {
      assert all[|keys| - 1] == keys[|keys| - 1] && all[|keys|] == key;
    }
  }

  lemma {:induction false} NamesConcat(a: seq<NameQty>, b: seq<NameQty>)
    ensures Names(a + b) == Names(a) + Names(b)
  {
  }

  lemma {:induction false} PoliciesConcat(a: seq<Holding>, b: seq<Holding>)
    ensures Policies(a + b) == Policies(a) + Policies(b)
  {
  }

  // ----- Multi-assets -----

  /** One more name, after the last one. */
  lemma {:induction false} NameInOrder(policy: PolicyId, seen: seq<NameQty>, item: NameQty)
    requires Ascending(Names(seen)) && (seen != [] ==> !LexLe(item.name, seen[|seen| - 1].name))
    ensures Ascending(Names(seen + [item]))
    ensures Under(policy, seen + [item]) == Under(policy, seen) + [Asset(policy + item.name, item.quantity)]
  {
    NamesConcat(seen, [item]);
    AscendingSnoc(Names(seen), item.name);
    if seen != [] { LexTotal(seen[|seen| - 1].name, item.name); }
    assert (seen + [item])[..|seen|] == seen;
  }

  ghost predicate CanonicalNames(p: Get<seq<NameQty>>) { p.Ok? && Ascending(Names(p.value.value)) }

  predicate NamesFit(seen: seq<NameQty>) { Ascending(Names(seen)) }

  /** A name is there to be read, and it is not greater than the one before. */
  predicate NameStop(seen: seq<NameQty>, b: ByteString) {
    seen != [] && GetBytes(b).Ok? && LexLe(GetBytes(b).value.value, seen[|seen| - 1].name)
  }

  ghost predicate ReadsNames(get: ByteString -> Get<NameQty>) {
    forall b: ByteString {:trigger GetName(b)} :: get(b) == GetName(b)
  }

  /** The loop over names has listed those seen, with `n` left. */
  ghost predicate Listing(get: ByteString -> Get<NameQty>, policy: PolicyId, seen: seq<NameQty>, assets: seq<Asset>,
                          last: Option<ByteString>, rest: ByteString, n: nat, goal: Get<seq<NameQty>>) {
    && After(seen, ReadMany(get, rest, n)) == goal
    && assets == Under(policy, seen) && NamesFit(seen)
    && last == if seen == [] then None else Some(seen[|seen| - 1].name)
  }

  lemma {:induction false} ListStart(get: ByteString -> Get<NameQty>, policy: PolicyId, b: ByteString, n: nat)
    ensures Listing(get, policy, [], [], None, b, n, ReadMany(get, b, n))
  {
    AtStart(ReadMany(get, b, n));
  }

  lemma {:induction false} ListOne(get: ByteString -> Get<NameQty>, policy: PolicyId, seen: seq<NameQty>,
                                   assets: seq<Asset>, last: Option<ByteString>, rest: ByteString, n: nat,
                                   goal: Get<seq<NameQty>>, item: NameQty)
    requires n > 0 && Listing(get, policy, seen, assets, last, rest, n, goal)
    requires get(rest).Ok? && get(rest).value.value == item && (last.Some? ==> !LexLe(item.name, last.value))
    ensures Listing(get, policy, seen + [item], assets + [Asset(policy + item.name, item.quantity)], Some(item.name),
                    get(rest).value.rest, n - 1, goal)
  {
    NextItem(get, rest, n, seen);
    NameInOrder(policy, seen, item);
  }

  lemma {:induction false} ListEnd(get: ByteString -> Get<NameQty>, policy: PolicyId, seen: seq<NameQty>,
                                   assets: seq<Asset>, last: Option<ByteString>, rest: ByteString,
                                   goal: Get<seq<NameQty>>)
    requires Listing(get, policy, seen, assets, last, rest, 0, goal)
    ensures CanonicalNames(goal) && Got(assets, rest) == Got(Under(policy, goal.value.value), goal.value.rest)
  {
    NoMore(get, rest, seen);
  }

  /** One name and its quantity. */
  method NextName(ghost get: ByteString -> Get<NameQty>, ghost policy: PolicyId, ghost seen: seq<NameQty>,
                  ghost assets: seq<Asset>, last: Option<ByteString>, rest: ByteString, ghost n: nat,
                  ghost goal: Get<seq<NameQty>>)
      returns (r: Get<NameQty>)
    requires n > 0 && ReadsNames(get) && Listing(get, policy, seen, assets, last, rest, n, goal)
    ensures r == Err(NonCanonicalAssetMap) <==> NameStop(seen, rest)
    ensures r.Err? ==> !CanonicalNames(goal)
    ensures r.Err? ==> r.error == NonCanonicalAssetMap || (r.error == BadCbor && get(rest).Err? && goal.Err?)
    ensures r.Ok? ==> get(rest) == r && (last.Some? ==> !LexLe(r.value.value.name, last.value))
  {
    NextItem(get, rest, n, seen);
    assert get(rest) == GetName(rest);
    var name := GetBytes(rest);
    if name.Err? { return Err(name.error); }
    if last.Some? && LexLe(name.value.value, last.value) {
      OutOfOrder(get, seen, name.value.value, rest, n, goal);
      return Err(NonCanonicalAssetMap);
    }
    var quantity := GetU64(name.value.rest);
    if quantity.Err? { return Err(quantity.error); }
    return Ok(Got(NameQty(name.value.value, quantity.value.value), quantity.value.rest));
  }

  ghost predicate NameClashes(get: ByteString -> Get<NameQty>, seen: seq<NameQty>, b: ByteString, n: nat) {
    Stops(get, NamesFit, NameStop, seen, b, n)
  }

  /** The inner loop of `parse_multi_assets`. */
  method ParseNames(ghost get: ByteString -> Get<NameQty>, policy: PolicyId, b: ByteString, n: U64)
      returns (r: Get<seq<Asset>>)
    requires ReadsNames(get)
    ensures r.Ok? <==> CanonicalNames(ReadMany(get, b, n))
    ensures r.Ok? ==>
              r.value == Got(Under(policy, ReadMany(get, b, n).value.value), ReadMany(get, b, n).value.rest)
    ensures r == Err(NonCanonicalAssetMap) <==> NameClashes(get, [], b, n)
    ensures r.Err? ==> r.error == NonCanonicalAssetMap || (r.error == BadCbor && ReadMany(get, b, n).Err?)
  {
    var rest, assets := b, [];
    var lastName: Option<ByteString> := None;
    ghost var goal := ReadMany(get, b, n);
    ghost var seen: seq<NameQty> := [];
    ListStart(get, policy, b, n);
    var left: nat := n;
    while left > 0
      invariant Listing(get, policy, seen, assets, lastName, rest, left, goal)
      invariant NameClashes(get, [], b, n) <==> NameClashes(get, seen, rest, left)
    {
      StopsNext(get, NamesFit, NameStop, seen, rest, left);
      var next := NextName(get, policy, seen, assets, lastName, rest, left, goal);
      if next.Err? { return Err(next.error); }
      var item := next.value.value;
      ListOne(get, policy, seen, assets, lastName, rest, left, goal, item);
      seen := seen + [item];
      assets := assets + [Asset(policy + item.name, item.quantity)];
      lastName, rest, left := Some(item.name), next.value.rest, left - 1;
    }
    ListEnd(get, policy, seen, assets, lastName, rest, goal);
    return Ok(Got(assets, rest));
  }

  /** A name out of order leaves no canonical way to go on. */
  lemma {:induction false} OutOfOrder(get: ByteString -> Get<NameQty>, seen: seq<NameQty>, name: ByteString,
                                      rest: ByteString, n: nat, goal: Get<seq<NameQty>>)
    requires n > 0 && get(rest) == GetName(rest) && After(seen, ReadMany(get, rest, n)) == goal
    requires GetBytes(rest).Ok? && GetBytes(rest).value.value == name
    requires seen != [] && LexLe(name, seen[|seen| - 1].name)
    ensures !CanonicalNames(goal)
  {
    if goal.Ok? {
      var others := ReadMany(get, rest, n).value.value;
      var all := Names(seen + others);
      var k := |seen|;
      assert all[k] == name && all[k - 1] == seen[k - 1].name;
      if LexLess(all[k - 1], all[k]) { LexAntisymmetric(all[k - 1], all[k]); }
    }
  }

  /** A parse whose every item is good. */
  ghost predicate AllGood<T>(good: T -> bool, p: Get<seq<T>>) {
    p.Ok? && forall i :: 0 <= i < |p.value.value| ==> good(p.value.value[i])
  }

  lemma {:induction false} BadItem<T>(get: ByteString -> Get<T>, good: T -> bool, seen: seq<T>, rest: ByteString,
                                      n: nat, goal: Get<seq<T>>)
    requires n > 0 && After(seen, ReadMany(get, rest, n)) == goal
    requires get(rest).Ok? && !good(get(rest).value.value)
    ensures !AllGood(good, goal)
  {
    NextItem(get, rest, n, seen);
    if goal.Ok? {
      assert goal.value.value[|seen|] == get(rest).value.value;
    }
  }

  ghost predicate CanonicalHoldings(p: Get<seq<Holding>>) { p.Ok? && Canonical(p.value.value) }

  lemma {:induction false} PolicyOutOfOrder(get: ByteString -> Get<Holding>, seen: seq<Holding>, policy: PolicyId,
                                            rest: ByteString, n: nat, goal: Get<seq<Holding>>)
    requires n > 0 && get(rest) == GetHolding(rest) && After(seen, ReadMany(get, rest, n)) == goal
    requires GetFixed(rest, POLICY_LEN).Ok? && GetFixed(rest, POLICY_LEN).value.value == policy
    requires seen != [] && LexLe(policy, seen[|seen| - 1].policy)
    ensures !CanonicalHoldings(goal)
  {
    if goal.Ok? {
      var others := ReadMany(get, rest, n).value.value;
      var all := Policies(seen + others);
      var k := |seen|;
      assert all[k] == policy && all[k - 1] == seen[k - 1].policy;
      if LexLess(all[k - 1], all[k]) { LexAntisymmetric(all[k - 1], all[k]); }
    }
  }

  predicate NamesAscend(h: Holding) { Ascending(Names(h.assets)) }

  lemma {:induction false} HoldingInOrder(seen: seq<Holding>, h: Holding)
    requires Canonical(seen) && (seen != [] ==> !LexLe(h.policy, seen[|seen| - 1].policy)) && Ascending(Names(h.assets))
    ensures Canonical(seen + [h])
    ensures AssetsOf(seen + [h]) == AssetsOf(seen) + Under(h.policy, h.assets)
  {
    PoliciesConcat(seen, [h]);
    AscendingSnoc(Policies(seen), h.policy);
    if seen != [] { LexTotal(seen[|seen| - 1].policy, h.policy); }
    assert (seen + [h])[..|seen|] == seen;
  }

  lemma {:induction false} CanonicalAscends(p: Get<seq<Holding>>)
    ensures CanonicalHoldings(p) ==> AllGood(NamesAscend, p)
  {
  }

  lemma {:induction false} BadNames(get: ByteString -> Get<Holding>, seen: seq<Holding>, rest: ByteString, n: nat,
                                    goal: Get<seq<Holding>>, policy: Got<ByteString>, count: Got<U64>)
    requires n > 0 && get(rest) == GetHolding(rest) && After(seen, ReadMany(get, rest, n)) == goal
    requires GetFixed(rest, POLICY_LEN) == Ok(policy) && GetLength(policy.rest, MAP) == Ok(count)
    requires !CanonicalNames(ReadMany(GetName, count.rest, count.value))
    ensures !CanonicalHoldings(goal)
  {
    NextItem(get, rest, n, seen);
    if GetHolding(rest).Ok? {
      BadItem(get, NamesAscend, seen, rest, n, goal);
      CanonicalAscends(goal);
    }
  }

  /** `get` is the holding reader.  The loops are stated over `get`, to keep its definition out of them. */
  ghost predicate ReadsHoldings(get: ByteString -> Get<Holding>) {
    forall b: ByteString {:trigger GetHolding(b)} :: get(b) == GetHolding(b)
  }

  /** The loop over policies has flattened the holdings seen, with `n` left. */
  ghost predicate Flattening(get: ByteString -> Get<Holding>, seen: seq<Holding>, assets: seq<Asset>,
                             last: Option<PolicyId>, rest: ByteString, n: nat, goal: Get<seq<Holding>>) {
    && After(seen, ReadMany(get, rest, n)) == goal
    && assets == AssetsOf(seen) && Canonical(seen)
    && last == if seen == [] then None else Some(seen[|seen| - 1].policy)
  }

  lemma {:induction false} FlattenOne(get: ByteString -> Get<Holding>, seen: seq<Holding>, assets: seq<Asset>,
                                      last: Option<PolicyId>, rest: ByteString, n: nat, goal: Get<seq<Holding>>,
                                      h: Holding)
    requires n > 0 && Flattening(get, seen, assets, last, rest, n, goal)
    requires get(rest).Ok? && get(rest).value.value == h && Ascending(Names(h.assets))
    requires last.Some? ==> !LexLe(h.policy, last.value)
    ensures Flattening(get, seen + [h], assets + Under(h.policy, h.assets), Some(h.policy),
                       get(rest).value.rest, n - 1, goal)
  {
    NextItem(get, rest, n, seen);
    HoldingInOrder(seen, h);
  }

  lemma {:induction false} FlattenStart(get: ByteString -> Get<Holding>, b: ByteString, n: nat)
    ensures Flattening(get, [], [], None, b, n, ReadMany(get, b, n))
  {
    AtStart(ReadMany(get, b, n));
  }

  lemma {:induction false} FlattenEnd(get: ByteString -> Get<Holding>, seen: seq<Holding>, assets: seq<Asset>,
                                      last: Option<PolicyId>, rest: ByteString, goal: Get<seq<Holding>>)
    requires Flattening(get, seen, assets, last, rest, 0, goal)
    ensures CanonicalHoldings(goal) && Got(assets, rest) == Got(AssetsOf(goal.value.value), goal.value.rest)
  {
    NoMore(get, rest, seen);
  }

  /** A policy is there to be read, and it is not greater than the one before or its names clash. */
  ghost predicate HoldingStop(seen: seq<Holding>, b: ByteString) {
    var policy := GetFixed(b, POLICY_LEN);
    policy.Ok? &&
    if seen != [] && LexLe(policy.value.value, seen[|seen| - 1].policy) then true
    else
      var count := GetLength(policy.value.rest, MAP);
      count.Ok? && NameClashes(GetName, [], count.value.rest, count.value.value)
  }

  ghost predicate Clashes(get: ByteString -> Get<Holding>, seen: seq<Holding>, b: ByteString, n: nat) {
    Stops(get, Canonical, HoldingStop, seen, b, n)
  }

  /** One policy and its names. */
  method NextHolding(ghost get: ByteString -> Get<Holding>, ghost seen: seq<Holding>, assets: seq<Asset>,
                     last: Option<PolicyId>, rest: ByteString, ghost n: nat, ghost goal: Get<seq<Holding>>)
      returns (r: Get<(PolicyId, seq<Asset>)>, ghost h: Holding)
    requires n > 0 && ReadsHoldings(get) && Flattening(get, seen, assets, last, rest, n, goal)
    ensures r.Err? ==> !CanonicalHoldings(goal)
    ensures r == Err(NonCanonicalAssetMap) <==> HoldingStop(seen, rest)
    ensures r.Err? ==> r.error == NonCanonicalAssetMap || (r.error == BadCbor && get(rest).Err?)
    ensures r.Ok? ==> get(rest).Ok? && get(rest).value == Got(h, r.value.rest)
    ensures r.Ok? ==>
              Flattening(get, seen + [h], assets + r.value.value.1, Some(r.value.value.0), r.value.rest, n - 1, goal)
  {
    h := Holding(Zeros(POLICY_LEN), []);
    NextItem(get, rest, n, seen);
    assert get(rest) == GetHolding(rest);
    var policy := GetFixed(rest, POLICY_LEN);
    if policy.Err? { return Err(policy.error), h; }
    if last.Some? && LexLe(policy.value.value, last.value) {
      PolicyOutOfOrder(get, seen, policy.value.value, rest, n, goal);
      return Err(NonCanonicalAssetMap), h;
    }
    var count := GetLength(policy.value.rest, MAP);
    if count.Err? { return Err(count.error), h; }
    var names := ParseNames(GetName, policy.value.value, count.value.rest, count.value.value);
    if names.Err? {
      BadNames(get, seen, rest, n, goal, policy.value, count.value);
      return Err(names.error), h;
    }
    h := Holding(policy.value.value, ReadMany(GetName, count.value.rest, count.value.value).value.value);
    FlattenOne(get, seen, assets, last, rest, n, goal, h);
    return Ok(Got((policy.value.value, names.value.value), names.value.rest)), h;
  }

  /** The loop of `parse_multi_assets` over policies. */
  method HoldingsLoop(ghost get: ByteString -> Get<Holding>, b: ByteString, n: U64) returns (r: Get<seq<Asset>>)
    requires ReadsHoldings(get)
    ensures r.Ok? <==> CanonicalHoldings(ReadMany(get, b, n))
    ensures r.Ok? ==> r.value == Got(AssetsOf(ReadMany(get, b, n).value.value), ReadMany(get, b, n).value.rest)
    ensures r == Err(NonCanonicalAssetMap) <==> Clashes(get, [], b, n)
    ensures r.Err? ==> r.error == NonCanonicalAssetMap || r.error == BadCbor
  {
    var rest, assets := b, [];
    var lastPolicy: Option<PolicyId> := None;
    ghost var goal := ReadMany(get, b, n);
    ghost var seen: seq<Holding> := [];
    FlattenStart(get, b, n);
    var left: nat := n;
    while left > 0
      invariant Flattening(get, seen, assets, lastPolicy, rest, left, goal)
      invariant Clashes(get, [], b, n) <==> Clashes(get, seen, rest, left)
    {
      StopsNext(get, Canonical, HoldingStop, seen, rest, left);
      var next, h := NextHolding(get, seen, assets, lastPolicy, rest, left, goal);
      if next.Err? { return Err(next.error); }
      seen := seen + [h];
      assets := assets + next.value.value.1;
      lastPolicy, rest, left := Some(next.value.value.0), next.value.rest, left - 1;
    }
    FlattenEnd(get, seen, assets, lastPolicy, rest, goal);
    return Ok(Got(assets, rest));
  }

  /** The map is canonical up to a key, of it or of a map in it, that can be read and is out of order. */
  ghost predicate HoldingsClash(b: ByteString) {
    GetLength(b, MAP).Ok? && Clashes(GetHolding, [], GetLength(b, MAP).value.rest, GetLength(b, MAP).value.value)
  }

  /** `parse_multi_assets` */
  method ParseMultiAssets(b: ByteString) returns (r: Get<seq<Asset>>)
    ensures r.Ok? <==> CanonicalHoldings(GetHoldings(b))
    ensures r.Ok? ==> r.value == Got(AssetsOf(GetHoldings(b).value.value), GetHoldings(b).value.rest)
    ensures r == Err(NonCanonicalAssetMap) <==> HoldingsClash(b)
    ensures r.Err? ==> r.error == NonCanonicalAssetMap || r.error == BadCbor
  {
    var count := GetLength(b, MAP);
    if count.Err? { return Err(count.error); }
    r := HoldingsLoop(GetHolding, count.value.rest, count.value.value);
  }

  // ----- UTXOs -----

  predicate GoodEntry(e: Entry) { e.index < TWO_32 && Canonical(e.holdings) }

  ghost predicate GoodParse(p: Get<Entry>) { p.Ok? && GoodEntry(p.value.value) }

  /** A script credential that is an array of another length than three. */
  predicate OddCredential(b: ByteString) {
    && b != [] && b[0] != NULL
    && GetLength(b, ARRAY).Ok? && GetLength(b, ARRAY).value.value != 3
  }

  lemma {:induction false} CredentialErrors(b: ByteString)
    ensures GetCredential(b).Err? ==> GetCredential(b).error == if OddCredential(b) then CredentialArity else BadCbor
    ensures GetCredential(b).Ok? ==> !OddCredential(b)
  {
  }

  /** Which check an extension fails, other than being malformed. */
  ghost predicate ExtensionFails(b: ByteString, e: IngestError) {
    match e
    case NonCanonicalAssetMap => HoldingsClash(b)
    case CredentialArity => CanonicalHoldings(GetHoldings(b)) && OddCredential(GetHoldings(b).value.rest)
    case _ => false
  }

  /** The assets of an extended entry. */
  method ParseExtension(b: ByteString) returns (r: Get<seq<Asset>>)
    ensures r.Ok? <==> CanonicalHoldings(GetExtension(b))
    ensures r.Ok? ==> r.value == Got(AssetsOf(GetExtension(b).value.value), GetExtension(b).value.rest)
    ensures forall e :: e != BadCbor ==> (r == Err(e) <==> ExtensionFails(b, e))
  {
    var parsed :- ParseMultiAssets(b);
    CredentialErrors(parsed.rest);
    var credential :- GetCredential(parsed.rest);
    return Ok(Got(parsed.value, credential.rest));
  }

  /** An entry whose array has neither four nor six elements, or whose output index does not fit 32 bits. */
  predicate OddEntry(b: ByteString) {
    var arity := GetLength(b, ARRAY);
    arity.Ok? &&
    if arity.value.value != 4 && arity.value.value != 6 then true
    else
      var txId := GetFixed(arity.value.rest, 32);
      txId.Ok? && GetU64(txId.value.rest).Ok? && GetU64(txId.value.rest).value.value >= TWO_32
  }

  /** Which check an entry fails, other than being malformed. */
  ghost predicate EntryFails(b: ByteString, e: IngestError) {
    if e == Schema then OddEntry(b)
    else !OddEntry(b) && GetBase(b).Ok? && GetBase(b).value.value.extended && ExtensionFails(GetBase(b).value.rest, e)
  }

  /** The fields every entry has, with the index checked as soon as it is read. */
  method ParseBase(b: ByteString) returns (r: Get<Base>)
    ensures r.Ok? ==> r == GetBase(b) && r.value.value.index < TWO_32 && !OddEntry(b)
    ensures r.Err? ==> GetBase(b).Err? || GetBase(b).value.value.index >= TWO_32
    ensures r.Err? ==> r.error == if OddEntry(b) then Schema else BadCbor
    ensures r.Err? && r.error == BadCbor ==> GetBase(b).Err?
  {
    var arity :- GetLength(b, ARRAY);
    if arity.value != 4 && arity.value != 6 { return Err(Schema); }
    var txId :- GetFixed(arity.rest, 32);
    var index :- GetU64(txId.rest);
    if index.value >= TWO_32 { return Err(Schema); }
    var address :- GetBytes(index.rest);
    var value :- GetU64(address.rest);
    return Ok(Got(Base(arity.value == 6, txId.value, index.value, address.value, value.value), value.rest));
  }

  /** One turn of the loop of `ingest_utxos`. */
  method ParseEntry(b: ByteString) returns (r: Get<Utxo>)
    ensures r.Ok? <==> GoodParse(GetEntry(b))
    ensures r.Ok? ==> r.value == Got(UtxoOf(GetEntry(b).value.value), GetEntry(b).value.rest)
    ensures forall e :: e != BadCbor ==> (r == Err(e) <==> EntryFails(b, e))
  {
    var base :- ParseBase(b);
    var assets, rest := [], base.rest;
    if base.value.extended {
      var parsed :- ParseExtension(base.rest);
      assets, rest := parsed.value, parsed.rest;
    }
    return Ok(Got(Utxo(base.value.txId, base.value.index, base.value.address, base.value.value, assets, NoDatum, None),
                  rest));
  }

  ghost predicate GoodFile(p: Result<seq<Entry>, IngestError>) {
    p.Ok? && forall i :: 0 <= i < |p.value| ==> GoodEntry(p.value[i])
  }

  lemma {:induction false} UtxosSnoc(entries: seq<Entry>, e: Entry)
    requires e.index < TWO_32 && forall i :: 0 <= i < |entries| ==> entries[i].index < TWO_32
    ensures UtxosOf(entries + [e]) == UtxosOf(entries) + [UtxoOf(e)]
  {
    assert (entries + [e])[..|entries|] == entries;
  }

  ghost predicate ReadsEntries(get: ByteString -> Get<Entry>) {
    forall b: ByteString {:trigger GetEntry(b)} :: get(b) == GetEntry(b)
  }

  lemma {:induction false} BadEntry(get: ByteString -> Get<Entry>, seen: seq<Entry>, rest: ByteString, n: nat,
                                    goal: Get<seq<Entry>>)
    requires n > 0 && After(seen, ReadMany(get, rest, n)) == goal && !GoodParse(get(rest))
    ensures !AllGood(GoodEntry, goal)
  {
    NextItem(get, rest, n, seen);
    if get(rest).Ok? { BadItem(get, GoodEntry, seen, rest, n, goal); }
  }

  /** The loop has turned the entries seen into UTXOs, with `n` entries left. */
  ghost predicate Progress(get: ByteString -> Get<Entry>, seen: seq<Entry>, utxos: seq<Utxo>, rest: ByteString, n: nat,
                           goal: Get<seq<Entry>>) {
    && After(seen, ReadMany(get, rest, n)) == goal
    && (forall k :: 0 <= k < |seen| ==> GoodEntry(seen[k])) && utxos == UtxosOf(seen)
  }

  lemma {:induction false} Starting(get: ByteString -> Get<Entry>, b: ByteString, n: nat)
    ensures Progress(get, [], [], b, n, ReadMany(get, b, n))
  {
    AtStart(ReadMany(get, b, n));
  }

  lemma {:induction false} Advance(get: ByteString -> Get<Entry>, seen: seq<Entry>, utxos: seq<Utxo>, rest: ByteString,
                                   n: nat, goal: Get<seq<Entry>>, e: Entry)
    requires n > 0 && Progress(get, seen, utxos, rest, n, goal)
    requires get(rest).Ok? && get(rest).value.value == e && GoodEntry(e)
    ensures Progress(get, seen + [e], utxos + [UtxoOf(e)], get(rest).value.rest, n - 1, goal)
  {
    NextItem(get, rest, n, seen);
    UtxosSnoc(seen, e);
  }

  lemma {:induction false} Finished(get: ByteString -> Get<Entry>, seen: seq<Entry>, utxos: seq<Utxo>, rest: ByteString,
                                    goal: Get<seq<Entry>>)
    requires Progress(get, seen, utxos, rest, 0, goal)
    ensures AllGood(GoodEntry, goal) && Got(utxos, rest) == Got(UtxosOf(goal.value.value), goal.value.rest)
  {
    NoMore(get, rest, seen);
  }

  predicate AllEntriesGood(seen: seq<Entry>) { forall k :: 0 <= k < |seen| ==> GoodEntry(seen[k]) }

  /** Good entries, and then one that fails the check `e`. */
  ghost predicate Fails(get: ByteString -> Get<Entry>, e: IngestError, seen: seq<Entry>, b: ByteString, n: nat) {
    Stops(get, AllEntriesGood, (_: seq<Entry>, x: ByteString) => EntryFails(x, e), seen, b, n)
  }

  lemma {:induction false} BadStaysBad<T>(xs: seq<T>, ys: seq<T>, k: nat)
    requires k < |xs|
    ensures (xs + ys)[k] == xs[k]
  {
  }

  lemma {:induction false} BadNeverStops(get: ByteString -> Get<Entry>, stop: (seq<Entry>, ByteString) -> bool,
                                         seen: seq<Entry>, b: ByteString, n: nat)
    requires !AllEntriesGood(seen)
    ensures !Stops(get, AllEntriesGood, stop, seen, b, n)
  {
    var j :| 0 <= j < |seen| && !GoodEntry(seen[j]);
    forall k | 0 <= k < n
      ensures !StopsAt(get, AllEntriesGood, stop, seen, b, k)
    {
      if ReadMany(get, b, k).Ok? { BadStaysBad(seen, ReadMany(get, b, k).value.value, j); }
    }
  }

  /** At an entry that is not good the file fails with that entry's error, and past a good one it may fail later. */
  lemma {:induction false} FailsNext(get: ByteString -> Get<Entry>, e: IngestError, seen: seq<Entry>, b: ByteString,
                                     n: nat)
    requires n > 0 && AllEntriesGood(seen)
    ensures Fails(get, e, seen, b, n) <==>
              EntryFails(b, e)
              || (GoodParse(get(b)) && Fails(get, e, seen + [get(b).value.value], get(b).value.rest, n - 1))
  {
    var stop := (_: seq<Entry>, x: ByteString) => EntryFails(x, e);
    StopsNext(get, AllEntriesGood, stop, seen, b, n);
    if get(b).Ok? && !GoodEntry(get(b).value.value) {
      assert (seen + [get(b).value.value])[|seen|] == get(b).value.value;
      BadNeverStops(get, stop, seen + [get(b).value.value], get(b).value.rest, n - 1);
    }
  }

  method NextUtxo(ghost get: ByteString -> Get<Entry>, ghost seen: seq<Entry>, utxos: seq<Utxo>, rest: ByteString,
                  ghost n: nat, ghost goal: Get<seq<Entry>>)
      returns (r: Get<Utxo>, ghost e: Entry)
    requires n > 0 && ReadsEntries(get) && Progress(get, seen, utxos, rest, n, goal)
    ensures r.Err? ==> !AllGood(GoodEntry, goal)
    ensures r.Ok? ==> Progress(get, seen + [e], utxos + [r.value.value], r.value.rest, n - 1, goal)
    ensures forall err :: err != BadCbor ==>
              (Fails(get, err, seen, rest, n) <==>
               if r.Err? then r.error == err else Fails(get, err, seen + [e], r.value.rest, n - 1))
  {
    e := Entry(Zeros(32), 0, [], 0, []);
    r := ParseEntry(rest);
    assert get(rest) == GetEntry(rest);
    if r.Err? {
      BadEntry(get, seen, rest, n, goal);
    } else {
      e := get(rest).value.value;
      Advance(get, seen, utxos, rest, n, goal, e);
    }
    forall err | err != BadCbor
      ensures Fails(get, err, seen, rest, n) <==>
              if r.Err? then r.error == err else Fails(get, err, seen + [e], r.value.rest, n - 1)
    {
      FailsNext(get, err, seen, rest, n);
    }
  }

  /** The loop of `ingest_utxos`. */
  method EntriesLoop(ghost get: ByteString -> Get<Entry>, b: ByteString, n: U64) returns (r: Get<seq<Utxo>>)
    requires ReadsEntries(get)
    ensures r.Ok? <==> AllGood(GoodEntry, ReadMany(get, b, n))
    ensures r.Ok? ==> r.value == Got(UtxosOf(ReadMany(get, b, n).value.value), ReadMany(get, b, n).value.rest)
    ensures forall e :: e != BadCbor ==> (r == Err(e) <==> Fails(get, e, [], b, n))
  {
    var rest, utxos := b, [];
    ghost var goal := ReadMany(get, b, n);
    ghost var seen: seq<Entry> := [];
    Starting(get, b, n);
    var left: nat := n;
    while left > 0
      invariant Progress(get, seen, utxos, rest, left, goal)
      invariant forall e :: e != BadCbor ==> (Fails(get, e, [], b, n) <==> Fails(get, e, seen, rest, left))
    {
      var entry, e := NextUtxo(get, seen, utxos, rest, left, goal);
      if entry.Err? { return Err(entry.error); }
      seen := seen + [e];
      utxos := utxos + [entry.value.value];
      rest, left := entry.value.rest, left - 1;
    }
    Finished(get, seen, utxos, rest, goal);
    return Ok(Got(utxos, rest));
  }

  /** Which check a file fails, other than being malformed: that of the first entry that is
      not good, or the check for trailing bytes after entries that all are. */
  ghost predicate FileFails(b: ByteString, e: IngestError) {
    var count := GetLength(b, ARRAY);
    count.Ok? &&
    if e == Trailing then
      var entries := ReadMany(GetEntry, count.value.rest, count.value.value);
      AllGood(GoodEntry, entries) && entries.value.rest != []
    else
      Fails(GetEntry, e, [], count.value.rest, count.value.value)
  }

  // ----- Memory reserved -----

  /** `ingest_utxos` reserves the declared number of entries, and nothing else by length. */
  function FileReserves(b: ByteString): seq<Reservation> {
    match GetLength(b, ARRAY)
    case Ok(n) => [Reservation(n.value, |n.rest|)]
    case Err(_) => []
  }

  lemma {:induction false} EntryShrinks(b: ByteString)
    ensures GetEntry(b).Ok? ==> |GetEntry(b).value.rest| < |b|
  {
    if GetBase(b).Ok? { ExtensionPays(GetBase(b).value.rest); }
  }

  /** A file that is well formed declares at most as many entries as it has bytes. */
  lemma {:induction false} FileFits(b: ByteString)
    requires GetFile(b).Ok?
    ensures AllFit(FileReserves(b))
  {
    var n := GetLength(b, ARRAY).value;
    forall x: ByteString ensures GetEntry(x).Ok? ==> |GetEntry(x).value.rest| < |x| { EntryShrinks(x); }
    ManyShrink(GetEntry, n.rest, n.value);
  }

  /** A bare head reserves any 64-bit number of entries. */
  lemma {:induction false} AnyCountReserved(n: U64)
    ensures FileReserves(MakeHead(ARRAY, n)) == [Reservation(n, 0)]
  {
    ArrayRoundTrip(n, []);
    assert MakeHead(ARRAY, n) + [] == MakeHead(ARRAY, n);
  }

  /** `ingest_utxos` */
  method IngestUtxos(b: ByteString) returns (r: Result<seq<Utxo>, IngestError>, reserved: seq<Reservation>)
    ensures r.Ok? <==> GoodFile(GetFile(b))
    ensures r.Ok? ==> r.value == UtxosOf(GetFile(b).value)
    ensures forall e :: e != BadCbor ==> (r == Err(e) <==> FileFails(b, e))
    ensures reserved == FileReserves(b) && (r.Ok? ==> AllFit(reserved))
  {
    reserved := [];
    var count := GetLength(b, ARRAY);
    if count.Err? { return Err(count.error), reserved; }
    reserved := [Reservation(count.value.value, |count.value.rest|)];
    var utxos := EntriesLoop(GetEntry, count.value.rest, count.value.value);
    if utxos.Err? { return Err(utxos.error), reserved; }
    if utxos.value.rest != [] { return Err(Trailing), reserved; }
    FileFits(b);
    return Ok(utxos.value.value), reserved;
  }
}
