/** The grammar of the ledger-state fixture, and the two results drawn from it:
    UTXOs with their native assets, and total supply per token policy. */
module Ingest {
  import opened Bytes
  import opened Sorting
  import opened Cbor
  import opened UtxoLeaf

  /** The check that fails.  `Schema` is a variant of the code's error type; the others are
      messages under its catch-all variant. */
  datatype IngestError = BadCbor | Schema | CredentialArity | NonCanonicalAssetMap | SupplyOverflow | Trailing

  type Get<T> = Result<Got<T>, IngestError>

  const POLICY_LEN: nat := 28

  type PolicyId = p: ByteString | |p| == POLICY_LEN witness Zeros(POLICY_LEN)

  const U128_LIMIT: int := TWO_64 * TWO_64

  // ----- Reading single items -----

  function OrBad<T>(x: Option<Got<T>>): Get<T> {
    match x case Some(g) => Ok(g) case None => Err(BadCbor)
  }

  function GetU64(b: ByteString): Get<U64> { OrBad(ReadUnsigned(b)) }

  function GetBelow(b: ByteString, limit: nat): Get<nat> {
    var got :- GetU64(b);
    if got.value < limit then Ok(Got(got.value, got.rest)) else Err(BadCbor)
  }

  /** `read_array_len`, `read_map_len`: definite lengths only. */
  function GetLength(b: ByteString, kind: nat): Get<U64> {
    match ReadLength(b, kind)
    case Some(Got(Some(n), rest)) => Ok(Got(n, rest))
    case _ => Err(BadCbor)
  }

  function GetBytes(b: ByteString): Get<ByteString> { OrBad(ReadBytes(b)) }

  /** `read_28_bytes`, `read_32_bytes` */
  function GetFixed(b: ByteString, n: nat): (r: Get<ByteString>)
    ensures r.Ok? ==> |r.value.value| == n
  {
    var got :- GetBytes(b);
    if |got.value| == n then Ok(got) else Err(BadCbor)
  }

  /** A null, or a three-element script credential. */
  function GetCredential(b: ByteString): Get<()> {
    if b == [] then Err(BadCbor)
    else if b[0] == NULL then Ok(Got((), b[1..]))
    else
      var arity :- GetLength(b, ARRAY);
      if arity.value != 3 then Err(CredentialArity)
      else
        var hash :- GetFixed(arity.rest, POLICY_LEN);
        var language :- GetBelow(hash.rest, 256);
        var size :- GetBelow(language.rest, TWO_32);
        Ok(Got((), size.rest))
  }

  /** Three elements: 28 bytes, a number of one byte and one of four. */
  predicate IsCredential(b: ByteString) {
    && GetLength(b, ARRAY).Ok? && GetLength(b, ARRAY).value.value == 3
    && var hash := GetBytes(GetLength(b, ARRAY).value.rest);
       && hash.Ok? && |hash.value.value| == 28
       && var language := GetU64(hash.value.rest);
          && language.Ok? && language.value.value < 256
          && var size := GetU64(language.value.rest);
             size.Ok? && size.value.value < 0x1_0000_0000
  }

  lemma {:induction false} CredentialMeaning(b: ByteString)
    ensures GetCredential(b).Ok? <==> b != [] && (b[0] == 0xF6 || IsCredential(b))
  {
  }

  /** Arrays and maps of indefinite length are refused. */
  lemma {:induction false} IndefiniteRefused(b: ByteString, kind: nat)
    requires b != [] && b[0] % 32 == 31
    ensures GetLength(b, kind) == Err(BadCbor)
  {
    IndefiniteHead(b);
  }

  // ----- The grammar -----

  datatype NameQty = NameQty(name: ByteString, quantity: U64)

  datatype Holding = Holding(policy: PolicyId, assets: seq<NameQty>)

  datatype Entry = Entry(txId: Hash, index: U64, address: ByteString, value: U64, holdings: seq<Holding>)

  function GetName(b: ByteString): (r: Get<NameQty>)
    ensures r.Ok? ==> |r.value.rest| < |b|
  {
    var name :- GetBytes(b);
    var quantity :- GetU64(name.rest);
    Ok(Got(NameQty(name.value, quantity.value), quantity.rest))
  }

  function GetHolding(b: ByteString): Get<Holding> {
    var policy :- GetFixed(b, POLICY_LEN);
    var count :- GetLength(policy.rest, MAP);
    var assets :- ReadMany(GetName, count.rest, count.value);
    Ok(Got(Holding(policy.value, assets.value), assets.rest))
  }

  /** The multi-asset map of an extended entry. */
  function GetHoldings(b: ByteString): Get<seq<Holding>> {
    var count :- GetLength(b, MAP);
    ReadMany(GetHolding, count.rest, count.value)
  }

  /** The fields every entry has, and whether more follow. */
  datatype Base = Base(extended: bool, txId: Hash, index: U64, address: ByteString, value: U64)

  /** Four elements, or six with assets and a script credential. */
  function GetBase(b: ByteString): (r: Get<Base>)
    ensures r.Ok? ==> |r.value.rest| < |b|
  {
    var arity :- GetLength(b, ARRAY);
    if arity.value != 4 && arity.value != 6 then Err(Schema)
    else
      var txId :- GetFixed(arity.rest, 32);
      var index :- GetU64(txId.rest);
      var address :- GetBytes(index.rest);
      var value :- GetU64(address.rest);
      Ok(Got(Base(arity.value == 6, txId.value, index.value, address.value, value.value), value.rest))
  }

  /** The assets of an extended entry, its script credential skipped. */
  function GetExtension(b: ByteString): Get<seq<Holding>> {
    var holdings :- GetHoldings(b);
    var credential :- GetCredential(holdings.rest);
    Ok(Got(holdings.value, credential.rest))
  }

  function EntryOf(base: Base, holdings: seq<Holding>): Entry {
    Entry(base.txId, base.index, base.address, base.value, holdings)
  }

  function GetEntry(b: ByteString): Get<Entry> {
    var base :- GetBase(b);
    if !base.value.extended then Ok(Got(EntryOf(base.value, []), base.rest))
    else
      var holdings :- GetExtension(base.rest);
      Ok(Got(EntryOf(base.value, holdings.value), holdings.rest))
  }

  /** The whole file. */
  function GetFile(b: ByteString): Result<seq<Entry>, IngestError> {
    var count :- GetLength(b, ARRAY);
    var entries :- ReadMany(GetEntry, count.rest, count.value);
    if entries.rest == [] then Ok(entries.value) else Err(Trailing)
  }

  // ----- UTXOs -----

  predicate LexLess(a: ByteString, b: ByteString) { LexLe(a, b) && a != b }

  /** Keys strictly ascending, as in a canonical map. */
  predicate Ascending(keys: seq<ByteString>) {
    forall i :: 0 < i < |keys| ==> LexLess(keys[i - 1], keys[i])
  }

  function Names(assets: seq<NameQty>): (ks: seq<ByteString>)
    ensures |ks| == |assets| && forall i :: 0 <= i < |ks| ==> ks[i] == assets[i].name
  {
    if assets == [] then [] else [assets[0].name] + Names(assets[1..])
  }

  function Policies(hs: seq<Holding>): (ks: seq<ByteString>)
    ensures |ks| == |hs| && forall i :: 0 <= i < |ks| ==> ks[i] == hs[i].policy
  {
    if hs == [] then [] else [hs[0].policy] + Policies(hs[1..])
  }

  predicate Canonical(hs: seq<Holding>) {
    Ascending(Policies(hs)) && forall i :: 0 <= i < |hs| ==> Ascending(Names(hs[i].assets))
  }

  /** The assets under one policy, with ids made of policy and name. */
  function Under(policy: PolicyId, assets: seq<NameQty>): seq<Asset> {
    if assets == [] then []
    else
      var last := assets[|assets| - 1];
      Under(policy, assets[..|assets| - 1]) + [Asset(policy + last.name, last.quantity)]
  }

  function AssetsOf(hs: seq<Holding>): seq<Asset> {
    if hs == [] then [] else AssetsOf(hs[..|hs| - 1]) + Under(hs[|hs| - 1].policy, hs[|hs| - 1].assets)
  }

  function UtxoOf(e: Entry): Utxo
    requires e.index < TWO_32
  {
    Utxo(e.txId, e.index, e.address, e.value, AssetsOf(e.holdings), NoDatum, None)
  }

  // ----- Totals -----

  function Sum(assets: seq<NameQty>): nat {
    if assets == [] then 0 else Sum(assets[..|assets| - 1]) + assets[|assets| - 1].quantity
  }

  function Plus(totals: map<PolicyId, nat>, policy: PolicyId, n: nat): map<PolicyId, nat> {
    totals[policy := (if policy in totals then totals[policy] else 0) + n]
  }

  function AddHoldings(totals: map<PolicyId, nat>, hs: seq<Holding>): map<PolicyId, nat> {
    if hs == [] then totals
    else Plus(AddHoldings(totals, hs[..|hs| - 1]), hs[|hs| - 1].policy, Sum(hs[|hs| - 1].assets))
  }

  function Totals(entries: seq<Entry>): map<PolicyId, nat> {
    if entries == [] then map[] else AddHoldings(Totals(entries[..|entries| - 1]), entries[|entries| - 1].holdings)
  }

  // ----- Agreement -----

  /** The quantity of the assets whose id starts with the policy. */
  function HeldBy(policy: PolicyId, assets: seq<Asset>): nat {
    if assets == [] then 0
    else
      var last := assets[|assets| - 1];
      HeldBy(policy, assets[..|assets| - 1]) + if policy <= last.id then last.quantity else 0
  }

  function Supply(policy: PolicyId, utxos: seq<Utxo>): nat {
    if utxos == [] then 0 else Supply(policy, utxos[..|utxos| - 1]) + HeldBy(policy, utxos[|utxos| - 1].assets)
  }

  function Total(totals: map<PolicyId, nat>, policy: PolicyId): nat { if policy in totals then totals[policy] else 0 }

  lemma {:induction false} HeldByConcat(policy: PolicyId, a: seq<Asset>, b: seq<Asset>)
    ensures HeldBy(policy, a + b) == HeldBy(policy, a) + HeldBy(policy, b)
  {
    if b == [] {
      assert a + b == a;
    } else {
      HeldByConcat(policy, a, b[..|b| - 1]);
      assert (a + b)[..|a + b| - 1] == a + b[..|b| - 1];
    }
  }

  lemma {:induction false} HeldUnder(policy: PolicyId, owner: PolicyId, assets: seq<NameQty>)
    ensures HeldBy(policy, Under(owner, assets)) == if policy == owner then Sum(assets) else 0
  {
    if assets != [] {
      var n := |assets| - 1;
      HeldUnder(policy, owner, assets[..n]);
      var id := owner + assets[n].name;
      assert policy <= id <==> policy == owner by { assert id[..|policy|] == owner; }
      var before := Under(owner, assets[..n]);
      assert Under(owner, assets)[..|Under(owner, assets)| - 1] == before;
    }
  }

  lemma {:induction false} HoldingsAgree(totals: map<PolicyId, nat>, hs: seq<Holding>, policy: PolicyId)
    ensures Total(AddHoldings(totals, hs), policy) == Total(totals, policy) + HeldBy(policy, AssetsOf(hs))
  {
    if hs != [] {
      var n := |hs| - 1;
      HoldingsAgree(totals, hs[..n], policy);
      HeldByConcat(policy, AssetsOf(hs[..n]), Under(hs[n].policy, hs[n].assets));
      HeldUnder(policy, hs[n].policy, hs[n].assets);
    }
  }

  function UtxosOf(entries: seq<Entry>): (us: seq<Utxo>)
    requires forall i :: 0 <= i < |entries| ==> entries[i].index < TWO_32
    ensures |us| == |entries|
  {
    if entries == [] then [] else UtxosOf(entries[..|entries| - 1]) + [UtxoOf(entries[|entries| - 1])]
  }

  lemma {:induction false} SupplySnoc(policy: PolicyId, us: seq<Utxo>, u: Utxo)
    ensures Supply(policy, us + [u]) == Supply(policy, us) + HeldBy(policy, u.assets)
  {
    assert (us + [u])[..|us|] == us;
  }

  /** Each policy's total is the quantity held under it over all UTXOs. */
  lemma {:induction false} EntriesAgree(entries: seq<Entry>, policy: PolicyId)
    requires forall i :: 0 <= i < |entries| ==> entries[i].index < TWO_32
    ensures Total(Totals(entries), policy) == Supply(policy, UtxosOf(entries))
  {
    if entries != [] {
      var init, last := entries[..|entries| - 1], entries[|entries| - 1];
      EntriesAgree(init, policy);
      HoldingsAgree(Totals(init), last.holdings, policy);
      SupplySnoc(policy, UtxosOf(init), UtxoOf(last));
    }
  }

  // ----- Totals stay below the limit -----

  /** Reading `weigh(x)` worth of something consumes at least as many bytes. */
  ghost predicate Pays<T>(get: ByteString -> Get<T>, weigh: T -> nat, b: ByteString) {
    get(b).Ok? ==> weigh(get(b).value.value) + |get(b).value.rest| <= |b|
  }

  function Weight<T>(weigh: T -> nat, xs: seq<T>): nat {
    if xs == [] then 0 else weigh(xs[0]) + Weight(weigh, xs[1..])
  }

  lemma {:induction false} ManyPay<T>(get: ByteString -> Get<T>, weigh: T -> nat, b: ByteString, n: nat)
    requires forall x: ByteString :: Pays(get, weigh, x)
    ensures ReadMany(get, b, n).Ok? ==>
              Weight(weigh, ReadMany(get, b, n).value.value) + |ReadMany(get, b, n).value.rest| <= |b|
    decreases n
  {
    assert Pays(get, weigh, b);
    if n > 0 && get(b).Ok? {
      var first := get(b).value;
      ManyPay(get, weigh, first.rest, n - 1);
      if ReadMany(get, first.rest, n - 1).Ok? {
        var others := ReadMany(get, first.rest, n - 1).value.value;
        assert ([first.value] + others)[1..] == others;
      }
    }
  }

  function One(x: NameQty): nat { 1 }

  /** The number of asset entries, over all holdings and all entries. */
  function HoldingSize(h: Holding): nat { Weight(One, h.assets) }

  function EntrySize(e: Entry): nat { Weight(HoldingSize, e.holdings) }

  function FileSize(entries: seq<Entry>): nat { Weight(EntrySize, entries) }

  lemma {:induction false} HoldingPays(b: ByteString)
    ensures Pays(GetHolding, HoldingSize, b)
  {
    if GetHolding(b).Ok? {
      var policy := GetFixed(b, POLICY_LEN).value;
      var count := GetLength(policy.rest, MAP).value;
      forall x: ByteString ensures Pays(GetName, One, x) { }
      ManyPay(GetName, One, count.rest, count.value);
    }
  }

  lemma {:induction false} ExtensionPays(b: ByteString)
    ensures GetExtension(b).Ok? ==>
              Weight(HoldingSize, GetExtension(b).value.value) + |GetExtension(b).value.rest| <= |b|
  {
    if GetExtension(b).Ok? {
      var count := GetLength(b, MAP).value;
      forall x: ByteString ensures Pays(GetHolding, HoldingSize, x) { HoldingPays(x); }
      ManyPay(GetHolding, HoldingSize, count.rest, count.value);
      CredentialShrinks(GetHoldings(b).value.rest);
    }
  }

  lemma {:induction false} EntryPays(b: ByteString)
    ensures Pays(GetEntry, EntrySize, b)
  {
    if GetBase(b).Ok? { ExtensionPays(GetBase(b).value.rest); }
  }

  lemma {:induction false} CredentialShrinks(b: ByteString)
    ensures GetCredential(b).Ok? ==> |GetCredential(b).value.rest| <= |b|
  {
  }

  /** A file holds fewer asset entries than bytes. */
  lemma {:induction false} FilePays(b: ByteString)
    ensures GetFile(b).Ok? ==> FileSize(GetFile(b).value) <= |b|
  {
    if GetFile(b).Ok? {
      var count := GetLength(b, ARRAY).value;
      forall x: ByteString ensures Pays(GetEntry, EntrySize, x) { EntryPays(x); }
      ManyPay(GetEntry, EntrySize, count.rest, count.value);
    }
  }

  lemma {:induction false} WeightSnoc<T>(weigh: T -> nat, xs: seq<T>, x: T)
    ensures Weight(weigh, xs + [x]) == Weight(weigh, xs) + weigh(x)
  {
    if xs == [] {
      assert xs + [x] == [x] && [x][1..] == [];
    } else {
      WeightSnoc(weigh, xs[1..], x);
      assert (xs + [x])[1..] == xs[1..] + [x];
    }
  }

  lemma {:induction false} SumBound(assets: seq<NameQty>)
    ensures Sum(assets) <= Weight(One, assets) * (TWO_64 - 1)
  {
    if assets != [] {
      var init, last := assets[..|assets| - 1], assets[|assets| - 1];
      SumBound(init);
      assert assets == init + [last];
      WeightSnoc(One, init, last);
    }
  }

  lemma {:induction false} HoldingsBound(totals: map<PolicyId, nat>, hs: seq<Holding>, policy: PolicyId)
    ensures Total(AddHoldings(totals, hs), policy) <= Total(totals, policy) + Weight(HoldingSize, hs) * (TWO_64 - 1)
  {
    if hs != [] {
      var init, last := hs[..|hs| - 1], hs[|hs| - 1];
      HoldingsBound(totals, init, policy);
      assert hs == init + [last];
      WeightSnoc(HoldingSize, init, last);
      SumBound(last.assets);
    }
  }

  lemma {:induction false} TotalsBound(entries: seq<Entry>, policy: PolicyId)
    ensures Total(Totals(entries), policy) <= FileSize(entries) * (TWO_64 - 1)
  {
    if entries != [] {
      var init, last := entries[..|entries| - 1], entries[|entries| - 1];
      TotalsBound(init, policy);
      assert entries == init + [last];
      WeightSnoc(EntrySize, init, last);
      HoldingsBound(Totals(init), last.holdings, policy);
    }
  }

  // ----- Ascending assets -----

  ghost predicate StrictIds(assets: seq<Asset>) {
    forall i, j :: 0 <= i < j < |assets| ==> LexLess(assets[i].id, assets[j].id)
  }

  lemma {:induction false} LessTransitive(a: ByteString, b: ByteString, c: ByteString)
    requires LexLess(a, b) && LexLess(b, c)
    ensures LexLess(a, c)
  {
    LexTransitive(a, b, c);
    if a == c { LexAntisymmetric(a, b); }
  }

  lemma {:induction false} AscendingApart(keys: seq<ByteString>, i: nat, j: nat)
    requires Ascending(keys) && i < j < |keys|
    ensures LexLess(keys[i], keys[j])
  {
    if i < j - 1 {
      AscendingApart(keys, i, j - 1);
      LessTransitive(keys[i], keys[j - 1], keys[j]);
    }
  }

  lemma {:induction false} UnderAt(policy: PolicyId, assets: seq<NameQty>, i: nat)
    requires i < |assets|
    ensures |Under(policy, assets)| == |assets|
    ensures Under(policy, assets)[i] == Asset(policy + assets[i].name, assets[i].quantity)
  {
    if |assets| > 1 { UnderAt(policy, assets[..|assets| - 1], if i < |assets| - 1 then i else 0); }
  }

  lemma {:induction false} UnderStrict(policy: PolicyId, assets: seq<NameQty>)
    requires Ascending(Names(assets))
    ensures StrictIds(Under(policy, assets)) && |Under(policy, assets)| == |assets|
  {
    if assets != [] { UnderAt(policy, assets, 0); }
    forall i, j | 0 <= i < j < |assets|
      ensures LexLess(Under(policy, assets)[i].id, Under(policy, assets)[j].id)
    {
      UnderAt(policy, assets, i);
      UnderAt(policy, assets, j);
      AscendingApart(Names(assets), i, j);
      LexCommonPrefix(policy, assets[i].name, assets[j].name);
      if policy + assets[i].name == policy + assets[j].name {
        SplitEqual(policy, assets[i].name, policy, assets[j].name);
      }
    }
  }

  /** Every asset of the first `n` holdings belongs to one of their policies. */
  lemma {:induction false} OwnerOf(hs: seq<Holding>, i: nat) returns (k: nat)
    requires i < |AssetsOf(hs)|
    ensures k < |hs| && hs[k].policy <= AssetsOf(hs)[i].id
  {
    var init, last := hs[..|hs| - 1], hs[|hs| - 1];
    if i < |AssetsOf(init)| {
      k := OwnerOf(init, i);
    } else {
      k := |hs| - 1;
      UnderLen(last.policy, last.assets);
      UnderAt(last.policy, last.assets, i - |AssetsOf(init)|);
    }
  }

  lemma {:induction false} UnderLen(policy: PolicyId, assets: seq<NameQty>)
    ensures |Under(policy, assets)| == |assets|
  {
    if assets != [] { UnderLen(policy, assets[..|assets| - 1]); }
  }

  /** All assets of earlier holdings come before those of a later one. */
  lemma {:induction false} BeforeLast(hs: seq<Holding>, i: nat, j: nat)
    requires hs != [] && Canonical(hs)
    requires i < |AssetsOf(hs[..|hs| - 1])| && j < |Under(hs[|hs| - 1].policy, hs[|hs| - 1].assets)|
    ensures LexLess(AssetsOf(hs[..|hs| - 1])[i].id, Under(hs[|hs| - 1].policy, hs[|hs| - 1].assets)[j].id)
  {
    var n := |hs| - 1;
    var k := OwnerOf(hs[..n], i);
    AscendingApart(Policies(hs), k, n);
    UnderLen(hs[n].policy, hs[n].assets);
    UnderAt(hs[n].policy, hs[n].assets, j);
    Separated(hs[k].policy, hs[n].policy, AssetsOf(hs[..n])[i].id, Under(hs[n].policy, hs[n].assets)[j].id);
  }

  lemma {:induction false} CanonicalInit(hs: seq<Holding>)
    requires hs != [] && Canonical(hs)
    ensures Canonical(hs[..|hs| - 1]) && Ascending(Names(hs[|hs| - 1].assets))
  {
    var init := hs[..|hs| - 1];
    forall i | 0 < i < |init|
      ensures LexLess(Policies(init)[i - 1], Policies(init)[i])
    {
      assert LexLess(Policies(hs)[i - 1], Policies(hs)[i]);
    }
  }

  lemma {:induction false} StrictConcat(a: seq<Asset>, b: seq<Asset>)
    requires StrictIds(a) && StrictIds(b)
    requires forall i, j :: 0 <= i < |a| && 0 <= j < |b| ==> LexLess(a[i].id, b[j].id)
    ensures StrictIds(a + b)
  {
  }

  /** Canonical holdings give strictly ascending asset ids. */
  lemma {:induction false} AssetsStrict(hs: seq<Holding>)
    requires Canonical(hs)
    ensures StrictIds(AssetsOf(hs))
  {
    if hs != [] {
      var last := hs[|hs| - 1];
      var a, b := AssetsOf(hs[..|hs| - 1]), Under(last.policy, last.assets);
      CanonicalInit(hs);
      AssetsStrict(hs[..|hs| - 1]);
      UnderStrict(last.policy, last.assets);
      forall i, j | 0 <= i < |a| && 0 <= j < |b| ensures LexLess(a[i].id, b[j].id) { BeforeLast(hs, i, j); }
      StrictConcat(a, b);
    }
  }

  /** Ids under smaller policies are smaller. */
  lemma {:induction false} Separated(p: PolicyId, q: PolicyId, a: ByteString, b: ByteString)
    requires p <= a && q <= b && LexLess(p, q)
    ensures LexLess(a, b)
  {
    assert a == p + a[|p|..] && b == q + b[|q|..];
    LexExtend(p, q, a[|p|..], b[|q|..]);
    assert a[..POLICY_LEN] == p && b[..POLICY_LEN] == q;
  }

  /** The encoder's sort leaves ingested assets as they are. */
  lemma {:induction false} IngestedAreSorted(hs: seq<Holding>)
    requires Canonical(hs)
    ensures SortedAssets(AssetsOf(hs)) == AssetsOf(hs)
  {
    AssetsStrict(hs);
    SortIdentity(AssetLe, AssetsOf(hs));
  }
}
