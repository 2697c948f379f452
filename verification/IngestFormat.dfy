/** The documented ledger-state format, written: every list of UTXOs that it can express is
    what the UTXO parser returns for it. */
module IngestFormat {
  import opened Bytes
  import opened Sorting
  import opened Cbor
  import opened UtxoLeaf
  import opened Ingest
  import opened IngestParsers

  // ----- Assets by policy -----

  ghost predicate LongIds(assets: seq<Asset>) {
    forall i :: 0 <= i < |assets| ==> POLICY_LEN <= |assets[i].id| < TWO_64
  }

  function PolicyOf(a: Asset): PolicyId
    requires |a.id| >= POLICY_LEN
  {
    a.id[..POLICY_LEN]
  }

  function Named(a: Asset): NameQty
    requires |a.id| >= POLICY_LEN
  {
    NameQty(a.id[POLICY_LEN..], a.quantity)
  }

  /** One more asset: under the last policy if it is that of the asset, under a new one if not. */
  function Grouped(hs: seq<Holding>, a: Asset): seq<Holding>
    requires |a.id| >= POLICY_LEN
  {
    if hs != [] && hs[|hs| - 1].policy == PolicyOf(a) then
      hs[..|hs| - 1] + [Holding(PolicyOf(a), hs[|hs| - 1].assets + [Named(a)])]
    else
      hs + [Holding(PolicyOf(a), [Named(a)])]
  }

  /** A flat list of assets as a map from policies to names. */
  ghost function Group(assets: seq<Asset>): seq<Holding>
    requires LongIds(assets)
  {
    if assets == [] then [] else Grouped(Group(assets[..|assets| - 1]), assets[|assets| - 1])
  }

  lemma {:induction false} AssetsSnoc(hs: seq<Holding>, h: Holding)
    ensures AssetsOf(hs + [h]) == AssetsOf(hs) + Under(h.policy, h.assets)
  {
    assert (hs + [h])[..|hs|] == hs;
  }

  lemma {:induction false} UnderSnoc(policy: PolicyId, ns: seq<NameQty>, n: NameQty)
    ensures Under(policy, ns + [n]) == Under(policy, ns) + [Asset(policy + n.name, n.quantity)]
  {
    assert (ns + [n])[..|ns|] == ns;
  }

  lemma {:induction false} GroupedBack(hs: seq<Holding>, a: Asset)
    requires |a.id| >= POLICY_LEN
    ensures AssetsOf(Grouped(hs, a)) == AssetsOf(hs) + [a]
  {
    var policy := PolicyOf(a);
    assert Asset(policy + Named(a).name, Named(a).quantity) == a;
    if hs != [] && hs[|hs| - 1].policy == policy {
      var init, last := hs[..|hs| - 1], hs[|hs| - 1];
      UnderSnoc(policy, last.assets, Named(a));
      AssetsSnoc(init, Holding(policy, last.assets + [Named(a)]));
    } else {
      UnderSnoc(policy, [], Named(a));
      assert [] + [Named(a)] == [Named(a)];
      AssetsSnoc(hs, Holding(policy, [Named(a)]));
    }
  }

  lemma {:induction false} GroupStep(assets: seq<Asset>, init: seq<Asset>, last: Asset)
    requires LongIds(assets) && LongIds(init) && |last.id| >= POLICY_LEN && assets == init + [last]
    ensures Group(assets) == Grouped(Group(init), last)
  {
    assert assets[..|assets| - 1] == init;
  }

  lemma {:induction false} GroupLast(hs: seq<Holding>, all: seq<Holding>, init: seq<Asset>, last: Asset)
    requires |last.id| >= POLICY_LEN && AssetsOf(hs) == init && all == Grouped(hs, last)
    ensures AssetsOf(all) == init + [last]
  {
    GroupedBack(hs, last);
  }

  /** Flattening undoes the grouping. */
  lemma {:induction false} GroupBack(assets: seq<Asset>)
    requires LongIds(assets)
    ensures AssetsOf(Group(assets)) == assets
  {
    if assets != [] {
      var init, last := assets[..|assets| - 1], assets[|assets| - 1];
      GroupBack(init);
      GroupStep(assets, init, last);
      GroupLast(Group(init), Group(assets), init, last);
    }
  }

  /** The grouping ends with the last asset's policy and name. */
  ghost predicate EndsWith(hs: seq<Holding>, a: Asset)
    requires |a.id| >= POLICY_LEN
  {
    && hs != [] && hs[|hs| - 1].policy == PolicyOf(a)
    && hs[|hs| - 1].assets != [] && hs[|hs| - 1].assets[|hs[|hs| - 1].assets| - 1] == Named(a)
  }

  lemma {:induction false} NamesInOrder(a: Asset, b: Asset)
    requires |a.id| >= POLICY_LEN && |b.id| >= POLICY_LEN && LexLess(a.id, b.id) && PolicyOf(a) == PolicyOf(b)
    ensures LexLess(Named(a).name, Named(b).name)
  {
    assert a.id == PolicyOf(a) + Named(a).name && b.id == PolicyOf(a) + Named(b).name;
    LexCommonPrefix(PolicyOf(a), Named(a).name, Named(b).name);
  }

  lemma {:induction false} PoliciesInOrder(a: Asset, b: Asset)
    requires |a.id| >= POLICY_LEN && |b.id| >= POLICY_LEN && LexLess(a.id, b.id) && PolicyOf(a) != PolicyOf(b)
    ensures LexLess(PolicyOf(a), PolicyOf(b))
  {
    LexTotal(PolicyOf(a), PolicyOf(b));
    if LexLe(PolicyOf(b), PolicyOf(a)) {
      assert a.id == PolicyOf(a) + Named(a).name && b.id == PolicyOf(b) + Named(b).name;
      LexExtend(PolicyOf(b), PolicyOf(a), Named(b).name, Named(a).name);
      LexAntisymmetric(a.id, b.id);
    }
  }

  lemma {:induction false} InsideGrouped(hs: seq<Holding>, a: Asset, last: Holding, ns: seq<NameQty>)
    requires |a.id| >= POLICY_LEN && hs != [] && last == hs[|hs| - 1] && last.policy == PolicyOf(a)
    requires Canonical(hs) && ns == last.assets + [Named(a)] && Ascending(Names(ns))
    ensures Canonical(hs[..|hs| - 1] + [Holding(PolicyOf(a), ns)])
  {
    var out := hs[..|hs| - 1] + [Holding(PolicyOf(a), ns)];
    assert Policies(out) == Policies(hs);
    forall i | 0 <= i < |out|
      ensures Ascending(Names(out[i].assets))
    {
      if i < |hs| - 1 { assert out[i] == hs[i]; }
    }
  }

  lemma {:induction false} GroupedCanonical(hs: seq<Holding>, before: Asset, a: Asset)
    requires |before.id| >= POLICY_LEN && |a.id| >= POLICY_LEN && LexLess(before.id, a.id)
    requires Canonical(hs) && EndsWith(hs, before)
    ensures Canonical(Grouped(hs, a)) && EndsWith(Grouped(hs, a), a)
  {
    var last := hs[|hs| - 1];
    if last.policy == PolicyOf(a) {
      NamesInOrder(before, a);
      var ns := last.assets + [Named(a)];
      NamesConcat(last.assets, [Named(a)]);
      AscendingSnoc(Names(last.assets), Named(a).name);
      InsideGrouped(hs, a, last, ns);
    } else {
      PoliciesInOrder(before, a);
      if LexLe(PolicyOf(a), PolicyOf(before)) { LexAntisymmetric(PolicyOf(a), PolicyOf(before)); }
      HoldingInOrder(hs, Holding(PolicyOf(a), [Named(a)]));
    }
  }

  /** Assets in ascending order of their ids make a canonical map. */
  lemma {:induction false} GroupCanonical(assets: seq<Asset>)
    requires LongIds(assets) && StrictIds(assets)
    ensures Canonical(Group(assets)) && (assets != [] ==> EndsWith(Group(assets), assets[|assets| - 1]))
  {
    if assets != [] {
      var init, last := assets[..|assets| - 1], assets[|assets| - 1];
      GroupCanonical(init);
      if init == [] {
        HoldingInOrder([], Holding(PolicyOf(last), [Named(last)]));
        assert [] + [Holding(PolicyOf(last), [Named(last)])] == [Holding(PolicyOf(last), [Named(last)])];
      } else {
        GroupedCanonical(Group(init), init[|init| - 1], last);
      }
    }
  }

  // ----- Sizes -----

  /** Every length fits a head. */
  predicate SmallHolding(h: Holding) {
    |h.assets| < TWO_64 && forall i :: 0 <= i < |h.assets| ==> |h.assets[i].name| < TWO_64
  }

  predicate SmallHoldings(hs: seq<Holding>) { forall i :: 0 <= i < |hs| ==> SmallHolding(hs[i]) }

  /** At most `n` policies of at most `n` names each, all of which fit. */
  ghost predicate SmallerThan(hs: seq<Holding>, n: nat) {
    && |hs| <= n
    && forall i :: 0 <= i < |hs| ==>
         |hs[i].assets| <= n && forall j :: 0 <= j < |hs[i].assets| ==> |hs[i].assets[j].name| < TWO_64
  }

  lemma {:induction false} GroupedSmall(hs: seq<Holding>, a: Asset, n: nat)
    requires POLICY_LEN <= |a.id| < TWO_64 && SmallerThan(hs, n)
    ensures SmallerThan(Grouped(hs, a), n + 1)
  {
  }

  lemma {:induction false} GroupSmaller(assets: seq<Asset>)
    requires LongIds(assets)
    ensures SmallerThan(Group(assets), |assets|)
  {
    if assets != [] {
      var init, last := assets[..|assets| - 1], assets[|assets| - 1];
      GroupSmaller(init);
      GroupStep(assets, init, last);
      GroupedSmall(Group(init), last, |init|);
    }
  }

  lemma {:induction false} GroupSmall(assets: seq<Asset>)
    requires LongIds(assets) && |assets| < TWO_64
    ensures |Group(assets)| <= |assets| && SmallHoldings(Group(assets))
  {
    GroupSmaller(assets);
  }

  // ----- The format -----

  function PutNames(ns: seq<NameQty>, tail: ByteString): ByteString
    requires forall i :: 0 <= i < |ns| ==> |ns[i].name| < TWO_64
  {
    if ns == [] then tail else PutBytes(ns[0].name, PutUnsigned(ns[0].quantity, PutNames(ns[1..], tail)))
  }

  function PutMap(n: U64, tail: ByteString): ByteString { MakeHead(5, n) + tail }

  function PutHoldings(hs: seq<Holding>, tail: ByteString): ByteString
    requires SmallHoldings(hs)
  {
    if hs == [] then tail
    else PutBytes(hs[0].policy, PutMap(|hs[0].assets|, PutNames(hs[0].assets, PutHoldings(hs[1..], tail))))
  }

  datatype Credential = NoScript | Script(hash: PolicyId, language: Byte, size: U32)

  /** Null, or the array of hash, language and size. */
  function PutCredential(c: Credential, tail: ByteString): ByteString {
    match c
    case NoScript => [0xF6] + tail
    case Script(hash, language, size) => [0x83] + PutBytes(hash, PutUnsigned(language, PutUnsigned(size, tail)))
  }

  /** An entry of four elements, or of six. */
  datatype Item = Minimal(utxo: Utxo) | Extended(utxo: Utxo, credential: Credential)

  /** What the format has room for: no datum, no script, and assets by ascending id.  The short form has no assets. */
  ghost predicate Expressible(x: Item) {
    var u := x.utxo;
    && u.datum == NoDatum && u.scriptRef == None && |u.address| < TWO_64
    && LongIds(u.assets) && StrictIds(u.assets) && |u.assets| < TWO_64
    && (x.Minimal? ==> u.assets == [])
  }

  function PutFields(u: Utxo, tail: ByteString): ByteString
    requires |u.address| < TWO_64
  {
    PutBytes(u.txId, PutUnsigned(u.outputIndex, PutBytes(u.address, PutUnsigned(u.value, tail))))
  }

  ghost function PutItem(x: Item, tail: ByteString): ByteString
    requires Expressible(x)
  {
    GroupSmall(x.utxo.assets);
    match x
    case Minimal(u) => [0x84] + PutFields(u, tail)
    case Extended(u, credential) =>
      [0x86] + PutFields(u, PutMap(|Group(u.assets)|, PutHoldings(Group(u.assets), PutCredential(credential, tail))))
  }

  ghost predicate AllExpressible(xs: seq<Item>) { forall i :: 0 <= i < |xs| ==> Expressible(xs[i]) }

  ghost function PutItems(xs: seq<Item>, tail: ByteString): ByteString
    requires AllExpressible(xs)
  {
    if xs == [] then tail else PutItem(xs[0], PutItems(xs[1..], tail))
  }

  ghost function FileOf(xs: seq<Item>): ByteString
    requires AllExpressible(xs) && |xs| < TWO_64
  {
    MakeHead(4, |xs|) + PutItems(xs, [])
  }

  // ----- Reading it back -----

  lemma {:induction false} FixedHead(kind: nat, n: nat, tail: ByteString)
    requires kind < 8 && n < 24
    ensures GetLength([32 * kind + n] + tail, kind) == Ok(Got(n, tail))
  {
    var b := [32 * kind + n] + tail;
    assert b[0] / 32 == kind && b[0] % 32 == n && b[1..] == tail;
  }

  lemma {:induction false} MapBack(n: U64, tail: ByteString)
    ensures GetLength(PutMap(n, tail), MAP) == Ok(Got(n, tail))
  {
    HeadRoundTrip(5, n, tail);
  }

  lemma {:induction false} NamesBack(ns: seq<NameQty>, tail: ByteString)
    requires forall i :: 0 <= i < |ns| ==> |ns[i].name| < TWO_64
    ensures ReadMany(GetName, PutNames(ns, tail), |ns|) == Ok(Got(ns, tail))
  {
    if ns != [] {
      NamesBack(ns[1..], tail);
      BytesRoundTrip(ns[0].name, PutUnsigned(ns[0].quantity, PutNames(ns[1..], tail)));
      UnsignedRoundTrip(ns[0].quantity, PutNames(ns[1..], tail));
      assert [ns[0]] + ns[1..] == ns;
    }
  }

  lemma {:induction false} HoldingBack(h: Holding, tail: ByteString)
    requires SmallHolding(h)
    ensures GetHolding(PutBytes(h.policy, PutMap(|h.assets|, PutNames(h.assets, tail)))) == Ok(Got(h, tail))
  {
    BytesRoundTrip(h.policy, PutMap(|h.assets|, PutNames(h.assets, tail)));
    MapBack(|h.assets|, PutNames(h.assets, tail));
    NamesBack(h.assets, tail);
  }

  lemma {:induction false} HoldingsBack(hs: seq<Holding>, tail: ByteString)
    requires SmallHoldings(hs)
    ensures ReadMany(GetHolding, PutHoldings(hs, tail), |hs|) == Ok(Got(hs, tail))
  {
    if hs != [] {
      HoldingsBack(hs[1..], tail);
      HoldingBack(hs[0], PutHoldings(hs[1..], tail));
      assert [hs[0]] + hs[1..] == hs;
    }
  }

  lemma {:induction false} PolicyBack(policy: PolicyId, tail: ByteString)
    ensures GetFixed(PutBytes(policy, tail), POLICY_LEN) == Ok(Got(policy, tail))
  {
    BytesRoundTrip(policy, tail);
  }

  lemma {:induction false} BelowBack(n: U64, limit: nat, tail: ByteString)
    requires n < limit
    ensures GetBelow(PutUnsigned(n, tail), limit) == Ok(Got(n, tail))
  {
    UnsignedRoundTrip(n, tail);
  }

  lemma {:induction false} ScriptReads(b: ByteString, t1: ByteString, t2: ByteString, t3: ByteString,
                                       tail: ByteString, c: Credential)
    requires c.Script? && b != [] && b[0] != NULL && GetLength(b, ARRAY) == Ok(Got(3, t1))
    requires GetFixed(t1, POLICY_LEN) == Ok(Got(c.hash, t2)) && GetBelow(t2, 256) == Ok(Got(c.language, t3))
    requires GetBelow(t3, TWO_32) == Ok(Got(c.size, tail))
    ensures GetCredential(b) == Ok(Got((), tail))
  {
  }

  lemma {:induction false} CredentialBack(c: Credential, tail: ByteString)
    ensures GetCredential(PutCredential(c, tail)) == Ok(Got((), tail))
  {
    if c.Script? {
      var t3 := PutUnsigned(c.size, tail);
      var t2 := PutUnsigned(c.language, t3);
      var t1 := PutBytes(c.hash, t2);
      FixedHead(4, 3, t1);
      PolicyBack(c.hash, t2);
      BelowBack(c.language, 256, t3);
      BelowBack(c.size, TWO_32, tail);
      ScriptReads([0x83] + t1, t1, t2, t3, tail, c);
    }
  }

  lemma {:induction false} FieldsBack(extended: bool, u: Utxo, tail: ByteString)
    requires |u.address| < TWO_64
    ensures GetBase([if extended then 0x86 else 0x84] + PutFields(u, tail))
         == Ok(Got(Base(extended, u.txId, u.outputIndex, u.address, u.value), tail))
  {
    var t3 := PutUnsigned(u.value, tail);
    var t2 := PutBytes(u.address, t3);
    var t1 := PutUnsigned(u.outputIndex, t2);
    FixedHead(4, if extended then 6 else 4, PutBytes(u.txId, t1));
    BytesRoundTrip(u.txId, t1);
    UnsignedRoundTrip(u.outputIndex, t2);
    BytesRoundTrip(u.address, t3);
    UnsignedRoundTrip(u.value, tail);
  }

  ghost function EntryFor(x: Item): Entry
    requires Expressible(x)
  {
    Entry(x.utxo.txId, x.utxo.outputIndex, x.utxo.address, x.utxo.value, Group(x.utxo.assets))
  }

  lemma {:induction false} ExtensionBack(hs: seq<Holding>, c: Credential, tail: ByteString)
    requires SmallHoldings(hs) && |hs| < TWO_64
    ensures GetExtension(PutMap(|hs|, PutHoldings(hs, PutCredential(c, tail)))) == Ok(Got(hs, tail))
  {
    MapBack(|hs|, PutHoldings(hs, PutCredential(c, tail)));
    HoldingsBack(hs, PutCredential(c, tail));
    CredentialBack(c, tail);
  }

  lemma {:induction false} ItemBack(x: Item, tail: ByteString)
    requires Expressible(x)
    ensures GetEntry(PutItem(x, tail)) == Ok(Got(EntryFor(x), tail))
  {
    var hs := Group(x.utxo.assets);
    GroupSmall(x.utxo.assets);
    match x
    case Minimal(u) => FieldsBack(false, u, tail);
    case Extended(u, c) =>
      FieldsBack(true, u, PutMap(|hs|, PutHoldings(hs, PutCredential(c, tail))));
      ExtensionBack(hs, c, tail);
  }

  ghost function EntriesFor(xs: seq<Item>): (es: seq<Entry>)
    requires AllExpressible(xs)
    ensures |es| == |xs| && forall i :: 0 <= i < |xs| ==> es[i] == EntryFor(xs[i])
  {
    if xs == [] then [] else [EntryFor(xs[0])] + EntriesFor(xs[1..])
  }

  lemma {:induction false} ItemsBack(xs: seq<Item>, tail: ByteString)
    requires AllExpressible(xs)
    ensures ReadMany(GetEntry, PutItems(xs, tail), |xs|) == Ok(Got(EntriesFor(xs), tail))
  {
    if xs != [] {
      ItemsBack(xs[1..], tail);
      ItemBack(xs[0], PutItems(xs[1..], tail));
    }
  }

  /** The grammar reads the file back. */
  lemma {:induction false} FileBack(xs: seq<Item>)
    requires AllExpressible(xs) && |xs| < TWO_64
    ensures GetFile(FileOf(xs)) == Ok(EntriesFor(xs))
  {
    HeadRoundTrip(4, |xs|, PutItems(xs, []));
    ItemsBack(xs, []);
  }

  function UtxosIn(xs: seq<Item>): (us: seq<Utxo>)
    ensures |us| == |xs| && forall i :: 0 <= i < |xs| ==> us[i] == xs[i].utxo
  {
    if xs == [] then [] else [xs[0].utxo] + UtxosIn(xs[1..])
  }

  lemma {:induction false} EntryIsGood(x: Item)
    requires Expressible(x)
    ensures GoodEntry(EntryFor(x)) && UtxoOf(EntryFor(x)) == x.utxo
  {
    GroupBack(x.utxo.assets);
    GroupCanonical(x.utxo.assets);
  }

  lemma {:induction false} UtxosOfAt(es: seq<Entry>, i: nat)
    requires i < |es| && forall k :: 0 <= k < |es| ==> es[k].index < TWO_32
    ensures UtxosOf(es)[i] == UtxoOf(es[i])
  {
    if i < |es| - 1 { UtxosOfAt(es[..|es| - 1], i); }
  }

  lemma {:induction false} EntriesAreGood(xs: seq<Item>)
    requires AllExpressible(xs)
    ensures forall i :: 0 <= i < |xs| ==> GoodEntry(EntriesFor(xs)[i])
    ensures UtxosOf(EntriesFor(xs)) == UtxosIn(xs)
  {
    var es := EntriesFor(xs);
    forall i | 0 <= i < |xs| ensures GoodEntry(es[i]) && UtxoOf(es[i]) == xs[i].utxo { EntryIsGood(xs[i]); }
    forall i | 0 <= i < |xs| ensures UtxosOf(es)[i] == UtxosIn(xs)[i] { UtxosOfAt(es, i); }
  }

  /** Whatever UTXOs the format can express, in either form and with any script credentials,
      the parser returns exactly them: every field, every asset, in order. */
  method IngestWritten(xs: seq<Item>, file: ByteString) returns (r: Result<seq<Utxo>, IngestError>)
    requires AllExpressible(xs) && |xs| < TWO_64 && file == FileOf(xs)
    ensures r == Ok(UtxosIn(xs))
  {
    FileBack(xs);
    EntriesAreGood(xs);
    var parsed, _ := IngestUtxos(file);
    return parsed;
  }
}
