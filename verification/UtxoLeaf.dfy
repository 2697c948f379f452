/** The canonical UTXO leaf encoding: what it determines, and when asset order matters. */
module UtxoLeaf {
  import opened Bytes
  import opened Sorting
  import opened Cbor

  datatype Asset = Asset(id: ByteString, quantity: U64)

  datatype DatumOption = NoDatum | DatumHash(hash: Hash) | InlineDatum(data: ByteString)

  datatype ScriptLanguage = Native | PlutusV1 | PlutusV2 | PlutusV3

  datatype ScriptRef = ScriptRef(language: ScriptLanguage, bytes: ByteString)

  datatype Utxo = Utxo(
    txId: Hash, outputIndex: U32, address: ByteString, value: U64, assets: seq<Asset>,
    datum: DatumOption, scriptRef: Option<ScriptRef>)

  datatype LeafError =
    | AddressLenOverflow
    | AssetCountOverflow
    | AssetIdLenOverflow
    | InlineDatumLenOverflow
    | ScriptRefLenOverflow

  const TWO_16: nat := 0x1_0000

  function AssetLe(a: Asset, b: Asset): bool { LexLe(a.id, b.id) }

  /** `sort_by` on the asset ids, stable. */
  function SortedAssets(assets: seq<Asset>): seq<Asset> { Sort(AssetLe, assets) }

  lemma {:induction false} AssetOrder()
    ensures TotalOrder(AssetLe)
  {
    forall a, b ensures AssetLe(a, b) || AssetLe(b, a) { LexTotal(a.id, b.id); }
    forall a, b, c | AssetLe(a, b) && AssetLe(b, c) ensures AssetLe(a, c) { LexTransitive(a.id, b.id, c.id); }
  }

  // ----- Encoding -----

  predicate DatumFits(d: DatumOption) { d.InlineDatum? ==> |d.data| < TWO_32 }

  predicate ScriptFits(s: Option<ScriptRef>) { s.Some? ==> |s.value.bytes| < TWO_32 }

  /** Every length fits its field. */
  predicate Fits(u: Utxo) {
    && |u.address| < TWO_16 && |u.assets| < TWO_32
    && (forall i :: 0 <= i < |u.assets| ==> |u.assets[i].id| < TWO_16)
    && DatumFits(u.datum) && ScriptFits(u.scriptRef)
  }

  function TagByte(l: ScriptLanguage): Byte {
    match l case Native => 1 case PlutusV1 => 2 case PlutusV2 => 3 case PlutusV3 => 4
  }

  // Encoders put an item in front of what follows it.

  function PutAsset(a: Asset, tail: ByteString): ByteString { BE(|a.id|, 2) + (a.id + (BE(a.quantity, 8) + tail)) }

  function PutAssets(assets: seq<Asset>, tail: ByteString): ByteString {
    if assets == [] then tail else PutAsset(assets[0], PutAssets(assets[1..], tail))
  }

  function PutDatum(d: DatumOption, tail: ByteString): ByteString {
    match d
    case NoDatum => [0] + tail
    case DatumHash(hash) => [1] + (hash + tail)
    case InlineDatum(data) => [2] + (BE(|data|, 4) + (data + tail))
  }

  function PutScript(s: Option<ScriptRef>, tail: ByteString): ByteString {
    match s
    case None => [0] + tail
    case Some(ScriptRef(language, bytes)) => [1] + ([TagByte(language)] + (BE(|bytes|, 4) + (bytes + tail)))
  }

  /** `Utxo::encode`, in front of `tail`. */
  function PutUtxo(u: Utxo, tail: ByteString): ByteString {
    u.txId + (BE(u.outputIndex, 4) + (BE(|u.address|, 2) + (u.address + (BE(u.value, 8) + (BE(|u.assets|, 4)
      + PutAssets(SortedAssets(u.assets), PutDatum(u.datum, PutScript(u.scriptRef, tail))))))))
  }

  // ----- Reading it back -----

  type Read<T> = Result<Got<T>, ()>

  function Take(b: ByteString, n: nat): (r: Read<ByteString>)
    ensures r.Ok? ==> |r.value.value| == n
  {
    if |b| < n then Err(()) else Ok(Got(b[..n], b[n..]))
  }

  function Number(b: ByteString, width: nat): Read<nat> {
    var got :- Take(b, width);
    Ok(Got(FromBE(got.value), got.rest))
  }

  lemma {:induction false} TakeBack(x: ByteString, tail: ByteString)
    ensures Take(x + tail, |x|) == Ok(Got(x, tail))
  {
    assert (x + tail)[..|x|] == x && (x + tail)[|x|..] == tail;
  }

  lemma {:induction false} NumberBack(n: nat, width: nat, tail: ByteString)
    requires n < Pow256(width)
    ensures Number(BE(n, width) + tail, width) == Ok(Got(n, tail))
  {
    TakeBack(BE(n, width), tail);
    FromBEofBE(n, width);
  }

  function ReadAsset(b: ByteString): Read<Asset> {
    var len :- Number(b, 2);
    var id :- Take(len.rest, len.value);
    var quantity :- Number(id.rest, 8);
    if quantity.value >= TWO_64 then Err(()) else Ok(Got(Asset(id.value, quantity.value), quantity.rest))
  }

  function ReadAssets(b: ByteString, n: nat): Read<seq<Asset>>
    decreases n
  {
    if n == 0 then Ok(Got([], b))
    else
      var first :- ReadAsset(b);
      var others :- ReadAssets(first.rest, n - 1);
      Ok(Got([first.value] + others.value, others.rest))
  }

  function ReadDatum(b: ByteString): Read<DatumOption> {
    var tag :- Number(b, 1);
    if tag.value == 0 then Ok(Got(NoDatum, tag.rest))
    else if tag.value == 1 then
      var hash :- Take(tag.rest, 32);
      Ok(Got(DatumHash(hash.value), hash.rest))
    else
      var len :- Number(tag.rest, 4);
      var data :- Take(len.rest, len.value);
      Ok(Got(InlineDatum(data.value), data.rest))
  }

  function LanguageOf(tag: nat): ScriptLanguage {
    if tag == 1 then Native else if tag == 2 then PlutusV1 else if tag == 3 then PlutusV2 else PlutusV3
  }

  function ReadScript(b: ByteString): Read<Option<ScriptRef>> {
    var tag :- Number(b, 1);
    if tag.value == 0 then Ok(Got(None, tag.rest))
    else
      var language :- Number(tag.rest, 1);
      var len :- Number(language.rest, 4);
      var bytes :- Take(len.rest, len.value);
      Ok(Got(Some(ScriptRef(LanguageOf(language.value), bytes.value)), bytes.rest))
  }

  function ReadUtxo(b: ByteString): Read<Utxo> {
    var txId :- Take(b, 32);
    var index :- Number(txId.rest, 4);
    var len :- Number(index.rest, 2);
    var address :- Take(len.rest, len.value);
    var value :- Number(address.rest, 8);
    var count :- Number(value.rest, 4);
    var assets :- ReadAssets(count.rest, count.value);
    var datum :- ReadDatum(assets.rest);
    var script :- ReadScript(datum.rest);
    if index.value >= TWO_32 || value.value >= TWO_64 then Err(())
    else Ok(Got(Utxo(txId.value, index.value, address.value, value.value, assets.value, datum.value, script.value),
                script.rest))
  }

  lemma {:induction false} AssetBack(a: Asset, tail: ByteString)
    requires |a.id| < TWO_16
    ensures ReadAsset(PutAsset(a, tail)) == Ok(Got(a, tail))
  {
    Pow256Widths();
    NumberBack(|a.id|, 2, a.id + (BE(a.quantity, 8) + tail));
    TakeBack(a.id, BE(a.quantity, 8) + tail);
    NumberBack(a.quantity, 8, tail);
  }

  lemma {:induction false} AssetsBack(assets: seq<Asset>, tail: ByteString)
    requires forall i :: 0 <= i < |assets| ==> |assets[i].id| < TWO_16
    ensures ReadAssets(PutAssets(assets, tail), |assets|) == Ok(Got(assets, tail))
  {
    if assets != [] {
      AssetBack(assets[0], PutAssets(assets[1..], tail));
      AssetsBack(assets[1..], tail);
      assert [assets[0]] + assets[1..] == assets;
    }
  }

  lemma {:induction false} ByteBack(n: Byte, tail: ByteString)
    ensures Number([n] + tail, 1) == Ok(Got(n, tail))
  {
    Pow256Widths();
    BEOne(n);
    NumberBack(n, 1, tail);
  }

  lemma {:induction false} BEOne(n: Byte)
    ensures BE(n, 1) == [n]
  {
    assert BE(n, 1) == BE(n / 256, 0) + [n % 256];
  }

  lemma {:induction false} DatumBack(d: DatumOption, tail: ByteString)
    requires DatumFits(d)
    ensures ReadDatum(PutDatum(d, tail)) == Ok(Got(d, tail))
  {
    Pow256Widths();
    match d
    case NoDatum => ByteBack(0, tail);
    case DatumHash(hash) =>
      ByteBack(1, hash + tail);
      TakeBack(hash, tail);
    case InlineDatum(data) =>
      ByteBack(2, BE(|data|, 4) + (data + tail));
      NumberBack(|data|, 4, data + tail);
      TakeBack(data, tail);
  }

  lemma {:induction false} ScriptBack(s: Option<ScriptRef>, tail: ByteString)
    requires ScriptFits(s)
    ensures ReadScript(PutScript(s, tail)) == Ok(Got(s, tail))
  {
    Pow256Widths();
    match s
    case None => ByteBack(0, tail);
    case Some(ScriptRef(language, bytes)) =>
      var t := BE(|bytes|, 4) + (bytes + tail);
      ByteBack(1, [TagByte(language)] + t);
      ByteBack(TagByte(language), t);
      NumberBack(|bytes|, 4, bytes + tail);
      TakeBack(bytes, tail);
  }

  lemma {:induction false} SortedFits(assets: seq<Asset>)
    requires forall i :: 0 <= i < |assets| ==> |assets[i].id| < TWO_16
    ensures forall i :: 0 <= i < |assets| ==> |SortedAssets(assets)[i].id| < TWO_16
  {
    SortMembers(AssetLe, assets);
  }

  /** The encoding reads back as the UTXO with its assets sorted, and says where it ends. */
  lemma {:induction false} UtxoBack(u: Utxo, tail: ByteString)
    requires Fits(u)
    ensures ReadUtxo(PutUtxo(u, tail)) == Ok(Got(u.(assets := SortedAssets(u.assets)), tail))
  {
    Pow256Widths();
    var t8 := PutScript(u.scriptRef, tail);
    var t7 := PutDatum(u.datum, t8);
    var t6 := PutAssets(SortedAssets(u.assets), t7);
    var t5 := BE(|u.assets|, 4) + t6;
    var t4 := BE(u.value, 8) + t5;
    var t3 := u.address + t4;
    var t2 := BE(|u.address|, 2) + t3;
    var t1 := BE(u.outputIndex, 4) + t2;
    TakeBack(u.txId, t1);
    NumberBack(u.outputIndex, 4, t2);
    NumberBack(|u.address|, 2, t3);
    TakeBack(u.address, t4);
    NumberBack(u.value, 8, t5);
    NumberBack(|u.assets|, 4, t6);
    SortedFits(u.assets);
    AssetsBack(SortedAssets(u.assets), t7);
    DatumBack(u.datum, t8);
    ScriptBack(u.scriptRef, tail);
  }

  // ----- What the encoding determines -----

  /** Equal in everything but the assets. */
  ghost predicate SameButAssets(u: Utxo, v: Utxo) { u.(assets := []) == v.(assets := []) }

  /** The encoding is prefix-free: whatever follows, the leaf and its end are determined. */
  lemma {:induction false} PrefixFree(u: Utxo, v: Utxo, s: ByteString, t: ByteString)
    requires Fits(u) && Fits(v) && PutUtxo(u, s) == PutUtxo(v, t)
    ensures SameButAssets(u, v) && SortedAssets(u.assets) == SortedAssets(v.assets) && s == t
  {
    UtxoBack(u, s);
    UtxoBack(v, t);
  }

  /** Two UTXOs have one encoding if and only if they agree but for their assets, and
      assets with one id come in the same order in both. */
  lemma {:induction false} SameEncodingIff(u: Utxo, v: Utxo)
    requires Fits(u) && Fits(v)
    ensures PutUtxo(u, []) == PutUtxo(v, []) <==> SameButAssets(u, v) && SameClasses(AssetLe, u.assets, v.assets)
  {
    AssetOrder();
    SameSortIff(AssetLe, u.assets, v.assets);
    if PutUtxo(u, []) == PutUtxo(v, []) { PrefixFree(u, v, [], []); }
    if SameButAssets(u, v) && SameClasses(AssetLe, u.assets, v.assets) {
      assert |u.assets| == |SortedAssets(u.assets)| == |SortedAssets(v.assets)| == |v.assets|;
    }
  }

  /** Equal encodings hold the same assets, quantities and multiplicities included. */
  lemma {:induction false} SameEncodingSameAssets(u: Utxo, v: Utxo)
    requires Fits(u) && Fits(v) && PutUtxo(u, []) == PutUtxo(v, [])
    ensures SameButAssets(u, v) && multiset(u.assets) == multiset(v.assets)
  {
    PrefixFree(u, v, [], []);
    assert multiset(SortedAssets(u.assets)) == multiset(u.assets);
  }

  ghost predicate DistinctIds(assets: seq<Asset>) {
    forall a, b :: a in assets && b in assets && a.id == b.id ==> a == b
  }

  /** When no two different assets share an id, asset order does not matter. */
  lemma {:induction false} OrderIndependent(u: Utxo, v: Utxo)
    requires SameButAssets(u, v) && DistinctIds(u.assets) && multiset(u.assets) == multiset(v.assets)
    ensures PutUtxo(u, []) == PutUtxo(v, [])
  {
    AssetOrder();
    SortSorted(AssetLe, u.assets);
    SortSorted(AssetLe, v.assets);
    var a, b := SortedAssets(u.assets), SortedAssets(v.assets);
    forall x, y | x in a && y in a && AssetLe(x, y) && AssetLe(y, x)
      ensures x == y
    {
      LexAntisymmetric(x.id, y.id);
      assert x in multiset(a) && y in multiset(a);
      assert x in u.assets && y in u.assets;
    }
    SortedUnique(AssetLe, a, b);
    assert |multiset(u.assets)| == |multiset(v.assets)|;
  }

  /** With one id twice, it does: the stable sort keeps the input order. */
  lemma {:induction false} DuplicateIdsKeepOrder(u: Utxo, id: ByteString)
    requires Fits(u.(assets := [Asset(id, 1), Asset(id, 2)]))
    ensures PutUtxo(u.(assets := [Asset(id, 1), Asset(id, 2)]), [])
         != PutUtxo(u.(assets := [Asset(id, 2), Asset(id, 1)]), [])
  {
    var x, y := [Asset(id, 1), Asset(id, 2)], [Asset(id, 2), Asset(id, 1)];
    SortedPair(x);
    SortedPair(y);
    if PutUtxo(u.(assets := x), []) == PutUtxo(u.(assets := y), []) {
      PrefixFree(u.(assets := x), u.(assets := y), [], []);
    }
  }

  lemma {:induction false} SortedPair(x: seq<Asset>)
    requires |x| == 2 && x[0].id == x[1].id
    ensures SortedAssets(x) == x
  {
    LexTotal(x[0].id, x[1].id);
    SortIdentity(AssetLe, x);
  }

  // ----- The encoder -----

  /** The first length that does not fit, in the order the encoder meets them. */
  function LengthError(u: Utxo): (e: Option<LeafError>)
    ensures e.None? <==> Fits(u)
  {
    if |u.address| >= TWO_16 then Some(AddressLenOverflow)
    else if |u.assets| >= TWO_32 then Some(AssetCountOverflow)
    else if exists i :: 0 <= i < |u.assets| && |u.assets[i].id| >= TWO_16 then Some(AssetIdLenOverflow)
    else if !DatumFits(u.datum) then Some(InlineDatumLenOverflow)
    else if !ScriptFits(u.scriptRef) then Some(ScriptRefLenOverflow)
    else None
  }

  /** The limits are what the length fields can hold: two bytes for addresses and asset ids, four for the rest. */
  lemma {:induction false} FitsMeaning(u: Utxo)
    ensures Fits(u) <==>
              && |u.address| < Pow256(2) && |u.assets| < Pow256(4)
              && (forall i :: 0 <= i < |u.assets| ==> |u.assets[i].id| < Pow256(2))
              && (u.datum.InlineDatum? ==> |u.datum.data| < Pow256(4))
              && (u.scriptRef.Some? ==> |u.scriptRef.value.bytes| < Pow256(4))
  {
    Pow256Widths();
  }

  /** The asset loop of `encode`: it stops at the first id that is too long. */
  method EncodeAssets(out: ByteString, sorted: seq<Asset>, ghost tail: ByteString)
      returns (r: Result<ByteString, LeafError>)
    ensures r.Ok? <==> forall i :: 0 <= i < |sorted| ==> |sorted[i].id| < TWO_16
    ensures r.Ok? ==> r.value + tail == out + PutAssets(sorted, tail)
    ensures r.Err? ==> r.error == AssetIdLenOverflow
  {
    var acc := out;
    assert sorted[0..] == sorted;
    for i := 0 to |sorted|
      invariant forall k :: 0 <= k < i ==> |sorted[k].id| < TWO_16
      invariant acc + PutAssets(sorted[i..], tail) == out + PutAssets(sorted, tail)
    {
      var a := sorted[i];
      if |a.id| >= TWO_16 { return Err(AssetIdLenOverflow); }
      assert sorted[i..][1..] == sorted[i + 1..];
      ghost var t := PutAssets(sorted[i + 1..], tail);
      acc := Append(acc, BE(|a.id|, 2), a.id + (BE(a.quantity, 8) + t));
      acc := Append(acc, a.id, BE(a.quantity, 8) + t);
      acc := Append(acc, BE(a.quantity, 8), t);
    }
    return Ok(acc);
  }

  method Append(out: ByteString, x: ByteString, ghost tail: ByteString) returns (r: ByteString)
    ensures r + tail == out + (x + tail)
  {
    r := out + x;
  }

  method EncodeDatum(out: ByteString, d: DatumOption, ghost tail: ByteString) returns (r: Result<ByteString, LeafError>)
    ensures r.Ok? <==> DatumFits(d)
    ensures r.Ok? ==> r.value + tail == out + PutDatum(d, tail)
    ensures r.Err? ==> r.error == InlineDatumLenOverflow
  {
    var acc: ByteString;
    match d {
      case NoDatum =>
        acc := Append(out, [0], tail);
      case DatumHash(hash) =>
        acc := Append(out, [1], hash + tail);
        acc := Append(acc, hash, tail);
      case InlineDatum(data) =>
        if |data| >= TWO_32 { return Err(InlineDatumLenOverflow); }
        acc := Append(out, [2], BE(|data|, 4) + (data + tail));
        acc := Append(acc, BE(|data|, 4), data + tail);
        acc := Append(acc, data, tail);
    }
    return Ok(acc);
  }

  method EncodeScript(out: ByteString, s: Option<ScriptRef>, ghost tail: ByteString)
      returns (r: Result<ByteString, LeafError>)
    ensures r.Ok? <==> ScriptFits(s)
    ensures r.Ok? ==> r.value + tail == out + PutScript(s, tail)
    ensures r.Err? ==> r.error == ScriptRefLenOverflow
  {
    var acc: ByteString;
    match s {
      case None =>
        acc := Append(out, [0], tail);
      case Some(ScriptRef(language, bytes)) =>
        if |bytes| >= TWO_32 { return Err(ScriptRefLenOverflow); }
        ghost var t := BE(|bytes|, 4) + (bytes + tail);
        acc := Append(out, [1], [TagByte(language)] + t);
        acc := Append(acc, [TagByte(language)], t);
        acc := Append(acc, BE(|bytes|, 4), bytes + tail);
        acc := Append(acc, bytes, tail);
    }
    return Ok(acc);
  }

  /** `Utxo::encode` */
  method Encode(u: Utxo) returns (r: Result<ByteString, LeafError>)
    ensures r.Ok? <==> Fits(u)
    ensures r.Ok? ==> r.value == PutUtxo(u, [])
    ensures r.Err? ==> LengthError(u) == Some(r.error)
  {
    var sorted := SortedAssets(u.assets);
    ghost var t8 := PutScript(u.scriptRef, []);
    ghost var t7 := PutDatum(u.datum, t8);
    ghost var t6 := PutAssets(sorted, t7);
    ghost var t5 := BE(|u.assets|, 4) + t6;
    ghost var t4 := BE(u.value, 8) + t5;
    ghost var t3 := u.address + t4;
    ghost var t2 := BE(|u.address|, 2) + t3;
    var out: ByteString := [];
    assert out + PutUtxo(u, []) == PutUtxo(u, []);
    out := Append(out, u.txId, BE(u.outputIndex, 4) + t2);
    out := Append(out, BE(u.outputIndex, 4), t2);
    if |u.address| >= TWO_16 { return Err(AddressLenOverflow); }
    out := Append(out, BE(|u.address|, 2), t3);
    out := Append(out, u.address, t4);
    out := Append(out, BE(u.value, 8), t5);
    if |u.assets| >= TWO_32 { return Err(AssetCountOverflow); }
    out := Append(out, BE(|u.assets|, 4), t6);
    SortedFitsIff(u.assets);
    out :- EncodeAssets(out, sorted, t7);
    out :- EncodeDatum(out, u.datum, t8);
    out :- EncodeScript(out, u.scriptRef, []);
    assert out + [] == out;
    return Ok(out);
  }

  lemma {:induction false} SortedFitsIff(assets: seq<Asset>)
    ensures (forall i :: 0 <= i < |assets| ==> |SortedAssets(assets)[i].id| < TWO_16)
       <==> (forall i :: 0 <= i < |assets| ==> |assets[i].id| < TWO_16)
  {
    if forall i :: 0 <= i < |assets| ==> |assets[i].id| < TWO_16 { SortedFits(assets); }
    if forall i :: 0 <= i < |assets| ==> |SortedAssets(assets)[i].id| < TWO_16 {
      forall i | 0 <= i < |assets|
        ensures |assets[i].id| < TWO_16
      {
        var j := MultisetMember(assets, SortedAssets(assets), i);
      }
    }
  }

  // ----- The byte layout -----

  /** The bytes of the first `n` assets: ten besides each id. */
  function AssetsSize(assets: seq<Asset>, n: nat): nat
    requires n <= |assets|
  {
    if n == 0 then 0 else AssetsSize(assets, n - 1) + 10 + |assets[n - 1].id|
  }

  lemma {:induction false} AssetsSizeCons(assets: seq<Asset>, n: nat)
    requires 0 < n <= |assets|
    ensures AssetsSize(assets, n) == 10 + |assets[0].id| + AssetsSize(assets[1..], n - 1)
  {
    if n > 1 { AssetsSizeCons(assets, n - 1); }
  }

  lemma {:induction false} AfterPrefix(front: ByteString, rest: ByteString, offset: nat, x: ByteString)
    requires At(rest, offset, x)
    ensures At(front + rest, |front| + offset, x)
  {
    assert At(front + rest, |front|, rest);
    AtWithin(front + rest, |front|, rest, offset, x);
  }

  function AssetBytes(a: Asset): (b: ByteString)
    ensures |b| == 10 + |a.id|
  {
    BE(|a.id|, 2) + a.id + BE(a.quantity, 8)
  }

  lemma {:induction false} AssetsCons(assets: seq<Asset>, tail: ByteString)
    requires assets != []
    ensures PutAssets(assets, tail) == AssetBytes(assets[0]) + PutAssets(assets[1..], tail)
  {
    var others := PutAssets(assets[1..], tail);
    assert PutAsset(assets[0], others) == AssetBytes(assets[0]) + others;
  }

  lemma {:induction false} AssetsEnd(assets: seq<Asset>, tail: ByteString, b: ByteString)
    requires b == PutAssets(assets, tail)
    ensures |b| == AssetsSize(assets, |assets|) + |tail| && At(b, AssetsSize(assets, |assets|), tail)
  {
    if assets != [] {
      var rest := assets[1..];
      var others := PutAssets(rest, tail);
      AssetsEnd(rest, tail, others);
      AssetsCons(assets, tail);
      AssetsSizeCons(assets, |assets|);
      AfterPrefix(AssetBytes(assets[0]), others, AssetsSize(rest, |rest|), tail);
    }
  }

  lemma {:induction false} AssetAt(assets: seq<Asset>, tail: ByteString, b: ByteString, i: nat)
    requires b == PutAssets(assets, tail) && i < |assets|
    ensures At(b, AssetsSize(assets, i), AssetBytes(assets[i]))
  {
    var front, others := AssetBytes(assets[0]), PutAssets(assets[1..], tail);
    AssetsCons(assets, tail);
    if i > 0 {
      AssetAt(assets[1..], tail, others, i - 1);
      AssetsSizeCons(assets, i);
      AfterPrefix(front, others, AssetsSize(assets[1..], i - 1), AssetBytes(assets[i]));
    }
  }

  /** Tag 0 for no datum, 1 for a hash, 2 for inline data behind its length. */
  function DatumBytes(d: DatumOption): ByteString {
    match d case NoDatum => [0] case DatumHash(hash) => [1] + hash case InlineDatum(data) => [2] + BE(|data|, 4) + data
  }

  /** Tag 0 for no script; 1, the language from 1 to 4, and the script behind its length. */
  function ScriptBytes(s: Option<ScriptRef>): ByteString {
    if s.None? then [0]
    else
      var language := match s.value.language case Native => 1 case PlutusV1 => 2 case PlutusV2 => 3 case PlutusV3 => 4;
      [1, language] + BE(|s.value.bytes|, 4) + s.value.bytes
  }

  lemma {:induction false} TailBytes(d: DatumOption, s: Option<ScriptRef>)
    ensures PutDatum(d, PutScript(s, [])) == DatumBytes(d) + ScriptBytes(s)
  {
    assert PutScript(s, []) == ScriptBytes(s);
  }

  /** The fields before the assets. */
  function FrontBytes(u: Utxo): ByteString {
    u.txId + BE(u.outputIndex, 4) + BE(|u.address|, 2) + u.address + BE(u.value, 8) + BE(|u.assets|, 4)
  }

  lemma {:induction false} FrontLayout(u: Utxo, b: ByteString, n: nat)
    requires b == FrontBytes(u) && n == |u.address|
    ensures |b| == 50 + n && At(b, 0, u.txId) && At(b, 32, BE(u.outputIndex, 4)) && At(b, 36, BE(n, 2))
    ensures At(b, 38, u.address) && At(b, 38 + n, BE(u.value, 8)) && At(b, 46 + n, BE(|u.assets|, 4))
  {
  }

  lemma {:induction false} UtxoParts(u: Utxo, rest: ByteString)
    requires rest == PutAssets(SortedAssets(u.assets), DatumBytes(u.datum) + ScriptBytes(u.scriptRef))
    ensures PutUtxo(u, []) == FrontBytes(u) + rest
  {
    TailBytes(u.datum, u.scriptRef);
    var t2 := BE(u.value, 8) + (BE(|u.assets|, 4) + rest);
    assert u.address + t2 == u.address + BE(u.value, 8) + BE(|u.assets|, 4) + rest;
  }

  /** The documented layout of an encoded UTXO: transaction id, output index, address behind its
      length, value and number of assets; then the assets by ascending id, the datum and the script. */
  lemma {:induction false} EncodedLayout(u: Utxo, b: ByteString, n: nat, sorted: seq<Asset>, i: nat)
    requires b == PutUtxo(u, []) && n == |u.address| && sorted == SortedAssets(u.assets)
    ensures At(b, 0, FrontBytes(u)) && |FrontBytes(u)| == 50 + n
    ensures i < |sorted| ==> At(b, 50 + n + AssetsSize(sorted, i), AssetBytes(sorted[i]))
    ensures At(b, 50 + n + AssetsSize(sorted, |sorted|), DatumBytes(u.datum) + ScriptBytes(u.scriptRef))
    ensures |b| == 50 + n + AssetsSize(sorted, |sorted|) + |DatumBytes(u.datum)| + |ScriptBytes(u.scriptRef)|
  {
    var front, end := FrontBytes(u), DatumBytes(u.datum) + ScriptBytes(u.scriptRef);
    var rest := PutAssets(sorted, end);
    FrontLayout(u, front, n);
    UtxoParts(u, rest);
    AssetsEnd(sorted, end, rest);
    AfterPrefix(front, rest, AssetsSize(sorted, |sorted|), end);
    if i < |sorted| {
      AssetAt(sorted, end, rest, i);
      AfterPrefix(front, rest, AssetsSize(sorted, i), AssetBytes(sorted[i]));
    }
  }
}
