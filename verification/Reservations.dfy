/** The memory that decoding a claim reserves for the lengths it reads: what it comes to on
    every input, and that no accepted input declares more items than it has bytes for. */
module Reservations {
  import opened Bytes
  import opened Cbor
  import opened ClaimCodec

  /** A list without lists in its items: public inputs, or siblings. */
  function ArrayReserves(b: ByteString): seq<Reservation> {
    match ArrayLen(b)
    case Ok(n) => [Reservation(n.value, |n.rest|)]
    case Err(_) => []
  }

  /** `decode_witness`: the siblings, once the payload is read. */
  function WitnessReserves(b: ByteString): seq<Reservation> {
    match ReadLeafPayload(b) case Ok(payload) => ArrayReserves(payload.rest) case Err(_) => []
  }

  /** The second list of a collection, and the siblings of its witnesses. */
  function WitnessListReserves(b: ByteString): seq<Reservation> {
    match ArrayLen(b)
    case Ok(n) => [Reservation(n.value, |n.rest|)] + ManyReserve(ReadWitness, WitnessReserves, n.rest, n.value)
    case Err(_) => []
  }

  /** The two lists of a collection. */
  function ListReserves(b: ByteString): seq<Reservation> {
    ArrayReserves(b) + match ReadPublicList(b) case Ok(ps) => WitnessListReserves(ps.rest) case Err(_) => []
  }

  /** `decode_collection` */
  function CollectionReserves(b: ByteString): seq<Reservation> {
    match ExpectArray(b, 3) case Ok(fields) => ListReserves(fields) case Err(_) => []
  }

  /** `decode_utxo` */
  function UtxoReserves(b: ByteString): seq<Reservation> {
    match ExpectArray(b, 3)
    case Ok(fields) => (match ReadPublic(fields) case Ok(p) => WitnessReserves(p.rest) case Err(_) => [])
    case Err(_) => []
  }

  /** `decode_claim_tx` */
  function ClaimReserves(b: ByteString): seq<Reservation> {
    match ExpectArray(b, 2)
    case Err(_) => []
    case Ok(fields) =>
      match ReadU64(fields)
      case Err(_) => []
      case Ok(variant) =>
        if variant.value == VARIANT_UTXO then UtxoReserves(variant.rest)
        else if variant.value == VARIANT_COLLECTION then CollectionReserves(variant.rest)
        else []
  }

  /** `from_cbor` decodes a payload only after its checksum. */
  function EnvelopeReserves(H: HashFn, b: ByteString): seq<Reservation> {
    match ReadEnvelope(b)
    case Ok(got) => if H(got.payload) == got.checksum then ClaimReserves(got.payload) else []
    case Err(_) => []
  }

  // ----- Every item takes a byte -----

  lemma {:induction false} HashShrinks(b: ByteString)
    ensures ReadHash(b).Ok? ==> |ReadHash(b).value.rest| < |b|
  {
  }

  lemma {:induction false} HashesShrink(b: ByteString)
    ensures ReadHashes(b).Ok? ==> |ReadHashes(b).value.rest| < |b|
  {
  }

  lemma {:induction false} PublicShrinks(b: ByteString)
    ensures ReadPublic(b).Ok? ==> |ReadPublic(b).value.rest| < |b|
  {
    if ReadPublic(b).Ok? {
      var depth := ReadU8(ReadU64(ReadU8(ExpectArray(b, 7).value).value.rest).value.rest).value;
      HashesShrink(depth.rest);
    }
  }

  lemma {:induction false} PathShrinks(b: ByteString)
    ensures ReadPath(b).Ok? ==> |ReadPath(b).value.rest| < |b| && AllFit(ArrayReserves(b))
  {
    if ReadPath(b).Ok? {
      var n := ArrayLen(b).value;
      forall x: ByteString ensures ReadHash(x).Ok? ==> |ReadHash(x).value.rest| < |x| { HashShrinks(x); }
      ManyShrink(ReadHash, n.rest, n.value);
    }
  }

  lemma {:induction false} WitnessShrinks(b: ByteString)
    ensures ReadWitness(b).Ok? ==> |ReadWitness(b).value.rest| < |b| && AllFit(WitnessReserves(b))
  {
    if ReadWitness(b).Ok? { PathShrinks(ReadLeafPayload(b).value.rest); }
  }

  // ----- What is accepted fits -----

  lemma {:induction false} WitnessListFits(b: ByteString)
    requires ReadWitnessList(b).Ok?
    ensures AllFit(WitnessListReserves(b))
  {
    var n := ArrayLen(b).value;
    forall x: ByteString
      ensures ReadWitness(x).Ok? ==> |ReadWitness(x).value.rest| < |x| && AllFit(WitnessReserves(x))
    {
      WitnessShrinks(x);
    }
    ManyShrink(ReadWitness, n.rest, n.value);
    ManyFit(ReadWitness, WitnessReserves, n.rest, n.value);
    FitConcat([Reservation(n.value, |n.rest|)], ManyReserve(ReadWitness, WitnessReserves, n.rest, n.value));
  }

  lemma {:induction false} PublicListFits(b: ByteString)
    requires ReadPublicList(b).Ok?
    ensures AllFit(ArrayReserves(b))
  {
    var n := ArrayLen(b).value;
    forall x: ByteString ensures ReadPublic(x).Ok? ==> |ReadPublic(x).value.rest| < |x| { PublicShrinks(x); }
    ManyShrink(ReadPublic, n.rest, n.value);
  }

  lemma {:induction false} CollectionFits(b: ByteString)
    requires ReadCollection(b).Ok?
    ensures AllFit(CollectionReserves(b))
  {
    var fields := ExpectArray(b, 3).value;
    var rest := ReadPublicList(fields).value.rest;
    PublicListFits(fields);
    WitnessListFits(rest);
    FitConcat(ArrayReserves(fields), WitnessListReserves(rest));
  }

  lemma {:induction false} UtxoFits(b: ByteString)
    requires ReadUtxoClaim(b).Ok?
    ensures AllFit(UtxoReserves(b))
  {
    WitnessShrinks(ReadPublic(ExpectArray(b, 3).value).value.rest);
  }

  /** A claim that can be read declares no list longer than the bytes behind its length. */
  lemma {:induction false} ClaimFits(b: ByteString)
    requires ReadClaim(b).Ok?
    ensures AllFit(ClaimReserves(b))
  {
    var variant := ReadU64(ExpectArray(b, 2).value).value;
    if variant.value == VARIANT_UTXO { UtxoFits(variant.rest); } else { CollectionFits(variant.rest); }
  }

  /** No envelope that is accepted makes its decoder reserve more items than it has bytes for. */
  lemma {:induction false} AcceptedFits(H: HashFn, b: ByteString)
    requires FromCbor(H, b).Ok?
    ensures AllFit(EnvelopeReserves(H, b))
  {
    ClaimFits(ReadEnvelope(b).value.payload);
  }

  // ----- Exactly when a length is too large -----

  /** An array head that declares more items than there are bytes behind it. */
  predicate LongArray(b: ByteString) { ArrayLen(b).Ok? && ArrayLen(b).value.value > |ArrayLen(b).value.rest| }

  /** A witness whose payload is followed by a length of its siblings that is too large. */
  predicate LongPath(b: ByteString) { ReadLeafPayload(b).Ok? && LongArray(ReadLeafPayload(b).value.rest) }

  lemma {:induction false} LongPathIff(b: ByteString)
    ensures AllFit(WitnessReserves(b)) <==> !LongPath(b)
  {
    if ReadLeafPayload(b).Ok? {
      var rest := ReadLeafPayload(b).value.rest;
      if ArrayLen(rest).Ok? { assert ArrayReserves(rest)[0].count == ArrayLen(rest).value.value; }
    }
  }

  /** Some number of witnesses that can be read, and then one whose siblings are too many. */
  ghost predicate ReachesLongPath(b: ByteString, n: nat) {
    exists k :: 0 <= k < n && ReadMany(ReadWitness, b, k).Ok? && LongPath(ReadMany(ReadWitness, b, k).value.rest)
  }

  lemma {:induction false} ReachesLongPathIff(b: ByteString, n: nat)
    ensures AllFit(ManyReserve(ReadWitness, WitnessReserves, b, n)) <==> !ReachesLongPath(b, n)
  {
    ManyReserveIff(ReadWitness, WitnessReserves, b, n);
    forall k: nat | ReadMany(ReadWitness, b, k).Ok?
      ensures AllFit(WitnessReserves(ReadMany(ReadWitness, b, k).value.rest))
         <==> !LongPath(ReadMany(ReadWitness, b, k).value.rest)
    {
      LongPathIff(ReadMany(ReadWitness, b, k).value.rest);
    }
  }

  /** The lists of a collection go wrong in the first length, or in the second one after a
      first list that can be read, or at a witness after some that can be read. */
  ghost predicate LongLists(b: ByteString) {
    LongArray(b) || (ReadPublicList(b).Ok? && LongWitnesses(ReadPublicList(b).value.rest))
  }

  ghost predicate LongWitnesses(b: ByteString) {
    LongArray(b) || (ArrayLen(b).Ok? && ReachesLongPath(ArrayLen(b).value.rest, ArrayLen(b).value.value))
  }

  lemma {:induction false} HeadFits(n: Got<U64>, others: seq<Reservation>)
    ensures AllFit([Reservation(n.value, |n.rest|)] + others) <==> n.value <= |n.rest| && AllFit(others)
  {
    var head := [Reservation(n.value, |n.rest|)];
    FitConcat(head, others);
    assert head[0].count == n.value;
  }

  lemma {:induction false} LongWitnessesIff(b: ByteString)
    ensures AllFit(WitnessListReserves(b)) <==> !LongWitnesses(b)
  {
    if ArrayLen(b).Ok? {
      var n := ArrayLen(b).value;
      HeadFits(n, ManyReserve(ReadWitness, WitnessReserves, n.rest, n.value));
      ReachesLongPathIff(n.rest, n.value);
    }
  }

  lemma {:induction false} LongListsIff(b: ByteString)
    ensures AllFit(ListReserves(b)) <==> !LongLists(b)
  {
    if ArrayLen(b).Ok? {
      var ps := ReadPublicList(b);
      HeadFits(ArrayLen(b).value, if ps.Ok? then WitnessListReserves(ps.value.rest) else []);
      if ps.Ok? { LongWitnessesIff(ps.value.rest); }
    }
  }

  /** A claim with a length that is too large and that the decoder gets to. */
  ghost predicate Overdeclares(b: ByteString) {
    && ExpectArray(b, 2).Ok? && ReadU64(ExpectArray(b, 2).value).Ok?
    && var variant := ReadU64(ExpectArray(b, 2).value).value;
       && ExpectArray(variant.rest, 3).Ok?
       && var fields := ExpectArray(variant.rest, 3).value;
          || (variant.value == VARIANT_UTXO && ReadPublic(fields).Ok? && LongPath(ReadPublic(fields).value.rest))
          || (variant.value == VARIANT_COLLECTION && LongLists(fields))
  }

  /** Decoding a claim reserves more than the bytes left allow if and only if the claim overdeclares. */
  lemma {:induction false} OversizedIff(b: ByteString)
    ensures AllFit(ClaimReserves(b)) <==> !Overdeclares(b)
  {
    if ExpectArray(b, 2).Ok? && ReadU64(ExpectArray(b, 2).value).Ok? {
      var variant := ReadU64(ExpectArray(b, 2).value).value;
      if ExpectArray(variant.rest, 3).Ok? {
        var fields := ExpectArray(variant.rest, 3).value;
        LongListsIff(fields);
        if ReadPublic(fields).Ok? { LongPathIff(ReadPublic(fields).value.rest); }
      }
    }
  }

  /** Any 64-bit length is reserved as declared: here, for a collection that ends behind its first length. */
  lemma {:induction false} AnyLengthReserved(n: U64, b: ByteString)
    requires b == PutArray(2, PutUnsigned(VARIANT_COLLECTION, PutArray(3, PutArray(n, []))))
    ensures ClaimReserves(b) != [] && ClaimReserves(b)[0] == Reservation(n, 0)
  {
    var lists := PutArray(n, []);
    var fields := PutArray(3, lists);
    ArrayRoundTrip(2, PutUnsigned(VARIANT_COLLECTION, fields));
    UnsignedRoundTrip(VARIANT_COLLECTION, fields);
    ArrayRoundTrip(3, lists);
    ArrayRoundTrip(n, []);
  }
}
