/** The claim transaction envelope: its CBOR encoding and decoding. */
module ClaimCodec {
  import opened Bytes
  import opened Claims
  import opened Cbor

  const WIRE_VERSION: nat := 2
  const VARIANT_UTXO: nat := 0
  const VARIANT_COLLECTION: nat := 1

  datatype CborError =
    | Decode
    | UnsupportedVersion(version: nat)
    | ChecksumMismatch
    | NonCanonicalPayload
    | TrailingBytes(position: int, total: nat)
    | InvalidByteLength(expected: nat, actual: nat)
    | InvalidArrayLength(expected: nat, actual: nat)
    | IndefiniteArray
    | UnknownVariant(variant: nat)
    | CollectionArityMismatch(publicCount: nat, witnessCount: nat)

  type Parse<T> = Result<Got<T>, CborError>

  // ----- Encoding -----

  /** Everything fits the length fields, as everything in memory does. */
  predicate SizedWitness(w: ClaimWitness) {
    |w.leafPayload| < TWO_64 && |w.merklePath| < TWO_64 && |w.signingKeyProof| < TWO_64
  }

  predicate Sized(t: ClaimTx) {
    && |t.proof| < TWO_64
    && match t
       case ClaimUtxo(_, w, _) => SizedWitness(w)
       case ClaimCollection(ps, ws, _) =>
         |ps| < TWO_64 && |ws| < TWO_64 && forall i :: 0 <= i < |ws| ==> SizedWitness(ws[i])
  }

  /** Items one after the other, in front of `tail`. */
  function PutAll<T>(put: (T, ByteString) -> ByteString, xs: seq<T>, tail: ByteString): ByteString {
    if xs == [] then tail else put(xs[0], PutAll(put, xs[1..], tail))
  }

  function PutHash(h: Hash, tail: ByteString): ByteString { PutBytes(h, tail) }

  /** The four hashes of the public inputs. */
  function PutHashes(p: ClaimPublicInputs, tail: ByteString): ByteString {
    PutHash(p.perSubTreeRoot, PutHash(p.bundleRoot, PutHash(p.nullifier, PutHash(p.recipient, tail))))
  }

  /** `encode_public_inputs` */
  function PutPublic(p: ClaimPublicInputs, tail: ByteString): ByteString {
    PutArray(7, PutUnsigned(p.subTreeId, PutUnsigned(p.leafIndex, PutUnsigned(p.treeDepth, PutHashes(p, tail)))))
  }

  type SmallWitness = w: ClaimWitness | SizedWitness(w) witness ClaimWitness([], [], [])

  /** `encode_witness` */
  function PutWitness(w: SmallWitness, tail: ByteString): ByteString {
    PutArray(3, PutBytes(w.leafPayload, PutArray(|w.merklePath|,
      PutAll(PutHash, w.merklePath, PutBytes(w.signingKeyProof, tail)))))
  }

  /** `encode_claim_tx` */
  function PutClaim(t: ClaimTx, tail: ByteString): ByteString
    requires Sized(t)
  {
    match t
    case ClaimUtxo(p, w, proof) =>
      PutArray(2, PutUnsigned(VARIANT_UTXO, PutArray(3, PutPublic(p, PutWitness(w, PutBytes(proof, tail))))))
    case ClaimCollection(ps, ws, proof) =>
      PutArray(2, PutUnsigned(VARIANT_COLLECTION, PutArray(3,
        PutArray(|ps|,
                 PutAll(PutPublic, ps, PutArray(|ws|, PutAll<SmallWitness>(PutWitness, ws, PutBytes(proof, tail))))))))
  }

  function EncodePayload(t: ClaimTx): ByteString
    requires Sized(t)
  {
    PutClaim(t, [])
  }

  predicate ArityMatches(t: ClaimTx) {
    t.ClaimCollection? ==> |t.publicInputs| == |t.witnesses|
  }

  function Envelope(payload: ByteString, checksum: Hash): ByteString
    requires |payload| < TWO_64
  {
    PutArray(3, PutUnsigned(WIRE_VERSION, PutBytes(payload, PutHash(checksum, []))))
  }

  // ----- The bytes -----

  /** A 32-byte string: two bytes of head and the hash. */
  lemma {:induction false} HashBytes(h: Hash, tail: ByteString)
    ensures PutHash(h, tail) == [0x58, 32] + h + tail
  {
    HeadBytes(BYTES, 32);
  }

  lemma {:induction false} HashesBytes(p: ClaimPublicInputs, tail: ByteString)
    ensures PutHashes(p, tail)
         == [0x58, 32] + p.perSubTreeRoot + ([0x58, 32] + p.bundleRoot
            + ([0x58, 32] + p.nullifier + ([0x58, 32] + p.recipient + tail)))
  {
    var t3 := PutHash(p.recipient, tail);
    var t2 := PutHash(p.nullifier, t3);
    var t1 := PutHash(p.bundleRoot, t2);
    HashBytes(p.recipient, tail);
    HashBytes(p.nullifier, t3);
    HashBytes(p.bundleRoot, t2);
    HashBytes(p.perSubTreeRoot, t1);
  }

  /** Seven elements: sub-tree, index, depth, root, bundle root, nullifier and recipient. */
  lemma {:induction false} PublicBytes(p: ClaimPublicInputs, tail: ByteString)
    ensures PutPublic(p, tail)
         == [0x87] + (MakeHead(0, p.subTreeId) + (MakeHead(0, p.leafIndex) + (MakeHead(0, p.treeDepth)
            + ([0x58, 32] + p.perSubTreeRoot + ([0x58, 32] + p.bundleRoot
            + ([0x58, 32] + p.nullifier + ([0x58, 32] + p.recipient + tail)))))))
  {
    HashesBytes(p, tail);
    HeadBytes(ARRAY, 7);
  }

  /** Three elements: payload, siblings and signing-key proof. */
  lemma {:induction false} WitnessBytes(w: SmallWitness, tail: ByteString)
    ensures PutWitness(w, tail)
         == [0x83] + MakeHead(2, |w.leafPayload|) + w.leafPayload + MakeHead(4, |w.merklePath|)
            + PutAll(PutHash, w.merklePath, MakeHead(2, |w.signingKeyProof|) + w.signingKeyProof + tail)
  {
    HeadBytes(ARRAY, 3);
    var t := PutBytes(w.signingKeyProof, tail);
    assert t == MakeHead(2, |w.signingKeyProof|) + w.signingKeyProof + tail;
  }

  lemma {:induction false} KindBytes(kind: nat, body: ByteString)
    requires kind < 2
    ensures PutArray(2, PutUnsigned(kind, PutArray(3, body))) == [0x82, kind, 0x83] + body
  {
    HeadBytes(ARRAY, 2);
    HeadBytes(ARRAY, 3);
    HeadBytes(UNSIGNED, kind);
  }

  lemma {:induction false} BlobBytes(x: ByteString, tail: ByteString)
    requires |x| < TWO_64
    ensures PutBytes(x, tail) == MakeHead(2, |x|) + x + tail
  {
  }

  /** A payload is a pair of kind and body.  Kind 0 has one public input, one witness and the proof. */
  lemma {:induction false} UtxoPayloadBytes(p: ClaimPublicInputs, w: SmallWitness, proof: ByteString, tail: ByteString)
    requires |proof| < TWO_64
    ensures PutClaim(ClaimUtxo(p, w, proof), tail)
         == [0x82, 0x00, 0x83] + PutPublic(p, PutWitness(w, MakeHead(2, |proof|) + proof + tail))
  {
    BlobBytes(proof, tail);
    KindBytes(0, PutPublic(p, PutWitness(w, PutBytes(proof, tail))));
  }

  /** Kind 1 has a list of public inputs, a list of witnesses and the proof. */
  lemma {:induction false} CollectionPayloadBytes(ps: seq<ClaimPublicInputs>, ws: seq<SmallWitness>, proof: ByteString,
                                                  tail: ByteString, witnesses: ByteString)
    requires |ps| < TWO_64 && |ws| < TWO_64 && |proof| < TWO_64
    requires witnesses == PutAll<SmallWitness>(PutWitness, ws, MakeHead(2, |proof|) + proof + tail)
    ensures PutClaim(ClaimCollection(ps, ws, proof), tail)
         == [0x82, 0x01, 0x83] + (MakeHead(4, |ps|) + PutAll(PutPublic, ps, MakeHead(4, |ws|) + witnesses))
  {
    BlobBytes(proof, tail);
    KindBytes(1, PutArray(|ps|, PutAll(PutPublic, ps, PutArray(|ws|, witnesses))));
  }

  /** An envelope: an array of version 2, the payload and its checksum. */
  lemma {:induction false} EnvelopeBytesOf(payload: ByteString, checksum: Hash)
    requires |payload| < TWO_64
    ensures Envelope(payload, checksum)
         == [0x83, 0x02] + MakeHead(2, |payload|) + payload + [0x58, 32] + checksum
  {
    HashBytes(checksum, []);
    HeadBytes(ARRAY, 3);
    HeadBytes(UNSIGNED, 2);
  }

  // ----- Decoding -----

  function OrDecode<T>(x: Option<Got<T>>): Parse<T> {
    match x case Some(g) => Ok(g) case None => Err(Decode)
  }

  function ReadU64(b: ByteString): Parse<U64> { OrDecode(ReadUnsigned(b)) }

  function ReadU8(b: ByteString): Parse<Byte> {
    match ReadUnsigned(b)
    case Some(Got(n, rest)) => if n < 256 then Ok(Got(n, rest)) else Err(Decode)
    case None => Err(Decode)
  }

  /** `array_len` */
  function ArrayLen(b: ByteString): Parse<U64> {
    match ReadLength(b, ARRAY)
    case Some(Got(Some(n), rest)) => Ok(Got(n, rest))
    case Some(Got(None, _)) => Err(IndefiniteArray)
    case None => Err(Decode)
  }

  /** `expect_array`: the input after the header. */
  function ExpectArray(b: ByteString, expected: nat): Result<ByteString, CborError> {
    var got :- ArrayLen(b);
    if got.value != expected then Err(InvalidArrayLength(expected, got.value)) else Ok(got.rest)
  }

  /** `read_hash` */
  function ReadHash(b: ByteString): Parse<Hash> {
    var got :- OrDecode(ReadBytes(b));
    if |got.value| != 32 then Err(InvalidByteLength(32, |got.value|)) else Ok(Got(got.value, got.rest))
  }

  datatype Hashes = Hashes(root: Hash, bundle: Hash, nullifier: Hash, recipient: Hash)

  function ReadHashes(b: ByteString): Parse<Hashes> {
    var root :- ReadHash(b);
    var bundle :- ReadHash(root.rest);
    var nullifier :- ReadHash(bundle.rest);
    var recipient :- ReadHash(nullifier.rest);
    Ok(Got(Hashes(root.value, bundle.value, nullifier.value, recipient.value), recipient.rest))
  }

  /** `decode_public_inputs` */
  function ReadPublic(b: ByteString): Parse<ClaimPublicInputs> {
    var fields :- ExpectArray(b, 7);
    var id :- ReadU8(fields);
    var index :- ReadU64(id.rest);
    var depth :- ReadU8(index.rest);
    var hs :- ReadHashes(depth.rest);
    Ok(Got(ClaimPublicInputs(id.value, index.value, depth.value, hs.value.root, hs.value.bundle, hs.value.nullifier,
                             hs.value.recipient),
           hs.rest))
  }

  /** The siblings of a witness. */
  function ReadPath(b: ByteString): (r: Parse<seq<Hash>>)
    ensures r.Ok? ==> |r.value.value| < TWO_64
  {
    var count :- ArrayLen(b);
    ReadMany(ReadHash, count.rest, count.value)
  }

  /** The head and the payload of a witness. */
  function ReadLeafPayload(b: ByteString): (r: Parse<ByteString>)
    ensures r.Ok? ==> |r.value.value| < TWO_64
  {
    var fields :- ExpectArray(b, 3);
    OrDecode(ReadBytes(fields))
  }

  /** `decode_witness` */
  function ReadWitness(b: ByteString): Parse<SmallWitness> {
    var payload :- ReadLeafPayload(b);
    var path :- ReadPath(payload.rest);
    var signing :- OrDecode(ReadBytes(path.rest));
    Ok(Got(ClaimWitness(payload.value, path.value, signing.value), signing.rest))
  }

  /** `decode_claim_tx` */
  function ReadClaim(b: ByteString): (r: Parse<ClaimTx>)
    ensures r.Ok? ==> Sized(r.value.value) && ArityMatches(r.value.value)
  {
    var fields :- ExpectArray(b, 2);
    var variant :- ReadU64(fields);
    if variant.value == VARIANT_UTXO then ReadUtxoClaim(variant.rest)
    else if variant.value == VARIANT_COLLECTION then ReadCollection(variant.rest)
    else Err(UnknownVariant(variant.value))
  }

  /** `decode_utxo` */
  function ReadUtxoClaim(b: ByteString): (r: Parse<ClaimTx>)
    ensures r.Ok? ==> Sized(r.value.value) && ArityMatches(r.value.value)
  {
    var fields :- ExpectArray(b, 3);
    var p :- ReadPublic(fields);
    var w :- ReadWitness(p.rest);
    var proof :- OrDecode(ReadBytes(w.rest));
    Ok(Got(ClaimUtxo(p.value, w.value, proof.value), proof.rest))
  }

  function ReadPublicList(b: ByteString): (r: Parse<seq<ClaimPublicInputs>>)
    ensures r.Ok? ==> |r.value.value| < TWO_64
  {
    var count :- ArrayLen(b);
    ReadMany(ReadPublic, count.rest, count.value)
  }

  function ReadWitnessList(b: ByteString): (r: Parse<seq<SmallWitness>>)
    ensures r.Ok? ==> |r.value.value| < TWO_64
  {
    var count :- ArrayLen(b);
    ReadMany(ReadWitness, count.rest, count.value)
  }

  /** `decode_collection` */
  function ReadCollection(b: ByteString): (r: Parse<ClaimTx>)
    ensures r.Ok? ==> Sized(r.value.value) && ArityMatches(r.value.value)
  {
    var fields :- ExpectArray(b, 3);
    var ps :- ReadPublicList(fields);
    var ws :- ReadWitnessList(ps.rest);
    if |ps.value| != |ws.value| then Err(CollectionArityMismatch(|ps.value|, |ws.value|))
    else
      var proof :- OrDecode(ReadBytes(ws.rest));
      Ok(Got(ClaimCollection(ps.value, ws.value, proof.value), proof.rest))
  }

  /** `expect_end` */
  function ExpectEnd(rest: ByteString, total: nat): Result<(), CborError> {
    if rest == [] then Ok(()) else Err(TrailingBytes(total - |rest|, total))
  }

  /** `decode_payload` */
  function DecodePayload(payload: ByteString): (r: Result<ClaimTx, CborError>)
    ensures r.Ok? ==> Sized(r.value) && ArityMatches(r.value)
  {
    var got :- ReadClaim(payload);
    var _ :- ExpectEnd(got.rest, |payload|);
    Ok(got.value)
  }

  /** What an envelope carries. */
  datatype Sealed = Sealed(payload: ByteString, checksum: Hash)

  /** `from_cbor`, as far as the envelope goes. */
  function ReadEnvelope(b: ByteString): (r: Result<Sealed, CborError>)
    ensures r.Ok? ==> |r.value.payload| < TWO_64
  {
    var fields :- ExpectArray(b, 3);
    var version :- ReadU64(fields);
    if version.value != WIRE_VERSION then Err(UnsupportedVersion(version.value))
    else
      var payload :- OrDecode(ReadBytes(version.rest));
      var checksum :- ReadHash(payload.rest);
      var _ :- ExpectEnd(checksum.rest, |b|);
      Ok(Sealed(payload.value, checksum.value))
  }

  /** `from_cbor` */
  function FromCbor(H: HashFn, b: ByteString): Result<ClaimTx, CborError> {
    var got :- ReadEnvelope(b);
    if H(got.payload) != got.checksum then Err(ChecksumMismatch)
    else
      var decoded :- DecodePayload(got.payload);
      if EncodePayload(decoded) != got.payload then Err(NonCanonicalPayload) else Ok(decoded)
  }

  // ----- Which check fails -----

  /** An array is refused for its length exactly when it has another, and as indefinite exactly
      when it starts with 0x9F; a byte string is refused exactly when it has not 32 bytes. */
  lemma {:induction false} ArrayErrors(b: ByteString, expected: nat, actual: nat)
    ensures ExpectArray(b, expected) == Err(IndefiniteArray) <==> b != [] && b[0] == 0x9F
    ensures ExpectArray(b, expected) == Err(InvalidArrayLength(expected, actual)) <==>
              ArrayLen(b).Ok? && ArrayLen(b).value.value == actual != expected
    ensures ReadHash(b) == Err(InvalidByteLength(32, actual)) <==>
              ReadBytes(b).Some? && |ReadBytes(b).value.value| == actual != 32
  {
    IndefiniteHead(b);
    if b != [] && b[0] == 0x9F { assert b[0] / 32 == 4 && b[0] % 32 == 31; }
  }

  /** An error that any part of the input can have. */
  predicate Structural(e: CborError) {
    e.Decode? || e.InvalidByteLength? || e.InvalidArrayLength? || e.IndefiniteArray?
  }

  lemma {:induction false} ManyStructural<T>(read: ByteString -> Parse<T>, b: ByteString, n: nat)
    requires forall x: ByteString :: read(x).Err? ==> Structural(read(x).error)
    ensures ReadMany(read, b, n).Err? ==> Structural(ReadMany(read, b, n).error)
    decreases n
  {
    if n > 0 && read(b).Ok? { ManyStructural(read, read(b).value.rest, n - 1); }
  }

  lemma {:induction false} HashStructural(b: ByteString)
    ensures ReadHash(b).Err? ==> Structural(ReadHash(b).error)
  {
  }

  lemma {:induction false} HashesStructural(b: ByteString)
    ensures ReadHashes(b).Err? ==> Structural(ReadHashes(b).error)
  {
    HashStructural(b);
    if ReadHash(b).Ok? {
      var b1 := ReadHash(b).value.rest;
      HashStructural(b1);
      if ReadHash(b1).Ok? {
        var b2 := ReadHash(b1).value.rest;
        HashStructural(b2);
        if ReadHash(b2).Ok? { HashStructural(ReadHash(b2).value.rest); }
      }
    }
  }

  lemma {:induction false} PublicStructural(b: ByteString)
    ensures ReadPublic(b).Err? ==> Structural(ReadPublic(b).error)
  {
    var fields := ExpectArray(b, 7);
    if fields.Ok? && ReadU8(fields.value).Ok? {
      var index := ReadU64(ReadU8(fields.value).value.rest);
      if index.Ok? && ReadU8(index.value.rest).Ok? { HashesStructural(ReadU8(index.value.rest).value.rest); }
    }
  }

  lemma {:induction false} WitnessStructural(b: ByteString)
    ensures ReadWitness(b).Err? ==> Structural(ReadWitness(b).error)
  {
    if ReadLeafPayload(b).Ok? && ArrayLen(ReadLeafPayload(b).value.rest).Ok? {
      var n := ArrayLen(ReadLeafPayload(b).value.rest).value;
      ManyStructural(ReadHash, n.rest, n.value);
    }
  }

  lemma {:induction false} ListsStructural(b: ByteString)
    ensures ReadPublicList(b).Err? ==> Structural(ReadPublicList(b).error)
    ensures ReadWitnessList(b).Err? ==> Structural(ReadWitnessList(b).error)
  {
    if ArrayLen(b).Ok? {
      var n := ArrayLen(b).value;
      forall x: ByteString ensures ReadPublic(x).Err? ==> Structural(ReadPublic(x).error) { PublicStructural(x); }
      forall x: ByteString ensures ReadWitness(x).Err? ==> Structural(ReadWitness(x).error) { WitnessStructural(x); }
      ManyStructural(ReadPublic, n.rest, n.value);
      ManyStructural(ReadWitness, n.rest, n.value);
    }
  }

  /** Two lists that can be read, of these lengths, which differ. */
  ghost predicate Uneven(b: ByteString, publics: nat, witnesses: nat) {
    && ExpectArray(b, 3).Ok?
    && var ps := ReadPublicList(ExpectArray(b, 3).value);
       && ps.Ok? && ReadWitnessList(ps.value.rest).Ok?
       && |ps.value.value| == publics && |ReadWitnessList(ps.value.rest).value.value| == witnesses
       && publics != witnesses
  }

  lemma {:induction false} CollectionErrors(b: ByteString, publics: nat, witnesses: nat)
    ensures ReadCollection(b).Err? ==>
              Structural(ReadCollection(b).error) || ReadCollection(b).error.CollectionArityMismatch?
    ensures ReadCollection(b) == Err(CollectionArityMismatch(publics, witnesses)) <==> Uneven(b, publics, witnesses)
  {
    if ExpectArray(b, 3).Ok? {
      ListsStructural(ExpectArray(b, 3).value);
      if ReadPublicList(ExpectArray(b, 3).value).Ok? {
        ListsStructural(ReadPublicList(ExpectArray(b, 3).value).value.rest);
      }
    }
  }

  lemma {:induction false} UtxoStructural(b: ByteString)
    ensures ReadUtxoClaim(b).Err? ==> Structural(ReadUtxoClaim(b).error)
  {
    if ExpectArray(b, 3).Ok? {
      PublicStructural(ExpectArray(b, 3).value);
      if ReadPublic(ExpectArray(b, 3).value).Ok? { WitnessStructural(ReadPublic(ExpectArray(b, 3).value).value.rest); }
    }
  }

  /** The number in front of a claim, which names its kind. */
  ghost function KindOf(b: ByteString): Option<Got<U64>> {
    if ExpectArray(b, 2).Ok? && ReadU64(ExpectArray(b, 2).value).Ok? then
      Some(ReadU64(ExpectArray(b, 2).value).value)
    else None
  }

  /** The errors that a payload can have. */
  predicate OfPayload(e: CborError) {
    Structural(e) || e.UnknownVariant? || e.CollectionArityMismatch? || e.TrailingBytes?
  }

  /** A claim of no known kind. */
  ghost predicate Unknown(b: ByteString, kind: nat) { KindOf(b).Some? && KindOf(b).value.value == kind > 1 }

  /** A collection whose lists have these lengths, which differ. */
  ghost predicate UnevenClaim(b: ByteString, publics: nat, witnesses: nat) {
    KindOf(b).Some? && KindOf(b).value.value == 1 && Uneven(KindOf(b).value.rest, publics, witnesses)
  }

  lemma {:induction false} KindErrors(b: ByteString, kind: nat, publics: nat, witnesses: nat)
    ensures ReadClaim(b).Err? ==> OfPayload(ReadClaim(b).error) && !ReadClaim(b).error.TrailingBytes?
    ensures ReadClaim(b) == Err(UnknownVariant(kind)) <==> Unknown(b, kind)
    ensures ReadClaim(b) == Err(CollectionArityMismatch(publics, witnesses)) <==> UnevenClaim(b, publics, witnesses)
  {
    if KindOf(b).Some? {
      if KindOf(b).value.value == 0 {
        UtxoStructural(KindOf(b).value.rest);
      } else if KindOf(b).value.value == 1 {
        CollectionErrors(KindOf(b).value.rest, publics, witnesses);
      }
    }
  }

  lemma {:induction false} EndErrors(b: ByteString, r: Parse<ClaimTx>, end: Result<(), CborError>)
    requires r == ReadClaim(b) && end == ExpectEnd(if r.Ok? then r.value.rest else [], |b|)
    ensures r.Err? ==> DecodePayload(b) == Err(r.error)
    ensures r.Ok? && end.Ok? ==> DecodePayload(b).Ok?
    ensures r.Ok? && end.Err? ==> DecodePayload(b) == Err(end.error)
  {
  }

  lemma {:induction false} EndIff(rest: ByteString, total: nat, position: nat, n: nat)
    ensures ExpectEnd(rest, total) == Err(TrailingBytes(position, n)) <==>
              rest != [] && position == total - |rest| && n == total
  {
  }

  /** An unknown kind, lists of different lengths and input behind the claim: each has its
      error exactly when it is there, with the numbers found. */
  lemma {:induction false} PayloadErrors(b: ByteString, r: Parse<ClaimTx>, kind: nat, m: nat, n: nat)
    requires r == ReadClaim(b)
    ensures DecodePayload(b).Err? ==> OfPayload(DecodePayload(b).error)
    ensures DecodePayload(b) == Err(UnknownVariant(kind)) <==> Unknown(b, kind)
    ensures DecodePayload(b) == Err(CollectionArityMismatch(m, n)) <==> UnevenClaim(b, m, n)
    ensures DecodePayload(b) == Err(TrailingBytes(m, n)) <==>
              r.Ok? && r.value.rest != [] && m == |b| - |r.value.rest| && n == |b|
  {
    var rest := if r.Ok? then r.value.rest else [];
    KindErrors(b, kind, m, n);
    EndErrors(b, r, ExpectEnd(rest, |b|));
    EndIff(rest, |b|, m, n);
  }

  /** The version of an envelope. */
  ghost function VersionOf(b: ByteString): Option<U64> {
    if ExpectArray(b, 3).Ok? && ReadU64(ExpectArray(b, 3).value).Ok? then
      Some(ReadU64(ExpectArray(b, 3).value).value.value)
    else None
  }

  lemma {:induction false} SealedErrors(b: ByteString, version: nat)
    ensures ReadEnvelope(b).Err? ==>
              var e := ReadEnvelope(b).error;
              Structural(e) || e.UnsupportedVersion? || e.TrailingBytes?
    ensures ReadEnvelope(b) == Err(UnsupportedVersion(version)) <==> VersionOf(b) == Some(version) && version != 2
  {
  }

  /** A version error exactly when the version can be read and is not 2, a checksum error
      exactly when the envelope is well formed and its checksum is not the payload's, and a
      canonicity error exactly when the checksum is right and the payload decodes, but is not
      the encoding of what it decodes to. */
  lemma {:induction false} EnvelopeErrors(H: HashFn, b: ByteString, got: Result<Sealed, CborError>, version: nat)
    requires got == ReadEnvelope(b)
    ensures FromCbor(H, b) == Err(UnsupportedVersion(version)) <==> VersionOf(b) == Some(version) && version != 2
    ensures FromCbor(H, b) == Err(ChecksumMismatch) <==> got.Ok? && H(got.value.payload) != got.value.checksum
    ensures FromCbor(H, b) == Err(NonCanonicalPayload) <==>
              && got.Ok? && H(got.value.payload) == got.value.checksum && DecodePayload(got.value.payload).Ok?
              && EncodePayload(DecodePayload(got.value.payload).value) != got.value.payload
  {
    SealedErrors(b, version);
    if got.Ok? { PayloadErrors(got.value.payload, ReadClaim(got.value.payload), 0, 0, 0); }
  }

  // ----- Round trip -----

  ghost predicate RoundTrips<T>(read: ByteString -> Parse<T>, put: (T, ByteString) -> ByteString, x: T,
                                tail: ByteString) {
    read(put(x, tail)) == Ok(Got(x, tail))
  }

  lemma {:induction false} ManyRoundTrip<T>(read: ByteString -> Parse<T>, put: (T, ByteString) -> ByteString,
                                            xs: seq<T>, tail: ByteString)
    requires forall i, t :: 0 <= i < |xs| ==> RoundTrips(read, put, xs[i], t)
    ensures ReadMany(read, PutAll(put, xs, tail), |xs|) == Ok(Got(xs, tail))
  {
    if xs != [] {
      ManyRoundTrip(read, put, xs[1..], tail);
      assert RoundTrips(read, put, xs[0], PutAll(put, xs[1..], tail));
      assert [xs[0]] + xs[1..] == xs;
    }
  }

  lemma {:induction false} FixedArrayRoundTrip(n: U64, tail: ByteString)
    ensures ArrayLen(PutArray(n, tail)) == Ok(Got(n, tail)) && ExpectArray(PutArray(n, tail), n) == Ok(tail)
  {
    ArrayRoundTrip(n, tail);
  }

  lemma {:induction false} HashRoundTrip(h: Hash, tail: ByteString)
    ensures ReadHash(PutHash(h, tail)) == Ok(Got(h, tail))
  {
    BytesRoundTrip(h, tail);
  }

  lemma {:induction false} HashesRoundTrip(p: ClaimPublicInputs, tail: ByteString)
    ensures ReadHashes(PutHashes(p, tail))
         == Ok(Got(Hashes(p.perSubTreeRoot, p.bundleRoot, p.nullifier, p.recipient), tail))
  {
    var t3 := PutHash(p.recipient, tail);
    var t2 := PutHash(p.nullifier, t3);
    HashRoundTrip(p.perSubTreeRoot, PutHash(p.bundleRoot, t2));
    HashRoundTrip(p.bundleRoot, t2);
    HashRoundTrip(p.nullifier, t3);
    HashRoundTrip(p.recipient, tail);
  }

  lemma {:induction false} PublicFrom(b: ByteString, b1: ByteString, id: Got<Byte>, index: Got<U64>, depth: Got<Byte>,
                                      hs: Got<Hashes>)
    requires ExpectArray(b, 7) == Ok(b1) && ReadU8(b1) == Ok(id) && ReadU64(id.rest) == Ok(index)
    requires ReadU8(index.rest) == Ok(depth) && ReadHashes(depth.rest) == Ok(hs)
    ensures ReadPublic(b)
         == Ok(Got(ClaimPublicInputs(id.value, index.value, depth.value, hs.value.root, hs.value.bundle,
                                                     hs.value.nullifier, hs.value.recipient), hs.rest))
  {
  }

  lemma {:induction false} U8RoundTrip(n: Byte, tail: ByteString)
    ensures ReadU8(PutUnsigned(n, tail)) == Ok(Got(n, tail))
  {
    UnsignedRoundTrip(n, tail);
  }

  lemma {:induction false} U64RoundTrip(n: U64, tail: ByteString)
    ensures ReadU64(PutUnsigned(n, tail)) == Ok(Got(n, tail))
  {
    UnsignedRoundTrip(n, tail);
  }

  lemma {:induction false} PublicRoundTrip(p: ClaimPublicInputs, tail: ByteString)
    ensures ReadPublic(PutPublic(p, tail)) == Ok(Got(p, tail))
  {
    var t4 := PutHashes(p, tail);
    var t3 := PutUnsigned(p.treeDepth, t4);
    var t2 := PutUnsigned(p.leafIndex, t3);
    var t1 := PutUnsigned(p.subTreeId, t2);
    FixedArrayRoundTrip(7, t1);
    U8RoundTrip(p.subTreeId, t2);
    U64RoundTrip(p.leafIndex, t3);
    U8RoundTrip(p.treeDepth, t4);
    HashesRoundTrip(p, tail);
    PublicFrom(PutArray(7, t1), t1, Got(p.subTreeId, t2), Got(p.leafIndex, t3), Got(p.treeDepth, t4),
               Got(Hashes(p.perSubTreeRoot, p.bundleRoot, p.nullifier, p.recipient), tail));
  }

  lemma {:induction false} PathRoundTrip(path: seq<Hash>, tail: ByteString)
    requires |path| < TWO_64
    ensures ReadPath(PutArray(|path|, PutAll(PutHash, path, tail))) == Ok(Got(path, tail))
  {
    FixedArrayRoundTrip(|path|, PutAll(PutHash, path, tail));
    forall i, t | 0 <= i < |path| ensures RoundTrips(ReadHash, PutHash, path[i], t) { HashRoundTrip(path[i], t); }
    ManyRoundTrip(ReadHash, PutHash, path, tail);
  }

  lemma {:induction false} WitnessRoundTrip(w: SmallWitness, tail: ByteString)
    ensures ReadWitness(PutWitness(w, tail)) == Ok(Got(w, tail))
  {
    var t3 := PutBytes(w.signingKeyProof, tail);
    var t2 := PutArray(|w.merklePath|, PutAll(PutHash, w.merklePath, t3));
    FixedArrayRoundTrip(3, PutBytes(w.leafPayload, t2));
    BytesRoundTrip(w.leafPayload, t2);
    PathRoundTrip(w.merklePath, t3);
    BytesRoundTrip(w.signingKeyProof, tail);
  }

  lemma {:induction false} UtxoRoundTrip(p: ClaimPublicInputs, w: SmallWitness, proof: ByteString, tail: ByteString)
    requires |proof| < TWO_64
    ensures ReadUtxoClaim(PutArray(3, PutPublic(p, PutWitness(w, PutBytes(proof, tail)))))
         == Ok(Got(ClaimUtxo(p, w, proof), tail))
  {
    var t2 := PutBytes(proof, tail);
    var t1 := PutWitness(w, t2);
    FixedArrayRoundTrip(3, PutPublic(p, t1));
    PublicRoundTrip(p, t1);
    WitnessRoundTrip(w, t2);
    BytesRoundTrip(proof, tail);
  }

  lemma {:induction false} CollectionRoundTrip(ps: seq<ClaimPublicInputs>, ws: seq<SmallWitness>, proof: ByteString,
                                               tail: ByteString)
    requires |ps| == |ws| < TWO_64 && |proof| < TWO_64
    ensures ReadCollection(PutArray(3,
                                    PutArray(|ps|,
                                             PutAll(PutPublic, ps,
                                                    PutArray(|ws|, PutAll(PutWitness, ws, PutBytes(proof, tail)))))))
         == Ok(Got(ClaimCollection(ps, ws, proof), tail))
  {
    var t4 := PutBytes(proof, tail);
    var t3 := PutAll(PutWitness, ws, t4);
    var t2 := PutArray(|ws|, t3);
    var t1 := PutAll(PutPublic, ps, t2);
    FixedArrayRoundTrip(3, PutArray(|ps|, t1));
    FixedArrayRoundTrip(|ps|, t1);
    forall i, t | 0 <= i < |ps| ensures RoundTrips(ReadPublic, PutPublic, ps[i], t) { PublicRoundTrip(ps[i], t); }
    ManyRoundTrip(ReadPublic, PutPublic, ps, t2);
    FixedArrayRoundTrip(|ws|, t3);
    forall i, t | 0 <= i < |ws| ensures RoundTrips(ReadWitness, PutWitness, ws[i], t) { WitnessRoundTrip(ws[i], t); }
    ManyRoundTrip(ReadWitness, PutWitness, ws, t4);
    BytesRoundTrip(proof, tail);
  }

  lemma {:induction false} ClaimRoundTrip(t: ClaimTx, tail: ByteString)
    requires Sized(t) && ArityMatches(t)
    ensures ReadClaim(PutClaim(t, tail)) == Ok(Got(t, tail))
  {
    match t
    case ClaimUtxo(p, w, proof) =>
      var body := PutArray(3, PutPublic(p, PutWitness(w, PutBytes(proof, tail))));
      FixedArrayRoundTrip(2, PutUnsigned(VARIANT_UTXO, body));
      UnsignedRoundTrip(VARIANT_UTXO, body);
      UtxoRoundTrip(p, w, proof, tail);
    case ClaimCollection(ps, ws, proof) =>
      var body := PutArray(3,
                           PutArray(|ps|,
                                    PutAll(PutPublic, ps,
                                           PutArray(|ws|,
                                                    PutAll<SmallWitness>(PutWitness, ws, PutBytes(proof, tail))))));
      FixedArrayRoundTrip(2, PutUnsigned(VARIANT_COLLECTION, body));
      UnsignedRoundTrip(VARIANT_COLLECTION, body);
      CollectionRoundTrip(ps, ws, proof, tail);
  }

  lemma {:induction false} EnvelopeReadsBack(payload: ByteString, checksum: Hash)
    requires |payload| < TWO_64
    ensures ReadEnvelope(Envelope(payload, checksum)) == Ok(Sealed(payload, checksum))
  {
    var t2 := PutHash(checksum, []);
    var t1 := PutBytes(payload, t2);
    FixedArrayRoundTrip(3, PutUnsigned(WIRE_VERSION, t1));
    U64RoundTrip(WIRE_VERSION, t1);
    BytesRoundTrip(payload, t2);
    HashRoundTrip(checksum, []);
  }

  lemma {:induction false} PayloadRoundTrip(t: ClaimTx)
    requires Sized(t) && ArityMatches(t)
    ensures DecodePayload(EncodePayload(t)) == Ok(t)
  {
    ClaimRoundTrip(t, []);
  }

  lemma {:induction false} OpenedClaim(H: HashFn, b: ByteString, payload: ByteString, t: ClaimTx)
    requires ReadEnvelope(b) == Ok(Sealed(payload, H(payload))) && DecodePayload(payload) == Ok(t)
    requires Sized(t) && EncodePayload(t) == payload
    ensures FromCbor(H, b) == Ok(t)
  {
  }

  lemma {:induction false} SealedRoundTrip(H: HashFn, t: ClaimTx, payload: ByteString, b: ByteString)
    requires Sized(t) && ArityMatches(t) && payload == EncodePayload(t)
    requires ReadEnvelope(b) == Ok(Sealed(payload, H(payload)))
    ensures FromCbor(H, b) == Ok(t)
  {
    PayloadRoundTrip(t);
    OpenedClaim(H, b, payload, t);
  }

  /** `from_cbor(to_cbor(t)) = t` for every claim whose lists match: `b` is what `to_cbor` makes of it. */
  lemma {:induction false} EnvelopeRoundTrip(H: HashFn, t: ClaimTx, payload: ByteString, checksum: Hash, b: ByteString)
    requires Sized(t) && ArityMatches(t) && payload == EncodePayload(t) && |payload| < TWO_64
    requires checksum == H(payload) && b == Envelope(payload, checksum)
    ensures FromCbor(H, b) == Ok(t)
  {
    SealedEnvelope(payload, checksum, b);
    SealedRoundTrip(H, t, payload, b);
  }

  lemma {:induction false} SealedEnvelope(payload: ByteString, checksum: Hash, b: ByteString)
    requires |payload| < TWO_64 && b == Envelope(payload, checksum)
    ensures ReadEnvelope(b) == Ok(Sealed(payload, checksum))
  {
    EnvelopeReadsBack(payload, checksum);
  }

  /** Different claims have different payloads. */
  lemma {:induction false} PayloadInjective(t: ClaimTx, u: ClaimTx)
    requires Sized(t) && Sized(u) && ArityMatches(t) && ArityMatches(u) && EncodePayload(t) == EncodePayload(u)
    ensures t == u
  {
    PayloadRoundTrip(t);
    PayloadRoundTrip(u);
  }

  // ----- What an accepted envelope is -----

  /** An accepted envelope carries the one encoding of its claim, and its hash. */
  lemma {:induction false} AcceptedPayload(H: HashFn, b: ByteString, t: ClaimTx)
    requires FromCbor(H, b) == Ok(t)
    ensures Sized(t) && ArityMatches(t) && |EncodePayload(t)| < TWO_64
    ensures ReadEnvelope(b) == Ok(Sealed(EncodePayload(t), H(EncodePayload(t))))
  {
  }

  /** Two accepted envelopes carry the same payload exactly when they decode to the same claim. */
  lemma {:induction false} AcceptedAgree(H: HashFn, a: ByteString, b: ByteString, t: ClaimTx, u: ClaimTx)
    requires FromCbor(H, a) == Ok(t) && FromCbor(H, b) == Ok(u)
    ensures ReadEnvelope(a) == ReadEnvelope(b) <==> t == u
  {
    AcceptedPayload(H, a, t);
    AcceptedPayload(H, b, u);
    if ReadEnvelope(a) == ReadEnvelope(b) { PayloadInjective(t, u); }
  }

  lemma {:induction false} ArrayAtLeast(b: ByteString, n: nat, rest: ByteString)
    requires ExpectArray(b, n) == Ok(rest)
    ensures n < TWO_64 && |b| - |rest| >= |MakeHead(ARRAY, n)|
    ensures |b| - |rest| == |MakeHead(ARRAY, n)| ==> b == PutArray(n, rest)
  {
    HeadAtLeast(b, ARRAY, n, rest);
  }

  lemma {:induction false} BytesAtLeast(b: ByteString, x: ByteString, rest: ByteString)
    requires ReadBytes(b) == Some(Got(x, rest))
    ensures |x| < TWO_64 && |b| - |rest| >= |MakeHead(BYTES, |x|)| + |x|
    ensures |b| - |rest| == |MakeHead(BYTES, |x|)| + |x| ==> b == PutBytes(x, rest)
  {
    var after := ReadHead(b).value.rest;
    HeadAtLeast(b, BYTES, |x|, after);
    assert after == x + rest;
  }

  lemma {:induction false} EnvelopeAtLeast(b: ByteString, payload: ByteString, checksum: Hash)
    requires ReadEnvelope(b) == Ok(Sealed(payload, checksum))
    ensures |payload| < TWO_64 && |b| >= |Envelope(payload, checksum)|
    ensures b == Envelope(payload, checksum) <==> |b| == |Envelope(payload, checksum)|
  {
    var b1 := ExpectArray(b, 3).value;
    var b2 := ReadU64(b1).value.rest;
    var b3 := ReadBytes(b2).value.rest;
    ArrayAtLeast(b, 3, b1);
    HeadAtLeast(b1, UNSIGNED, WIRE_VERSION, b2);
    BytesAtLeast(b2, payload, b3);
    BytesAtLeast(b3, checksum, []);
  }

  lemma {:induction false} SealedAtLeast(b: ByteString, payload: ByteString, checksum: Hash, made: ByteString)
    requires ReadEnvelope(b) == Ok(Sealed(payload, checksum)) && |payload| < TWO_64
    requires made == Envelope(payload, checksum)
    ensures |b| >= |made| && (b == made <==> |b| == |made|)
  {
    EnvelopeAtLeast(b, payload, checksum);
  }

  lemma {:induction false} AcceptedSeal(H: HashFn, b: ByteString, t: ClaimTx, payload: ByteString)
    requires FromCbor(H, b) == Ok(t) && Sized(t) && payload == EncodePayload(t)
    ensures ArityMatches(t) && ReadEnvelope(b) == Ok(Sealed(payload, H(payload)))
  {
    AcceptedPayload(H, b, t);
  }

  /** An accepted envelope is at least as long as the one the encoder makes, and is that
      one exactly when it is no longer: only heads can be padded. */
  lemma {:induction false} AcceptedIsCanonicalIff(H: HashFn, b: ByteString, t: ClaimTx, payload: ByteString,
                                                  made: ByteString)
    requires FromCbor(H, b) == Ok(t)
    requires Sized(t) && payload == EncodePayload(t) && |payload| < TWO_64 && made == Envelope(payload, H(payload))
    ensures |b| >= |made| && (b == made <==> |b| == |made|)
  {
    AcceptedSeal(H, b, t, payload);
    SealedAtLeast(b, payload, H(payload), made);
  }

  /** The envelope with its version in a head of two bytes. */
  function LooseEnvelope(payload: ByteString, checksum: Hash): ByteString
    requires |payload| < TWO_64
  {
    PutArray(3, [24, 2] + PutBytes(payload, PutHash(checksum, [])))
  }

  lemma {:induction false} LooseReadsBack(payload: ByteString, checksum: Hash)
    requires |payload| < TWO_64
    ensures ReadEnvelope(LooseEnvelope(payload, checksum)) == Ok(Sealed(payload, checksum))
    ensures |LooseEnvelope(payload, checksum)| == |Envelope(payload, checksum)| + 1
  {
    var t2 := PutHash(checksum, []);
    var t1 := PutBytes(payload, t2);
    FixedArrayRoundTrip(3, [24, 2] + t1);
    LooseVersion(t1);
    BytesRoundTrip(payload, t2);
    HashRoundTrip(checksum, []);
  }

  lemma {:induction false} LooseSealed(payload: ByteString, checksum: Hash, b: ByteString)
    requires |payload| < TWO_64 && b == LooseEnvelope(payload, checksum)
    ensures ReadEnvelope(b) == Ok(Sealed(payload, checksum)) && b != Envelope(payload, checksum)
  {
    LooseReadsBack(payload, checksum);
  }

  /** Not every accepted envelope is the encoder's: a version in a longer head passes too. */
  lemma {:induction false} LooseEnvelopeAccepted(H: HashFn, t: ClaimTx, payload: ByteString, b: ByteString)
    requires Sized(t) && ArityMatches(t) && payload == EncodePayload(t) && |payload| < TWO_64
    requires b == LooseEnvelope(payload, H(payload))
    ensures FromCbor(H, b) == Ok(t) && b != Envelope(payload, H(payload))
  {
    LooseSealed(payload, H(payload), b);
    SealedRoundTrip(H, t, payload, b);
  }

  lemma {:induction false} LooseVersion(tail: ByteString)
    ensures ReadU64([24, 2] + tail) == Ok(Got(WIRE_VERSION, tail))
  {
    var b: ByteString := [24, 2] + tail;
    assert b[1..2] == [2] && b[2..] == tail;
    assert FromBE([2]) == 2 by { assert [2][..0] == []; }
  }
}
