/** The codec as it runs: an encoder that appends to a buffer and a decoder whose
    cursor moves through the input, both proved against the codec's functions. */
module ClaimWire {
  import opened Bytes
  import opened Claims
  import opened Cbor
  import opened ClaimCodec
  import opened Reservations

  // ----- Encoding -----

  class Encoder {
    var out: ByteString

    constructor ()
      ensures out == []
    {
      out := [];
    }

    method Append(x: ByteString, ghost tail: ByteString)
      modifies this
      ensures out + tail == old(out) + (x + tail)
    {
      out := out + x;
    }

    method Unsigned(n: U64, ghost tail: ByteString)
      modifies this
      ensures out + tail == old(out) + PutUnsigned(n, tail)
    {
      Append(MakeHead(UNSIGNED, n), tail);
    }

    method Array(n: U64, ghost tail: ByteString)
      modifies this
      ensures out + tail == old(out) + PutArray(n, tail)
    {
      Append(MakeHead(ARRAY, n), tail);
    }

    method Bytes(x: ByteString, ghost tail: ByteString)
      requires |x| < TWO_64
      modifies this
      ensures out + tail == old(out) + PutBytes(x, tail)
    {
      Append(MakeHead(BYTES, |x|), x + tail);
      Append(x, tail);
    }
  }

  /** `encode_public_inputs` */
  method EncodePublicInputs(e: Encoder, p: ClaimPublicInputs, ghost tail: ByteString)
    modifies e
    ensures e.out + tail == old(e.out) + PutPublic(p, tail)
  {
    ghost var t7 := PutHash(p.recipient, tail);
    ghost var t6 := PutHash(p.nullifier, t7);
    ghost var t5 := PutHash(p.bundleRoot, t6);
    ghost var t4 := PutHash(p.perSubTreeRoot, t5);
    ghost var t3 := PutUnsigned(p.treeDepth, t4);
    ghost var t2 := PutUnsigned(p.leafIndex, t3);
    e.Array(7, PutUnsigned(p.subTreeId, t2));
    e.Unsigned(p.subTreeId, t2);
    e.Unsigned(p.leafIndex, t3);
    e.Unsigned(p.treeDepth, t4);
    e.Bytes(p.perSubTreeRoot, t5);
    e.Bytes(p.bundleRoot, t6);
    e.Bytes(p.nullifier, t7);
    e.Bytes(p.recipient, tail);
  }

  lemma {:induction false} PutNext<T>(put: (T, ByteString) -> ByteString, xs: seq<T>, i: nat, tail: ByteString)
    requires i < |xs|
    ensures PutAll(put, xs[i..], tail) == put(xs[i], PutAll(put, xs[i + 1..], tail))
  {
    assert xs[i..][1..] == xs[i + 1..];
  }

  /** `encode_witness` */
  method EncodeWitness(e: Encoder, w: SmallWitness, ghost tail: ByteString)
    modifies e
    ensures e.out + tail == old(e.out) + PutWitness(w, tail)
  {
    ghost var t4 := PutBytes(w.signingKeyProof, tail);
    ghost var t3 := PutAll(PutHash, w.merklePath, t4);
    ghost var t2 := PutArray(|w.merklePath|, t3);
    e.Array(3, PutBytes(w.leafPayload, t2));
    e.Bytes(w.leafPayload, t2);
    e.Array(|w.merklePath|, t3);
    assert w.merklePath[0..] == w.merklePath;
    for i := 0 to |w.merklePath|
      invariant e.out + PutAll(PutHash, w.merklePath[i..], t4) == old(e.out) + PutWitness(w, tail)
    {
      PutNext(PutHash, w.merklePath, i, t4);
      e.Bytes(w.merklePath[i], PutAll(PutHash, w.merklePath[i + 1..], t4));
    }
    e.Bytes(w.signingKeyProof, tail);
  }

  /** `encode_collection` */
  method EncodeCollection(e: Encoder, ps: seq<ClaimPublicInputs>, ws: seq<SmallWitness>, proof: ByteString,
                          ghost tail: ByteString)
    requires |ps| < TWO_64 && |ws| < TWO_64 && |proof| < TWO_64
    modifies e
    ensures e.out + tail
         == old(e.out) + PutArray(3,
                                  PutArray(|ps|,
                                           PutAll(PutPublic, ps,
                                                  PutArray(|ws|, PutAll(PutWitness, ws, PutBytes(proof, tail))))))
  {
    ghost var t4 := PutBytes(proof, tail);
    ghost var t3 := PutAll(PutWitness, ws, t4);
    ghost var t2 := PutArray(|ws|, t3);
    ghost var t1 := PutAll(PutPublic, ps, t2);
    ghost var goal := old(e.out) + PutArray(3, PutArray(|ps|, t1));
    e.Array(3, PutArray(|ps|, t1));
    e.Array(|ps|, t1);
    assert ps[0..] == ps;
    for i := 0 to |ps|
      invariant e.out + PutAll(PutPublic, ps[i..], t2) == goal
    {
      PutNext(PutPublic, ps, i, t2);
      EncodePublicInputs(e, ps[i], PutAll(PutPublic, ps[i + 1..], t2));
    }
    e.Array(|ws|, t3);
    assert ws[0..] == ws;
    for i := 0 to |ws|
      invariant e.out + PutAll(PutWitness, ws[i..], t4) == goal
    {
      PutNext(PutWitness, ws, i, t4);
      EncodeWitness(e, ws[i], PutAll(PutWitness, ws[i + 1..], t4));
    }
    e.Bytes(proof, tail);
  }

  /** `encode_claim_tx` */
  method EncodeClaimTx(e: Encoder, t: ClaimTx, ghost tail: ByteString)
    requires Sized(t)
    modifies e
    ensures e.out + tail == old(e.out) + PutClaim(t, tail)
  {
    match t
    case ClaimUtxo(p, w, proof) =>
      ghost var t2 := PutBytes(proof, tail);
      ghost var t1 := PutWitness(w, t2);
      ghost var body := PutArray(3, PutPublic(p, t1));
      e.Array(2, PutUnsigned(VARIANT_UTXO, body));
      e.Unsigned(VARIANT_UTXO, body);
      e.Array(3, PutPublic(p, t1));
      EncodePublicInputs(e, p, t1);
      EncodeWitness(e, w, t2);
      e.Bytes(proof, tail);
    case ClaimCollection(ps, ws, proof) =>
      ghost var body := PutArray(3,
                                 PutArray(|ps|,
                                          PutAll(PutPublic, ps,
                                                 PutArray(|ws|,
                                                          PutAll<SmallWitness>(PutWitness, ws,
                                                              PutBytes(proof, tail))))));
      e.Array(2, PutUnsigned(VARIANT_COLLECTION, body));
      e.Unsigned(VARIANT_COLLECTION, body);
      EncodeCollection(e, ps, ws, proof, tail);
  }

  lemma {:induction false} NothingAround(x: ByteString)
    ensures x + [] == x && [] + x == x
  {
  }

  /** `encode_payload` */
  method PayloadBytes(t: ClaimTx) returns (payload: ByteString)
    requires Sized(t)
    ensures payload == EncodePayload(t)
  {
    var e := new Encoder();
    EncodeClaimTx(e, t, []);
    payload := e.out;
    NothingAround(payload);
    NothingAround(PutClaim(t, []));
  }

  method EnvelopeBytes(payload: ByteString, checksum: Hash) returns (b: ByteString)
    requires |payload| < TWO_64
    ensures b == Envelope(payload, checksum)
  {
    var e := new Encoder();
    ghost var t2 := PutHash(checksum, []);
    ghost var t1 := PutBytes(payload, t2);
    e.Array(3, PutUnsigned(WIRE_VERSION, t1));
    e.Unsigned(WIRE_VERSION, t1);
    e.Bytes(payload, t2);
    e.Bytes(checksum, []);
    b := e.out;
    NothingAround(b);
    NothingAround(Envelope(payload, checksum));
  }

  /** `to_cbor` */
  method EncodeEnvelope(H: HashFn, t: ClaimTx) returns (r: Result<ByteString, CborError>)
    requires Sized(t) && |EncodePayload(t)| < TWO_64
    ensures r.Ok? <==> ArityMatches(t)
    ensures r.Ok? ==> r.value == Envelope(EncodePayload(t), H(EncodePayload(t)))
    ensures r.Err? ==> r.error == CollectionArityMismatch(|t.publicInputs|, |t.witnesses|)
  {
    if t.ClaimCollection? && |t.publicInputs| != |t.witnesses| {
      return Err(CollectionArityMismatch(|t.publicInputs|, |t.witnesses|));
    }
    var payload := PayloadBytes(t);
    var b := EnvelopeBytes(payload, H(payload));
    return Ok(b);
  }

  // ----- Decoding -----

  /** The method's result, and the input left, are those of the parser. */
  ghost predicate Follows<T>(p: Parse<T>, r: Result<T, CborError>, rest: ByteString) {
    match p
    case Ok(g) => r == Ok(g.value) && rest == g.rest
    case Err(e) => r == Err(e)
  }

  class Decoder {
    const input: ByteString
    var pos: nat
    var reserved: seq<Reservation>

    ghost predicate Valid()
      reads this
    {
      pos <= |input|
    }

    function Rest(): ByteString
      reads this
      requires Valid()
    {
      input[pos..]
    }

    constructor (input: ByteString)
      ensures Valid() && this.input == input && pos == 0 && Rest() == input && reserved == []
    {
      this.input, pos, reserved := input, 0, [];
    }

    method Unsigned() returns (r: Result<U64, CborError>)
      requires Valid()
      modifies this`pos
      ensures Valid() && Follows(ReadU64(old(Rest())), r, Rest())
    {
      var got := ReadUnsigned(Rest());
      if got.None? { return Err(Decode); }
      ReadsLeaveTails(Rest(), ARRAY);
      pos := |input| - |got.value.rest|;
      return Ok(got.value.value);
    }

    method U8() returns (r: Result<Byte, CborError>)
      requires Valid()
      modifies this`pos
      ensures Valid() && Follows(ReadU8(old(Rest())), r, Rest())
    {
      var n := Unsigned();
      if n.Err? { return Err(n.error); }
      if n.value >= 256 { return Err(Decode); }
      return Ok(n.value);
    }

    method Bytes() returns (r: Result<ByteString, CborError>)
      requires Valid()
      modifies this`pos
      ensures Valid() && Follows(OrDecode(ReadBytes(old(Rest()))), r, Rest())
    {
      var got := ReadBytes(Rest());
      if got.None? { return Err(Decode); }
      ReadsLeaveTails(Rest(), ARRAY);
      pos := |input| - |got.value.rest|;
      return Ok(got.value.value);
    }

    /** `array_len` */
    method ArrayLength() returns (r: Result<U64, CborError>)
      requires Valid()
      modifies this`pos
      ensures Valid() && Follows(ArrayLen(old(Rest())), r, Rest())
    {
      var got := ReadLength(Rest(), ARRAY);
      if got.None? { return Err(Decode); }
      ReadsLeaveTails(Rest(), ARRAY);
      pos := |input| - |got.value.rest|;
      if got.value.value.None? { return Err(IndefiniteArray); }
      return Ok(got.value.value.value);
    }

    /** `expect_array` */
    method Expect(expected: nat) returns (r: Result<(), CborError>)
      requires Valid()
      modifies this`pos
      ensures Valid()
      ensures match ExpectArray(old(Rest()), expected)
              case Ok(rest) => r.Ok? && Rest() == rest
              case Err(e) => r == Err(e)
    {
      var n := ArrayLength();
      if n.Err? { return Err(n.error); }
      if n.value != expected { return Err(InvalidArrayLength(expected, n.value)); }
      return Ok(());
    }

    /** `read_hash` */
    method HashBytes() returns (r: Result<Hash, CborError>)
      requires Valid()
      modifies this`pos
      ensures Valid() && Follows(ReadHash(old(Rest())), r, Rest())
    {
      var x := Bytes();
      if x.Err? { return Err(x.error); }
      if |x.value| != 32 { return Err(InvalidByteLength(32, |x.value|)); }
      return Ok(x.value);
    }

    /** `Vec::with_capacity`, for a list whose length has just been read. */
    method Reserve(n: U64)
      requires Valid()
      modifies this`reserved
      ensures reserved == old(reserved) + [Reservation(n, |Rest()|)]
    {
      reserved := reserved + [Reservation(n, |input| - pos)];
    }
  }

  /** The siblings of a witness, one by one. */
  method DecodeSiblings(d: Decoder, n: U64) returns (r: Result<seq<Hash>, CborError>)
    requires d.Valid()
    modifies d`pos
    ensures d.Valid() && Follows(ReadMany(ReadHash, old(d.Rest()), n), r, d.Rest())
  {
    var path: seq<Hash> := [];
    ghost var goal := ReadMany(ReadHash, d.Rest(), n);
    AtStart(goal);
    for i := 0 to n
      invariant d.Valid() && After(path, ReadMany(ReadHash, d.Rest(), n - i)) == goal
    {
      NextItem(ReadHash, d.Rest(), n - i, path);
      var sibling :- d.HashBytes();
      path := path + [sibling];
    }
    NoMore(ReadHash, d.Rest(), path);
    return Ok(path);
  }

  method DecodePath(d: Decoder) returns (r: Result<seq<Hash>, CborError>)
    requires d.Valid()
    modifies d
    ensures d.Valid() && Follows(ReadPath(old(d.Rest())), r, d.Rest())
    ensures d.reserved == old(d.reserved) + ArrayReserves(old(d.Rest()))
  {
    var n :- d.ArrayLength();
    d.Reserve(n);
    r := DecodeSiblings(d, n);
  }

  method DecodeLeafPayload(d: Decoder) returns (r: Result<ByteString, CborError>)
    requires d.Valid()
    modifies d`pos
    ensures d.Valid() && Follows(ReadLeafPayload(old(d.Rest())), r, d.Rest())
  {
    var _ :- d.Expect(3);
    r := d.Bytes();
  }

  /** `decode_witness` */
  method DecodeWitness(d: Decoder) returns (r: Result<SmallWitness, CborError>)
    requires d.Valid()
    modifies d
    ensures d.Valid() && Follows(ReadWitness(old(d.Rest())), r, d.Rest())
    ensures d.reserved == old(d.reserved) + WitnessReserves(old(d.Rest()))
  {
    var payload :- DecodeLeafPayload(d);
    var path :- DecodePath(d);
    var signing :- d.Bytes();
    return Ok(ClaimWitness(payload, path, signing));
  }

  method DecodeHashes(d: Decoder) returns (r: Result<Hashes, CborError>)
    requires d.Valid()
    modifies d`pos
    ensures d.Valid() && Follows(ReadHashes(old(d.Rest())), r, d.Rest())
  {
    var root :- d.HashBytes();
    var bundle :- d.HashBytes();
    var nullifier :- d.HashBytes();
    var recipient :- d.HashBytes();
    return Ok(Hashes(root, bundle, nullifier, recipient));
  }

  /** `decode_public_inputs` */
  method DecodePublicInputs(d: Decoder) returns (r: Result<ClaimPublicInputs, CborError>)
    requires d.Valid()
    modifies d`pos
    ensures d.Valid() && Follows(ReadPublic(old(d.Rest())), r, d.Rest())
  {
    var _ :- d.Expect(7);
    var id :- d.U8();
    var index :- d.Unsigned();
    var depth :- d.U8();
    var hs :- DecodeHashes(d);
    return Ok(ClaimPublicInputs(id, index, depth, hs.root, hs.bundle, hs.nullifier, hs.recipient));
  }

  /** `decode_utxo` */
  method DecodeUtxo(d: Decoder) returns (r: Result<ClaimTx, CborError>)
    requires d.Valid()
    modifies d
    ensures d.Valid() && Follows(ReadUtxoClaim(old(d.Rest())), r, d.Rest())
    ensures d.reserved == old(d.reserved) + UtxoReserves(old(d.Rest()))
  {
    var _ :- d.Expect(3);
    var p :- DecodePublicInputs(d);
    var w :- DecodeWitness(d);
    var proof :- d.Bytes();
    return Ok(ClaimUtxo(p, w, proof));
  }

  ghost predicate ReadsClaimPublicInputs(read: ByteString -> Parse<ClaimPublicInputs>) {
    forall b: ByteString {:trigger ReadPublic(b)} :: read(b) == ReadPublic(b)
  }

  method NextClaimPublicInputs(d: Decoder, ghost read: ByteString -> Parse<ClaimPublicInputs>,
                               ghost xs: seq<ClaimPublicInputs>, ghost n: nat,
                               ghost goal: Parse<seq<ClaimPublicInputs>>)
      returns (r: Result<ClaimPublicInputs, CborError>)
    requires d.Valid() && n > 0 && ReadsClaimPublicInputs(read) && After(xs, ReadMany(read, d.Rest(), n)) == goal
    modifies d`pos
    ensures d.Valid() && (r.Err? ==> goal == Err(r.error))
    ensures r.Ok? ==> After(xs + [r.value], ReadMany(read, d.Rest(), n - 1)) == goal
  {
    NextItem(read, d.Rest(), n, xs);
    assert read(d.Rest()) == ReadPublic(d.Rest());
    r := DecodePublicInputs(d);
  }

  method DecodePublicList(d: Decoder, ghost read: ByteString -> Parse<ClaimPublicInputs>, n: U64)
      returns (r: Result<seq<ClaimPublicInputs>, CborError>)
    requires d.Valid() && ReadsClaimPublicInputs(read)
    modifies d`pos
    ensures d.Valid() && Follows(ReadMany(read, old(d.Rest()), n), r, d.Rest())
  {
    var ps: seq<ClaimPublicInputs> := [];
    ghost var goal := ReadMany(read, d.Rest(), n);
    AtStart(goal);
    for i := 0 to n
      invariant d.Valid() && After(ps, ReadMany(read, d.Rest(), n - i)) == goal
    {
      var p :- NextClaimPublicInputs(d, read, ps, n - i, goal);
      ps := ps + [p];
    }
    NoMore(read, d.Rest(), ps);
    return Ok(ps);
  }

  ghost predicate ReadsSmallWitness(read: ByteString -> Parse<SmallWitness>) {
    forall b: ByteString {:trigger ReadWitness(b)} :: read(b) == ReadWitness(b)
  }

  ghost predicate ReservesWitness(reserves: ByteString -> seq<Reservation>) {
    forall b: ByteString {:trigger WitnessReserves(b)} :: reserves(b) == WitnessReserves(b)
  }

  lemma {:induction false} Regroup<T>(a: seq<T>, b: seq<T>, c: seq<T>)
    ensures a + (b + c) == (a + b) + c && a + [] == a && b + [] == b
  {
  }

  method NextSmallWitness(d: Decoder, ghost read: ByteString -> Parse<SmallWitness>,
                          ghost reserves: ByteString -> seq<Reservation>, ghost xs: seq<SmallWitness>, ghost n: nat,
                          ghost goal: Parse<seq<SmallWitness>>)
      returns (r: Result<SmallWitness, CborError>)
    requires d.Valid() && n > 0 && ReadsSmallWitness(read) && ReservesWitness(reserves)
    requires After(xs, ReadMany(read, d.Rest(), n)) == goal
    modifies d
    ensures d.Valid() && (r.Err? ==> goal == Err(r.error))
    ensures r.Ok? ==> After(xs + [r.value], ReadMany(read, d.Rest(), n - 1)) == goal
    ensures d.reserved + (if r.Ok? then ManyReserve(read, reserves, d.Rest(), n - 1) else [])
         == old(d.reserved) + ManyReserve(read, reserves, old(d.Rest()), n)
  {
    ghost var b := d.Rest();
    NextItem(read, b, n, xs);
    assert read(b) == ReadWitness(b) && reserves(b) == WitnessReserves(b);
    r := DecodeWitness(d);
    Regroup(old(d.reserved), reserves(b), if r.Ok? then ManyReserve(read, reserves, d.Rest(), n - 1) else []);
  }

  method DecodeWitnessList(d: Decoder, ghost read: ByteString -> Parse<SmallWitness>,
                           ghost reserves: ByteString -> seq<Reservation>, n: U64)
      returns (r: Result<seq<SmallWitness>, CborError>)
    requires d.Valid() && ReadsSmallWitness(read) && ReservesWitness(reserves)
    modifies d
    ensures d.Valid() && Follows(ReadMany(read, old(d.Rest()), n), r, d.Rest())
    ensures d.reserved == old(d.reserved) + ManyReserve(read, reserves, old(d.Rest()), n)
  {
    var ws: seq<SmallWitness> := [];
    ghost var goal := ReadMany(read, d.Rest(), n);
    ghost var all := d.reserved + ManyReserve(read, reserves, d.Rest(), n);
    AtStart(goal);
    for i := 0 to n
      invariant d.Valid() && After(ws, ReadMany(read, d.Rest(), n - i)) == goal
      invariant d.reserved + ManyReserve(read, reserves, d.Rest(), n - i) == all
    {
      var w :- NextSmallWitness(d, read, reserves, ws, n - i, goal);
      ws := ws + [w];
    }
    NoMore(read, d.Rest(), ws);
    return Ok(ws);
  }

  method DecodePublics(d: Decoder) returns (r: Result<seq<ClaimPublicInputs>, CborError>)
    requires d.Valid()
    modifies d
    ensures d.Valid() && Follows(ReadPublicList(old(d.Rest())), r, d.Rest())
    ensures d.reserved == old(d.reserved) + ArrayReserves(old(d.Rest()))
  {
    var n :- d.ArrayLength();
    d.Reserve(n);
    r := DecodePublicList(d, ReadPublic, n);
  }

  method DecodeWitnesses(d: Decoder) returns (r: Result<seq<SmallWitness>, CborError>)
    requires d.Valid()
    modifies d
    ensures d.Valid() && Follows(ReadWitnessList(old(d.Rest())), r, d.Rest())
    ensures d.reserved == old(d.reserved) + WitnessListReserves(old(d.Rest()))
  {
    var n :- d.ArrayLength();
    d.Reserve(n);
    ghost var rest := d.Rest();
    r := DecodeWitnessList(d, ReadWitness, WitnessReserves, n);
    Regroup(old(d.reserved), [Reservation(n, |rest|)], ManyReserve(ReadWitness, WitnessReserves, rest, n));
  }

  /** The two lists of a collection, one after the other. */
  method DecodeLists(d: Decoder) returns (ps: Result<seq<ClaimPublicInputs>, CborError>,
                                          ws: Result<seq<SmallWitness>, CborError>)
    requires d.Valid()
    modifies d
    ensures d.Valid() && d.reserved == old(d.reserved) + ListReserves(old(d.Rest()))
    ensures match ReadPublicList(old(d.Rest()))
            case Ok(got) => ps == Ok(got.value) && Follows(ReadWitnessList(got.rest), ws, d.Rest())
            case Err(e) => ps == Err(e) && ws == Err(e)
  {
    ghost var b, before := d.Rest(), d.reserved;
    ps := DecodePublics(d);
    if ps.Err? {
      Regroup(before, ArrayReserves(b), []);
      return ps, Err(ps.error);
    }
    Regroup(before, ArrayReserves(b), WitnessListReserves(d.Rest()));
    ws := DecodeWitnesses(d);
  }

  /** `decode_collection` */
  method DecodeCollection(d: Decoder) returns (r: Result<ClaimTx, CborError>)
    requires d.Valid()
    modifies d
    ensures d.Valid() && Follows(ReadCollection(old(d.Rest())), r, d.Rest())
    ensures d.reserved == old(d.reserved) + CollectionReserves(old(d.Rest()))
  {
    var _ :- d.Expect(3);
    var ps, ws := DecodeLists(d);
    if ps.Err? { return Err(ps.error); }
    if ws.Err? { return Err(ws.error); }
    if |ps.value| != |ws.value| { return Err(CollectionArityMismatch(|ps.value|, |ws.value|)); }
    var proof :- d.Bytes();
    return Ok(ClaimCollection(ps.value, ws.value, proof));
  }

  /** `decode_claim_tx` */
  method DecodeClaimTx(d: Decoder) returns (r: Result<ClaimTx, CborError>)
    requires d.Valid()
    modifies d
    ensures d.Valid() && Follows(ReadClaim(old(d.Rest())), r, d.Rest())
    ensures d.reserved == old(d.reserved) + ClaimReserves(old(d.Rest()))
  {
    var _ :- d.Expect(2);
    var variant :- d.Unsigned();
    if variant == VARIANT_UTXO {
      r := DecodeUtxo(d);
    } else if variant == VARIANT_COLLECTION {
      r := DecodeCollection(d);
    } else {
      r := Err(UnknownVariant(variant));
    }
  }

  /** `expect_end` */
  method CheckEnd(d: Decoder, total: nat) returns (r: Result<(), CborError>)
    requires d.Valid() && total == |d.input|
    ensures r == ExpectEnd(d.Rest(), total)
  {
    if d.pos != total { return Err(TrailingBytes(d.pos, total)); }
    return Ok(());
  }

  /** `decode_payload` */
  method DecodePayloadBytes(payload: ByteString) returns (r: Result<ClaimTx, CborError>, reserved: seq<Reservation>)
    ensures r == DecodePayload(payload) && reserved == ClaimReserves(payload)
    ensures r.Ok? ==> AllFit(reserved)
  {
    var d := new Decoder(payload);
    var t := DecodeClaimTx(d);
    reserved := d.reserved;
    if t.Err? { return Err(t.error), reserved; }
    ClaimFits(payload);
    var end := CheckEnd(d, |payload|);
    if end.Err? { return Err(end.error), reserved; }
    return Ok(t.value), reserved;
  }

  method OpenEnvelope(b: ByteString) returns (r: Result<Sealed, CborError>)
    ensures r == ReadEnvelope(b)
  {
    var d := new Decoder(b);
    var _ :- d.Expect(3);
    var version :- d.Unsigned();
    if version != WIRE_VERSION { return Err(UnsupportedVersion(version)); }
    var payload :- d.Bytes();
    var checksum :- d.HashBytes();
    var _ :- CheckEnd(d, |b|);
    return Ok(Sealed(payload, checksum));
  }

  /** `from_cbor` */
  method DecodeEnvelope(H: HashFn, b: ByteString) returns (r: Result<ClaimTx, CborError>, reserved: seq<Reservation>)
    ensures r == FromCbor(H, b) && reserved == EnvelopeReserves(H, b)
    ensures r.Ok? ==> AllFit(reserved)
  {
    reserved := [];
    var got := OpenEnvelope(b);
    if got.Err? { return Err(got.error), reserved; }
    if H(got.value.payload) != got.value.checksum { return Err(ChecksumMismatch), reserved; }
    r, reserved := DecodePayloadBytes(got.value.payload);
    if r.Err? { return; }
    var encoded := PayloadBytes(r.value);
    if encoded != got.value.payload { return Err(NonCanonicalPayload), reserved; }
  }

  /** What the encoder writes, the decoder reads back; a claim whose lists do not match is not written. */
  method WriteAndRead(H: HashFn, t: ClaimTx) returns (r: Result<ClaimTx, CborError>)
    requires Sized(t) && |EncodePayload(t)| < TWO_64
    ensures r == if ArityMatches(t) then Ok(t) else Err(CollectionArityMismatch(|t.publicInputs|, |t.witnesses|))
  {
    var b :- EncodeEnvelope(H, t);
    EnvelopeRoundTrip(H, t, EncodePayload(t), H(EncodePayload(t)), b);
    var decoded, _ := DecodeEnvelope(H, b);
    return decoded;
  }
}
