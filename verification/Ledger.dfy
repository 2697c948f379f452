/** The mock ledger's writer: its tables as maps, its commands one at a time. */
module Ledger {
  import opened Bytes
  import opened Claims
  import opened MerkleBinding

  // ----- Tables -----

  datatype Key = Key(subTreeId: Byte, leafIndex: nat)

  datatype Utxo = Utxo(recipient: Hash, value: nat, blockIdx: nat)

  /** The two tables that claims write: `nullifiers` and `starstream_utxos`. */
  datatype Books = Books(nullifiers: map<Key, nat>, utxos: map<Hash, Utxo>)

  datatype LedgerError =
    | IntegerOutOfRange(value: nat)
    | InvalidClaim
    | VerifyFailed
    | Replay(subTreeId: Byte, leafIndex: U64)
    | PrimaryKeyConflict

  /** What the writer calls out to: the hash and the proof verifier. */
  datatype Env = Env(hash: HashFn, verify: (OmegaCommitment, seq<ClaimPublicInputs>, ByteString) -> bool)

  /** `sqlite_i64`: numbers are stored as signed 64-bit integers. */
  const I64_LIMIT: int := 0x8000_0000_0000_0000

  const DOMAIN_UTXO: ByteString :=
    [111, 109, 101, 103, 97, 58, 109, 111, 99, 107, 45, 108, 101, 100, 103, 101, 114, 58, 118, 49, 58, 117, 116, 120,
     111]

  function UtxoPreimage(recipient: Hash, payload: ByteString, block: U64, ordinal: nat): ByteString {
    DOMAIN_UTXO + recipient + BE(block, 8) + BE(ordinal, 8) + BE(|payload|, 8) + payload
  }

  /** `starstream_utxo_id` */
  function UtxoId(H: HashFn, recipient: Hash, payload: ByteString, block: U64, ordinal: nat): Hash {
    H(UtxoPreimage(recipient, payload, block, ordinal))
  }

  /** Tag, recipient, block, ordinal, length and payload, at their offsets. */
  lemma {:induction false} UtxoLayout(recipient: Hash, payload: ByteString, block: U64, ordinal: nat, b: ByteString)
    requires b == UtxoPreimage(recipient, payload, block, ordinal)
    ensures |b| == 81 + |payload| && At(b, 0, Ascii("omega:mock-ledger:v1:utxo")) && At(b, 25, recipient)
    ensures At(b, 57, BE(block, 8)) && At(b, 65, BE(ordinal, 8)) && At(b, 73, BE(|payload|, 8)) && At(b, 81, payload)
  {
    assert DOMAIN_UTXO == Ascii("omega:mock-ledger:v1:utxo");
  }

  /** An id belongs to one recipient, block, ordinal and payload, or two distinct preimages collide. */
  lemma {:induction false} UtxoIdBinding(H: HashFn, recipient: Hash, payload: ByteString, block: U64, ordinal: U64,
                                         recipient': Hash, payload': ByteString, block': U64, ordinal': U64)
    requires UtxoId(H, recipient, payload, block, ordinal) == UtxoId(H, recipient', payload', block', ordinal')
    ensures (recipient == recipient' && payload == payload' && block == block' && ordinal == ordinal')
         || Collision(H, {UtxoPreimage(recipient, payload, block, ordinal)},
                      {UtxoPreimage(recipient', payload', block', ordinal')})
  {
    var b, c := UtxoPreimage(recipient, payload, block, ordinal), UtxoPreimage(recipient', payload', block', ordinal');
    if b == c {
      UtxoLayout(recipient, payload, block, ordinal, b);
      UtxoLayout(recipient', payload', block', ordinal', c);
      Pow256Widths();
      BEInjective(block, block', 8);
      BEInjective(ordinal, ordinal', 8);
    }
  }

  /** `payload_value` */
  function PayloadValue(payload: ByteString): nat {
    if |payload| < 16 then 0 else FromBE(payload[8..16])
  }

  // ----- Applying one claim -----

  datatype ParsedClaim = ParsedClaim(publicInputs: seq<ClaimPublicInputs>, witnesses: seq<ClaimWitness>,
                                     proof: ByteString)

  /** `parse_claim` */
  function ParseClaim(claim: ClaimTx): (r: Result<ParsedClaim, LedgerError>)
    ensures r.Ok? ==> |r.value.publicInputs| == |r.value.witnesses|
    ensures r.Err? <==> claim.ClaimCollection? && |claim.publicInputs| != |claim.witnesses|
  {
    match claim
    case ClaimUtxo(p, w, proof) => Ok(ParsedClaim([p], [w], proof))
    case ClaimCollection(ps, ws, proof) => if |ps| != |ws| then Err(InvalidClaim) else Ok(ParsedClaim(ps, ws, proof))
  }

  function KeyOf(p: ClaimPublicInputs): Key { Key(p.subTreeId, p.leafIndex) }

  /** `reject_replay`: the error for one public input, if any. */
  function RejectReplay(b: Books, p: ClaimPublicInputs): Option<LedgerError> {
    if p.leafIndex >= I64_LIMIT then Some(IntegerOutOfRange(p.leafIndex))
    else if KeyOf(p) in b.nullifiers then Some(Replay(p.subTreeId, p.leafIndex))
    else None
  }

  /** The first replay error among the first `n` public inputs. */
  function FirstReplay(b: Books, ps: seq<ClaimPublicInputs>, n: nat): Option<LedgerError>
    requires n <= |ps|
  {
    if n == 0 then None
    else if FirstReplay(b, ps, n - 1).Some? then FirstReplay(b, ps, n - 1)
    else RejectReplay(b, ps[n - 1])
  }

  /** `insert_nullifier` then `insert_starstream_utxo`, for item `ordinal`. */
  function InsertItem(H: HashFn, b: Books, p: ClaimPublicInputs, w: ClaimWitness, block: U64, ordinal: nat)
    : Result<Books, LedgerError>
  {
    var id := UtxoId(H, p.recipient, w.leafPayload, block, ordinal);
    var value := PayloadValue(w.leafPayload);
    if p.leafIndex >= I64_LIMIT then Err(IntegerOutOfRange(p.leafIndex))
    else if KeyOf(p) in b.nullifiers then Err(PrimaryKeyConflict)
    else if value >= I64_LIMIT then Err(IntegerOutOfRange(value))
    else if id in b.utxos then Err(PrimaryKeyConflict)
    else Ok(Books(b.nullifiers[KeyOf(p) := block], b.utxos[id := Utxo(p.recipient, value, block)]))
  }

  /** The first `n` items inserted in order. */
  function InsertItems(H: HashFn, b: Books, ps: seq<ClaimPublicInputs>, ws: seq<ClaimWitness>, block: U64, n: nat)
    : Result<Books, LedgerError>
    requires n <= |ps| == |ws|
  {
    if n == 0 then Ok(b)
    else
      match InsertItems(H, b, ps, ws, block, n - 1)
      case Err(e) => Err(e)
      case Ok(before) => InsertItem(H, before, ps[n - 1], ws[n - 1], block, n - 1)
  }

  /** `apply_claim_tx` from verification on. */
  function ApplyParsed(env: Env, b: Books, block: U64, c: OmegaCommitment, x: ParsedClaim): Result<Books, LedgerError>
    requires |x.publicInputs| == |x.witnesses|
  {
    if !env.verify(c, x.publicInputs, x.proof) then Err(VerifyFailed)
    else
      match FirstReplay(b, x.publicInputs, |x.publicInputs|)
      case Some(e) => Err(e)
      case None => InsertItems(env.hash, b, x.publicInputs, x.witnesses, block, |x.publicInputs|)
  }

  /** `apply_claim_tx`: the new tables, or the error with which the transaction rolls back. */
  function ApplyClaim(env: Env, b: Books, block: U64, c: OmegaCommitment, claim: ClaimTx): Result<Books, LedgerError> {
    if block >= I64_LIMIT then Err(IntegerOutOfRange(block))
    else
      match ParseClaim(claim)
      case Err(e) => Err(e)
      case Ok(x) => ApplyParsed(env, b, block, c, x)
  }

  /** `insert_synthetic_claim` */
  function InsertSynthetic(H: HashFn, b: Books, id: Byte, leafIndex: U64, block: U64): Result<Books, LedgerError> {
    var recipient: Hash := seq(32, _ => 0xC7);
    var utxo := UtxoId(H, recipient, BE(leafIndex, 8) + BE(block, 8), block, leafIndex);
    var value := if leafIndex == TWO_64 - 1 then leafIndex else leafIndex + 1;
    if leafIndex >= I64_LIMIT then Err(IntegerOutOfRange(leafIndex))
    else if block >= I64_LIMIT then Err(IntegerOutOfRange(block))
    else if Key(id, leafIndex) in b.nullifiers then Err(PrimaryKeyConflict)
    else if value >= I64_LIMIT then Err(IntegerOutOfRange(value))
    else if utxo in b.utxos then Err(PrimaryKeyConflict)
    else Ok(Books(b.nullifiers[Key(id, leafIndex) := block], b.utxos[utxo := Utxo(recipient, value, block)]))
  }

  // ----- What an accepted claim does -----

  /** Rows are only added, one to each table per item. */
  ghost predicate Extends(b: Books, after: Books, items: nat) {
    && (forall k :: k in b.nullifiers ==> k in after.nullifiers && after.nullifiers[k] == b.nullifiers[k])
    && (forall u :: u in b.utxos ==> u in after.utxos && after.utxos[u] == b.utxos[u])
    && |after.nullifiers| == |b.nullifiers| + items
    && |after.utxos| == |b.utxos| + items
  }

  lemma {:induction false} InsertItemExtends(H: HashFn, b: Books, p: ClaimPublicInputs, w: ClaimWitness, block: U64,
                                             ordinal: nat)
    requires InsertItem(H, b, p, w, block, ordinal).Ok?
    ensures Extends(b, InsertItem(H, b, p, w, block, ordinal).value, 1)
    ensures KeyOf(p) !in b.nullifiers
    ensures InsertItem(H, b, p, w, block, ordinal).value.nullifiers == b.nullifiers[KeyOf(p) := block]
  {
  }

  ghost predicate DistinctKeys(ps: seq<ClaimPublicInputs>, n: nat)
    requires n <= |ps|
  {
    forall i, j :: 0 <= i < j < n ==> KeyOf(ps[i]) != KeyOf(ps[j])
  }

  /** The keys of `after` are those of `before` and the first `n` claimed ones. */
  ghost predicate RecordsExactly(b: Books, after: Books, ps: seq<ClaimPublicInputs>, block: nat, n: nat)
    requires n <= |ps|
  {
    && (forall i :: 0 <= i < n ==> KeyOf(ps[i]) !in b.nullifiers)
    && (forall i :: 0 <= i < n ==> KeyOf(ps[i]) in after.nullifiers && after.nullifiers[KeyOf(ps[i])] == block)
    && (forall k :: k in after.nullifiers ==> k in b.nullifiers || exists i :: 0 <= i < n && k == KeyOf(ps[i]))
  }

  lemma {:induction false} ExtendsTransitive(a: Books, b: Books, c: Books, m: nat, n: nat)
    requires Extends(a, b, m) && Extends(b, c, n)
    ensures Extends(a, c, m + n)
  {
  }

  lemma {:induction false} RecordsOneMore(b: Books, mid: Books, after: Books, ps: seq<ClaimPublicInputs>, block: nat,
                                          n: nat)
    requires 0 < n <= |ps| && RecordsExactly(b, mid, ps, block, n - 1) && DistinctKeys(ps, n - 1)
    requires b.nullifiers.Keys <= mid.nullifiers.Keys
    requires KeyOf(ps[n - 1]) !in mid.nullifiers && after.nullifiers == mid.nullifiers[KeyOf(ps[n - 1]) := block]
    ensures RecordsExactly(b, after, ps, block, n) && DistinctKeys(ps, n)
  {
    forall k | k in after.nullifiers && k !in b.nullifiers
      ensures exists i :: 0 <= i < n && k == KeyOf(ps[i])
    {
      if k in mid.nullifiers {
        var i :| 0 <= i < n - 1 && k == KeyOf(ps[i]);
      }
    }
  }

  /** What holds of no items and survives each insertion holds of all of them. */
  lemma {:induction false} InsertInduction(H: HashFn, b: Books, ps: seq<ClaimPublicInputs>, ws: seq<ClaimWitness>,
                                           block: U64, n: nat, after: Books, holds: (Books, nat) -> bool)
    requires n <= |ps| == |ws| && InsertItems(H, b, ps, ws, block, n) == Ok(after) && holds(b, 0)
    requires forall mid: Books, k: nat {:trigger InsertItem(H, mid, ps[k], ws[k], block, k)} ::
               k < n && holds(mid, k) && InsertItem(H, mid, ps[k], ws[k], block, k).Ok? ==>
               holds(InsertItem(H, mid, ps[k], ws[k], block, k).value, k + 1)
    ensures holds(after, n)
  {
    if n > 0 {
      var before := InsertItems(H, b, ps, ws, block, n - 1).value;
      InsertInduction(H, b, ps, ws, block, n - 1, before, holds);
      assert InsertItem(H, before, ps[n - 1], ws[n - 1], block, n - 1) == Ok(after);
    }
  }

  lemma {:induction false} ItemsExtend(H: HashFn, b: Books, ps: seq<ClaimPublicInputs>, ws: seq<ClaimWitness>,
                                       block: U64, n: nat, after: Books)
    requires n <= |ps| == |ws| && InsertItems(H, b, ps, ws, block, n) == Ok(after)
    ensures Extends(b, after, n)
  {
    var extends_ := (mid: Books, k: nat) => Extends(b, mid, k);
    forall mid: Books, k: nat {:trigger InsertItem(H, mid, ps[k], ws[k], block, k)} |
      k < n && extends_(mid, k) && InsertItem(H, mid, ps[k], ws[k], block, k).Ok?
      ensures extends_(InsertItem(H, mid, ps[k], ws[k], block, k).value, k + 1)
    {
      InsertItemExtends(H, mid, ps[k], ws[k], block, k);
      ExtendsTransitive(b, mid, InsertItem(H, mid, ps[k], ws[k], block, k).value, k, 1);
    }
    InsertInduction(H, b, ps, ws, block, n, after, extends_);
  }

  ghost predicate KeysAdded(b: Books, after: Books, ps: seq<ClaimPublicInputs>, block: nat, n: nat) {
    && n <= |ps| && b.nullifiers.Keys <= after.nullifiers.Keys
    && DistinctKeys(ps, n) && RecordsExactly(b, after, ps, block, n)
  }

  lemma {:induction false} KeyAdded(H: HashFn, b: Books, mid: Books, ps: seq<ClaimPublicInputs>,
                                    ws: seq<ClaimWitness>, block: U64, n: nat, after: Books)
    requires n < |ps| == |ws| && KeysAdded(b, mid, ps, block, n)
    requires InsertItem(H, mid, ps[n], ws[n], block, n) == Ok(after)
    ensures KeysAdded(b, after, ps, block, n + 1)
  {
    InsertItemExtends(H, mid, ps[n], ws[n], block, n);
    RecordsOneMore(b, mid, after, ps, block, n + 1);
  }

  lemma {:induction false} ItemsRecord(H: HashFn, b: Books, ps: seq<ClaimPublicInputs>, ws: seq<ClaimWitness>,
                                       block: U64, n: nat, after: Books)
    requires n <= |ps| == |ws| && InsertItems(H, b, ps, ws, block, n) == Ok(after)
    ensures KeysAdded(b, after, ps, block, n)
  {
    var adds := (mid: Books, k: nat) => KeysAdded(b, mid, ps, block, k);
    forall mid: Books, k: nat {:trigger InsertItem(H, mid, ps[k], ws[k], block, k)} |
      k < n && adds(mid, k) && InsertItem(H, mid, ps[k], ws[k], block, k).Ok?
      ensures adds(InsertItem(H, mid, ps[k], ws[k], block, k).value, k + 1)
    {
      KeyAdded(H, b, mid, ps, ws, block, k, InsertItem(H, mid, ps[k], ws[k], block, k).value);
    }
    InsertInduction(H, b, ps, ws, block, n, after, adds);
  }

  /** An accepted list of items adds exactly its keys, all new and all different. */
  lemma {:induction false} InsertItemsExtend(H: HashFn, b: Books, ps: seq<ClaimPublicInputs>, ws: seq<ClaimWitness>,
                                             block: U64, n: nat, after: Books)
    requires n <= |ps| == |ws| && InsertItems(H, b, ps, ws, block, n) == Ok(after)
    ensures Extends(b, after, n) && DistinctKeys(ps, n) && RecordsExactly(b, after, ps, block, n)
  {
    ItemsExtend(H, b, ps, ws, block, n, after);
    ItemsRecord(H, b, ps, ws, block, n, after);
  }

  /** What the claim claims. */
  function ClaimedInputs(claim: ClaimTx): seq<ClaimPublicInputs> {
    if claim.ClaimUtxo? then [claim.publicInput] else claim.publicInputs
  }

  /** An accepted claim was verified, and records each of its keys for the first time and once. */
  lemma {:induction false} AcceptedClaim(env: Env, b: Books, block: U64, c: OmegaCommitment, claim: ClaimTx,
                                         after: Books)
    requires ApplyClaim(env, b, block, c, claim) == Ok(after)
    ensures env.verify(c, ClaimedInputs(claim), claim.proof)
    ensures forall p :: p in ClaimedInputs(claim) ==> p.leafIndex < I64_LIMIT
    ensures var ps := ClaimedInputs(claim);
            Extends(b, after, |ps|) && DistinctKeys(ps, |ps|) && RecordsExactly(b, after, ps, block, |ps|)
  {
    var x := ParseClaim(claim).value;
    InsertItemsExtend(env.hash, b, x.publicInputs, x.witnesses, block, |x.publicInputs|, after);
    NoReplay(b, x.publicInputs, |x.publicInputs|);
  }

  lemma {:induction false} NoReplay(b: Books, ps: seq<ClaimPublicInputs>, n: nat)
    requires n <= |ps| && FirstReplay(b, ps, n).None?
    ensures forall i :: 0 <= i < n ==> ps[i].leafIndex < I64_LIMIT && KeyOf(ps[i]) !in b.nullifiers
  {
    if n > 0 { NoReplay(b, ps, n - 1); }
  }

  /** Once a key of a claim is recorded, the claim is rejected. */
  lemma {:induction false} RecordedIsRejected(env: Env, b: Books, block: U64, c: OmegaCommitment, claim: ClaimTx,
                                              p: ClaimPublicInputs)
    requires p in ClaimedInputs(claim) && KeyOf(p) in b.nullifiers
    ensures ApplyClaim(env, b, block, c, claim).Err?
  {
    if ApplyClaim(env, b, block, c, claim).Ok? {
      AcceptedClaim(env, b, block, c, claim, ApplyClaim(env, b, block, c, claim).value);
    }
  }

  /** The tables after an attempt: unchanged when it is rejected. */
  function Attempt(env: Env, b: Books, block: U64, c: OmegaCommitment, claim: ClaimTx): Books {
    match ApplyClaim(env, b, block, c, claim)
    case Ok(after) => after
    case Err(_) => b
  }

  /** A second attempt at the same claim changes nothing. */
  lemma {:induction false} AttemptIdempotent(env: Env, b: Books, block: U64, c: OmegaCommitment, claim: ClaimTx)
    ensures Attempt(env, Attempt(env, b, block, c, claim), block, c, claim) == Attempt(env, b, block, c, claim)
  {
    var r := ApplyClaim(env, b, block, c, claim);
    if r.Ok? {
      AcceptedClaim(env, b, block, c, claim, r.value);
      var ps := ClaimedInputs(claim);
      if ps != [] {
        RecordedIsRejected(env, r.value, block, c, claim, ps[0]);
      }
    }
  }

  // ----- What a claim is credited -----

  /** The row of item `i`: its recipient, the block, and the value in bytes 8 to 15 of the payload, or none. */
  ghost predicate Credited(H: HashFn, after: Books, ps: seq<ClaimPublicInputs>, ws: seq<ClaimWitness>, block: U64,
                           i: nat)
    requires i < |ps| == |ws|
  {
    var id, payload := ItemId(H, ps, ws, block, i), ws[i].leafPayload;
    && id in after.utxos && after.utxos[id].recipient == ps[i].recipient && after.utxos[id].blockIdx == block
    && if |payload| < 16 then after.utxos[id].value == 0 else BE(after.utxos[id].value, 8) == payload[8..16]
  }

  lemma {:induction false} ItemCredited(H: HashFn, b: Books, ps: seq<ClaimPublicInputs>, ws: seq<ClaimWitness>,
                                        block: U64, i: nat, after: Books)
    requires i < |ps| == |ws| && InsertItem(H, b, ps[i], ws[i], block, i) == Ok(after)
    ensures Credited(H, after, ps, ws, block, i)
  {
    var payload := ws[i].leafPayload;
    if |payload| >= 16 { BEofFromBE(payload[8..16]); }
  }

  lemma {:induction false} CreditStays(H: HashFn, before: Books, after: Books, ps: seq<ClaimPublicInputs>,
                                       ws: seq<ClaimWitness>, block: U64, i: nat)
    requires i < |ps| == |ws| && Credited(H, before, ps, ws, block, i) && Extends(before, after, 1)
    ensures Credited(H, after, ps, ws, block, i)
  {
  }

  ghost predicate AllCredited(H: HashFn, after: Books, ps: seq<ClaimPublicInputs>, ws: seq<ClaimWitness>, block: U64,
                              n: nat)
    requires n <= |ps| == |ws|
  {
    forall i :: 0 <= i < n ==> Credited(H, after, ps, ws, block, i)
  }

  lemma {:induction false} CreditNext(H: HashFn, b: Books, ps: seq<ClaimPublicInputs>, ws: seq<ClaimWitness>,
                                      block: U64, n: nat, after: Books)
    requires n < |ps| == |ws| && AllCredited(H, b, ps, ws, block, n)
    requires InsertItem(H, b, ps[n], ws[n], block, n) == Ok(after)
    ensures AllCredited(H, after, ps, ws, block, n + 1)
  {
    assert Extends(b, after, 1) by { InsertItemExtends(H, b, ps[n], ws[n], block, n); }
    forall i | 0 <= i < n + 1
      ensures Credited(H, after, ps, ws, block, i)
    {
      if i < n { CreditStays(H, b, after, ps, ws, block, i); } else { ItemCredited(H, b, ps, ws, block, n, after); }
    }
  }

  /** Every item of an accepted list gets its own row. */
  lemma {:induction false} InsertItemsCredit(H: HashFn, b: Books, ps: seq<ClaimPublicInputs>, ws: seq<ClaimWitness>,
                                             block: U64, n: nat, after: Books)
    requires n <= |ps| == |ws| && InsertItems(H, b, ps, ws, block, n) == Ok(after)
    ensures AllCredited(H, after, ps, ws, block, n)
  {
    var credits := (mid: Books, k: nat) => k <= |ps| && AllCredited(H, mid, ps, ws, block, k);
    forall mid: Books, k: nat {:trigger InsertItem(H, mid, ps[k], ws[k], block, k)} |
      k < n && credits(mid, k) && InsertItem(H, mid, ps[k], ws[k], block, k).Ok?
      ensures credits(InsertItem(H, mid, ps[k], ws[k], block, k).value, k + 1)
    {
      CreditNext(H, mid, ps, ws, block, k, InsertItem(H, mid, ps[k], ws[k], block, k).value);
    }
    InsertInduction(H, b, ps, ws, block, n, after, credits);
  }

  /** An accepted claim credits each of its recipients, and no one else. */
  lemma {:induction false} AcceptedCredits(env: Env, b: Books, block: U64, c: OmegaCommitment, claim: ClaimTx,
                                           after: Books)
    requires ApplyClaim(env, b, block, c, claim) == Ok(after)
    ensures |ClaimedInputs(claim)| == |WitnessesOf(claim)|
    ensures var ps, ws := ClaimedInputs(claim), WitnessesOf(claim);
            && AllCredited(env.hash, after, ps, ws, block, |ps|)
            && Holds(env.hash, b, after, ps, ws, block, |ps|)
  {
    var ps, ws := ClaimedInputs(claim), WitnessesOf(claim);
    InsertItemsCredit(env.hash, b, ps, ws, block, |ps|, after);
    InsertItemsIff(env.hash, b, ps, ws, block, |ps|);
  }

  // ----- Exactly when a claim is accepted -----

  function ItemId(H: HashFn, ps: seq<ClaimPublicInputs>, ws: seq<ClaimWitness>, block: U64, i: nat): Hash
    requires i < |ps| == |ws|
  {
    UtxoId(H, ps[i].recipient, ws[i].leafPayload, block, i)
  }

  /** Item `i` fits the tables: its numbers are in range, and neither its key nor its UTxO id is taken. */
  ghost predicate Fresh(H: HashFn, b: Books, ps: seq<ClaimPublicInputs>, ws: seq<ClaimWitness>, block: U64, i: nat)
    requires i < |ps| == |ws|
  {
    && ps[i].leafIndex < I64_LIMIT && PayloadValue(ws[i].leafPayload) < I64_LIMIT
    && KeyOf(ps[i]) !in b.nullifiers && ItemId(H, ps, ws, block, i) !in b.utxos
  }

  /** Items `i` and `j` do not get in each other's way. */
  ghost predicate Apart(H: HashFn, ps: seq<ClaimPublicInputs>, ws: seq<ClaimWitness>, block: U64, i: nat, j: nat)
    requires i < |ps| == |ws| && j < |ps|
  {
    KeyOf(ps[i]) != KeyOf(ps[j]) && ItemId(H, ps, ws, block, i) != ItemId(H, ps, ws, block, j)
  }

  ghost predicate Insertable(H: HashFn, b: Books, ps: seq<ClaimPublicInputs>, ws: seq<ClaimWitness>, block: U64, n: nat)
    requires n <= |ps| == |ws|
  {
    && (forall i :: 0 <= i < n ==> Fresh(H, b, ps, ws, block, i))
    && (forall i, j :: 0 <= i < j < n ==> Apart(H, ps, ws, block, i, j))
  }

  /** The tables hold what they held, and the first `n` items. */
  ghost predicate Holds(H: HashFn, b: Books, after: Books, ps: seq<ClaimPublicInputs>, ws: seq<ClaimWitness>,
                        block: U64, n: nat)
    requires n <= |ps| == |ws|
  {
    && (forall k :: k in after.nullifiers <==> k in b.nullifiers || exists i :: 0 <= i < n && KeyOf(ps[i]) == k)
    && (forall u :: u in after.utxos <==> u in b.utxos || exists i :: 0 <= i < n && ItemId(H, ps, ws, block, i) == u)
  }

  lemma {:induction false} HoldsOneMore(H: HashFn, b: Books, mid: Books, after: Books, ps: seq<ClaimPublicInputs>,
                                        ws: seq<ClaimWitness>, block: U64, n: nat)
    requires 0 < n <= |ps| == |ws| && Holds(H, b, mid, ps, ws, block, n - 1)
    requires after.nullifiers.Keys == mid.nullifiers.Keys + {KeyOf(ps[n - 1])}
    requires after.utxos.Keys == mid.utxos.Keys + {ItemId(H, ps, ws, block, n - 1)}
    ensures Holds(H, b, after, ps, ws, block, n)
  {
    forall k
      ensures k in after.nullifiers <==> k in b.nullifiers || exists i :: 0 <= i < n && KeyOf(ps[i]) == k
    {
      assert k in after.nullifiers <==> k in mid.nullifiers || k == KeyOf(ps[n - 1]);
    }
    forall u
      ensures u in after.utxos <==> u in b.utxos || exists i :: 0 <= i < n && ItemId(H, ps, ws, block, i) == u
    {
      assert u in after.utxos <==> u in mid.utxos || u == ItemId(H, ps, ws, block, n - 1);
    }
  }

  lemma {:induction false} ItemsApart(H: HashFn, b: Books, ps: seq<ClaimPublicInputs>, ws: seq<ClaimWitness>,
                                      block: U64, n: nat, i: nat, j: nat)
    requires i < j < n <= |ps| == |ws| && Insertable(H, b, ps, ws, block, n)
    ensures Apart(H, ps, ws, block, i, j)
  {
  }

  /** Item `n - 1` can be inserted after the others exactly when it fits the tables and them. */
  lemma {:induction false} NextInsertable(H: HashFn, b: Books, mid: Books, ps: seq<ClaimPublicInputs>,
                                          ws: seq<ClaimWitness>, block: U64, n: nat)
    requires 0 < n <= |ps| == |ws| && Holds(H, b, mid, ps, ws, block, n - 1) && Insertable(H, b, ps, ws, block, n - 1)
    ensures InsertItem(H, mid, ps[n - 1], ws[n - 1], block, n - 1).Ok? <==> Insertable(H, b, ps, ws, block, n)
  {
    var m := n - 1;
    var taken := KeyOf(ps[m]) in mid.nullifiers || ItemId(H, ps, ws, block, m) in mid.utxos;
    if Insertable(H, b, ps, ws, block, n) {
      assert Fresh(H, b, ps, ws, block, m);
      if KeyOf(ps[m]) in mid.nullifiers {
        var i :| 0 <= i < m && KeyOf(ps[i]) == KeyOf(ps[m]);
        ItemsApart(H, b, ps, ws, block, n, i, m);
      }
      if ItemId(H, ps, ws, block, m) in mid.utxos {
        var i :| 0 <= i < m && ItemId(H, ps, ws, block, i) == ItemId(H, ps, ws, block, m);
        ItemsApart(H, b, ps, ws, block, n, i, m);
      }
    }
    if !taken {
      forall i | 0 <= i < m ensures Apart(H, ps, ws, block, i, m) { }
    }
  }

  lemma {:induction false} InsertItemsIff(H: HashFn, b: Books, ps: seq<ClaimPublicInputs>, ws: seq<ClaimWitness>,
                                          block: U64, n: nat)
    requires n <= |ps| == |ws|
    ensures InsertItems(H, b, ps, ws, block, n).Ok? <==> Insertable(H, b, ps, ws, block, n)
    ensures InsertItems(H, b, ps, ws, block, n).Ok? ==>
              Holds(H, b, InsertItems(H, b, ps, ws, block, n).value, ps, ws, block, n)
  {
    if n > 0 {
      InsertItemsIff(H, b, ps, ws, block, n - 1);
      if InsertItems(H, b, ps, ws, block, n - 1).Ok? {
        var mid := InsertItems(H, b, ps, ws, block, n - 1).value;
        NextInsertable(H, b, mid, ps, ws, block, n);
        if InsertItem(H, mid, ps[n - 1], ws[n - 1], block, n - 1).Ok? {
          HoldsOneMore(H, b, mid, InsertItem(H, mid, ps[n - 1], ws[n - 1], block, n - 1).value, ps, ws, block, n);
        }
      }
    }
  }

  function WitnessesOf(claim: ClaimTx): seq<ClaimWitness> {
    if claim.ClaimUtxo? then [claim.leafWitness] else claim.witnesses
  }

  lemma {:induction false} InsertableNoReplay(H: HashFn, b: Books, ps: seq<ClaimPublicInputs>, ws: seq<ClaimWitness>,
                                              block: U64, n: nat, m: nat)
    requires m <= n <= |ps| == |ws| && Insertable(H, b, ps, ws, block, n)
    ensures FirstReplay(b, ps, m).None?
  {
    if m > 0 {
      InsertableNoReplay(H, b, ps, ws, block, n, m - 1);
      assert Fresh(H, b, ps, ws, block, m - 1);
    }
  }

  lemma {:induction false} ParsedIff(env: Env, b: Books, block: U64, c: OmegaCommitment, x: ParsedClaim)
    requires |x.publicInputs| == |x.witnesses|
    ensures ApplyParsed(env, b, block, c, x).Ok? <==>
              && env.verify(c, x.publicInputs, x.proof)
              && Insertable(env.hash, b, x.publicInputs, x.witnesses, block, |x.publicInputs|)
  {
    var ps, ws := x.publicInputs, x.witnesses;
    InsertItemsIff(env.hash, b, ps, ws, block, |ps|);
    if Insertable(env.hash, b, ps, ws, block, |ps|) { InsertableNoReplay(env.hash, b, ps, ws, block, |ps|, |ps|); }
  }

  /** A claim is accepted if and only if its block fits, its lists match, its proof
      verifies, and its items fit the tables and do not collide with each other. */
  lemma {:induction false} AcceptedIff(env: Env, b: Books, block: U64, c: OmegaCommitment, claim: ClaimTx)
    ensures ApplyClaim(env, b, block, c, claim).Ok? <==>
              && block < I64_LIMIT
              && |ClaimedInputs(claim)| == |WitnessesOf(claim)|
              && env.verify(c, ClaimedInputs(claim), claim.proof)
              && Insertable(env.hash, b, ClaimedInputs(claim), WitnessesOf(claim), block, |ClaimedInputs(claim)|)
  {
    if ParseClaim(claim).Ok? { ParsedIff(env, b, block, c, ParseClaim(claim).value); }
  }

  // ----- Exactly why a claim is refused -----

  /** The probe passes input `i`: its index can be stored and its key is not recorded. */
  ghost predicate Unrecorded(b: Books, p: ClaimPublicInputs) { p.leafIndex < I64_LIMIT && KeyOf(p) !in b.nullifiers }

  /** Input `i` is the first that the probe does not pass, and `e` says why. */
  ghost predicate ProbeStops(b: Books, ps: seq<ClaimPublicInputs>, i: nat, e: LedgerError)
    requires i < |ps|
  {
    && (forall j :: 0 <= j < i ==> Unrecorded(b, ps[j]))
    && if ps[i].leafIndex >= I64_LIMIT then e == IntegerOutOfRange(ps[i].leafIndex)
       else Key(ps[i].subTreeId, ps[i].leafIndex) in b.nullifiers && e == Replay(ps[i].subTreeId, ps[i].leafIndex)
  }

  lemma {:induction false} FirstReplayIff(b: Books, ps: seq<ClaimPublicInputs>, n: nat, e: LedgerError)
    requires n <= |ps|
    ensures FirstReplay(b, ps, n).None? <==> forall j :: 0 <= j < n ==> Unrecorded(b, ps[j])
    ensures FirstReplay(b, ps, n) == Some(e) <==> exists i :: 0 <= i < n && ProbeStops(b, ps, i, e)
  {
    if n > 0 {
      FirstReplayIff(b, ps, n - 1, e);
      if FirstReplay(b, ps, n - 1).None? && FirstReplay(b, ps, n) == Some(e) { assert ProbeStops(b, ps, n - 1, e); }
      if exists i :: 0 <= i < n && ProbeStops(b, ps, i, e) {
        var i :| 0 <= i < n && ProbeStops(b, ps, i, e);
        if i < n - 1 { assert FirstReplay(b, ps, n - 1) == Some(e); }
      }
    }
  }

  /** Item `i` does not go in after the ones before it, and `e` says why: its key is taken by
      the tables or by one of them, or its value cannot be stored, or its UTxO id is taken. */
  ghost predicate ItemStops(H: HashFn, b: Books, ps: seq<ClaimPublicInputs>, ws: seq<ClaimWitness>, block: U64, i: nat,
                            e: LedgerError)
    requires i < |ps| == |ws|
  {
    && Insertable(H, b, ps, ws, block, i)
    && if ps[i].leafIndex >= I64_LIMIT then e == IntegerOutOfRange(ps[i].leafIndex)
       else if KeyTaken(b, ps, i) then e == PrimaryKeyConflict
       else if PayloadValue(ws[i].leafPayload) >= I64_LIMIT then e == IntegerOutOfRange(PayloadValue(ws[i].leafPayload))
       else IdTaken(H, b, ps, ws, block, i) && e == PrimaryKeyConflict
  }

  ghost predicate KeyTaken(b: Books, ps: seq<ClaimPublicInputs>, i: nat)
    requires i < |ps|
  {
    KeyOf(ps[i]) in b.nullifiers || exists j :: 0 <= j < i && KeyOf(ps[j]) == KeyOf(ps[i])
  }

  ghost predicate IdTaken(H: HashFn, b: Books, ps: seq<ClaimPublicInputs>, ws: seq<ClaimWitness>, block: U64, i: nat)
    requires i < |ps| == |ws|
  {
    var id := ItemId(H, ps, ws, block, i);
    id in b.utxos || exists j :: 0 <= j < i && ItemId(H, ps, ws, block, j) == id
  }

  lemma {:induction false} ItemStopsIff(H: HashFn, b: Books, mid: Books, ps: seq<ClaimPublicInputs>,
                                        ws: seq<ClaimWitness>, block: U64, i: nat, e: LedgerError)
    requires i < |ps| == |ws| && Holds(H, b, mid, ps, ws, block, i) && Insertable(H, b, ps, ws, block, i)
    ensures InsertItem(H, mid, ps[i], ws[i], block, i) == Err(e) <==> ItemStops(H, b, ps, ws, block, i, e)
  {
    assert KeyOf(ps[i]) in mid.nullifiers <==> KeyTaken(b, ps, i);
    assert ItemId(H, ps, ws, block, i) in mid.utxos <==> IdTaken(H, b, ps, ws, block, i);
  }

  /** The next item decides when all before it went in. */
  lemma {:induction false} NextErrorIff(H: HashFn, b: Books, ps: seq<ClaimPublicInputs>, ws: seq<ClaimWitness>,
                                        block: U64, i: nat, e: LedgerError)
    requires i < |ps| == |ws|
    ensures InsertItems(H, b, ps, ws, block, i + 1) == Err(e) <==>
              InsertItems(H, b, ps, ws, block, i) == Err(e) || ItemStops(H, b, ps, ws, block, i, e)
  {
    InsertItemsIff(H, b, ps, ws, block, i);
    var before := InsertItems(H, b, ps, ws, block, i);
    if before.Ok? { ItemStopsIff(H, b, before.value, ps, ws, block, i, e); }
  }

  lemma {:induction false} InsertErrorIff(H: HashFn, b: Books, ps: seq<ClaimPublicInputs>, ws: seq<ClaimWitness>,
                                          block: U64, n: nat, e: LedgerError)
    requires n <= |ps| == |ws|
    ensures InsertItems(H, b, ps, ws, block, n) == Err(e) <==>
              exists i :: 0 <= i < n && ItemStops(H, b, ps, ws, block, i, e)
  {
    if n > 0 {
      InsertErrorIff(H, b, ps, ws, block, n - 1, e);
      NextErrorIff(H, b, ps, ws, block, n - 1, e);
    }
  }

  /** The checks of a claim in order, and the error of the first that fails. */
  ghost predicate RefusedWith(env: Env, b: Books, block: U64, c: OmegaCommitment, claim: ClaimTx, e: LedgerError) {
    var ps, ws := ClaimedInputs(claim), WitnessesOf(claim);
    if block >= I64_LIMIT then e == IntegerOutOfRange(block)
    else if |ps| != |ws| then e == InvalidClaim
    else if !env.verify(c, ps, claim.proof) then e == VerifyFailed
    else if exists j :: 0 <= j < |ps| && !Unrecorded(b, ps[j]) then exists i :: 0 <= i < |ps| && ProbeStops(b, ps, i, e)
    else exists i :: 0 <= i < |ps| && ItemStops(env.hash, b, ps, ws, block, i, e)
  }

  /** A claim is refused with exactly the error of the first check that fails. */
  lemma {:induction false} RefusedIff(env: Env, b: Books, block: U64, c: OmegaCommitment, claim: ClaimTx,
                                      e: LedgerError)
    ensures ApplyClaim(env, b, block, c, claim) == Err(e) <==> RefusedWith(env, b, block, c, claim, e)
  {
    var ps, ws := ClaimedInputs(claim), WitnessesOf(claim);
    if |ps| == |ws| {
      FirstReplayIff(b, ps, |ps|, e);
      InsertErrorIff(env.hash, b, ps, ws, block, |ps|, e);
    }
  }

  // ----- Synthetic claims -----

  /** A synthetic claim records its key and one UTxO, of value one more than its index, for a fixed recipient. */
  lemma {:induction false} SyntheticMeaning(H: HashFn, b: Books, id: Byte, leafIndex: U64, block: U64, recipient: Hash,
                                            utxo: Hash)
    requires recipient == seq(32, _ => 199)
    requires utxo == UtxoId(H, recipient, BE(leafIndex, 8) + BE(block, 8), block, leafIndex)
    ensures InsertSynthetic(H, b, id, leafIndex, block).Ok? <==>
              && leafIndex + 1 < I64_LIMIT && block < I64_LIMIT
              && Key(id, leafIndex) !in b.nullifiers && utxo !in b.utxos
    ensures InsertSynthetic(H, b, id, leafIndex, block).Ok? ==>
              InsertSynthetic(H, b, id, leafIndex, block).value
              == Books(b.nullifiers[Key(id, leafIndex) := block],
                       b.utxos[utxo := Utxo(recipient, leafIndex + 1, block)])
  {
  }
}
