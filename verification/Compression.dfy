/** The BLAKE3 compression interface that the circuit and the trace share: one
    block in, one chaining value out, and the single-chunk hash built from it
    (sections 2.2 and 2.4 of the BLAKE3 paper). */
module Compression {
  import opened Bytes
  import opened Merkle

  /** The byte image of one compression's inputs. */
  datatype RawInput = RawInput(
    block: ByteString, cv: ByteString, counter: ByteString, blockLen: ByteString, flags: ByteString)

  type Input = i: RawInput
    | |i.block| == 64 && |i.cv| == 32 && |i.counter| == 8 && |i.blockLen| == 4 && |i.flags| == 4
    witness RawInput(Zeros(64), Zeros(32), Zeros(8), Zeros(4), Zeros(4))

  /** A compression function with its initial chaining value.  The circuit and the
      trace builder are correct for every one of them. */
  datatype Blake = Blake(compress: Input -> Hash, iv: Hash)

  const CHUNK_START: nat := 1
  const CHUNK_END: nat := 2
  const ROOT: nat := 8
  const LEAF_FLAGS: nat := CHUNK_START + CHUNK_END + ROOT
  const NODE_FIRST_FLAGS: nat := CHUNK_START
  const NODE_SECOND_FLAGS: nat := CHUNK_END + ROOT
  const DUMMY_FLAGS: nat := 0

  const MAX_PAYLOAD: nat := 34

  function MakeInput(block: ByteString, cv: Hash, blockLen: Byte, flags: Byte): Input
    requires |block| == 64
  {
    RawInput(block, cv, Zeros(8), SmallWord(blockLen), SmallWord(flags))
  }

  /** Hashing the rest of the only chunk, block by block. */
  function ChunkRest(B: Blake, cv: Hash, bytes: ByteString, start: nat): Hash
    requires start <= CHUNK_START
    decreases |bytes|
  {
    if |bytes| <= 64 then
      B.compress(MakeInput(bytes + Zeros(64 - |bytes|), cv, |bytes|, start + CHUNK_END + ROOT))
    else
      ChunkRest(B, B.compress(MakeInput(bytes[..64], cv, 64, start)), bytes[64..], 0)
  }

  function ChunkHash(B: Blake, bytes: ByteString): Hash {
    ChunkRest(B, B.iv, bytes, CHUNK_START)
  }

  ghost predicate HashesChunk(H: HashFn, B: Blake, b: ByteString) {
    |b| <= 1024 ==> H(b) == ChunkHash(B, b)
  }

  /** `H` is the BLAKE3 hash over compression `B`, as far as one chunk goes. */
  ghost predicate HashesChunks(H: HashFn, B: Blake) {
    forall b: ByteString :: HashesChunk(H, B, b)
  }

  /** `leaf_compression`: the whole leaf preimage in one zero-padded block. */
  function LeafInput(iv: Hash, id: Byte, index: U64, payload: ByteString): Input
    requires |payload| <= MAX_PAYLOAD
  {
    MakeInput(LeafPreimage(id, index, payload) + Zeros(MAX_PAYLOAD - |payload|), iv, 30 + |payload|, LEAF_FLAGS)
  }

  /** `node_compressions`, first block. */
  function NodeFirstInput(iv: Hash, left: Hash, right: Hash): Input {
    MakeInput(DOMAIN_NODE + left + right[..19], iv, 64, NODE_FIRST_FLAGS)
  }

  /** `node_compressions`, second block, chained on the first block's output. */
  function NodeSecondInput(mid: Hash, right: Hash): Input {
    MakeInput(right[19..] + Zeros(51), mid, 13, NODE_SECOND_FLAGS)
  }

  lemma {:induction false} OneBlock(B: Blake, cv: Hash, x: ByteString, start: nat)
    requires |x| <= 64 && start <= CHUNK_START
    ensures ChunkRest(B, cv, x, start)
         == B.compress(MakeInput(x + Zeros(64 - |x|), cv, |x|, start + CHUNK_END + ROOT))
  {
  }

  lemma {:induction false} TwoBlocks(B: Blake, cv: Hash, a: ByteString, b: ByteString, start: nat)
    requires |a| == 64 && 0 < |b| <= 64 && start <= CHUNK_START
    ensures ChunkRest(B, cv, a + b, start)
         == B.compress(MakeInput(b + Zeros(64 - |b|), B.compress(MakeInput(a, cv, 64, start)), |b|, CHUNK_END + ROOT))
  {
    assert (a + b)[..64] == a && (a + b)[64..] == b;
    OneBlock(B, B.compress(MakeInput(a, cv, 64, start)), b, 0);
  }

  /** The one-block leaf compression is the leaf hash. */
  lemma {:induction false} LeafIsOneBlock(H: HashFn, B: Blake, id: Byte, index: U64, payload: ByteString)
    requires HashesChunks(H, B) && |payload| <= MAX_PAYLOAD
    ensures B.compress(LeafInput(B.iv, id, index, payload)) == LeafHash(H, id, index, payload)
  {
    var x := LeafPreimage(id, index, payload);
    OneBlock(B, B.iv, x, CHUNK_START);
    assert HashesChunk(H, B, x);
  }

  /** The two chained node compressions are the node hash. */
  lemma {:induction false} NodeIsTwoBlocks(H: HashFn, B: Blake, left: Hash, right: Hash)
    requires HashesChunks(H, B)
    ensures B.compress(NodeSecondInput(B.compress(NodeFirstInput(B.iv, left, right)), right))
         == NodeHash(H)(left, right)
  {
    var x := NodePreimage(left, right);
    assert HashesChunk(H, B, x);
    assert x == (DOMAIN_NODE + left + right[..19]) + right[19..];
    TwoBlocks(B, B.iv, DOMAIN_NODE + left + right[..19], right[19..], CHUNK_START);
  }

  /** The flag words as table 3 of the BLAKE3 paper has them: the leaf block starts and ends its
      chunk and is the root, the first node block starts it, the second ends it and is the root. */
  lemma {:induction false} FlagWords()
    ensures LEAF_FLAGS == 1 + 2 + 8 && NODE_FIRST_FLAGS == 1 && NODE_SECOND_FLAGS == 2 + 8 && DUMMY_FLAGS == 0
  {
  }
}
