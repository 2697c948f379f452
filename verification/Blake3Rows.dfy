/** `fill_trace_row` and `build_blake3_trace` over the concrete 32-bit compression: word
    by word, bit by bit, with the outputs computed by the half-round schedule. */
module Blake3Rows {
  import opened Arith
  import opened Bytes
  import opened Fold
  import opened Compression
  import opened Circuit
  import opened Lookups
  import opened TraceBuilder
  import opened BitColumns
  import opened Blake3
  import opened Blake3Hash

  // ----- Words as bit columns -----

  /** The 32 bit columns of each word, least significant bit first. */
  function WordBits(ws: seq<Word>): (bits: Felts)
    ensures |bits| == 32 * |ws|
  {
    if ws == [] then [] else WordBits(ws[..|ws| - 1]) + BitsOf(ws[|ws| - 1], 32)
  }

  /** `write_bits`, word after word. */
  method WriteWords(ws: seq<Word>) returns (bits: Felts)
    ensures bits == WordBits(ws)
  {
    bits := [];
    for i := 0 to |ws|
      invariant bits == WordBits(ws[..i])
    {
      assert ws[..i + 1][..i] == ws[..i];
      bits := bits + BitsOf(ws[i], 32);
    }
    assert ws[..|ws|] == ws;
  }

  lemma {:induction false} ByteBitsConcat(a: ByteString, b: ByteString)
    ensures ByteBits(a + b) == ByteBits(a) + ByteBits(b)
  {
    if a == [] {
      assert a + b == b;
    } else {
      var head, rest := BitsOf(a[0], 8), ByteBits(a[1..]);
      ByteBitsConcat(a[1..], b);
      assert (a + b)[1..] == a[1..] + b;
      Concat3(head, rest, ByteBits(b));
    }
  }

  /** The bits of a number are those of its little-endian bytes. */
  lemma {:induction false} BitsAreByteBits(x: nat, n: nat)
    ensures BitsOf(x, 8 * n) == ByteBits(LE(x, n))
  {
    if n > 0 {
      BitsSplit(x, 8, 8 * (n - 1));
      LowByte(x);
      BitsAreByteBits(x / 256, n - 1);
      BitsOfLow(x, 8);
      assert LE(x, n)[1..] == LE(x / 256, n - 1);
    }
  }

  lemma {:induction false} BitsOfLow(x: nat, n: nat)
    ensures BitsOf(Low(x, n), n) == BitsOf(x, n)
  {
    if n > 0 { BitsOfLow(x / 2, n - 1); }
  }

  lemma {:induction false} FromWordsSnoc(ws: seq<Word>, w: Word)
    ensures FromWords(ws + [w]) == FromWords(ws) + LE(w, 4)
  {
    if ws == [] {
      assert ws + [w] == [w] && [w][1..] == [];
    } else {
      FromWordsSnoc(ws[1..], w);
      assert (ws + [w])[1..] == ws[1..] + [w];
      Concat3(LE(ws[0], 4), FromWords(ws[1..]), LE(w, 4));
    }
  }

  /** The bit columns of words are those of their bytes. */
  lemma {:induction false} WordBitsAreByteBits(ws: seq<Word>)
    ensures WordBits(ws) == ByteBits(FromWords(ws))
  {
    if ws != [] {
      var init, w := ws[..|ws| - 1], ws[|ws| - 1];
      WordBitsAreByteBits(init);
      assert ws == init + [w];
      FromWordsSnoc(init, w);
      ByteBitsConcat(FromWords(init), LE(w, 4));
      BitsAreByteBits(w, 4);
    }
  }

  /** Bytes taken as words and written bit by bit are the bit columns of the bytes. */
  lemma {:induction false} WordBitsOfBytes(b: ByteString)
    requires |b| % 4 == 0
    ensures WordBits(ToWords(b)) == ByteBits(b)
  {
    WordBitsAreByteBits(ToWords(b));
    WordsRoundTrip(b);
  }

  // ----- Rows -----

  method WriteBytes(b: ByteString) returns (bits: Felts)
    requires |b| % 4 == 0
    ensures bits == ByteBits(b)
  {
    bits := WriteWords(ToWords(b));
    WordBitsOfBytes(b);
  }

  /** The chaining value, by the half-round schedule. */
  method ScheduledWords(i: Input) returns (words: seq<Word>)
    ensures words == OutputWords(i)
  {
    var counter := ToWords(i.counter);
    var outputs, _ := FillOutputs(Arx32(), IV, ToWords(i.block), ToWords(i.cv), counter[0], counter[1],
                               ToWord(i.blockLen), ToWord(i.flags));
    words := outputs[..][..8];
  }

  lemma {:induction false} WordsOfOutput(i: Input, words: seq<Word>)
    requires words == OutputWords(i)
    ensures WordBits(words) == ByteBits(CompressInput(i))
  {
    WordBitsAreByteBits(words);
  }

  lemma {:induction false} SameOutput(B: Blake, i: Input, out: Hash)
    requires ComputesAll(B) && out == CompressInput(i)
    ensures out == B.compress(i)
  {
    assert Computes(B, i);
  }

  /** The output columns: the first eight words that the schedule computes, bit by bit. */
  method ScheduledBits(i: Input) returns (bits: Felts)
    ensures bits == ByteBits(CompressInput(i))
  {
    var words := ScheduledWords(i);
    bits := WriteWords(words);
    WordsOfOutput(i, words);
  }

  method WriteOutput(B: Blake, i: Input) returns (bits: Felts)
    requires ComputesAll(B)
    ensures bits == ByteBits(B.compress(i))
  {
    bits := ScheduledBits(i);
    SameOutput(B, i, CompressInput(i));
  }

  /** `fill_trace_row`, the columns that the lookup reads. */
  method FillTraceRow(B: Blake, c: CompressionRow) returns (row: BlakeRow)
    requires ComputesAll(B)
    ensures row == FillBlakeRow(B, c)
  {
    var block := WriteBytes(c.input.block);
    var cv := WriteBytes(c.input.cv);
    var counter := WriteBytes(c.input.counter);
    var blockLen := WriteBytes(c.input.blockLen);
    var flags := WriteBytes(c.input.flags);
    var out := WriteOutput(B, c.input);
    row := RawBlakeRow(block, cv, counter, blockLen, flags, out);
  }

  /** The loop over compressions. */
  method FillRows(B: Blake, cs: seq<CompressionRow>) returns (rows: seq<BlakeRow>)
    requires ComputesAll(B)
    ensures rows == FilledRows(B, cs)
  {
    rows := [];
    for i := 0 to |cs|
      invariant rows == FilledRows(B, cs[..i])
    {
      assert cs[..i + 1][..i] == cs[..i];
      var row := FillTraceRow(B, cs[i]);
      rows := rows + [row];
    }
    assert cs[..|cs|] == cs;
  }

  /** `build_blake3_trace` */
  method BuildBlakeTrace(B: Blake, cs: seq<CompressionRow>) returns (trace: seq<BlakeRow>)
    requires ComputesAll(B)
    ensures BuiltBlake(B, cs, trace)
  {
    var filled := FillRows(B, cs);
    if cs == [] { filled := [ZeroBlakeRow()]; }
    var dummy := FillTraceRow(B, DummyCompression(B));
    trace := PadTo<BlakeRow>(filled, dummy, Pow2(Depth(|filled|)));
  }
}
