/** The CBOR items that the codecs use (section 3 of RFC 8949): heads of any
    width, unsigned integers, byte strings, and array and map headers. */
module Cbor {
  import opened Bytes

  const UNSIGNED: nat := 0
  const BYTES: nat := 2
  const ARRAY: nat := 4
  const MAP: nat := 5
  const NULL: Byte := 0xF6

  /** A parsed value and the input after it. */
  datatype Got<+T> = Got(value: T, rest: ByteString)

  /** Major type and argument; no argument means indefinite length. */
  datatype Head = Head(major: nat, argument: Option<nat>)

  function ArgumentWidth(info: nat): nat
    requires 24 <= info < 28
  {
    if info == 24 then 1 else if info == 25 then 2 else if info == 26 then 4 else 8
  }

  /** The head at the front of the input.  Widths beyond the least one are accepted. */
  function ReadHead(b: ByteString): (r: Option<Got<Head>>)
    ensures r.Some? && r.value.value.argument.Some? ==> r.value.value.argument.value < TWO_64
    ensures r.Some? ==> |r.value.rest| < |b|
  {
    if b == [] then None
    else
      var major, info := b[0] / 32, b[0] % 32;
      if info < 24 then Some(Got(Head(major, Some(info)), b[1..]))
      else if info == 31 then Some(Got(Head(major, None), b[1..]))
      else if info >= 28 then None
      else
        var width := ArgumentWidth(info);
        if |b| < 1 + width then None
        else
          BEofFromBE(b[1..1 + width]);
          Pow256Widths();
          Some(Got(Head(major, Some(FromBE(b[1..1 + width]))), b[1 + width..]))
  }

  /** The shortest head. */
  function MakeHead(major: nat, n: U64): (h: ByteString)
    requires major < 8
    ensures h != []
  {
    if n < 24 then [32 * major + n]
    else if n < 0x100 then [32 * major + 24] + BE(n, 1)
    else if n < 0x1_0000 then [32 * major + 25] + BE(n, 2)
    else if n < TWO_32 then [32 * major + 26] + BE(n, 4)
    else [32 * major + 27] + BE(n, 8)
  }

  /** The first byte holds the major type and, up to 23, the argument; 24 to 27 announce one,
      two, four or eight bytes of it. */
  lemma {:induction false} HeadBytes(major: nat, n: U64)
    requires major < 8
    ensures n < 24 ==> MakeHead(major, n) == [32 * major + n]
    ensures 24 <= n < 0x100 ==> MakeHead(major, n) == [32 * major + 24, n]
    ensures 0x100 <= n < 0x1_0000 ==> MakeHead(major, n) == [32 * major + 25, n / 256, n % 256]
    ensures 0x1_0000 <= n < TWO_32 ==> |MakeHead(major, n)| == 5 && MakeHead(major, n)[0] == 32 * major + 26
    ensures TWO_32 <= n ==> |MakeHead(major, n)| == 9 && MakeHead(major, n)[0] == 32 * major + 27
    ensures n >= 0x1_0000 ==> FromBE(MakeHead(major, n)[1..]) == n
  {
    Pow256Widths();
    assert BE(n, 1) == [n % 256] by { assert BE(n / 256, 0) == []; }
    assert BE(n, 2) == [(n / 256) % 256,
                        n % 256] by { assert BE(n / 256, 1) == BE(n / 256 / 256, 0) + [(n / 256) % 256]; }
    if n >= TWO_32 {
      FromBEofBE(n, 8);
      assert MakeHead(major, n)[1..] == BE(n, 8);
    } else if n >= 0x1_0000 {
      FromBEofBE(n, 4);
      assert MakeHead(major, n)[1..] == BE(n, 4);
    }
  }

  /** A head of indefinite length has no argument; 28 to 30 are reserved. */
  lemma {:induction false} IndefiniteHead(b: ByteString)
    ensures b != [] && b[0] % 32 == 31 ==> ReadHead(b) == Some(Got(Head(b[0] / 32, None), b[1..]))
    ensures b != [] && 28 <= b[0] % 32 < 31 ==> ReadHead(b) == None
  {
  }

  lemma {:induction false} WideHead(major: nat, info: nat, n: nat, tail: ByteString)
    requires major < 8 && 24 <= info < 28 && n < Pow256(ArgumentWidth(info))
    ensures ReadHead([32 * major + info] + BE(n, ArgumentWidth(info)) + tail) == Some(Got(Head(major, Some(n)), tail))
  {
    var width := ArgumentWidth(info);
    var b := [32 * major + info] + BE(n, width) + tail;
    assert b[0] / 32 == major && b[0] % 32 == info;
    assert b[1..1 + width] == BE(n, width) && b[1 + width..] == tail;
    FromBEofBE(n, width);
  }

  lemma {:induction false} ShortHead(major: nat, n: nat, tail: ByteString)
    requires major < 8 && n < 24
    ensures ReadHead([32 * major + n] + tail) == Some(Got(Head(major, Some(n)), tail))
  {
    var b := [32 * major + n] + tail;
    assert b[0] / 32 == major && b[0] % 32 == n && b[1..] == tail;
  }

  lemma {:induction false} HeadRoundTrip(major: nat, n: U64, tail: ByteString)
    requires major < 8
    ensures ReadHead(MakeHead(major, n) + tail) == Some(Got(Head(major, Some(n)), tail))
  {
    Pow256Widths();
    if n < 24 {
      ShortHead(major, n, tail);
    } else if n < 0x100 {
      WideHead(major, 24, n, tail);
    } else if n < 0x1_0000 {
      WideHead(major, 25, n, tail);
    } else if n < TWO_32 {
      WideHead(major, 26, n, tail);
    } else {
      WideHead(major, 27, n, tail);
    }
  }

  lemma {:induction false} WideAtLeast(major: nat, info: nat, n: nat)
    requires major < 8 && 24 <= info < 28 && n < Pow256(ArgumentWidth(info))
    ensures n < TWO_64 && |MakeHead(major, n)| <= 1 + ArgumentWidth(info)
    ensures |MakeHead(major, n)| == 1 + ArgumentWidth(info) ==>
              MakeHead(major, n) == [32 * major + info] + BE(n, ArgumentWidth(info))
  {
    Pow256Widths();
  }

  /** The bytes of the head that was read. */
  lemma {:induction false} HeadFront(b: ByteString, major: nat, n: nat, rest: ByteString) returns (front: ByteString)
    requires ReadHead(b) == Some(Got(Head(major, Some(n)), rest))
    ensures b == front + rest && front != [] && major < 8
    ensures (n < 24 && front == [32 * major + n]) ||
            (exists info :: 24 <= info < 28 && n < Pow256(ArgumentWidth(info))
                         && front == [32 * major + info] + BE(n, ArgumentWidth(info)))
  {
    var info := b[0] % 32;
    if info < 24 {
      front := [b[0]];
    } else {
      var argument := b[1..1 + ArgumentWidth(info)];
      BEofFromBE(argument);
      front := [b[0]] + argument;
    }
  }

  /** A head read from the input is at least as long as the shortest one, and is the
      shortest one if it is no longer. */
  lemma {:induction false} HeadAtLeast(b: ByteString, major: nat, n: nat, rest: ByteString)
    requires ReadHead(b) == Some(Got(Head(major, Some(n)), rest))
    ensures major < 8 && n < TWO_64 && |rest| < |b|
    ensures |b| - |rest| >= |MakeHead(major, n)|
    ensures |b| - |rest| == |MakeHead(major, n)| ==> b == MakeHead(major, n) + rest
  {
    var front := HeadFront(b, major, n, rest);
    if n >= 24 || front != [32 * major + n] {
      var info :| 24 <= info < 28 && n < Pow256(ArgumentWidth(info))
               && front == [32 * major + info] + BE(n, ArgumentWidth(info));
      WideAtLeast(major, info, n);
    }
  }

  // ----- Items -----

  /** `u64` */
  function ReadUnsigned(b: ByteString): (r: Option<Got<U64>>)
    ensures r.Some? ==> |r.value.rest| < |b|
  {
    match ReadHead(b)
    case Some(Got(Head(major, Some(n)), rest)) => if major == UNSIGNED then Some(Got(n, rest)) else None
    case _ => None
  }

  /** `array` or `map`: a length, or none for the indefinite form. */
  function ReadLength(b: ByteString, kind: nat): (r: Option<Got<Option<U64>>>)
    ensures r.Some? ==> |r.value.rest| < |b|
  {
    match ReadHead(b)
    case Some(Got(Head(major, n), rest)) => if major == kind then Some(Got(n, rest)) else None
    case None => None
  }

  /** `bytes`, definite length only. */
  function ReadBytes(b: ByteString): (r: Option<Got<ByteString>>)
    ensures r.Some? ==> |r.value.value| < TWO_64 && |r.value.rest| < |b|
  {
    match ReadHead(b)
    case Some(Got(Head(major, Some(n)), rest)) =>
      if major == BYTES && n <= |rest| then Some(Got(rest[..n], rest[n..])) else None
    case _ => None
  }

  // Encoders put an item in front of what follows it.

  function PutUnsigned(n: U64, tail: ByteString): ByteString { MakeHead(UNSIGNED, n) + tail }

  function PutArray(n: U64, tail: ByteString): ByteString { MakeHead(ARRAY, n) + tail }

  function PutBytes(x: ByteString, tail: ByteString): ByteString
    requires |x| < TWO_64
  {
    MakeHead(BYTES, |x|) + (x + tail)
  }

  lemma {:induction false} UnsignedRoundTrip(n: U64, tail: ByteString)
    ensures ReadUnsigned(PutUnsigned(n, tail)) == Some(Got(n, tail))
  {
    HeadRoundTrip(UNSIGNED, n, tail);
  }

  lemma {:induction false} ArrayRoundTrip(n: U64, tail: ByteString)
    ensures ReadLength(PutArray(n, tail), ARRAY) == Some(Got(Some(n), tail))
  {
    HeadRoundTrip(ARRAY, n, tail);
  }

  lemma {:induction false} BytesRoundTrip(x: ByteString, tail: ByteString)
    requires |x| < TWO_64
    ensures ReadBytes(PutBytes(x, tail)) == Some(Got(x, tail))
  {
    HeadRoundTrip(BYTES, |x|, x + tail);
    assert (x + tail)[..|x|] == x && (x + tail)[|x|..] == tail;
  }

  /** `rest` is a tail of `b`. */
  ghost predicate IsTail(b: ByteString, rest: ByteString) {
    |rest| <= |b| && rest == b[|b| - |rest|..]
  }

  lemma {:induction false} HeadLeavesTail(b: ByteString)
    ensures ReadHead(b).Some? ==> IsTail(b, ReadHead(b).value.rest)
  {
  }

  lemma {:induction false} ReadsLeaveTails(b: ByteString, kind: nat)
    ensures ReadUnsigned(b).Some? ==> IsTail(b, ReadUnsigned(b).value.rest)
    ensures ReadLength(b, kind).Some? ==> IsTail(b, ReadLength(b, kind).value.rest)
    ensures ReadBytes(b).Some? ==> IsTail(b, ReadBytes(b).value.rest)
  {
    HeadLeavesTail(b);
  }

  // ----- Lists of items -----

  /** `n` items, first to last. */
  function ReadMany<T, E>(read: ByteString -> Result<Got<T>, E>, b: ByteString, n: nat): (r: Result<Got<seq<T>>, E>)
    ensures r.Ok? ==> |r.value.value| == n
    decreases n
  {
    if n == 0 then Ok(Got([], b))
    else
      var first :- read(b);
      var others :- ReadMany(read, first.rest, n - 1);
      Ok(Got([first.value] + others.value, others.rest))
  }

  /** The items already read, then the rest of the parse. */
  function After<T, E>(xs: seq<T>, p: Result<Got<seq<T>>, E>): Result<Got<seq<T>>, E> {
    match p case Ok(g) => Ok(Got(xs + g.value, g.rest)) case Err(e) => Err(e)
  }

  lemma {:induction false} NextItem<T, E>(read: ByteString -> Result<Got<T>, E>, b: ByteString, n: nat, xs: seq<T>)
    requires n > 0
    ensures After(xs, ReadMany(read, b, n))
         == match read(b) case Ok(g) => After(xs + [g.value], ReadMany(read, g.rest, n - 1)) case Err(e) => Err(e)
  {
    if read(b).Ok? && ReadMany(read, read(b).value.rest, n - 1).Ok? {
      var x, others := read(b).value.value, ReadMany(read, read(b).value.rest, n - 1).value.value;
      assert xs + ([x] + others) == (xs + [x]) + others;
    }
  }

  lemma {:induction false} NoMore<T, E>(read: ByteString -> Result<Got<T>, E>, b: ByteString, xs: seq<T>)
    ensures After(xs, ReadMany(read, b, 0)) == Ok(Got(xs, b))
  {
    assert xs + [] == xs;
  }

  lemma {:induction false} AtStart<T, E>(p: Result<Got<seq<T>>, E>)
    ensures After([], p) == p
  {
    if p.Ok? { assert [] + p.value.value == p.value.value; }
  }

  lemma {:induction false} ManyShrink<T, E>(read: ByteString -> Result<Got<T>, E>, b: ByteString, n: nat)
    requires forall x: ByteString :: read(x).Ok? ==> |read(x).value.rest| < |x|
    ensures ReadMany(read, b, n).Ok? ==> |ReadMany(read, b, n).value.rest| + n <= |b|
    decreases n
  {
    if n > 0 && read(b).Ok? { ManyShrink(read, read(b).value.rest, n - 1); }
  }

  // ----- Memory reserved for lists -----

  /** Room is made for `count` items when `left` bytes of input are left. */
  datatype Reservation = Reservation(count: nat, left: nat)

  /** More items are declared than there are bytes for. */
  predicate Oversized(r: Reservation) { r.count > r.left }

  ghost predicate AllFit(rs: seq<Reservation>) { forall i :: 0 <= i < |rs| ==> !Oversized(rs[i]) }

  /** What reading up to `n` items reserves, as far as it gets. */
  function ManyReserve<T, E>(read: ByteString -> Result<Got<T>, E>, reserves: ByteString -> seq<Reservation>,
                             b: ByteString, n: nat): seq<Reservation>
    decreases n
  {
    if n == 0 then []
    else reserves(b) + if read(b).Ok? then ManyReserve(read, reserves, read(b).value.rest, n - 1) else []
  }

  /** An oversized reservation is reached exactly after some number of items that can be read. */
  ghost predicate ReachesOversized<T, E>(read: ByteString -> Result<Got<T>, E>,
                                         reserves: ByteString -> seq<Reservation>,
                                         b: ByteString, n: nat) {
    exists k :: 0 <= k < n && ReadMany(read, b, k).Ok? && !AllFit(reserves(ReadMany(read, b, k).value.rest))
  }

  lemma {:induction false} FitConcat(a: seq<Reservation>, b: seq<Reservation>)
    ensures AllFit(a + b) <==> AllFit(a) && AllFit(b)
  {
    forall i | 0 <= i < |a| ensures (a + b)[i] == a[i] { }
    forall i | 0 <= i < |b| ensures (a + b)[|a| + i] == b[i] { }
  }

  lemma {:induction false} ReachesNext<T, E>(read: ByteString -> Result<Got<T>, E>,
                                             reserves: ByteString -> seq<Reservation>, b: ByteString, n: nat)
    requires n > 0
    ensures ReachesOversized(read, reserves, b, n) <==>
              !AllFit(reserves(b)) || (read(b).Ok? && ReachesOversized(read, reserves, read(b).value.rest, n - 1))
  {
    if ReachesOversized(read, reserves, b, n) {
      var k :| 0 <= k < n && ReadMany(read, b, k).Ok? && !AllFit(reserves(ReadMany(read, b, k).value.rest));
      if k > 0 { assert ReadMany(read, read(b).value.rest, k - 1).Ok?; }
    }
    if !AllFit(reserves(b)) {
      assert ReadMany(read, b, 0).Ok?;
    } else if read(b).Ok? && ReachesOversized(read, reserves, read(b).value.rest, n - 1) {
      var rest := read(b).value.rest;
      var k :| 0 <= k < n - 1 && ReadMany(read, rest, k).Ok? && !AllFit(reserves(ReadMany(read, rest, k).value.rest));
      assert ReadMany(read, b, k + 1).Ok?;
    }
  }

  lemma {:induction false} ManyReserveIff<T, E>(read: ByteString -> Result<Got<T>, E>,
                                                reserves: ByteString -> seq<Reservation>, b: ByteString, n: nat)
    ensures AllFit(ManyReserve(read, reserves, b, n)) <==> !ReachesOversized(read, reserves, b, n)
    decreases n
  {
    if n > 0 {
      ReachesNext(read, reserves, b, n);
      if read(b).Ok? {
        ManyReserveIff(read, reserves, read(b).value.rest, n - 1);
        FitConcat(reserves(b), ManyReserve(read, reserves, read(b).value.rest, n - 1));
      } else {
        FitConcat(reserves(b), []);
      }
    }
  }

  /** Items that can be read reserve only what fits. */
  lemma {:induction false} ManyFit<T, E>(read: ByteString -> Result<Got<T>, E>,
                                         reserves: ByteString -> seq<Reservation>, b: ByteString, n: nat)
    requires ReadMany(read, b, n).Ok? && forall x: ByteString :: read(x).Ok? ==> AllFit(reserves(x))
    ensures AllFit(ManyReserve(read, reserves, b, n))
    decreases n
  {
    if n > 0 {
      ManyFit(read, reserves, read(b).value.rest, n - 1);
      FitConcat(reserves(b), ManyReserve(read, reserves, read(b).value.rest, n - 1));
    }
  }

  // ----- Where a list of items is given up -----

  /** `k` items read after those seen, all of them together fit, and the parser gives up at the next one. */
  ghost predicate StopsAt<T, E>(read: ByteString -> Result<Got<T>, E>, fits: seq<T> -> bool,
                                stop: (seq<T>, ByteString) -> bool, seen: seq<T>, b: ByteString, k: nat) {
    var p := After(seen, ReadMany(read, b, k));
    p.Ok? && fits(p.value.value) && stop(p.value.value, p.value.rest)
  }

  /** The parser gives up at one of the next `n` items, the first not to fit. */
  ghost predicate Stops<T, E>(read: ByteString -> Result<Got<T>, E>, fits: seq<T> -> bool,
                              stop: (seq<T>, ByteString) -> bool, seen: seq<T>, b: ByteString, n: nat) {
    exists k :: 0 <= k < n && StopsAt(read, fits, stop, seen, b, k)
  }

  lemma {:induction false} StopsAtNext<T, E>(read: ByteString -> Result<Got<T>, E>, fits: seq<T> -> bool,
                                             stop: (seq<T>, ByteString) -> bool, seen: seq<T>, b: ByteString, k: nat)
    ensures StopsAt(read, fits, stop, seen, b, 0) <==> fits(seen) && stop(seen, b)
    ensures k > 0 ==> (StopsAt(read, fits, stop, seen, b, k) <==>
                       read(b).Ok? && StopsAt(read, fits, stop, seen + [read(b).value.value], read(b).value.rest,
                                              k - 1))
  {
    NoMore(read, b, seen);
    if k > 0 { NextItem(read, b, k, seen); }
  }

  lemma {:induction false} StopsNext<T, E>(read: ByteString -> Result<Got<T>, E>, fits: seq<T> -> bool,
                                           stop: (seq<T>, ByteString) -> bool, seen: seq<T>, b: ByteString, n: nat)
    requires n > 0 && fits(seen)
    ensures Stops(read, fits, stop, seen, b, n) <==>
              stop(seen, b)
              || (read(b).Ok? && Stops(read, fits, stop, seen + [read(b).value.value], read(b).value.rest, n - 1))
  {
    if Stops(read, fits, stop, seen, b, n) {
      var k :| 0 <= k < n && StopsAt(read, fits, stop, seen, b, k);
      StopsAtNext(read, fits, stop, seen, b, k);
    }
    StopsAtNext(read, fits, stop, seen, b, 0);
    if stop(seen, b) {
      assert StopsAt(read, fits, stop, seen, b, 0);
    } else if read(b).Ok? && Stops(read, fits, stop, seen + [read(b).value.value], read(b).value.rest, n - 1) {
      var xs, rest := seen + [read(b).value.value], read(b).value.rest;
      var k :| 0 <= k < n - 1 && StopsAt(read, fits, stop, xs, rest, k);
      StopsAtNext(read, fits, stop, seen, b, k + 1);
      assert StopsAt(read, fits, stop, seen, b, k + 1);
    }
  }
}
