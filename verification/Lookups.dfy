/** Interactions of the lookup argument: which of them count, and how often a tuple is received. */
module Lookups {
  import opened Bytes
  import opened BabyBear
  import opened Circuit

  lemma {:induction false} Concat3<T>(a: seq<T>, b: seq<T>, c: seq<T>)
    ensures (a + b) + c == a + (b + c)
  {
  }

  // ----- Live interactions -----

  /** The interactions that count, in order. */
  function Live(xs: seq<Interaction>): seq<Interaction> {
    if xs == [] then [] else (if xs[0].mult != 0 then [xs[0]] else []) + Live(xs[1..])
  }

  lemma {:induction false} LiveCons(x: Interaction, xs: seq<Interaction>)
    ensures Live([x] + xs) == (if x.mult != 0 then [x] else []) + Live(xs)
  {
    assert ([x] + xs)[1..] == xs;
  }

  lemma {:induction false} LiveConcat(a: seq<Interaction>, b: seq<Interaction>)
    ensures Live(a + b) == Live(a) + Live(b)
  {
    if a == [] {
      assert a + b == b;
    } else {
      var x, rest := a[0], a[1..];
      LiveConcat(rest, b);
      assert a + b == [x] + (rest + b);
      LiveCons(x, rest + b);
      Concat3(if x.mult != 0 then [x] else [], Live(rest), Live(b));
    }
  }

  lemma {:induction false} WeightCons(x: Interaction, xs: seq<Interaction>, t: Felts)
    ensures Weight([x] + xs, t) == Add(if x.tuple == t then x.mult else 0, Weight(xs, t))
  {
    assert ([x] + xs)[1..] == xs;
  }

  lemma {:induction false} LiveWeight(xs: seq<Interaction>, t: Felts)
    ensures Weight(xs, t) == Weight(Live(xs), t)
  {
    if xs != [] {
      var rest := Live(xs[1..]);
      LiveWeight(xs[1..], t);
      if xs[0].mult != 0 { WeightCons(xs[0], rest, t); } else { assert Live(xs) == rest; }
    }
  }

  lemma {:induction false} SameLiveBalances(a: seq<Interaction>, b: seq<Interaction>)
    requires Live(a) == Live(b)
    ensures Balanced(a, b)
  {
    forall t: Felts
      ensures Weight(a, t) == Weight(b, t)
    {
      LiveWeight(a, t);
      LiveWeight(b, t);
    }
  }

  lemma {:induction false} LiveThree(a: Interaction, b: Interaction, c: Interaction)
    ensures Live([a, b, c]) == (if a.mult != 0 then [a] else []) + (if b.mult != 0 then [b] else [])
                             + (if c.mult != 0 then [c] else [])
  {
    LiveCons(a, [b, c]);
    LiveCons(b, [c]);
    LiveCons(c, []);
  }

  // ----- Counting -----

  function Count(xs: seq<Interaction>, t: Felts): (c: nat)
    ensures c <= |xs|
  {
    if xs == [] then 0 else (if xs[0].tuple == t && xs[0].mult == 1 then 1 else 0) + Count(xs[1..], t)
  }

  lemma {:induction false} WeightIsCount(xs: seq<Interaction>, t: Felts)
    requires |xs| < P && forall i :: 0 <= i < |xs| ==> IsBit(xs[i].mult)
    ensures Weight(xs, t) == Count(xs, t)
  {
    if xs != [] { WeightIsCount(xs[1..], t); }
  }

  lemma {:induction false} CountMember(xs: seq<Interaction>, x: Interaction)
    requires x in xs && x.mult == 1
    ensures Count(xs, x.tuple) > 0
  {
    if xs[0] != x { CountMember(xs[1..], x); }
  }

  lemma {:induction false} WeightSource(xs: seq<Interaction>, t: Felts) returns (i: nat)
    requires Weight(xs, t) != 0
    ensures i < |xs| && xs[i].tuple == t
  {
    if xs[0].tuple == t {
      i := 0;
    } else {
      i := WeightSource(xs[1..], t);
      i := i + 1;
    }
  }

  lemma {:induction false} LiveMember(xs: seq<Interaction>, x: Interaction)
    requires x in xs && x.mult != 0
    ensures x in Live(xs)
  {
    if xs[0] != x { LiveMember(xs[1..], x); }
  }

  lemma {:induction false} LiveIsOnce(xs: seq<Interaction>, x: Interaction)
    requires x in Live(xs) && forall y :: y in xs ==> IsBit(y.mult)
    ensures x.mult == 1
  {
    if xs[0] != x || xs[0].mult == 0 { LiveIsOnce(xs[1..], x); }
  }

  /** Fewer live receives than the field has elements cannot cancel: a tuple received once has weight. */
  lemma {:induction false} ReceivedWeight(xs: seq<Interaction>, x: Interaction)
    requires |Live(xs)| < P && forall y :: y in xs ==> IsBit(y.mult)
    requires x in xs && x.mult == 1
    ensures Weight(xs, x.tuple) != 0
  {
    var live := Live(xs);
    forall i | 0 <= i < |live| ensures live[i].mult == 1 { LiveIsOnce(xs, live[i]); }
    LiveWeight(xs, x.tuple);
    WeightIsCount(live, x.tuple);
    LiveMember(xs, x);
    CountMember(live, x);
  }

  // ----- Beyond the field size -----

  lemma {:induction false} AddAssoc(a: Felt, b: Felt, c: Felt)
    ensures Add(Add(a, b), c) == Add(a, Add(b, c))
  {
  }

  lemma {:induction false} WeightConcat(a: seq<Interaction>, b: seq<Interaction>, t: Felts)
    ensures Weight(a + b, t) == Add(Weight(a, t), Weight(b, t))
  {
    if a == [] {
      assert a + b == b;
    } else {
      assert (a + b)[1..] == a[1..] + b;
      WeightConcat(a[1..], b, t);
      AddAssoc(if a[0].tuple == t then a[0].mult else 0, Weight(a[1..], t), Weight(b, t));
    }
  }

  function Repeat(t: seq<Row>, n: nat): (ts: seq<seq<Row>>)
    ensures |ts| == n && forall k :: 0 <= k < n ==> ts[k] == t
  {
    if n == 0 then [] else [t] + Repeat(t, n - 1)
  }

  lemma {:induction false} RepeatedWeight(iv: Hash, t: seq<Row>, n: nat, x: Felts)
    ensures Weight(AllReceives(iv, Repeat(t, n)), x) == (n * Weight(Receives(iv, t), x)) % P
  {
    if n > 0 {
      RepeatedWeight(iv, t, n - 1, x);
      assert Repeat(t, n)[1..] == Repeat(t, n - 1);
      WeightConcat(Receives(iv, t), AllReceives(iv, Repeat(t, n - 1)), x);
      AddOnce(Weight(Receives(iv, t), x), n - 1);
    }
  }

  lemma {:induction false} AddOnce(w: Felt, n: nat)
    ensures Add(w, (n * w) % P) == ((n + 1) * w) % P
  {
    assert (n + 1) * w == n * w + w;
  }

  /** P copies of any table, whatever its columns hold, balance against no Blake3 row at all. */
  lemma {:induction false} RepeatedBalance(iv: Hash, t: seq<Row>)
    ensures Balanced(AllReceives(iv, Repeat(t, P)), Sends([]))
  {
    forall x: Felts
      ensures Weight(AllReceives(iv, Repeat(t, P)), x) == Weight(Sends([]), x)
    {
      RepeatedWeight(iv, t, P, x);
    }
  }
}
