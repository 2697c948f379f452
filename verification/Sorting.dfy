/** Stable sorting (`Vec::sort`, `sort_by`) and the byte-lexicographic order. */
module Sorting {
  import opened Bytes

  /** The order of Rust's byte vectors: the first differing byte decides, a
      proper prefix comes first. */
  predicate LexLe(a: ByteString, b: ByteString) {
    a == [] || (b != [] && (a[0] < b[0] || (a[0] == b[0] && LexLe(a[1..], b[1..]))))
  }

  /** `b` goes on after `a`, or the first byte in which they differ is smaller in `a`. */
  ghost predicate Precedes(a: ByteString, b: ByteString) {
    a <= b || exists k :: 0 <= k < |a| && k < |b| && a[..k] == b[..k] && a[k] < b[k]
  }

  lemma {:induction false} LexMeaning(a: ByteString, b: ByteString)
    ensures LexLe(a, b) <==> Precedes(a, b)
  {
    if a != [] && b != [] {
      var x, y := a[1..], b[1..];
      assert a == [a[0]] + x && b == [b[0]] + y;
      LexMeaning(x, y);
      if a[0] == b[0] {
        assert a <= b <==> x <= y;
        forall k | 0 <= k < |x| && k < |y|
          ensures x[..k] == y[..k] && x[k] < y[k] <==> a[..k + 1] == b[..k + 1] && a[k + 1] < b[k + 1]
        {
          assert a[..k + 1] == [a[0]] + x[..k] && b[..k + 1] == [b[0]] + y[..k];
          if a[..k + 1] == b[..k + 1] { SplitEqual([a[0]], x[..k], [b[0]], y[..k]); }
        }
        PrecedesShift(a, b);
      } else if a[0] < b[0] {
        assert a[..0] == b[..0];
      }
    }
  }

  lemma {:induction false} PrecedesShift(a: ByteString, b: ByteString)
    requires a != [] && b != [] && a[0] == b[0]
    requires a <= b <==> a[1..] <= b[1..]
    requires forall k :: 0 <= k < |a| - 1 && k < |b| - 1 ==>
               (a[1..][..k] == b[1..][..k] && a[1..][k] < b[1..][k] <==>
                a[..k + 1] == b[..k + 1] && a[k + 1] < b[k + 1])
    ensures Precedes(a, b) <==> Precedes(a[1..], b[1..])
  {
    if k :| 0 <= k < |a| && k < |b| && a[..k] == b[..k] && a[k] < b[k] {
      assert k > 0 && a[1..][..k - 1] == b[1..][..k - 1] && a[1..][k - 1] < b[1..][k - 1];
    }
    if k :| 0 <= k < |a| - 1 && k < |b| - 1 && a[1..][..k] == b[1..][..k] && a[1..][k] < b[1..][k] {
      assert a[..k + 1] == b[..k + 1] && a[k + 1] < b[k + 1];
    }
  }

  lemma {:induction false} LexAntisymmetric(a: ByteString, b: ByteString)
    requires LexLe(a, b) && LexLe(b, a)
    ensures a == b
  {
    if a != [] {
      LexAntisymmetric(a[1..], b[1..]);
      assert a == [a[0]] + a[1..] && b == [b[0]] + b[1..];
    }
  }

  lemma {:induction false} LexTransitive(a: ByteString, b: ByteString, c: ByteString)
    requires LexLe(a, b) && LexLe(b, c)
    ensures LexLe(a, c)
  {
    if a != [] && a[0] == b[0] == c[0] { LexTransitive(a[1..], b[1..], c[1..]); }
  }

  lemma {:induction false} LexTotal(a: ByteString, b: ByteString)
    ensures LexLe(a, b) || LexLe(b, a)
    ensures LexLe(a, a)
  {
    if a != [] { LexTotal(a[1..], if b != [] then b[1..] else []); }
  }

  /** A common prefix does not affect the comparison. */
  lemma {:induction false} LexCommonPrefix(p: ByteString, a: ByteString, b: ByteString)
    ensures LexLe(p + a, p + b) <==> LexLe(a, b)
  {
    if p == [] {
      assert p + a == a && p + b == b;
    } else {
      var x, y := p + a, p + b;
      assert x[0] == y[0] == p[0];
      assert x[1..] == p[1..] + a && y[1..] == p[1..] + b;
      LexCommonPrefix(p[1..], a, b);
    }
  }

  /** Strings of one length that differ decide the comparison for every extension. */
  lemma {:induction false} LexExtend(p: ByteString, q: ByteString, a: ByteString, b: ByteString)
    requires |p| == |q| && p != q && LexLe(p, q)
    ensures LexLe(p + a, q + b)
  {
    assert (p + a)[0] == p[0] && (q + b)[0] == q[0];
    assert (p + a)[1..] == p[1..] + a && (q + b)[1..] == q[1..] + b;
    if p[0] == q[0] {
      assert p == [p[0]] + p[1..] && q == [q[0]] + q[1..];
      LexExtend(p[1..], q[1..], a, b);
    }
  }

  // ----- Insertion sort, the specification of a stable sort -----

  ghost predicate TotalOrder<T(!new)>(le: (T, T) -> bool) {
    && (forall a, b :: le(a, b) || le(b, a))
    && (forall a, b, c :: le(a, b) && le(b, c) ==> le(a, c))
  }

  ghost predicate Sorted<T>(le: (T, T) -> bool, s: seq<T>) {
    forall i, j :: 0 <= i < j < |s| ==> le(s[i], s[j])
  }

  function Insert<T>(le: (T, T) -> bool, x: T, s: seq<T>): (r: seq<T>)
    ensures multiset(r) == multiset{x} + multiset(s)
    ensures |r| == |s| + 1
  {
    if s == [] || le(x, s[0]) then
      [x] + s
    else
      assert s == [s[0]] + s[1..];
      [s[0]] + Insert(le, x, s[1..])
  }

  function Sort<T>(le: (T, T) -> bool, s: seq<T>): (r: seq<T>)
    ensures multiset(r) == multiset(s)
    ensures |r| == |s|
  {
    if s == [] then
      []
    else
      assert s == [s[0]] + s[1..];
      Insert(le, s[0], Sort(le, s[1..]))
  }

  lemma {:induction false} MultisetMember<T>(a: seq<T>, b: seq<T>, i: nat) returns (j: nat)
    requires multiset(a) == multiset(b) && i < |a|
    ensures j < |b| && b[j] == a[i]
  {
    assert a[i] in multiset(a);
    assert a[i] in multiset(b);
    j :| 0 <= j < |b| && b[j] == a[i];
  }

  lemma {:induction false} SortMembers<T>(le: (T, T) -> bool, s: seq<T>)
    ensures forall i :: 0 <= i < |s| ==> Sort(le, s)[i] in s
  {
    forall i | 0 <= i < |s|
      ensures Sort(le, s)[i] in s
    {
      var j := MultisetMember(Sort(le, s), s, i);
    }
  }

  lemma {:induction false} InsertSorted<T(!new)>(le: (T, T) -> bool, x: T, s: seq<T>)
    requires TotalOrder(le) && Sorted(le, s)
    ensures Sorted(le, Insert(le, x, s))
  {
    if s != [] && !le(x, s[0]) {
      var rest := Insert(le, x, s[1..]);
      InsertSorted(le, x, s[1..]);
      forall j | 0 <= j < |rest|
        ensures le(s[0], rest[j])
      {
        var k := MultisetMember(rest, [x] + s[1..], j);
      }
    }
  }

  lemma {:induction false} SortSorted<T(!new)>(le: (T, T) -> bool, s: seq<T>)
    requires TotalOrder(le)
    ensures Sorted(le, Sort(le, s))
  {
    if s != [] {
      SortSorted(le, s[1..]);
      InsertSorted(le, s[0], Sort(le, s[1..]));
    }
  }

  /** A sorted sequence is left unchanged. */
  lemma {:induction false} SortIdentity<T>(le: (T, T) -> bool, s: seq<T>)
    requires Sorted(le, s)
    ensures Sort(le, s) == s
  {
    if s != [] {
      SortIdentity(le, s[1..]);
      assert s == [s[0]] + s[1..];
    }
  }

  /** Two sorted arrangements of one multiset agree position by position, when
      only equal elements of it compare both ways. */
  lemma {:induction false} SortedUnique<T>(le: (T, T) -> bool, a: seq<T>, b: seq<T>)
    requires Sorted(le, a) && Sorted(le, b) && multiset(a) == multiset(b)
    requires forall x, y :: x in a && y in a && le(x, y) && le(y, x) ==> x == y
    ensures a == b
  {
    if a == [] {
      assert |multiset(b)| == 0;
    } else {
      assert |multiset(a)| == |a| && |multiset(b)| == |b|;
      var i := MultisetMember(b, a, 0);
      var j := MultisetMember(a, b, 0);
      assert a[0] == b[0];
      assert a == [a[0]] + a[1..] && b == [b[0]] + b[1..];
      assert multiset(a[1..]) == multiset(a) - multiset{a[0]};
      assert multiset(b[1..]) == multiset(b) - multiset{b[0]};
      SortedUnique(le, a[1..], b[1..]);
      assert a == b;
    }
  }

  lemma {:induction false} LexTotalOrder()
    ensures TotalOrder(LexLe)
  {
    forall a: ByteString, b: ByteString ensures LexLe(a, b) || LexLe(b, a) { LexTotal(a, b); }
    forall a: ByteString, b: ByteString, c: ByteString | LexLe(a, b) && LexLe(b, c)
      ensures LexLe(a, c)
    {
      LexTransitive(a, b, c);
    }
  }

  // ----- Stability -----

  predicate Equal<T>(le: (T, T) -> bool, x: T, c: T) { le(x, c) && le(c, x) }

  /** The elements that compare equal to `c`, in order. */
  function Class<T>(le: (T, T) -> bool, c: T, s: seq<T>): seq<T> {
    if s == [] then [] else (if Equal(le, s[0], c) then [s[0]] else []) + Class(le, c, s[1..])
  }

  lemma {:induction false} ClassCons<T>(le: (T, T) -> bool, c: T, x: T, s: seq<T>)
    ensures Class(le, c, [x] + s) == (if Equal(le, x, c) then [x] else []) + Class(le, c, s)
  {
    assert ([x] + s)[1..] == s;
  }

  /** Elements equal to `c` compare with each other. */
  ghost predicate OneClass<T(!new)>(le: (T, T) -> bool, c: T) {
    forall x, y :: Equal(le, x, c) && Equal(le, y, c) ==> le(x, y)
  }

  lemma {:induction false} TotalOneClass<T(!new)>(le: (T, T) -> bool, c: T)
    requires TotalOrder(le)
    ensures OneClass(le, c)
  {
    forall x, y | Equal(le, x, c) && Equal(le, y, c) ensures le(x, y) { assert le(x, c) && le(c, y); }
  }

  lemma {:induction false} InsertClass<T(!new)>(le: (T, T) -> bool, c: T, x: T, s: seq<T>)
    requires OneClass(le, c)
    ensures Class(le, c, Insert(le, x, s)) == (if Equal(le, x, c) then [x] else []) + Class(le, c, s)
  {
    if s == [] || le(x, s[0]) {
      ClassCons(le, c, x, s);
    } else {
      InsertClass(le, c, x, s[1..]);
      ClassCons(le, c, s[0], Insert(le, x, s[1..]));
    }
  }

  /** Sorting keeps the order of elements that compare equal. */
  lemma {:induction false} SortStable<T(!new)>(le: (T, T) -> bool, c: T, s: seq<T>)
    requires OneClass(le, c)
    ensures Class(le, c, Sort(le, s)) == Class(le, c, s)
  {
    if s != [] {
      SortStable(le, c, s[1..]);
      InsertClass(le, c, s[0], Sort(le, s[1..]));
    }
  }

  lemma {:induction false} ClassMember<T>(le: (T, T) -> bool, c: T, s: seq<T>, x: T)
    requires x in Class(le, c, s)
    ensures x in s
  {
    if !(Equal(le, s[0], c) && x == s[0]) { ClassMember(le, c, s[1..], x); }
  }

  lemma {:induction false} ClassHead<T(!new)>(le: (T, T) -> bool, s: seq<T>, t: seq<T>)
    requires TotalOrder(le) && Sorted(le, s) && s != [] && Class(le, s[0], s) == Class(le, s[0], t) && Sorted(le, t)
    ensures t != [] && le(t[0], s[0])
  {
    assert le(s[0], s[0]);
    assert s[0] in Class(le, s[0], t);
    ClassMember(le, s[0], t, s[0]);
    var k :| 0 <= k < |t| && t[k] == s[0];
  }

  /** Sorted sequences with the same classes are the same. */
  lemma {:induction false} ClassesDetermine<T(!new)>(le: (T, T) -> bool, s: seq<T>, t: seq<T>)
    requires TotalOrder(le) && Sorted(le, s) && Sorted(le, t)
    requires forall c :: Class(le, c, s) == Class(le, c, t)
    ensures s == t
  {
    if s == [] {
      if t != [] { ClassHead(le, t, s); }
    } else {
      ClassHead(le, s, t);
      ClassHead(le, t, s);
      assert Class(le, s[0], s)[0] == s[0] && Class(le, s[0], t)[0] == t[0];
      forall c
        ensures Class(le, c, s[1..]) == Class(le, c, t[1..])
      {
        assert Class(le, c, s) == (if Equal(le, s[0], c) then [s[0]] else []) + Class(le, c, s[1..]);
        assert Class(le, c, t) == (if Equal(le, t[0], c) then [t[0]] else []) + Class(le, c, t[1..]);
        SplitEqual(if Equal(le, s[0], c) then [s[0]] else [], Class(le, c, s[1..]),
                   if Equal(le, t[0], c) then [t[0]] else [], Class(le, c, t[1..]));
      }
      ClassesDetermine(le, s[1..], t[1..]);
      assert s == [s[0]] + s[1..] && t == [t[0]] + t[1..];
    }
  }

  ghost predicate SameClasses<T(!new)>(le: (T, T) -> bool, s: seq<T>, t: seq<T>) {
    forall c :: Class(le, c, s) == Class(le, c, t)
  }

  /** Two lists sort to the same list if and only if equal elements come in the same order in both. */
  lemma {:induction false} SameSortIff<T(!new)>(le: (T, T) -> bool, s: seq<T>, t: seq<T>)
    requires TotalOrder(le)
    ensures Sort(le, s) == Sort(le, t) <==> SameClasses(le, s, t)
  {
    var a, b := Sort(le, s), Sort(le, t);
    if a == b {
      forall c
        ensures Class(le, c, s) == Class(le, c, t)
      {
        TotalOneClass(le, c);
        SortStable(le, c, s);
        SortStable(le, c, t);
      }
    }
    if SameClasses(le, s, t) {
      forall c
        ensures Class(le, c, a) == Class(le, c, b)
      {
        TotalOneClass(le, c);
        SortStable(le, c, s);
        SortStable(le, c, t);
        assert Class(le, c, s) == Class(le, c, t);
      }
      SortSorted(le, s);
      SortSorted(le, t);
      ClassesDetermine(le, a, b);
    }
  }

  // ----- Distinct elements -----

  ghost predicate Distinct<T>(s: seq<T>) {
    forall i, j :: 0 <= i < j < |s| ==> s[i] != s[j]
  }

  lemma {:induction false} DistinctIsMultiset<T>(s: seq<T>)
    ensures Distinct(s) <==> forall x :: x in s ==> multiset(s)[x] == 1
  {
    if s != [] {
      var init, last := s[..|s| - 1], s[|s| - 1];
      DistinctIsMultiset(init);
      assert s == init + [last];
      assert forall x :: multiset(s)[x] == multiset(init)[x] + (if x == last then 1 else 0);
      assert forall x :: x in init <==> multiset(init)[x] > 0;
      if Distinct(s) {
        assert last !in init;
      } else if Distinct(init) {
        assert last in init;
      }
    }
  }

  /** Distinctness does not depend on the order. */
  lemma {:induction false} DistinctPermutation<T>(a: seq<T>, b: seq<T>)
    requires multiset(a) == multiset(b)
    ensures Distinct(a) <==> Distinct(b)
  {
    DistinctIsMultiset(a);
    DistinctIsMultiset(b);
    assert forall x :: x in a <==> x in multiset(a);
    assert forall x :: x in b <==> x in multiset(b);
  }
}
