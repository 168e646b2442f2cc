/** Stable sorting by a total preorder, as Python's sorted() does it. */
module Sorting {
  ghost predicate TotalPreorder<T(!new)>(leq: (T, T) -> bool) {
    && (forall a, b :: leq(a, b) || leq(b, a))
    && (forall a, b, c :: leq(a, b) && leq(b, c) ==> leq(a, c))
  }

  /** In front of the first element it does not exceed, so earlier equals stay earlier. */
  function Insert<T>(x: T, s: seq<T>, leq: (T, T) -> bool): seq<T> {
    if s == [] || leq(x, s[0]) then [x] + s else [s[0]] + Insert(x, s[1..], leq)
  }

  function Sort<T>(s: seq<T>, leq: (T, T) -> bool): seq<T> {
    if s == [] then [] else Insert(s[0], Sort(s[1..], leq), leq)
  }

  predicate Sorted<T>(s: seq<T>, leq: (T, T) -> bool) {
    forall i, j :: 0 <= i < j < |s| ==> leq(s[i], s[j])
  }

  function Filter<T>(s: seq<T>, p: T -> bool): seq<T> {
    if s == [] then [] else (if p(s[0]) then [s[0]] else []) + Filter(s[1..], p)
  }

  // ---- Sort is a sorted permutation --------------------------------------------

  lemma {:induction false} InsertMembers<T(!new)>(x: T, s: seq<T>, leq: (T, T) -> bool)
    ensures multiset(Insert(x, s, leq)) == multiset{x} + multiset(s)
    ensures forall y :: y in Insert(x, s, leq) ==> y == x || y in s
  {
    if s != [] && !leq(x, s[0]) {
      InsertMembers(x, s[1..], leq);
      assert s == [s[0]] + s[1..];
    }
  }

  lemma {:induction false} InsertSorted<T(!new)>(x: T, s: seq<T>, leq: (T, T) -> bool)
    requires TotalPreorder(leq) && Sorted(s, leq)
    ensures Sorted(Insert(x, s, leq), leq)
  {
    if s != [] && !leq(x, s[0]) {
      var r := Insert(x, s[1..], leq);
      InsertSorted(x, s[1..], leq);
      InsertMembers(x, s[1..], leq);
      forall j | 0 <= j < |r|
        ensures leq(s[0], r[j])
      {
        assert r[j] in r;
      }
    }
  }

  lemma {:induction false} SortSorted<T(!new)>(s: seq<T>, leq: (T, T) -> bool)
    requires TotalPreorder(leq)
    ensures Sorted(Sort(s, leq), leq) && multiset(Sort(s, leq)) == multiset(s)
    ensures |Sort(s, leq)| == |s|
  {
    if s != [] {
      SortSorted(s[1..], leq);
      InsertSorted(s[0], Sort(s[1..], leq), leq);
      InsertMembers(s[0], Sort(s[1..], leq), leq);
      assert s == [s[0]] + s[1..];
      assert |multiset(Sort(s, leq))| == |multiset(s)|;
    }
  }

  lemma SortMembers<T(!new)>(s: seq<T>, leq: (T, T) -> bool)
    requires TotalPreorder(leq)
    ensures forall x :: x in Sort(s, leq) <==> x in s
  {
    SortSorted(s, leq);
    assert forall x :: x in Sort(s, leq) <==> x in multiset(Sort(s, leq));
  }

  /** Sorting what is already sorted changes nothing. */
  lemma {:induction false} SortFixed<T(!new)>(s: seq<T>, leq: (T, T) -> bool)
    requires Sorted(s, leq)
    ensures Sort(s, leq) == s
  {
    if s != [] {
      SortFixed(s[1..], leq);
      assert s == [s[0]] + s[1..];
    }
  }

  // ---- Sort is stable -------------------------------------------------------------

  lemma {:induction false} FilterMembers<T>(s: seq<T>, p: T -> bool)
    ensures forall x :: x in Filter(s, p) <==> x in s && p(x)
  {
    if s != [] {
      FilterMembers(s[1..], p);
      assert forall x :: x in s <==> x == s[0] || x in s[1..];
    }
  }

  lemma {:induction false} FilterSnoc<T>(s: seq<T>, x: T, p: T -> bool)
    ensures Filter(s + [x], p) == Filter(s, p) + (if p(x) then [x] else [])
  {
    var t := s + [x];
    if s == [] {
      assert t == [x] && t[1..] == [];
    } else {
      assert t[0] == s[0] && t[1..] == s[1..] + [x];
      FilterSnoc(s[1..], x, p);
      var head := if p(s[0]) then [s[0]] else [];
      assert Filter(t, p) == head + Filter(s[1..] + [x], p);
      assert Filter(s, p) == head + Filter(s[1..], p);
    }
  }

  lemma {:induction false} FilterSorted<T(!new)>(s: seq<T>, p: T -> bool, leq: (T, T) -> bool)
    requires Sorted(s, leq)
    ensures Sorted(Filter(s, p), leq)
  {
    if s != [] {
      FilterSorted(s[1..], p, leq);
      FilterMembers(s[1..], p);
      var r := Filter(s[1..], p);
      forall j | 0 <= j < |r|
        ensures leq(s[0], r[j])
      {
        assert r[j] in s[1..];
      }
    }
  }

  lemma {:induction false} InsertFilter<T(!new)>(x: T, s: seq<T>, p: T -> bool, leq: (T, T) -> bool)
    requires TotalPreorder(leq) && Sorted(s, leq)
    ensures Filter(Insert(x, s, leq), p) == if p(x) then Insert(x, Filter(s, p), leq) else Filter(s, p)
  {
    if s == [] || leq(x, s[0]) {
      var r := Filter(s, p);
      assert ([x] + s)[1..] == s;
      FilterMembers(s, p);
      if r != [] {
        assert r[0] in r;
        var i :| 0 <= i < |s| && s[i] == r[0];
        assert leq(s[0], s[i]);
      }
    } else {
      var r := Insert(x, s[1..], leq);
      InsertFilter(x, s[1..], p, leq);
      assert ([s[0]] + r)[1..] == r;
      assert Filter([s[0]] + r, p) == (if p(s[0]) then [s[0]] else []) + Filter(r, p);
      assert Filter(s, p) == (if p(s[0]) then [s[0]] else []) + Filter(s[1..], p);
      if p(s[0]) {
        assert Filter(s, p)[1..] == Filter(s[1..], p);
      } else {
        assert Filter(s, p) == Filter(s[1..], p) && Filter([s[0]] + r, p) == Filter(r, p);
      }
    }
  }

  /** Stability: the elements satisfying `p` come out as if they had been sorted alone. */
  lemma {:induction false} SortFilter<T(!new)>(s: seq<T>, p: T -> bool, leq: (T, T) -> bool)
    requires TotalPreorder(leq)
    ensures Filter(Sort(s, leq), p) == Sort(Filter(s, p), leq)
  {
    if s != [] {
      SortFilter(s[1..], p, leq);
      SortSorted(s[1..], leq);
      InsertFilter(s[0], Sort(s[1..], leq), p, leq);
      if p(s[0]) {
        assert Filter(s, p)[0] == s[0] && Filter(s, p)[1..] == Filter(s[1..], p);
      } else {
        assert Filter(s, p) == Filter(s[1..], p);
      }
    }
  }

  // ---- distinct keys stay distinct ----------------------------------------------------

  ghost predicate Distinct<T, K(!new)>(s: seq<T>, key: T -> K) {
    forall i, j :: 0 <= i < j < |s| ==> key(s[i]) != key(s[j])
  }

  ghost predicate Absent<T, K(!new)>(k: K, s: seq<T>, key: T -> K) {
    forall x :: x in s ==> key(x) != k
  }

  lemma DistinctHead<T, K(!new)>(s: seq<T>, key: T -> K)
    requires s != []
    ensures Distinct(s, key) <==> Absent(key(s[0]), s[1..], key) && Distinct(s[1..], key)
  {
  }

  lemma {:induction false} InsertDistinct<T(!new), K(!new)>(x: T, s: seq<T>, key: T -> K, leq: (T, T) -> bool)
    requires Distinct(s, key) && Absent(key(x), s, key)
    ensures Distinct(Insert(x, s, leq), key)
  {
    var r := Insert(x, s, leq);
    DistinctHead(r, key);
    if s != [] {
      DistinctHead(s, key);
    }
    if s == [] || leq(x, s[0]) {
      assert r[1..] == s;
    } else {
      assert r[1..] == Insert(x, s[1..], leq);
      InsertDistinct(x, s[1..], key, leq);
      InsertMembers(x, s[1..], leq);
      assert s[0] in s;
    }
  }

  lemma {:induction false} SortDistinct<T(!new), K(!new)>(s: seq<T>, key: T -> K, leq: (T, T) -> bool)
    requires Distinct(s, key) && TotalPreorder(leq)
    ensures Distinct(Sort(s, leq), key)
  {
    if s != [] {
      DistinctHead(s, key);
      SortDistinct(s[1..], key, leq);
      SortMembers(s[1..], leq);
      InsertDistinct(s[0], Sort(s[1..], leq), key, leq);
    }
  }

  lemma {:induction false} FilterDistinct<T(!new), K(!new)>(s: seq<T>, key: T -> K, p: T -> bool)
    requires Distinct(s, key)
    ensures Distinct(Filter(s, p), key)
  {
    if s != [] {
      DistinctHead(s, key);
      FilterDistinct(s[1..], key, p);
      FilterMembers(s[1..], p);
      if p(s[0]) {
        DistinctHead(Filter(s, p), key);
        assert Filter(s, p)[1..] == Filter(s[1..], p);
      }
    }
  }

  // ---- when the sorted order determines the sequence ---------------------------------

  /** The elements a sort does not tell apart from `x`. */
  function Alike<T>(x: T, leq: (T, T) -> bool): T -> bool {
    (y: T) => leq(x, y) && leq(y, x)
  }

  /** Two sorted sequences agree if equal keys occur in the same order in both. */
  lemma {:induction false} SortedByClasses<T(!new)>(a: seq<T>, b: seq<T>, leq: (T, T) -> bool)
    requires TotalPreorder(leq) && Sorted(a, leq) && Sorted(b, leq) && |a| == |b|
    requires forall x :: Filter(a, Alike(x, leq)) == Filter(b, Alike(x, leq))
    ensures a == b
  {
    if a != [] {
      var p, q := Alike(a[0], leq), Alike(b[0], leq);
      FilterMembers(a, p);
      FilterMembers(b, p);
      assert a[0] in Filter(a, p) && a[0] in b;
      FilterMembers(a, q);
      FilterMembers(b, q);
      assert b[0] in Filter(b, q) && b[0] in a;
      assert p(b[0]);
      assert Filter(a, p)[0] == a[0] && Filter(b, p)[0] == b[0];
      forall x
        ensures Filter(a[1..], Alike(x, leq)) == Filter(b[1..], Alike(x, leq))
      {
        assert Filter(a, Alike(x, leq)) == Filter(b, Alike(x, leq));
        FilterHead(a, Alike(x, leq));
        FilterHead(b, Alike(x, leq));
      }
      SortedByClasses(a[1..], b[1..], leq);
      assert a == [a[0]] + a[1..] && b == [b[0]] + b[1..];
    }
  }

  lemma FilterHead<T>(s: seq<T>, p: T -> bool)
    requires s != []
    ensures Filter(s[1..], p) == if p(s[0]) then Filter(s, p)[1..] else Filter(s, p)
  {
  }

  ghost predicate Strict<T>(s: seq<T>, leq: (T, T) -> bool) {
    forall i, j :: 0 <= i < j < |s| ==> !leq(s[j], s[i])
  }

  lemma HeadIsLeast<T>(s: seq<T>, leq: (T, T) -> bool)
    requires Strict(s, leq) && s != []
    ensures forall x :: x in s ==> x == s[0] || !leq(x, s[0])
    ensures leq(s[0], s[0]) ==> forall x :: x in s[1..] ==> x != s[0]
  {
  }

  /** Two strictly ordered sequences of the same elements are the same sequence. */
  lemma {:induction false} StrictUnique<T(!new)>(a: seq<T>, b: seq<T>, leq: (T, T) -> bool)
    requires TotalPreorder(leq) && Strict(a, leq) && Strict(b, leq)
    requires forall x :: x in a <==> x in b
    ensures a == b
  {
    var both := a + b;
    if both != [] {
      assert both[0] in both && both[0] in a && both[0] in b;
      HeadIsLeast(a, leq);
      HeadIsLeast(b, leq);
      assert a[0] in b && b[0] in a;
      assert a[0] == b[0];
      assert forall x :: x in a <==> x == a[0] || x in a[1..];
      assert forall x :: x in b <==> x == b[0] || x in b[1..];
      StrictUnique(a[1..], b[1..], leq);
      assert a == [a[0]] + a[1..] && b == [b[0]] + b[1..];
    }
  }

  // ---- strings compare by code point --------------------------------------------------

  predicate TextLeq(a: string, b: string) {
    a == [] || (b != [] && (a[0] < b[0] || (a[0] == b[0] && TextLeq(a[1..], b[1..]))))
  }

  lemma {:induction false} TextTotal(a: string, b: string)
    ensures TextLeq(a, b) || TextLeq(b, a)
    ensures TextLeq(a, b) && TextLeq(b, a) ==> a == b
  {
    if a != [] && b != [] {
      TextTotal(a[1..], b[1..]);
      assert a == [a[0]] + a[1..] && b == [b[0]] + b[1..];
    }
  }

  lemma {:induction false} TextTransitive(a: string, b: string, c: string)
    requires TextLeq(a, b) && TextLeq(b, c)
    ensures TextLeq(a, c)
  {
    if a != [] && b != [] && c != [] && a[0] == b[0] == c[0] {
      TextTransitive(a[1..], b[1..], c[1..]);
    }
  }

  /** Texts compare like in a dictionary: the first difference decides, and a text comes before its continuations. */
  ghost predicate InDictionaryOrder(a: string, b: string) {
    a <= b || exists k :: DifferAt(a, b, k) && a[k] < b[k]
  }

  predicate DifferAt(a: string, b: string, k: int) {
    0 <= k < |a| && k < |b| && a[..k] == b[..k] && a[k] != b[k]
  }

  lemma {:induction false} TextLeqMeans(a: string, b: string)
    ensures TextLeq(a, b) <==> InDictionaryOrder(a, b)
  {
    if a == "" {
    } else if b == "" {
      assert !(a <= b);
    } else if a[0] != b[0] {
      assert !(a <= b) && a[..0] == b[..0];
      assert DifferAt(a, b, 0);
    } else {
      TextLeqMeans(a[1..], b[1..]);
      assert a == [a[0]] + a[1..] && b == [b[0]] + b[1..];
      forall k | 0 <= k < |a[1..]| && k < |b[1..]|
        ensures DifferAt(a[1..], b[1..], k) <==> DifferAt(a, b, k + 1)
      {
        assert a[..k + 1] == [a[0]] + a[1..][..k] && b[..k + 1] == [b[0]] + b[1..][..k];
        assert a[1..][..k] == a[..k + 1][1..] && b[1..][..k] == b[..k + 1][1..];
      }
      if k :| DifferAt(a, b, k) && a[k] < b[k] {
        assert DifferAt(a[1..], b[1..], k - 1);
      }
      if k :| DifferAt(a[1..], b[1..], k) && a[1..][k] < b[1..][k] {
        assert DifferAt(a, b, k + 1);
      }
    }
  }
}
