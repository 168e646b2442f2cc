/**
 * The densest 20-metre band of explicit decimal labels
 * (`_dominant_explicit_decimal_center` in src/screen2xyz_civil/assisted_capture.py).
 */
module ElevationWindow {
  import opened Common
  import opened Sorting

  const SPREAD: real := 20.0

  predicate AtMost(a: real, b: real) { a <= b }

  /** The first index from `r` on whose value lies more than the spread above ordered[left]. */
  function Reach(ordered: seq<real>, left: nat, r: nat): (e: nat)
    requires left < |ordered| && r <= |ordered|
    ensures r <= e <= |ordered|
    ensures forall k :: r <= k < e ==> ordered[k] - ordered[left] <= SPREAD
    ensures e < |ordered| ==> ordered[e] - ordered[left] > SPREAD
    decreases |ordered| - r
  {
    if r == |ordered| || ordered[r] - ordered[left] > SPREAD then r else Reach(ordered, left, r + 1)
  }

  predicate Close(m: multiset<real>) {
    forall x, y :: x in m && y in m ==> x - y <= SPREAD
  }

  /** `window` is a largest close part of `values`, and no equally large one starts lower. */
  ghost predicate Densest(values: seq<real>, window: seq<real>) {
    && multiset(window) <= multiset(values) && Close(multiset(window)) && Sorted(window, AtMost)
    && (forall m: multiset<real> :: m <= multiset(values) && Close(m) ==> |m| <= |window|)
    && (forall m: multiset<real>, x :: m <= multiset(values) && Close(m) && |m| == |window| && x in m ==>
          window != [] && window[0] <= x)
  }

  function Median(window: seq<real>): real
    requires window != []
  {
    var n := |window|;
    if n % 2 == 1 then window[n / 2] else (window[n / 2 - 1] + window[n / 2]) / 2.0
  }

  function InRange(texts: seq<string>, number: string -> Option<real>, low: real, high: real): seq<real> {
    if texts == [] then []
    else
      var v := number(texts[|texts| - 1]);
      InRange(texts[..|texts| - 1], number, low, high)
      + (if v.Some? && low <= v.value <= high then [v.value] else [])
  }

  // ---- windows against arbitrary parts --------------------------------------------------

  lemma SubmultisetSize(a: multiset<real>, b: multiset<real>)
    requires a <= b
    ensures |a| <= |b|
  {
    assert b == a + (b - a);
  }

  lemma {:induction false} FirstMember(ordered: seq<real>, m: multiset<real>) returns (left: nat)
    requires exists k :: 0 <= k < |ordered| && ordered[k] in m
    ensures left < |ordered| && ordered[left] in m
    ensures forall k :: 0 <= k < left ==> ordered[k] !in m
  {
    if ordered[0] in m {
      left := 0;
    } else {
      var k :| 0 <= k < |ordered| && ordered[k] in m;
      assert ordered[1..][k - 1] == ordered[k];
      left := FirstMember(ordered[1..], m);
      left := left + 1;
      assert forall k :: 0 < k < left ==> ordered[k] == ordered[1..][k - 1];
    }
  }

  /** A value found neither before nor after the window occurs in it as often as anywhere. */
  lemma CountInside(ordered: seq<real>, left: nat, right: nat, v: real)
    requires left <= right <= |ordered|
    requires forall k :: 0 <= k < left || right <= k < |ordered| ==> ordered[k] != v
    ensures multiset(ordered[left..right])[v] == multiset(ordered)[v]
  {
    var before, window, after := ordered[..left], ordered[left..right], ordered[right..];
    assert ordered == before + window + after;
    assert v !in before && v !in after;
    assert multiset(before)[v] == 0 && multiset(after)[v] == 0;
    assert multiset(ordered) == multiset(before) + multiset(window) + multiset(after);
  }

  lemma InOrder(ordered: seq<real>, i: nat, j: nat)
    requires Sorted(ordered, AtMost) && i <= j < |ordered|
    ensures ordered[i] <= ordered[j]
  {
  }

  lemma CloseTogether(m: multiset<real>, x: real, y: real)
    requires Close(m) && x in m && y in m
    ensures x - y <= SPREAD
  {
  }

  /** From the lowest member of a close collection, its other members lie within the window. */
  lemma MemberInWindow(ordered: seq<real>, m: multiset<real>, left: nat, at: nat)
    requires Sorted(ordered, AtMost) && Close(m)
    requires left < |ordered| && ordered[left] in m && forall k :: 0 <= k < left ==> ordered[k] !in m
    requires at < |ordered| && ordered[at] in m
    ensures ordered[left] <= ordered[at]
    ensures var right := Reach(ordered, left, left);
      left <= right <= |ordered| && multiset(ordered[left..right])[ordered[at]] == multiset(ordered)[ordered[at]]
  {
    hide Reach, Close, Sorted;
    var v, right := ordered[at], Reach(ordered, left, left);
    InOrder(ordered, left, at);
    CloseTogether(m, v, ordered[left]);
    forall k | right <= k < |ordered|
      ensures ordered[k] != v
    {
      InOrder(ordered, right, k);
    }
    CountInside(ordered, left, right, v);
  }

  lemma Member(m: multiset<real>) returns (x: real)
    requires |m| > 0
    ensures x in m
  {
    assert (forall y :: y !in m) ==> m == multiset{};
    x :| x in m;
  }

  lemma Occurs(ordered: seq<real>, m: multiset<real>, v: real) returns (at: nat)
    requires m <= multiset(ordered) && v in m
    ensures at < |ordered| && ordered[at] == v
  {
    assert v in multiset(ordered) && v in ordered;
    at :| 0 <= at < |ordered| && ordered[at] == v;
  }

  /** Everything close in an ordered list fits in the window that starts at its lowest member. */
  lemma CloseFitsInWindow(ordered: seq<real>, m: multiset<real>) returns (left: nat)
    requires Sorted(ordered, AtMost) && m <= multiset(ordered) && Close(m) && |m| > 0
    ensures left < |ordered| && ordered[left] in m
    ensures forall x :: x in m ==> ordered[left] <= x
    ensures |m| <= Reach(ordered, left, left) - left
  {
    hide Reach, Close, Sorted;
    var x := Member(m);
    var k := Occurs(ordered, m, x);
    left := FirstMember(ordered, m);
    forall v | v in m
      ensures ordered[left] <= v
      ensures multiset(ordered[left..Reach(ordered, left, left)])[v] == multiset(ordered)[v]
    {
      var at := Occurs(ordered, m, v);
      MemberInWindow(ordered, m, left, at);
    }
    SubmultisetSize(m, multiset(ordered[left..Reach(ordered, left, left)]));
  }

  /** The best window among those that start before `n`, the lowest on ties. */
  predicate BestBefore(ordered: seq<real>, n: nat, bl: nat, br: nat)
    requires n <= |ordered|
  {
    && bl <= br <= |ordered|
    && (n == 0 ==> bl == br == 0)
    && (n > 0 ==> bl < n && br == Reach(ordered, bl, bl))
    && (forall l :: 0 <= l < n ==> Reach(ordered, l, l) - l <= br - bl)
    && (forall l :: 0 <= l < bl ==> Reach(ordered, l, l) - l < br - bl)
  }

  lemma NothingYet(ordered: seq<real>)
    ensures BestBefore(ordered, 0, 0, 0)
  {
  }

  /** The window's end never moves back when its start moves up. */
  lemma ReachCarries(ordered: seq<real>, left: nat)
    requires 0 < left < |ordered| && ordered[left - 1] <= ordered[left]
    ensures var r := Reach(ordered, left - 1, left - 1);
      r >= left && Reach(ordered, left, left) == Reach(ordered, left, r)
  {
  }

  lemma ReachNext(ordered: seq<real>, left: nat, right: nat)
    requires left <= right < |ordered| && ordered[right] - ordered[left] <= SPREAD
    ensures Reach(ordered, left, right) == Reach(ordered, left, right + 1)
  {
  }

  lemma ReachHere(ordered: seq<real>, left: nat, right: nat)
    requires left < |ordered| && right <= |ordered|
    requires right == |ordered| || ordered[right] - ordered[left] > SPREAD
    ensures Reach(ordered, left, right) == right
  {
  }

  lemma WindowIsClose(ordered: seq<real>, bl: nat, br: nat)
    requires Sorted(ordered, AtMost) && bl < |ordered| && br == Reach(ordered, bl, bl)
    ensures Close(multiset(ordered[bl..br]))
  {
  }

  lemma BestBeatsAll(ordered: seq<real>, bl: nat, br: nat, m: multiset<real>)
    requires Sorted(ordered, AtMost) && BestBefore(ordered, |ordered|, bl, br)
    requires m <= multiset(ordered) && Close(m)
    ensures |m| <= br - bl
    ensures |m| == br - bl ==> forall x :: x in m ==> bl < |ordered| && ordered[bl] <= x
  {
    if |m| > 0 {
      var left := CloseFitsInWindow(ordered, m);
      if |m| == br - bl {
        assert bl <= left;
        assert bl < left ==> AtMost(ordered[bl], ordered[left]);
      }
    }
  }

  lemma WindowIsPart(ordered: seq<real>, bl: nat, br: nat)
    requires Sorted(ordered, AtMost) && bl <= br <= |ordered|
    ensures multiset(ordered[bl..br]) <= multiset(ordered) && Sorted(ordered[bl..br], AtMost)
  {
    var before, window, after := ordered[..bl], ordered[bl..br], ordered[br..];
    assert ordered == before + window + after;
    assert multiset(ordered) == multiset(before) + multiset(window) + multiset(after);
  }

  /** One more starting point. */
  lemma ExtendBest(ordered: seq<real>, n: nat, bl: nat, br: nat)
    requires n < |ordered| && BestBefore(ordered, n, bl, br)
    ensures var r := Reach(ordered, n, n);
      r > n && if r - n > br - bl then BestBefore(ordered, n + 1, n, r) else BestBefore(ordered, n + 1, bl, br)
  {
  }

  lemma BestIsDensest(ordered: seq<real>, bl: nat, br: nat)
    requires Sorted(ordered, AtMost) && BestBefore(ordered, |ordered|, bl, br)
    ensures Densest(ordered, ordered[bl..br])
  {
    var window := ordered[bl..br];
    WindowIsPart(ordered, bl, br);
    if |ordered| > 0 {
      WindowIsClose(ordered, bl, br);
    }
    assert |ordered| > 0 ==> bl < br <= |ordered|;
    hide BestBefore, Close, Reach;
    forall m: multiset<real> | m <= multiset(ordered) && Close(m)
      ensures |m| <= |window|
      ensures |m| == |window| ==> forall x :: x in m ==> window != [] && window[0] <= x
    {
      BestBeatsAll(ordered, bl, br, m);
    }
  }

  lemma MedianInside(window: seq<real>)
    requires Sorted(window, AtMost) && window != []
    ensures window[0] <= Median(window) <= window[|window| - 1]
  {
  }

  /** Moves the right pointer from where the previous start left it. */
  method AdvanceRight(ordered: seq<real>, left: nat, from: nat) returns (right: nat)
    requires Sorted(ordered, AtMost) && left < |ordered|
    requires from == if left == 0 then 0 else Reach(ordered, left - 1, left - 1)
    ensures right == Reach(ordered, left, left)
  {
    hide Reach;
    right := if from < left then left else from;
    if left > 0 {
      assert AtMost(ordered[left - 1], ordered[left]);
      ReachCarries(ordered, left);
    }
    while right < |ordered| && ordered[right] - ordered[left] <= SPREAD
      invariant left <= right <= |ordered| && Reach(ordered, left, right) == Reach(ordered, left, left)
    {
      ReachNext(ordered, left, right);
      right := right + 1;
    }
    ReachHere(ordered, left, right);
  }

  /** The two-pointer scan over the sorted values. */
  method LargestWindow(ordered: seq<real>) returns (best: seq<real>)
    requires Sorted(ordered, AtMost)
    ensures Densest(ordered, best)
  {
    hide Reach, BestBefore, Sorted, Densest;
    best := [];
    ghost var bl, br: nat := 0, 0;
    NothingYet(ordered);
    var right := 0;
    for left := 0 to |ordered|
      invariant right == if left == 0 then 0 else Reach(ordered, left - 1, left - 1)
      invariant BestBefore(ordered, left, bl, br) && bl <= br <= |ordered| && best == ordered[bl..br]
    {
      right := AdvanceRight(ordered, left, right);
      ExtendBest(ordered, left, bl, br);
      var window := ordered[left..right];
      if |window| > |best| {
        best := window;
        bl, br := left, right;
      }
    }
    BestIsDensest(ordered, bl, br);
  }

  /** Missing below three values, otherwise half way between the two values in the middle, or the one there. */
  predicate IsCenter(center: Option<real>, window: seq<real>) {
    if |window| < 3 then center.None?
    else center.Some? && 2.0 * center.value == window[(|window| - 1) / 2] + window[|window| / 2]
  }

  /** The center of the densest band; `number` is the decimal-token pattern followed by float(). */
  method DominantCenter(texts: seq<string>, number: string -> Option<real>, low: real, high: real)
    returns (center: Option<real>)
    ensures exists window :: Densest(InRange(texts, number, low, high), window) && IsCenter(center, window)
    ensures center.Some? ==> low <= center.value <= high
  {
    var values: seq<real> := [];
    for n := 0 to |texts|
      invariant values == InRange(texts[..n], number, low, high)
    {
      assert texts[..n + 1][..n] == texts[..n];
      var value := number(texts[n]);
      if value.Some? && low <= value.value <= high {
        values := values + [value.value];
      }
    }
    assert texts[..|texts|] == texts;
    var ordered := Sort(values, AtMost);
    SortSorted(values, AtMost);
    var best := LargestWindow(ordered);
    DensestIsSorted(ordered, best);
    SameMultiset(values, ordered, best);
    hide Densest, Median, InRange, Sorted;
    MiddleIsCenter(best);
    if |best| < 3 {
      assert IsCenter(None, best);
      return None;
    }
    BestInRange(texts, number, low, high, best);
    center := Some(Median(best));
    assert IsCenter(center, best);
  }

  lemma MiddleIsCenter(window: seq<real>)
    ensures IsCenter(if |window| < 3 then None else Some(Median(window)), window)
  {
  }

  lemma BestInRange(texts: seq<string>, number: string -> Option<real>, low: real, high: real, best: seq<real>)
    requires Densest(InRange(texts, number, low, high), best) && best != []
    ensures low <= Median(best) <= high
  {
    hide Densest, Median, InRange;
    var values := InRange(texts, number, low, high);
    DensestIsSorted(values, best);
    MedianInside(best);
    RangeBounds(texts, number, low, high);
    PartOf(values, best, 0);
    PartOf(values, best, |best| - 1);
  }

  lemma PartOf(values: seq<real>, part: seq<real>, k: nat)
    requires multiset(part) <= multiset(values) && k < |part|
    ensures part[k] in values
  {
    assert part[k] in multiset(part);
    assert part[k] in multiset(values);
  }

  lemma DensestIsSorted(values: seq<real>, window: seq<real>)
    requires Densest(values, window)
    ensures Sorted(window, AtMost) && multiset(window) <= multiset(values)
  {
  }

  /** Density does not depend on the order of the values. */
  lemma SameMultiset(values: seq<real>, ordered: seq<real>, window: seq<real>)
    requires multiset(values) == multiset(ordered) && Densest(ordered, window)
    ensures Densest(values, window) && Sorted(window, AtMost)
    ensures forall v :: v in window ==> v in values
  {
    forall v | v in window
      ensures v in values
    {
      assert v in multiset(window);
    }
  }

  lemma {:induction false} RangeBounds(texts: seq<string>, number: string -> Option<real>, low: real, high: real)
    ensures forall v :: v in InRange(texts, number, low, high) ==> low <= v <= high
  {
    if texts != [] {
      RangeBounds(texts[..|texts| - 1], number, low, high);
    }
  }

  // ---- there is only one densest band --------------------------------------------------------

  lemma SizesAgree(values: seq<real>, a: seq<real>, b: seq<real>)
    requires Densest(values, a) && Densest(values, b)
    ensures |a| == |b| && (a != [] ==> a[0] == b[0])
  {
    assert |multiset(a)| == |a| && |multiset(b)| == |b|;
    if a != [] && b != [] {
      assert a[0] in multiset(a) && b[0] in multiset(b);
    }
  }

  /** Taken together two densest windows are still close, so neither can have more than the other. */
  lemma DensestContains(values: seq<real>, a: seq<real>, b: seq<real>)
    requires Densest(values, a) && Densest(values, b)
    ensures multiset(b) <= multiset(a)
  {
    SizesAgree(values, a, b);
    var m, n := multiset(a), multiset(b);
    var u := m + (n - m);
    if a != [] {
      forall x, y | x in u && y in u
        ensures x - y <= SPREAD
      {
        Spanned(a, x);
        Spanned(b, x);
        Spanned(a, y);
        Spanned(b, y);
      }
    }
    assert u <= multiset(values);
    assert |u| == |m| + |n - m| && |m| == |a|;
    assert |n - m| == 0;
    assert n - m == multiset{};
    forall v
      ensures n[v] <= m[v]
    {
      assert (n - m)[v] == 0;
    }
  }

  lemma Spanned(window: seq<real>, x: real)
    requires window != [] && Sorted(window, AtMost) && Close(multiset(window))
    ensures x in multiset(window) ==> window[0] <= x <= window[0] + SPREAD
  {
    if x in multiset(window) {
      assert window[0] in multiset(window);
      CloseTogether(multiset(window), x, window[0]);
      HeadLeast(window, x);
    }
  }

  lemma HeadLeast(s: seq<real>, x: real)
    requires Sorted(s, AtMost) && x in multiset(s)
    ensures s != [] && s[0] <= x
  {
    assert x in s;
    var k :| 0 <= k < |s| && s[k] == x;
    InOrder(s, 0, k);
  }

  lemma SortedTail(s: seq<real>)
    requires Sorted(s, AtMost) && s != []
    ensures Sorted(s[1..], AtMost) && s == [s[0]] + s[1..] && multiset(s) == multiset{s[0]} + multiset(s[1..])
  {
    assert s == [s[0]] + s[1..];
  }

  lemma HeadsAgree(a: seq<real>, b: seq<real>)
    requires Sorted(a, AtMost) && Sorted(b, AtMost) && multiset(a) == multiset(b) && a != []
    ensures b != [] && a[0] == b[0]
  {
    hide Sorted;
    assert a[0] in multiset(a);
    HeadLeast(b, a[0]);
    assert b[0] in multiset(b);
    HeadLeast(a, b[0]);
  }

  lemma CancelOne(h: real, m: multiset<real>, n: multiset<real>)
    requires multiset{h} + m == multiset{h} + n
    ensures m == n
  {
    assert m == (multiset{h} + m) - multiset{h};
    assert n == (multiset{h} + n) - multiset{h};
  }

  lemma {:induction false} SortedUnique(a: seq<real>, b: seq<real>)
    requires Sorted(a, AtMost) && Sorted(b, AtMost) && multiset(a) == multiset(b)
    ensures a == b
  {
    hide Sorted;
    if a != [] {
      HeadsAgree(a, b);
      SortedTail(a);
      SortedTail(b);
      CancelOne(a[0], multiset(a[1..]), multiset(b[1..]));
      SortedUnique(a[1..], b[1..]);
    } else if b != [] {
      HeadsAgree(b, a);
    }
  }

  /** So the center is determined by the values alone. */
  lemma DensestIsUnique(values: seq<real>, a: seq<real>, b: seq<real>)
    requires Densest(values, a) && Densest(values, b)
    ensures a == b
  {
    DensestContains(values, a, b);
    DensestContains(values, b, a);
    SortedUnique(a, b);
  }

  // ---- the band and the values in plain terms ------------------------------------------------------

  lemma CloseMeans(m: multiset<real>)
    ensures Close(m) <==> forall x, y :: x in m && y in m ==> x - y <= 20.0
  {
  }

  function CountOf(texts: seq<string>, number: string -> Option<real>, v: real): nat {
    if texts == [] then 0
    else (if number(texts[0]) == Some(v) then 1 else 0) + CountOf(texts[1..], number, v)
  }

  lemma {:induction false} CountSnoc(texts: seq<string>, t: string, number: string -> Option<real>, v: real)
    ensures CountOf(texts + [t], number, v) == CountOf(texts, number, v) + (if number(t) == Some(v) then 1 else 0)
  {
    if texts == [] {
      assert texts + [t] == [t];
    } else {
      assert (texts + [t])[1..] == texts[1..] + [t];
      CountSnoc(texts[1..], t, number, v);
    }
  }

  lemma MultisetSnoc(s: seq<real>, x: real, v: real)
    ensures multiset(s + [x])[v] == multiset(s)[v] + (if x == v then 1 else 0)
  {
  }

  /** A number counts as often as it is written, if it lies in the range, bounds included. */
  lemma {:induction false} InRangeCounts(texts: seq<string>, number: string -> Option<real>, low: real, high: real,
                                         v: real)
    ensures multiset(InRange(texts, number, low, high))[v] == if low <= v <= high then CountOf(texts, number, v) else 0
  {
    if texts != [] {
      var n := |texts| - 1;
      var rest, x := InRange(texts[..n], number, low, high), number(texts[n]);
      InRangeCounts(texts[..n], number, low, high, v);
      assert texts == texts[..n] + [texts[n]];
      CountSnoc(texts[..n], texts[n], number, v);
      hide CountOf;
      if x.Some? && low <= x.value <= high {
        MultisetSnoc(rest, x.value, v);
      } else {
        assert InRange(texts, number, low, high) == rest;
      }
    }
  }
}
