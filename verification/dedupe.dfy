/**
 * Greedy removal of duplicate OCR words (`_dedupe_result` and
 * `_bbox_overlap_ratio` in src/screen2xyz_civil/ocr.py).
 */
module Dedupe {
  import opened Common
  import opened Sorting

  /** A normalized rectangle: x0 <= x1 and y0 <= y1. */
  datatype Rect = Rect(x0: real, y0: real, x1: real, y1: real)

  datatype Word = Word(text: string, box: Rect, confidence: Option<real>)

  datatype Line = Line(text: string, words: seq<Word>)

  datatype OcrResult = OcrResult(status: string, rawText: string, lines: seq<Line>)

  /** A word together with the text of the line it came from. */
  datatype Entry = Entry(context: string, word: Word)

  /** Text with its whitespace removed, case-folded. */
  type Folding = string -> string

  function Min(a: real, b: real): real { if a <= b then a else b }
  function Max(a: real, b: real): real { if a <= b then b else a }

  function Area(r: Rect): real { (r.x1 - r.x0) * (r.y1 - r.y0) }

  function OverlapRatio(l: Rect, r: Rect): real {
    var width := Max(0.0, Min(l.x1, r.x1) - Max(l.x0, r.x0));
    var height := Max(0.0, Min(l.y1, r.y1) - Max(l.y0, r.y0));
    var smaller := Min(Area(l), Area(r));
    if smaller <= 0.0 then 0.0 else (width * height) / smaller
  }

  predicate Duplicates(fold: Folding, a: Entry, b: Entry) {
    fold(a.word.text) == fold(b.word.text) && OverlapRatio(a.word.box, b.word.box) >= 0.45
  }

  function Confidence(e: Entry): real {
    if e.word.confidence.None? then 0.0 else e.word.confidence.value
  }

  /** Highest confidence first, then top to bottom, then left to right. */
  predicate Ranks(a: Entry, b: Entry) {
    Confidence(a) > Confidence(b)
    || (Confidence(a) == Confidence(b)
        && (a.word.box.y0 < b.word.box.y0
            || (a.word.box.y0 == b.word.box.y0 && a.word.box.x0 <= b.word.box.x0)))
  }

  /** Top to bottom, left to right, then by text. */
  predicate Reads(a: Entry, b: Entry) {
    a.word.box.y0 < b.word.box.y0
    || (a.word.box.y0 == b.word.box.y0
        && (a.word.box.x0 < b.word.box.x0
            || (a.word.box.x0 == b.word.box.x0 && TextLeq(a.word.text, b.word.text))))
  }

  function InLine(text: string, words: seq<Word>): seq<Entry> {
    if words == [] then [] else InLine(text, words[..|words| - 1]) + [Entry(text, words[|words| - 1])]
  }

  function Entries(lines: seq<Line>): seq<Entry> {
    if lines == [] then []
    else
      var last := lines[|lines| - 1];
      Entries(lines[..|lines| - 1]) + InLine(last.text, last.words)
  }

  predicate Known(fold: Folding, e: Entry, accepted: seq<Entry>) {
    exists i :: 0 <= i < |accepted| && Duplicates(fold, e, accepted[i])
  }

  /** The entries accepted out of the first `n` ranked ones. */
  function Accepted(fold: Folding, ranked: seq<Entry>, n: nat): seq<Entry>
    requires n <= |ranked|
  {
    if n == 0 then []
    else
      var accepted := Accepted(fold, ranked, n - 1);
      if Known(fold, ranked[n - 1], accepted) then accepted else accepted + [ranked[n - 1]]
  }

  /** What is kept, in reading order. */
  function Kept(fold: Folding, entries: seq<Entry>): seq<Entry> {
    var ranked := Sort(entries, Ranks);
    Sort(Accepted(fold, ranked, |ranked|), Reads)
  }

  function Joined(entries: seq<Entry>): string {
    if entries == [] then ""
    else if |entries| == 1 then entries[0].word.text
    else entries[0].word.text + "\n" + Joined(entries[1..])
  }

  function Rebuilt(entries: seq<Entry>): (r: seq<Line>)
    ensures |r| == |entries|
  {
    seq(|entries|, i requires 0 <= i < |entries| => Line(entries[i].context, [entries[i].word]))
  }

  function Deduped(fold: Folding, result: OcrResult): OcrResult {
    var kept := Kept(fold, Entries(result.lines));
    OcrResult(result.status, Joined(kept), Rebuilt(kept))
  }

  method DedupeResult(fold: Folding, result: OcrResult) returns (r: OcrResult)
    ensures r == Deduped(fold, result)
  {
    hide Duplicates, Sort, Joined, Rebuilt;
    var ranked: seq<Entry> := [];
    for i := 0 to |result.lines|
      invariant ranked == Entries(result.lines[..i])
    {
      var line := result.lines[i];
      ghost var before := ranked;
      for j := 0 to |line.words|
        invariant ranked == before + InLine(line.text, line.words[..j])
      {
        assert line.words[..j + 1][..j] == line.words[..j];
        ranked := ranked + [Entry(line.text, line.words[j])];
      }
      assert line.words[..|line.words|] == line.words;
      assert result.lines[..i + 1][..i] == result.lines[..i];
    }
    assert result.lines[..|result.lines|] == result.lines;
    ranked := Sort(ranked, Ranks);
    var accepted: seq<Entry> := [];
    for n := 0 to |ranked|
      invariant accepted == Accepted(fold, ranked, n)
    {
      var duplicate := false;
      for i := 0 to |accepted|
        invariant duplicate <==> exists k :: 0 <= k < i && Duplicates(fold, ranked[n], accepted[k])
      {
        if Duplicates(fold, ranked[n], accepted[i]) {
          duplicate := true;
        }
      }
      if !duplicate {
        accepted := accepted + [ranked[n]];
      }
    }
    accepted := Sort(accepted, Reads);
    r := OcrResult(result.status, Joined(accepted), Rebuilt(accepted));
  }

  // ---- the orders and the relation ---------------------------------------------------

  lemma RanksIsPreorder()
    ensures TotalPreorder(Ranks)
  {
  }

  lemma ReadsIsPreorder()
    ensures TotalPreorder(Reads)
  {
    forall a, b
      ensures Reads(a, b) || Reads(b, a)
    {
      TextTotal(a.word.text, b.word.text);
    }
    forall a, b, c | Reads(a, b) && Reads(b, c)
      ensures Reads(a, c)
    {
      if a.word.box.y0 == c.word.box.y0 && a.word.box.x0 == c.word.box.x0 {
        TextTransitive(a.word.text, b.word.text, c.word.text);
      }
    }
  }

  lemma MinMaxSymmetric(a: real, b: real)
    ensures Min(a, b) == Min(b, a) && Max(a, b) == Max(b, a)
  {
  }

  lemma OverlapSymmetric(l: Rect, r: Rect)
    ensures OverlapRatio(l, r) == OverlapRatio(r, l)
  {
    hide Min, Max, Area;
    MinMaxSymmetric(l.x0, r.x0);
    MinMaxSymmetric(l.x1, r.x1);
    MinMaxSymmetric(l.y0, r.y0);
    MinMaxSymmetric(l.y1, r.y1);
    MinMaxSymmetric(Area(l), Area(r));
  }

  lemma DuplicatesSymmetric(fold: Folding, a: Entry, b: Entry)
    ensures Duplicates(fold, a, b) == Duplicates(fold, b, a)
  {
    hide OverlapRatio;
    OverlapSymmetric(a.word.box, b.word.box);
  }

  // ---- a maximal independent set -------------------------------------------------------

  ghost predicate Independent(fold: Folding, s: seq<Entry>) {
    forall i, j :: 0 <= i < j < |s| ==> !Duplicates(fold, s[i], s[j])
  }

  /** Accepted or beaten: an accepted entry of at least its confidence duplicates it. */
  ghost predicate Covered(fold: Folding, e: Entry, accepted: seq<Entry>) {
    e in accepted || exists k :: k in accepted && Duplicates(fold, e, k) && Confidence(k) >= Confidence(e)
  }

  /** A sorted choice among the first `n` ranked entries. */
  ghost predicate Selection(accepted: seq<Entry>, ranked: seq<Entry>, n: nat)
    requires n <= |ranked|
  {
    && multiset(accepted) <= multiset(ranked[..n])
    && (forall e :: e in accepted ==> exists k :: 0 <= k < n && ranked[k] == e)
    && Sorted(accepted, Ranks)
  }

  lemma {:induction false} AcceptedMembers(fold: Folding, ranked: seq<Entry>, n: nat)
    requires n <= |ranked| && Sorted(ranked, Ranks)
    ensures Selection(Accepted(fold, ranked, n), ranked, n)
  {
    hide Selection, Known, Sorted;
    if n == 0 {
      NothingSelected(ranked);
    } else {
      AcceptedMembers(fold, ranked, n - 1);
      SelectOne(Accepted(fold, ranked, n - 1), ranked, n - 1);
    }
  }

  lemma NothingSelected(ranked: seq<Entry>)
    ensures Selection([], ranked, 0)
  {
  }

  /** Whether the next ranked entry is accepted or not. */
  lemma SelectOne(accepted: seq<Entry>, ranked: seq<Entry>, n: nat)
    requires n < |ranked| && Sorted(ranked, Ranks) && Selection(accepted, ranked, n)
    ensures Selection(accepted, ranked, n + 1) && Selection(accepted + [ranked[n]], ranked, n + 1)
  {
    hide Ranks;
    assert ranked[..n + 1] == ranked[..n] + [ranked[n]];
    forall i | 0 <= i < |accepted|
      ensures Ranks(accepted[i], ranked[n])
    {
      assert accepted[i] in accepted;
    }
  }

  lemma {:induction false} AcceptedIndependent(fold: Folding, ranked: seq<Entry>, n: nat)
    requires n <= |ranked|
    ensures Independent(fold, Accepted(fold, ranked, n))
  {
    hide Duplicates;
    if n > 0 {
      AcceptedIndependent(fold, ranked, n - 1);
      var accepted := Accepted(fold, ranked, n - 1);
      forall i | 0 <= i < |accepted|
        ensures Duplicates(fold, accepted[i], ranked[n - 1]) == Duplicates(fold, ranked[n - 1], accepted[i])
      {
        DuplicatesSymmetric(fold, ranked[n - 1], accepted[i]);
      }
    }
  }

  lemma {:induction false} AcceptedCovers(fold: Folding, ranked: seq<Entry>, n: nat, i: nat)
    requires i < n <= |ranked| && Sorted(ranked, Ranks)
    ensures Covered(fold, ranked[i], Accepted(fold, ranked, n))
  {
    hide Duplicates;
    var before := Accepted(fold, ranked, n - 1);
    if i < n - 1 {
      AcceptedCovers(fold, ranked, n - 1, i);
    } else if Known(fold, ranked[i], before) {
      var k :| 0 <= k < |before| && Duplicates(fold, ranked[i], before[k]);
      AcceptedMembers(fold, ranked, n - 1);
      assert before[k] in before;
      var j :| 0 <= j < n - 1 && ranked[j] == before[k];
      assert Ranks(ranked[j], ranked[i]);
    }
  }

  lemma {:induction false} InsertIndependent(fold: Folding, x: Entry, s: seq<Entry>, leq: (Entry, Entry) -> bool)
    requires Independent(fold, s) && !Known(fold, x, s)
    ensures Independent(fold, Insert(x, s, leq))
  {
    forall i | 0 <= i < |s|
      ensures !Duplicates(fold, s[i], x)
    {
      DuplicatesSymmetric(fold, x, s[i]);
    }
    if s != [] && !leq(x, s[0]) {
      InsertIndependent(fold, x, s[1..], leq);
      InsertMembers(x, s[1..], leq);
      var r := Insert(x, s[1..], leq);
      forall j | 0 <= j < |r|
        ensures !Duplicates(fold, s[0], r[j])
      {
        assert r[j] in r;
      }
    }
  }

  lemma {:induction false} SortIndependent(fold: Folding, s: seq<Entry>, leq: (Entry, Entry) -> bool)
    requires Independent(fold, s) && TotalPreorder(leq)
    ensures Independent(fold, Sort(s, leq))
  {
    if s != [] {
      SortIndependent(fold, s[1..], leq);
      SortMembers(s[1..], leq);
      forall i | 0 <= i < |Sort(s[1..], leq)|
        ensures !Duplicates(fold, s[0], Sort(s[1..], leq)[i])
      {
        assert Sort(s[1..], leq)[i] in s[1..];
      }
      InsertIndependent(fold, s[0], Sort(s[1..], leq), leq);
    }
  }

  /**
   * Kept words come from the input, no two of them are duplicates, and every
   * word that was dropped duplicates a kept one of at least its confidence.
   */
  lemma KeptIsMaximalIndependent(fold: Folding, entries: seq<Entry>)
    ensures var kept := Kept(fold, entries);
      && Independent(fold, kept)
      && multiset(kept) <= multiset(entries)
      && (forall e :: e in entries ==> Covered(fold, e, kept))
      && Sorted(kept, Reads)
  {
    RanksIsPreorder();
    ReadsIsPreorder();
    var ranked := Sort(entries, Ranks);
    var accepted := Accepted(fold, ranked, |ranked|);
    SortSorted(entries, Ranks);
    SortMembers(entries, Ranks);
    AcceptedMembers(fold, ranked, |ranked|);
    AcceptedIndependent(fold, ranked, |ranked|);
    assert ranked[..|ranked|] == ranked;
    SortSorted(accepted, Reads);
    SortMembers(accepted, Reads);
    SortIndependent(fold, accepted, Reads);
    forall e | e in entries
      ensures Covered(fold, e, Kept(fold, entries))
    {
      assert e in ranked;
      var i :| 0 <= i < |ranked| && ranked[i] == e;
      AcceptedCovers(fold, ranked, |ranked|, i);
    }
  }

  // ---- running it twice ------------------------------------------------------------------

  lemma {:induction false} AcceptedAll(fold: Folding, s: seq<Entry>, n: nat)
    requires Independent(fold, s) && n <= |s|
    ensures Accepted(fold, s, n) == s[..n]
  {
    hide Duplicates;
    if n > 0 {
      AcceptedAll(fold, s, n - 1);
      forall i | 0 <= i < n - 1
        ensures !Duplicates(fold, s[n - 1], s[i])
      {
        DuplicatesSymmetric(fold, s[n - 1], s[i]);
      }
    }
  }

  /** Re-ranking a reading order and reading it again gives the same order back. */
  lemma SortTwice(accepted: seq<Entry>)
    requires Sorted(accepted, Ranks)
    ensures Sort(Sort(Sort(accepted, Reads), Ranks), Reads) == Sort(accepted, Reads)
  {
    RanksIsPreorder();
    ReadsIsPreorder();
    var once := Sort(accepted, Reads);
    var again := Sort(once, Ranks);
    SortSorted(accepted, Reads);
    SortSorted(once, Ranks);
    SortSorted(again, Reads);
    forall x
      ensures Filter(Sort(again, Reads), Alike(x, Reads)) == Filter(once, Alike(x, Reads))
    {
      var p := Alike(x, Reads);
      var class_ := Filter(accepted, p);
      FilterMembers(accepted, p);
      FilterSorted(accepted, p, Ranks);
      forall i, j | 0 <= i < j < |class_|
        ensures Reads(class_[i], class_[j])
      {
        assert class_[i] in class_ && class_[j] in class_;
        assert Reads(class_[i], x) && Reads(x, class_[j]);
      }
      SortFilter(accepted, p, Reads);
      SortFixed(class_, Reads);
      SortFilter(once, p, Ranks);
      SortFixed(class_, Ranks);
      SortFilter(again, p, Reads);
    }
    SortedByClasses(Sort(again, Reads), once, Reads);
  }

  lemma KeptTwice(fold: Folding, entries: seq<Entry>)
    ensures Kept(fold, Kept(fold, entries)) == Kept(fold, entries)
  {
    RanksIsPreorder();
    ReadsIsPreorder();
    var ranked := Sort(entries, Ranks);
    var accepted := Accepted(fold, ranked, |ranked|);
    SortSorted(entries, Ranks);
    AcceptedMembers(fold, ranked, |ranked|);
    AcceptedIndependent(fold, ranked, |ranked|);
    SortIndependent(fold, accepted, Reads);
    SortIndependent(fold, Sort(accepted, Reads), Ranks);
    var again := Sort(Sort(accepted, Reads), Ranks);
    AcceptedAll(fold, again, |again|);
    assert again[..|again|] == again;
    SortTwice(accepted);
  }

  lemma {:induction false} EntriesOfRebuilt(entries: seq<Entry>)
    ensures Entries(Rebuilt(entries)) == entries
  {
    if entries != [] {
      var n := |entries| - 1;
      EntriesOfRebuilt(entries[..n]);
      assert Rebuilt(entries)[..n] == Rebuilt(entries[..n]);
      var e := entries[n];
      assert [e.word][..0] == [];
      assert InLine(e.context, [e.word]) == [Entry(e.context, e.word)];
    }
  }

  /** Deduplicating a deduplicated result changes nothing. */
  lemma DedupeIsIdempotent(fold: Folding, result: OcrResult)
    ensures Deduped(fold, Deduped(fold, result)) == Deduped(fold, result)
  {
    KeptTwice(fold, Entries(result.lines));
    EntriesOfRebuilt(Kept(fold, Entries(result.lines)));
  }

  // ---- what counts as a duplicate, and the orders in plain terms -----------------------------------

  /** `x` is the larger of the two numbers, or the smaller one. */
  predicate Larger(x: real, a: real, b: real) { (x == a || x == b) && x >= a && x >= b }

  predicate Smaller(x: real, a: real, b: real) { (x == a || x == b) && x <= a && x <= b }

  /** `c` is what two boxes have in common; a side of no length or less means that they are apart. */
  predicate InCommon(c: Rect, l: Rect, r: Rect) {
    Larger(c.x0, l.x0, r.x0) && Smaller(c.x1, l.x1, r.x1) && Larger(c.y0, l.y0, r.y0) && Smaller(c.y1, l.y1, r.y1)
  }

  /** The common area as a share of the smaller box; nothing is shared with a box without area. */
  lemma OverlapMeans(l: Rect, r: Rect, c: Rect, smaller: real)
    requires InCommon(c, l, r)
    requires Smaller(smaller, (l.x1 - l.x0) * (l.y1 - l.y0), (r.x1 - r.x0) * (r.y1 - r.y0))
    ensures smaller <= 0.0 || c.x1 <= c.x0 || c.y1 <= c.y0 ==> OverlapRatio(l, r) == 0.0
    ensures smaller > 0.0 && c.x1 > c.x0 && c.y1 > c.y0 ==>
      OverlapRatio(l, r) * smaller == (c.x1 - c.x0) * (c.y1 - c.y0)
  {
    hide Min, Max, Area;
    LargerIsMax(c.x0, l.x0, r.x0);
    SmallerIsMin(c.x1, l.x1, r.x1);
    LargerIsMax(c.y0, l.y0, r.y0);
    SmallerIsMin(c.y1, l.y1, r.y1);
    AreaIs(l);
    AreaIs(r);
    SmallerIsMin(smaller, Area(l), Area(r));
    var width, height := Max(0.0, c.x1 - c.x0), Max(0.0, c.y1 - c.y0);
    AtLeastZero(c.x1 - c.x0);
    AtLeastZero(c.y1 - c.y0);
    if smaller > 0.0 {
      Share(width, height, smaller);
    }
  }

  lemma LargerIsMax(x: real, a: real, b: real)
    requires Larger(x, a, b)
    ensures Max(a, b) == x
  {
  }

  lemma SmallerIsMin(x: real, a: real, b: real)
    requires Smaller(x, a, b)
    ensures Min(a, b) == x
  {
  }

  lemma AreaIs(r: Rect)
    ensures Area(r) == (r.x1 - r.x0) * (r.y1 - r.y0)
  {
  }

  lemma AtLeastZero(x: real)
    ensures Max(0.0, x) == if x > 0.0 then x else 0.0
  {
  }

  lemma Share(width: real, height: real, smaller: real)
    requires smaller > 0.0
    ensures width * height / smaller * smaller == width * height
    ensures width == 0.0 || height == 0.0 ==> width * height / smaller == 0.0
  {
    assert width == 0.0 || height == 0.0 ==> width * height == 0.0;
  }

  /** Duplicates have the same folded text and at least 45 hundredths of the smaller box in common. */
  lemma DuplicateMeans(fold: Folding, a: Entry, b: Entry, c: Rect, smaller: real)
    requires var l, r := a.word.box, b.word.box;
      && InCommon(c, l, r)
      && Smaller(smaller, (l.x1 - l.x0) * (l.y1 - l.y0), (r.x1 - r.x0) * (r.y1 - r.y0))
    ensures Duplicates(fold, a, b) <==>
      && fold(a.word.text) == fold(b.word.text)
      && smaller > 0.0 && c.x1 > c.x0 && c.y1 > c.y0
      && 100.0 * ((c.x1 - c.x0) * (c.y1 - c.y0)) >= 45.0 * smaller
  {
    hide OverlapRatio, InCommon, Smaller;
    OverlapMeans(a.word.box, b.word.box, c, smaller);
    if smaller > 0.0 && c.x1 > c.x0 && c.y1 > c.y0 {
      AtLeast(OverlapRatio(a.word.box, b.word.box), smaller, (c.x1 - c.x0) * (c.y1 - c.y0));
    }
  }

  lemma AtLeast(ratio: real, smaller: real, shared: real)
    requires smaller > 0.0 && ratio * smaller == shared
    ensures ratio >= 0.45 <==> 100.0 * shared >= 45.0 * smaller
  {
    var x := ratio - 0.45;
    assert x * smaller == ratio * smaller - 0.45 * smaller;
    SignKept(x, smaller);
  }

  lemma SignKept(x: real, y: real)
    requires y > 0.0
    ensures x >= 0.0 <==> x * y >= 0.0
  {
  }

  /** A word without a confidence ranks as one of confidence 0; of equals the higher, then the left one is first. */
  lemma RanksMeans(a: Entry, b: Entry, ca: real, cb: real)
    requires ca == (match a.word.confidence case None => 0.0 case Some(c) => c)
    requires cb == (match b.word.confidence case None => 0.0 case Some(c) => c)
    ensures !Ranks(b, a) <==>
      ca > cb || (ca == cb && (a.word.box.y0 < b.word.box.y0
                               || (a.word.box.y0 == b.word.box.y0 && a.word.box.x0 < b.word.box.x0)))
  {
  }

  /** The result lists its words from top to bottom, in one height from left to right, then by text. */
  lemma KeptInReadingOrder(fold: Folding, entries: seq<Entry>, i: nat, j: nat)
    requires i < j < |Kept(fold, entries)|
    ensures var a, b := Kept(fold, entries)[i].word, Kept(fold, entries)[j].word;
      a.box.y0 < b.box.y0
      || (a.box.y0 == b.box.y0
          && (a.box.x0 < b.box.x0 || (a.box.x0 == b.box.x0 && InDictionaryOrder(a.text, b.text))))
  {
    hide Kept, Independent, Covered;
    KeptIsMaximalIndependent(fold, entries);
    var a, b := Kept(fold, entries)[i], Kept(fold, entries)[j];
    assert Reads(a, b);
    TextLeqMeans(a.word.text, b.word.text);
  }

  /** The raw text holds the kept words, each on its own line. */
  lemma {:induction false} JoinedSnoc(entries: seq<Entry>, e: Entry)
    ensures Joined(entries + [e]) == if entries == [] then e.word.text else Joined(entries) + "\n" + e.word.text
  {
    if |entries| == 0 {
      assert entries + [e] == [e];
    } else if |entries| == 1 {
      assert (entries + [e])[1..] == [e];
    } else {
      assert (entries + [e])[1..] == entries[1..] + [e];
      JoinedSnoc(entries[1..], e);
      var head := entries[0].word.text + "\n";
      assert head + (Joined(entries[1..]) + "\n" + e.word.text) == head + Joined(entries[1..]) + "\n" + e.word.text;
    }
  }
}
