/**
 * The grid index behind the hover cursor (`SpatialCandidateIndex` in
 * src/screen2xyz_civil/assisted_capture.py).  Distances are compared through
 * their squares.
 */
module SpatialIndex {
  import opened Common
  import opened Sorting

  datatype Candidate = Candidate(id: string, pixel: Point)

  type Cell = (int, int)

  function CellOf(p: Point, size: real): Cell
    requires size > 0.0
  {
    ((p.x / size).Floor, (p.y / size).Floor)
  }

  function Ceil(x: real): int { -(-x).Floor }

  function Square(a: Point, b: Point): real {
    (a.x - b.x) * (a.x - b.x) + (a.y - b.y) * (a.y - b.y)
  }

  predicate Within(c: Candidate, p: Point, radius: real) { Square(c.pixel, p) <= radius * radius }

  /** By distance, then by id. */
  predicate Nearer(p: Point, a: Candidate, b: Candidate) {
    Square(a.pixel, p) < Square(b.pixel, p)
    || (Square(a.pixel, p) == Square(b.pixel, p) && TextLeq(a.id, b.id))
  }

  predicate ById(a: Candidate, b: Candidate) { TextLeq(a.id, b.id) }

  function NearerThan(p: Point): (Candidate, Candidate) -> bool { (a: Candidate, b: Candidate) => Nearer(p, a, b) }

  function WithinOf(p: Point, radius: real): Candidate -> bool { (c: Candidate) => Within(c, p, radius) }

  function InCell(cell: Cell, size: real): Candidate -> bool
    requires size > 0.0
  {
    (c: Candidate) => CellOf(c.pixel, size) == cell
  }

  function Take<T>(s: seq<T>, limit: int): seq<T> {
    if limit <= 0 then [] else if limit <= |s| then s[..limit] else s
  }

  /** All candidates within the radius, each as often as it was given, nearest first. */
  ghost predicate Ranking(full: seq<Candidate>, candidates: seq<Candidate>, p: Point, radius: real) {
    Sorted(full, NearerThan(p)) && multiset(full) == multiset(Filter(candidates, WithinOf(p, radius)))
  }

  /** The first of such a ranking; only candidates with the same id and distance could change places in it. */
  ghost predicate NearestFirst(hits: seq<Candidate>, candidates: seq<Candidate>, p: Point, radius: real, limit: int) {
    exists full :: Ranking(full, candidates, p, radius) && hits == Take(full, limit)
  }

  /** Every candidate within the radius, nearest first, cut to the limit. */
  function BruteForce(candidates: seq<Candidate>, p: Point, radius: real, limit: int): seq<Candidate> {
    Take(Sort(Filter(candidates, WithinOf(p, radius)), NearerThan(p)), limit)
  }

  /** A negative radius is refused. */
  datatype Outcome = ValueError | Nearest(hits: seq<Candidate>)

  predicate UniqueIds(s: seq<Candidate>) {
    forall i, j :: 0 <= i < j < |s| ==> s[i].id != s[j].id
  }

  // ---- the orders --------------------------------------------------------------------

  lemma NearerIsPreorder(p: Point)
    ensures TotalPreorder(NearerThan(p))
  {
    hide Square;
    var leq := NearerThan(p);
    forall a, b
      ensures leq(a, b) || leq(b, a)
    {
      TextTotal(a.id, b.id);
    }
    forall a, b, c | leq(a, b) && leq(b, c)
      ensures leq(a, c)
    {
      if Square(a.pixel, p) == Square(c.pixel, p) {
        TextTransitive(a.id, b.id, c.id);
      }
    }
  }

  lemma ByIdIsPreorder()
    ensures TotalPreorder(ById)
  {
    forall a: Candidate, b: Candidate
      ensures ById(a, b) || ById(b, a)
    {
      TextTotal(a.id, b.id);
    }
    forall a, b, c | ById(a, b) && ById(b, c)
      ensures ById(a, c)
    {
      TextTransitive(a.id, b.id, c.id);
    }
  }

  // ---- which cells can hold a hit -------------------------------------------------------

  lemma FloorShift(a: real, b: real, n: int)
    requires a <= b + n as real
    ensures a.Floor <= b.Floor + n
  {
  }

  /** Coordinates at most `radius` apart lie at most ceil(radius / size) cells apart. */
  lemma CellsApart(a: real, b: real, radius: real, size: real)
    requires size > 0.0 && a - b <= radius
    ensures (a / size).Floor <= (b / size).Floor + Ceil(radius / size)
  {
    var n := Ceil(radius / size);
    assert radius / size <= n as real;
    assert a / size <= b / size + radius / size by {
      assert a <= b + radius;
      assert a / size <= (b + radius) / size;
      assert (b + radius) / size == b / size + radius / size;
    }
    FloorShift(a / size, b / size, n);
  }

  lemma WithinBox(c: Candidate, p: Point, radius: real)
    requires radius >= 0.0 && Within(c, p, radius)
    ensures c.pixel.x - p.x <= radius && p.x - c.pixel.x <= radius
    ensures c.pixel.y - p.y <= radius && p.y - c.pixel.y <= radius
  {
    SquareBound(c.pixel.x - p.x, c.pixel.y - p.y, radius);
    SquareBound(c.pixel.y - p.y, c.pixel.x - p.x, radius);
  }

  lemma Positive(x: real, y: real)
    requires x > 0.0 && y > 0.0
    ensures x * y > 0.0
  {
  }

  lemma SquareGrows(a: real, b: real)
    requires 0.0 <= b < a
    ensures b * b < a * a
  {
    Positive(a - b, a + b);
    assert (a - b) * (a + b) == a * a - b * b;
  }

  lemma SquareBound(dx: real, dy: real, radius: real)
    requires radius >= 0.0 && dx * dx + dy * dy <= radius * radius
    ensures -radius <= dx <= radius
  {
    assert dy * dy >= 0.0;
    var size := if dx < 0.0 then -dx else dx;
    assert size * size == dx * dx;
    if size > radius {
      SquareGrows(size, radius);
    }
  }

  lemma HitCell(c: Candidate, p: Point, radius: real, size: real)
    requires size > 0.0 && radius >= 0.0 && Within(c, p, radius)
    ensures var n, at, home := Ceil(radius / size), CellOf(c.pixel, size), CellOf(p, size);
      home.0 - n <= at.0 <= home.0 + n && home.1 - n <= at.1 <= home.1 + n
  {
    WithinBox(c, p, radius);
    CellsApart(c.pixel.x, p.x, radius, size);
    CellsApart(p.x, c.pixel.x, radius, size);
    CellsApart(c.pixel.y, p.y, radius, size);
    CellsApart(p.y, c.pixel.y, radius, size);
  }

  // ---- sorting distinct candidates ----------------------------------------------------------

  function IdOf(): Candidate -> string { (c: Candidate) => c.id }

  lemma UniqueIsDistinct(s: seq<Candidate>)
    ensures UniqueIds(s) <==> Distinct(s, IdOf())
  {
  }

  lemma SortedIsStrict(r: seq<Candidate>, p: Point)
    requires UniqueIds(r) && Sorted(r, NearerThan(p))
    ensures Strict(r, NearerThan(p))
  {
    hide Square;
    var leq := NearerThan(p);
    forall i, j | 0 <= i < j < |r|
      ensures !leq(r[j], r[i])
    {
      assert leq(r[i], r[j]);
      TextTotal(r[i].id, r[j].id);
    }
  }

  lemma FilterUnique(s: seq<Candidate>, f: Candidate -> bool)
    requires UniqueIds(s)
    ensures UniqueIds(Filter(s, f))
  {
    UniqueIsDistinct(s);
    FilterDistinct(s, IdOf(), f);
    UniqueIsDistinct(Filter(s, f));
  }

  lemma {:induction false} CountOnce(s: seq<Candidate>, c: Candidate)
    requires UniqueIds(s)
    ensures multiset(s)[c] <= 1
  {
    if s != [] {
      assert s == [s[0]] + s[1..];
      CountOnce(s[1..], c);
      if c == s[0] {
        assert c !in s[1..];
      }
    }
  }

  lemma CountTwice(s: seq<Candidate>, i: nat, j: nat)
    requires i < j < |s| && s[i] == s[j]
    ensures multiset(s)[s[i]] >= 2
  {
    assert s == s[..j] + [s[j]] + s[j + 1..];
    assert s[..j][i] == s[i] && s[i] in multiset(s[..j]);
  }

  lemma SameCountsUnique(a: seq<Candidate>, b: seq<Candidate>)
    requires UniqueIds(a) && multiset(a) == multiset(b)
    ensures UniqueIds(b)
  {
    forall i, j | 0 <= i < j < |b|
      ensures b[i].id != b[j].id
    {
      assert b[i] in multiset(b) && b[j] in multiset(b);
      if b[i] == b[j] {
        CountTwice(b, i, j);
        CountOnce(a, b[i]);
      }
    }
  }

  /** With unique ids there is one ranking, whatever the order of collecting. */
  lemma UniqueRanking(full: seq<Candidate>, candidates: seq<Candidate>, p: Point, radius: real)
    requires UniqueIds(candidates) && Ranking(full, candidates, p, radius)
    ensures full == Sort(Filter(candidates, WithinOf(p, radius)), NearerThan(p))
  {
    hide Nearer, WithinOf, Filter, UniqueIds;
    var hits, leq := Filter(candidates, WithinOf(p, radius)), NearerThan(p);
    NearerIsPreorder(p);
    FilterUnique(candidates, WithinOf(p, radius));
    SortSorted(hits, leq);
    SameCountsUnique(hits, full);
    SameCountsUnique(hits, Sort(hits, leq));
    SortedIsStrict(full, p);
    SortedIsStrict(Sort(hits, leq), p);
    assert forall c :: c in full <==> c in multiset(full);
    assert forall c :: c in Sort(hits, leq) <==> c in multiset(Sort(hits, leq));
    StrictUnique(full, Sort(hits, leq), leq);
  }

  /** So the answer is the brute-force one when no two candidates share an id. */
  lemma NearestIsBruteForce(hits: seq<Candidate>, candidates: seq<Candidate>, p: Point, radius: real, limit: int)
    requires UniqueIds(candidates)
    ensures NearestFirst(hits, candidates, p, radius, limit) <==> hits == BruteForce(candidates, p, radius, limit)
  {
    hide Ranking, UniqueIds, Take;
    BruteForceRanks(candidates, p, radius);
    if NearestFirst(hits, candidates, p, radius, limit) {
      var full :| Ranking(full, candidates, p, radius) && hits == Take(full, limit);
      UniqueRanking(full, candidates, p, radius);
    }
  }

  lemma BruteForceRanks(candidates: seq<Candidate>, p: Point, radius: real)
    ensures Ranking(Sort(Filter(candidates, WithinOf(p, radius)), NearerThan(p)), candidates, p, radius)
  {
    NearerIsPreorder(p);
    SortSorted(Filter(candidates, WithinOf(p, radius)), NearerThan(p));
  }

  lemma {:induction false} FilterCount(s: seq<Candidate>, f: Candidate -> bool, c: Candidate)
    ensures multiset(Filter(s, f))[c] == if f(c) then multiset(s)[c] else 0
  {
    if s != [] {
      assert s == [s[0]] + s[1..];
      FilterCount(s[1..], f, c);
    }
  }

  // ---- the index -----------------------------------------------------------------------------

  class CandidateIndex {
    const size: real
    const candidates: seq<Candidate>
    var buckets: map<Cell, seq<Candidate>>

    /** Each cell that holds a candidate lists its candidates by id. */
    ghost predicate Valid()
      reads this
    {
      && size > 0.0
      && (forall cell :: cell in buckets ==> buckets[cell] == Sort(Filter(candidates, InCell(cell, size)), ById))
      && (forall cell :: cell !in buckets ==> Filter(candidates, InCell(cell, size)) == [])
    }

    constructor (candidates: seq<Candidate>, size: real)
      requires size > 0.0
      ensures Valid() && this.candidates == candidates && this.size == size
    {
      this.candidates, this.size := candidates, size;
      buckets := map[];
      new;
      var raw: map<Cell, seq<Candidate>> := map[];
      for n := 0 to |candidates|
        invariant forall cell :: cell in raw ==> raw[cell] == Filter(candidates[..n], InCell(cell, size))
        invariant forall cell :: cell !in raw ==> Filter(candidates[..n], InCell(cell, size)) == []
      {
        var candidate := candidates[n];
        var cell := CellOf(candidate.pixel, size);
        assert candidates[..n + 1] == candidates[..n] + [candidate];
        forall at
          ensures Filter(candidates[..n + 1], InCell(at, size))
               == Filter(candidates[..n], InCell(at, size)) + (if at == cell then [candidate] else [])
        {
          FilterSnoc(candidates[..n], candidate, InCell(at, size));
        }
        raw := raw[cell := (if cell in raw then raw[cell] else []) + [candidate]];
      }
      assert candidates[..|candidates|] == candidates;
      buckets := map cell | cell in raw :: Sort(raw[cell], ById);
    }

    /** A cell size that is not positive is refused. */
    static method Build(candidates: seq<Candidate>, size: real) returns (r: Option<CandidateIndex>)
      ensures r.Some? <==> size > 0.0
      ensures r.Some? ==> fresh(r.value) && r.value.Valid() && r.value.candidates == candidates && r.value.size == size
    {
      if size <= 0.0 {
        return None;
      }
      var index := new CandidateIndex(candidates, size);
      return Some(index);
    }

    /** The candidates a scan has seen once it is about to enter cell (gx, gy) of the window. */
    predicate Scanned(c: Candidate, p: Point, radius: real, lo: Cell, hi: Cell, gx: int, gy: int)
      requires size > 0.0
    {
      var at := CellOf(c.pixel, size);
      && Within(c, p, radius)
      && lo.0 <= at.0 && lo.1 <= at.1 <= hi.1
      && (at.0 < gx || (at.0 == gx && at.1 < gy))
    }

    /** Exactly those have been collected, each as often as it was given. */
    ghost predicate Collected(matches: seq<Candidate>, p: Point, radius: real, lo: Cell, hi: Cell, gx: int, gy: int)
      requires size > 0.0
    {
      forall c :: multiset(matches)[c] == if Scanned(c, p, radius, lo, hi, gx, gy) then multiset(candidates)[c] else 0
    }

    method Search(p: Point, radius: real, limit: int) returns (r: Outcome)
      requires Valid()
      ensures r.ValueError? <==> radius < 0.0
      ensures r.Nearest? ==> NearestFirst(r.hits, candidates, p, radius, limit)
      ensures r.Nearest? && UniqueIds(candidates) ==> r.hits == BruteForce(candidates, p, radius, limit)
    {
      hide Sort, Filter, Ranking, Nearer, Within, Collected, CellOf, UniqueIds, Ceil;
      if radius < 0.0 {
        return ValueError;
      }
      BruteForceRanks(candidates, p, radius);
      if limit <= 0 {
        return Nearest([]);
      }
      var reach := Ceil(radius / size);
      var home := CellOf(p, size);
      ghost var lo, hi := (home.0 - reach, home.1 - reach), (home.0 + reach, home.1 + reach);
      NoNegativeReach(radius);
      var matches: seq<Candidate> := [];
      NothingCollected(p, radius, lo, hi);
      var gx := home.0 - reach;
      while gx <= home.0 + reach
        invariant lo.0 <= gx <= hi.0 + 1
        invariant Collected(matches, p, radius, lo, hi, gx, lo.1)
      {
        var gy := home.1 - reach;
        while gy <= home.1 + reach
          invariant lo.1 <= gy <= hi.1 + 1
          invariant Collected(matches, p, radius, lo, hi, gx, gy)
        {
          matches := ScanCell(p, radius, matches, lo, hi, gx, gy);
          gy := gy + 1;
        }
        NextColumn(matches, p, radius, lo, hi, gx);
        gx := gx + 1;
      }
      AllCollected(matches, p, radius, lo, hi);
      var full := Sort(matches, NearerThan(p));
      r := Nearest(Take(full, limit));
      if UniqueIds(candidates) {
        NearestIsBruteForce(r.hits, candidates, p, radius, limit);
      }
    }

    lemma NoNegativeReach(radius: real)
      requires size > 0.0 && radius >= 0.0
      ensures Ceil(radius / size) >= 0
    {
      assert radius / size >= 0.0;
    }

    lemma NothingCollected(p: Point, radius: real, lo: Cell, hi: Cell)
      requires size > 0.0
      ensures Collected([], p, radius, lo, hi, lo.0, lo.1)
    {
    }

    lemma NextColumn(matches: seq<Candidate>, p: Point, radius: real, lo: Cell, hi: Cell, gx: int)
      requires size > 0.0 && lo.1 <= hi.1 + 1 && Collected(matches, p, radius, lo, hi, gx, hi.1 + 1)
      ensures Collected(matches, p, radius, lo, hi, gx + 1, lo.1)
    {
      forall c
        ensures multiset(matches)[c]
             == if Scanned(c, p, radius, lo, hi, gx + 1, lo.1) then multiset(candidates)[c] else 0
      {
        assert Scanned(c, p, radius, lo, hi, gx + 1, lo.1) == Scanned(c, p, radius, lo, hi, gx, hi.1 + 1);
      }
    }

    /** The window holds every hit. */
    lemma AllCollected(matches: seq<Candidate>, p: Point, radius: real, lo: Cell, hi: Cell)
      requires size > 0.0 && radius >= 0.0
      requires var n, home := Ceil(radius / size), CellOf(p, size);
        lo == (home.0 - n, home.1 - n) && hi == (home.0 + n, home.1 + n)
      requires Collected(matches, p, radius, lo, hi, hi.0 + 1, lo.1)
      ensures Ranking(Sort(matches, NearerThan(p)), candidates, p, radius)
    {
      var f := WithinOf(p, radius);
      forall c
        ensures multiset(matches)[c] == multiset(Filter(candidates, f))[c]
      {
        FilterCount(candidates, f, c);
        if f(c) {
          HitCell(c, p, radius, size);
          assert Scanned(c, p, radius, lo, hi, hi.0 + 1, lo.1);
        }
      }
      assert multiset(matches) == multiset(Filter(candidates, f));
      NearerIsPreorder(p);
      SortSorted(matches, NearerThan(p));
    }

    /** Adds the hits of one cell. */
    method ScanCell(p: Point, radius: real, before: seq<Candidate>, ghost lo: Cell, ghost hi: Cell, gx: int, gy: int)
      returns (matches: seq<Candidate>)
      requires Valid() && lo.0 <= gx && lo.1 <= gy <= hi.1
      requires Collected(before, p, radius, lo, hi, gx, gy)
      ensures Collected(matches, p, radius, lo, hi, gx, gy + 1)
    {
      hide Collected, Sort, CellOf;
      matches := before;
      var bucket := if (gx, gy) in buckets then buckets[(gx, gy)] else [];
      for k := 0 to |bucket|
        invariant matches == before + Filter(bucket[..k], WithinOf(p, radius))
      {
        var candidate := bucket[k];
        assert bucket[..k + 1] == bucket[..k] + [candidate];
        FilterSnoc(bucket[..k], candidate, WithinOf(p, radius));
        if Within(candidate, p, radius) {
          matches := matches + [candidate];
        }
      }
      assert bucket[..|bucket|] == bucket;
      CellCollected(bucket, p, radius, before, lo, hi, gx, gy);
    }

    lemma CellCollected(bucket: seq<Candidate>, p: Point, radius: real, before: seq<Candidate>, lo: Cell, hi: Cell,
                        gx: int, gy: int)
      requires Valid() && lo.0 <= gx && lo.1 <= gy <= hi.1
      requires bucket == if (gx, gy) in buckets then buckets[(gx, gy)] else []
      requires Collected(before, p, radius, lo, hi, gx, gy)
      ensures Collected(before + Filter(bucket, WithinOf(p, radius)), p, radius, lo, hi, gx, gy + 1)
    {
      var f, g := WithinOf(p, radius), InCell((gx, gy), size);
      ByIdIsPreorder();
      SortSorted(Filter(candidates, g), ById);
      forall c
        ensures multiset(before + Filter(bucket, f))[c]
             == if Scanned(c, p, radius, lo, hi, gx, gy + 1) then multiset(candidates)[c] else 0
      {
        FilterCount(bucket, f, c);
        FilterCount(candidates, g, c);
        assert Scanned(c, p, radius, lo, hi, gx, gy + 1)
            == (Scanned(c, p, radius, lo, hi, gx, gy) || (f(c) && g(c)));
      }
    }
  }

  // ---- the answer in plain terms -----------------------------------------------------------

  /** The squared distance. */
  function Gap(c: Candidate, p: Point): real {
    (c.pixel.x - p.x) * (c.pixel.x - p.x) + (c.pixel.y - p.y) * (c.pixel.y - p.y)
  }

  function InDisc(p: Point, radius: real): Candidate -> bool { (c: Candidate) => Gap(c, p) <= radius * radius }

  /**
   * The answer holds candidates of the disc only, rim included, as many as there are or as the limit admits, by
   * distance and id; a candidate of the disc that is missing lies no nearer than any in the answer.
   */
  lemma AnswerMeans(hits: seq<Candidate>, candidates: seq<Candidate>, p: Point, radius: real, limit: int)
    requires NearestFirst(hits, candidates, p, radius, limit)
    ensures var n := |Filter(candidates, InDisc(p, radius))|;
      |hits| == if limit < 0 then 0 else if limit < n then limit else n
    ensures forall h :: h in hits ==> h in candidates && Gap(h, p) <= radius * radius
    ensures forall i, j :: 0 <= i < j < |hits| ==>
      Gap(hits[i], p) < Gap(hits[j], p)
      || (Gap(hits[i], p) == Gap(hits[j], p) && InDictionaryOrder(hits[i].id, hits[j].id))
    ensures forall c :: c in candidates && Gap(c, p) <= radius * radius && c !in hits ==>
      forall h :: h in hits ==> Gap(h, p) <= Gap(c, p)
  {
    hide Ranking, InDictionaryOrder, Filter;
    var full: seq<Candidate> :| Ranking(full, candidates, p, radius) && hits == Take(full, limit);
    RankingMembers(full, candidates, p, radius);
    RankingOrder(full, candidates, p, radius);
    assert hits <= full && forall i :: 0 <= i < |hits| ==> hits[i] == full[i];
    hide Gap;
    forall c, h | c in full && c !in hits && h in hits
      ensures Gap(h, p) <= Gap(c, p)
    {
      var i :| 0 <= i < |hits| && hits[i] == h;
      var j :| 0 <= j < |full| && full[j] == c;
    }
  }

  lemma RankingMembers(full: seq<Candidate>, candidates: seq<Candidate>, p: Point, radius: real)
    requires Ranking(full, candidates, p, radius)
    ensures |full| == |Filter(candidates, InDisc(p, radius))|
    ensures forall c :: c in full <==> c in candidates && Gap(c, p) <= radius * radius
  {
    hide Filter, Gap;
    SameDisc(candidates, p, radius);
    FilterMembers(candidates, InDisc(p, radius));
    var inside := Filter(candidates, InDisc(p, radius));
    assert |full| == |multiset(full)| == |multiset(inside)| == |inside|;
    assert forall c :: c in full <==> c in multiset(full);
    assert forall c :: c in inside <==> c in multiset(inside);
  }

  lemma RankingOrder(full: seq<Candidate>, candidates: seq<Candidate>, p: Point, radius: real)
    requires Ranking(full, candidates, p, radius)
    ensures forall i, j :: 0 <= i < j < |full| ==>
      Gap(full[i], p) < Gap(full[j], p)
      || (Gap(full[i], p) == Gap(full[j], p) && InDictionaryOrder(full[i].id, full[j].id))
  {
    hide Filter, InDictionaryOrder;
    forall i, j | 0 <= i < j < |full|
      ensures Gap(full[i], p) < Gap(full[j], p)
              || (Gap(full[i], p) == Gap(full[j], p) && InDictionaryOrder(full[i].id, full[j].id))
    {
      assert NearerThan(p)(full[i], full[j]);
      NearerMeans(p, full[i], full[j]);
    }
  }

  lemma NearerMeans(p: Point, a: Candidate, b: Candidate)
    requires Nearer(p, a, b)
    ensures Gap(a, p) < Gap(b, p) || (Gap(a, p) == Gap(b, p) && InDictionaryOrder(a.id, b.id))
  {
    TextLeqMeans(a.id, b.id);
    hide InDictionaryOrder, TextLeq;
  }

  lemma {:induction false} SameDisc(candidates: seq<Candidate>, p: Point, radius: real)
    ensures Filter(candidates, WithinOf(p, radius)) == Filter(candidates, InDisc(p, radius))
  {
    if candidates != [] {
      SameDisc(candidates[1..], p, radius);
      assert WithinOf(p, radius)(candidates[0]) <==> InDisc(p, radius)(candidates[0]);
    }
  }
}
