/**
 * The crossing test and the triangle filters of the preliminary surface
 * (src/screen2xyz_civil/surface.py), in exact arithmetic.
 */
module Segments {
  import opened Common
  import opened Polygon
  import opened Sorting

  const NEAR: real := 0.0000000001
  const FLAT: real := 0.000000000001

  predicate SamePoint(p: Point, q: Point) { Abs(p.x - q.x) <= NEAR && Abs(p.y - q.y) <= NEAR }

  /** Some endpoint of the one segment is (nearly) an endpoint of the other. */
  predicate ShareEnd(a: Point, b: Point, c: Point, d: Point) {
    SamePoint(a, c) || SamePoint(a, d) || SamePoint(b, c) || SamePoint(b, d)
  }

  predicate SegmentsIntersect(a: Point, b: Point, c: Point, d: Point) {
    !ShareEnd(a, b, c, d)
    && Turn(a, b, c) * Turn(a, b, d) < 0.0 && Turn(c, d, a) * Turn(c, d, b) < 0.0
  }

  // ---- the test means a transversal crossing ----------------------------------------------

  /** Zero exactly when the two directions are parallel. */
  function Det(a: Point, b: Point, c: Point, d: Point): real {
    (b.x - a.x) * (d.y - c.y) - (b.y - a.y) * (d.x - c.x)
  }

  /** The point a fraction `s` along ab is the point a fraction `t` along cd, strictly inside both. */
  predicate MeetAt(a: Point, b: Point, c: Point, d: Point, s: real, t: real) {
    && 0.0 < s < 1.0 && 0.0 < t < 1.0
    && a.x + s * (b.x - a.x) == c.x + t * (d.x - c.x)
    && a.y + s * (b.y - a.y) == c.y + t * (d.y - c.y)
  }

  ghost predicate CrossTransversally(a: Point, b: Point, c: Point, d: Point) {
    Det(a, b, c, d) != 0.0 && exists s, t :: MeetAt(a, b, c, d, s, t)
  }

  lemma TurnDifference(a: Point, b: Point, c: Point, d: Point)
    ensures Turn(a, b, d) - Turn(a, b, c) == Det(a, b, c, d)
  {
  }

  lemma DetSwap(a: Point, b: Point, c: Point, d: Point)
    ensures Det(c, d, a, b) == -Det(a, b, c, d)
  {
  }

  /** Two numbers of opposite sign: the first is a proper fraction of their difference. */
  lemma OppositeSigns(x: real, y: real)
    requires x * y < 0.0
    ensures x != y && 0.0 < x / (x - y) < 1.0
  {
  }

  /** Cross products of three plane vectors balance. */
  lemma Balance(a: Point, b: Point, c: Point, d: Point)
    ensures (a.x - c.x) * Det(a, b, c, d) + Turn(c, d, a) * (b.x - a.x) + Turn(a, b, c) * (d.x - c.x) == 0.0
    ensures (a.y - c.y) * Det(a, b, c, d) + Turn(c, d, a) * (b.y - a.y) + Turn(a, b, c) * (d.y - c.y) == 0.0
  {
  }

  lemma Solve(w: real, u: real, v: real, s: real, t: real, det: real, os: real, ot: real)
    requires det != 0.0 && s * det == os && t * det == -ot
    requires w * det + os * u + ot * v == 0.0
    ensures w + s * u == t * v
  {
  }

  lemma TestFindsThePoint(a: Point, b: Point, c: Point, d: Point) returns (s: real, t: real)
    requires Turn(a, b, c) * Turn(a, b, d) < 0.0 && Turn(c, d, a) * Turn(c, d, b) < 0.0
    ensures Det(a, b, c, d) != 0.0 && MeetAt(a, b, c, d, s, t)
  {
    var o1, o2, o3, o4 := Turn(a, b, c), Turn(a, b, d), Turn(c, d, a), Turn(c, d, b);
    var det := Det(a, b, c, d);
    TurnDifference(a, b, c, d);
    TurnDifference(c, d, a, b);
    DetSwap(a, b, c, d);
    Balance(a, b, c, d);
    hide Turn, Det;
    OppositeSigns(o3, o4);
    OppositeSigns(o1, o2);
    s, t := o3 / (o3 - o4), o1 / (o1 - o2);
    assert o3 - o4 == det && o1 - o2 == -det;
    assert s * det == o3 && t * (-det) == o1;
    assert t * det == -o1;
    Solve(a.x - c.x, b.x - a.x, d.x - c.x, s, t, det, o3, o1);
    Solve(a.y - c.y, b.y - a.y, d.y - c.y, s, t, det, o3, o1);
  }

  lemma PointPassesTheTest(a: Point, b: Point, c: Point, d: Point, s: real, t: real)
    requires Det(a, b, c, d) != 0.0 && MeetAt(a, b, c, d, s, t)
    ensures Turn(a, b, c) * Turn(a, b, d) < 0.0
  {
    var det := Det(a, b, c, d);
    TurnAtMeeting(a, b, c, d, s, t);
    TurnDifference(a, b, c, d);
    hide Turn, Det, MeetAt;
    Remainder(Turn(a, b, d), t, det);
    OppositeSides(Turn(a, b, c), Turn(a, b, d), t, det);
  }

  lemma TurnAtMeeting(a: Point, b: Point, c: Point, d: Point, s: real, t: real)
    requires MeetAt(a, b, c, d, s, t)
    ensures Turn(a, b, c) == -(t * Det(a, b, c, d)) && 0.0 < t < 1.0
  {
    var ux, uy, vx, vy := b.x - a.x, b.y - a.y, d.x - c.x, d.y - c.y;
    var wx, wy := c.x - a.x, c.y - a.y;
    assert wx == s * ux - t * vx && wy == s * uy - t * vy;
    TurnAlong(ux, uy, vx, vy, s, t);
  }

  lemma Remainder(o2: real, t: real, det: real)
    requires o2 + t * det == det
    ensures o2 == (1.0 - t) * det
  {
  }

  lemma TurnAlong(ux: real, uy: real, vx: real, vy: real, s: real, t: real)
    ensures ux * (s * uy - t * vy) - uy * (s * ux - t * vx) == -(t * (ux * vy - uy * vx))
  {
  }

  lemma OppositeSides(o1: real, o2: real, t: real, det: real)
    requires 0.0 < t < 1.0 && det != 0.0 && o1 == -(t * det) && o2 == (1.0 - t) * det
    ensures o1 * o2 < 0.0
  {
    SignOfProduct(t, det);
    SignOfProduct(1.0 - t, det);
    if det > 0.0 {
      NegativeProduct(o1, o2);
    } else {
      NegativeProduct(o2, o1);
    }
  }

  lemma NegativeProduct(x: real, y: real)
    requires x < 0.0 && y > 0.0
    ensures x * y < 0.0 && y * x < 0.0
  {
  }

  /** The test succeeds exactly on segments that cross transversally and share no (near) endpoint. */
  lemma IntersectMeansCrossing(a: Point, b: Point, c: Point, d: Point)
    ensures SegmentsIntersect(a, b, c, d) <==> !ShareEnd(a, b, c, d) && CrossTransversally(a, b, c, d)
  {
    if SegmentsIntersect(a, b, c, d) {
      var s, t := TestFindsThePoint(a, b, c, d);
    }
    if CrossTransversally(a, b, c, d) {
      var s, t :| MeetAt(a, b, c, d, s, t);
      PointPassesTheTest(a, b, c, d, s, t);
      DetSwap(a, b, c, d);
      assert MeetAt(c, d, a, b, t, s);
      PointPassesTheTest(c, d, a, b, t, s);
    }
  }

  /** They cross in one point only. */
  lemma CrossingIsUnique(a: Point, b: Point, c: Point, d: Point, s: real, t: real, s2: real, t2: real)
    requires Det(a, b, c, d) != 0.0 && MeetAt(a, b, c, d, s, t) && MeetAt(a, b, c, d, s2, t2)
    ensures s == s2 && t == t2
  {
    var ux, uy, vx, vy := b.x - a.x, b.y - a.y, d.x - c.x, d.y - c.y;
    var ds, dt := s - s2, t - t2;
    assert ds * ux == dt * vx && ds * uy == dt * vy;
    NoParallelSolution(ux, uy, vx, vy, ds, dt);
  }

  lemma NoParallelSolution(ux: real, uy: real, vx: real, vy: real, ds: real, dt: real)
    requires ux * vy - uy * vx != 0.0 && ds * ux == dt * vx && ds * uy == dt * vy
    ensures ds == 0.0 && dt == 0.0
  {
  }

  // ---- the triangle filters -----------------------------------------------------------------

  datatype Triangle = Triangle(a: Point, b: Point, c: Point) {
    function Corners(): seq<Point> { [a, b, c] }

    function Centroid(): Point { Point((a.x + b.x + c.x) / 3.0, (a.y + b.y + c.y) / 3.0) }
  }

  /** The number of segments of a point list, open or closed; the i-th runs from point i to the next. */
  function SegmentCount(points: seq<Point>, closed: bool): nat {
    if closed then |points| else if points == [] then 0 else |points| - 1
  }

  function Next(points: seq<Point>, i: nat): Point
    requires i < |points|
  {
    points[(i + 1) % |points|]
  }

  predicate CrossesLine(t: Triangle, line: seq<Point>, closed: bool) {
    exists i, j :: 0 <= i < 3 && 0 <= j < SegmentCount(line, closed)
      && SegmentsIntersect(t.Corners()[i], Next(t.Corners(), i), line[j], Next(line, j))
  }

  function Denominator(t: Triangle): real {
    (t.b.y - t.c.y) * (t.a.x - t.c.x) + (t.c.x - t.b.x) * (t.a.y - t.c.y)
  }

  function FirstWeight(t: Triangle, p: Point): real
    requires Denominator(t) != 0.0
  {
    ((t.b.y - t.c.y) * (p.x - t.c.x) + (t.c.x - t.b.x) * (p.y - t.c.y)) / Denominator(t)
  }

  function SecondWeight(t: Triangle, p: Point): real
    requires Denominator(t) != 0.0
  {
    ((t.c.y - t.a.y) * (p.x - t.c.x) + (t.a.x - t.c.x) * (p.y - t.c.y)) / Denominator(t)
  }

  predicate PointInTriangle(p: Point, t: Triangle) {
    Abs(Denominator(t)) > FLAT
    && var first, second := FirstWeight(t, p), SecondWeight(t, p);
       first >= -NEAR && second >= -NEAR && 1.0 - first - second >= -NEAR
  }

  predicate IntersectsPolygon(t: Triangle, polygon: seq<Point>) {
    (exists i :: 0 <= i < 3 && Inside(t.Corners()[i], polygon))
    || (exists j :: 0 <= j < |polygon| && PointInTriangle(polygon[j], t))
    || CrossesLine(t, polygon, true)
  }

  datatype Constraints = Constraints(
    boundary: seq<Point>, exclusions: seq<seq<Point>>, breaklines: seq<seq<Point>>, noCross: seq<seq<Point>>)

  predicate Survives(k: Constraints, t: Triangle) {
    && (k.boundary != [] ==> Inside(t.Centroid(), k.boundary) && !CrossesLine(t, k.boundary, true))
    && (forall i :: 0 <= i < |k.exclusions| ==>
          !Inside(t.Centroid(), k.exclusions[i]) && !IntersectsPolygon(t, k.exclusions[i]))
    && (forall i :: 0 <= i < |k.noCross| ==> !CrossesLine(t, k.noCross[i], false))
    && (forall i :: 0 <= i < |k.breaklines| ==> !CrossesLine(t, k.breaklines[i], false))
  }

  function Surviving(k: Constraints): Triangle -> bool { (t: Triangle) => Survives(k, t) }

  method FilterTriangles(k: Constraints, triangles: seq<Triangle>) returns (kept: seq<Triangle>)
    ensures kept == Filter(triangles, Surviving(k))
  {
    kept := [];
    for n := 0 to |triangles|
      invariant kept == Filter(triangles[..n], Surviving(k))
    {
      var t := triangles[n];
      assert triangles[..n + 1] == triangles[..n] + [t];
      FilterSnoc(triangles[..n], t, Surviving(k));
      var centroidInside := PointInPolygon(t.Centroid(), k.boundary);
      if k.boundary != [] && (!centroidInside || CrossesLine(t, k.boundary, true)) {
        continue;
      }
      if exists i :: 0 <= i < |k.exclusions|
           && (Inside(t.Centroid(), k.exclusions[i]) || IntersectsPolygon(t, k.exclusions[i])) {
        continue;
      }
      if exists i :: 0 <= i < |k.noCross| && CrossesLine(t, k.noCross[i], false) {
        continue;
      }
      if exists i :: 0 <= i < |k.breaklines| && CrossesLine(t, k.breaklines[i], false) {
        continue;
      }
      kept := kept + [t];
    }
    assert triangles[..|triangles|] == triangles;
  }

  // ---- what the filters mean ------------------------------------------------------------------

  lemma SamePointMeans(p: Point, q: Point)
    ensures SamePoint(p, q) <==>
      -0.0000000001 <= p.x - q.x <= 0.0000000001 && -0.0000000001 <= p.y - q.y <= 0.0000000001
  {
  }

  /** Two segments that do not cross, endpoints (nearly) in common aside. */
  ghost predicate Apart(p: Point, q: Point, r: Point, s: Point) {
    CrossTransversally(p, q, r, s) ==> ShareEnd(p, q, r, s)
  }

  ghost predicate SidesApart(t: Triangle, r: Point, s: Point) {
    Apart(t.a, t.b, r, s) && Apart(t.b, t.c, r, s) && Apart(t.c, t.a, r, s)
  }

  /** No side of the triangle crosses the line, which when closed runs on from its last point to its first. */
  ghost predicate ClearOf(t: Triangle, line: seq<Point>, closed: bool) {
    && (forall j :: 0 <= j < |line| - 1 ==> SidesApart(t, line[j], line[j + 1]))
    && (closed && line != [] ==> SidesApart(t, line[|line| - 1], line[0]))
  }

  predicate SomeSideCrosses(t: Triangle, r: Point, s: Point) {
    exists i :: 0 <= i < 3 && SegmentsIntersect(t.Corners()[i], Next(t.Corners(), i), r, s)
  }

  lemma SidesExactly(t: Triangle, r: Point, s: Point)
    ensures SidesApart(t, r, s) <==> !SomeSideCrosses(t, r, s)
  {
    hide SegmentsIntersect, CrossTransversally, ShareEnd;
    IntersectMeansCrossing(t.a, t.b, r, s);
    IntersectMeansCrossing(t.b, t.c, r, s);
    IntersectMeansCrossing(t.c, t.a, r, s);
    var c := t.Corners();
    assert c[0] == t.a && c[1] == t.b && c[2] == t.c;
    assert Next(c, 0) == t.b && Next(c, 1) == t.c && Next(c, 2) == t.a;
  }

  lemma NextIs(points: seq<Point>, j: nat)
    requires j < |points|
    ensures Next(points, j) == if j == |points| - 1 then points[0] else points[j + 1]
  {
  }

  lemma CrossesSomewhere(t: Triangle, line: seq<Point>, closed: bool)
    ensures CrossesLine(t, line, closed) <==>
      exists j :: 0 <= j < SegmentCount(line, closed) && SomeSideCrosses(t, line[j], Next(line, j))
  {
    hide SegmentsIntersect, Next;
    if CrossesLine(t, line, closed) {
      var i, j :| 0 <= i < 3 && 0 <= j < SegmentCount(line, closed)
        && SegmentsIntersect(t.Corners()[i], Next(t.Corners(), i), line[j], Next(line, j));
      assert SomeSideCrosses(t, line[j], Next(line, j));
    }
  }

  /** Where the segment from the j-th point leads. */
  function Ending(line: seq<Point>, j: nat): Point
    requires j < |line|
  {
    if j == |line| - 1 then line[0] else line[j + 1]
  }

  lemma SegmentExactly(t: Triangle, line: seq<Point>, j: nat)
    requires j < |line|
    ensures SomeSideCrosses(t, line[j], Next(line, j)) <==> !SidesApart(t, line[j], Ending(line, j))
  {
    hide SomeSideCrosses, SidesApart, Next;
    SidesExactly(t, line[j], Next(line, j));
    NextIs(line, j);
  }

  lemma ClearExactly(t: Triangle, line: seq<Point>, closed: bool)
    ensures ClearOf(t, line, closed) <==>
      forall j :: 0 <= j < SegmentCount(line, closed) ==> SidesApart(t, line[j], Ending(line, j))
  {
    hide SidesApart;
    if forall j :: 0 <= j < SegmentCount(line, closed) ==> SidesApart(t, line[j], Ending(line, j)) {
      forall j | 0 <= j < |line| - 1
        ensures SidesApart(t, line[j], line[j + 1])
      {
        assert Ending(line, j) == line[j + 1];
      }
      assert closed && line != [] ==> Ending(line, |line| - 1) == line[0];
    }
  }

  lemma CrossesExactly(t: Triangle, line: seq<Point>, closed: bool)
    ensures CrossesLine(t, line, closed) <==> !ClearOf(t, line, closed)
  {
    hide SomeSideCrosses, SidesApart, Next, CrossesLine, ClearOf, Ending;
    CrossesSomewhere(t, line, closed);
    ClearExactly(t, line, closed);
    forall j | 0 <= j < SegmentCount(line, closed)
      ensures SomeSideCrosses(t, line[j], Next(line, j)) <==> !SidesApart(t, line[j], Ending(line, j))
    {
      SegmentExactly(t, line, j);
    }
  }

  /** Outside an exclusion: the centroid `g`, the three corners, the exclusion's own vertices, and every side. */
  ghost predicate Outside(t: Triangle, g: Point, exclusion: seq<Point>) {
    && !Inside(g, exclusion) && !Inside(t.a, exclusion) && !Inside(t.b, exclusion) && !Inside(t.c, exclusion)
    && (forall j :: 0 <= j < |exclusion| ==> !PointInTriangle(exclusion[j], t))
    && ClearOf(t, exclusion, true)
  }

  lemma IntersectsExactly(t: Triangle, g: Point, exclusion: seq<Point>)
    ensures Outside(t, g, exclusion) <==> !Inside(g, exclusion) && !IntersectsPolygon(t, exclusion)
  {
    hide Inside, PointInTriangle, ClearOf, CrossesLine;
    CrossesExactly(t, exclusion, true);
    var c := t.Corners();
    assert c[0] == t.a && c[1] == t.b && c[2] == t.c;
  }

  predicate IsCentroid(t: Triangle, g: Point) {
    3.0 * g.x == t.a.x + t.b.x + t.c.x && 3.0 * g.y == t.a.y + t.b.y + t.c.y
  }

  /**
   * Exactly which triangles are kept: those whose centroid lies inside the boundary, if there is one, and
   * outside every exclusion with all of the triangle, and whose sides cross none of the lines.
   */
  lemma KeptExactly(k: Constraints, triangles: seq<Triangle>, t: Triangle, g: Point)
    requires IsCentroid(t, g)
    ensures t in Filter(triangles, Surviving(k)) <==>
      && t in triangles
      && (k.boundary != [] ==> Inside(g, k.boundary) && ClearOf(t, k.boundary, true))
      && (forall i :: 0 <= i < |k.exclusions| ==> Outside(t, g, k.exclusions[i]))
      && (forall i :: 0 <= i < |k.noCross| ==> ClearOf(t, k.noCross[i], false))
      && (forall i :: 0 <= i < |k.breaklines| ==> ClearOf(t, k.breaklines[i], false))
  {
    hide CrossesLine, ClearOf, Outside, Inside, IntersectsPolygon;
    assert t.Centroid() == g;
    FilterMembers(triangles, Surviving(k));
    CrossesExactly(t, k.boundary, true);
    forall i | 0 <= i < |k.exclusions|
      ensures Outside(t, g, k.exclusions[i]) <==> !Inside(g, k.exclusions[i]) && !IntersectsPolygon(t, k.exclusions[i])
    {
      IntersectsExactly(t, g, k.exclusions[i]);
    }
    forall i | 0 <= i < |k.noCross|
      ensures CrossesLine(t, k.noCross[i], false) <==> !ClearOf(t, k.noCross[i], false)
    {
      CrossesExactly(t, k.noCross[i], false);
    }
    forall i | 0 <= i < |k.breaklines|
      ensures CrossesLine(t, k.breaklines[i], false) <==> !ClearOf(t, k.breaklines[i], false)
    {
      CrossesExactly(t, k.breaklines[i], false);
    }
  }
}
