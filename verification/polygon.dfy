/**
 * Ray casting (`_point_in_polygon` in src/screen2xyz_civil/surface.py and, with
 * the same body, src/screen2xyz_civil/detection.py), in exact arithmetic.
 */
module Polygon {
  import opened Common

  predicate Straddles(p: Point, a: Point, b: Point) { (b.y > p.y) != (a.y > p.y) }

  function CrossingX(p: Point, a: Point, b: Point): real
    requires a.y != b.y
  {
    (a.x - b.x) * (p.y - b.y) / (a.y - b.y) + b.x
  }

  /** The ray from `p` to the right crosses the edge from `a` to `b`. */
  predicate Crosses(p: Point, a: Point, b: Point) {
    Straddles(p, a, b) && p.x < CrossingX(p, a, b)
  }

  /** Parity of the crossings along an open path. */
  predicate PathParity(p: Point, s: seq<Point>) {
    |s| >= 2 && (Crosses(p, s[0], s[1]) != PathParity(p, s[1..]))
  }

  /** Parity of the crossings around a closed ring. */
  predicate RingParity(p: Point, ring: seq<Point>) {
    ring != [] && (Crosses(p, ring[|ring| - 1], ring[0]) != PathParity(p, ring))
  }

  predicate Inside(p: Point, polygon: seq<Point>) { |polygon| >= 3 && RingParity(p, polygon) }

  method CrossesEdge(p: Point, previous: Point, current: Point) returns (crossed: bool)
    ensures crossed == Crosses(p, previous, current)
  {
    crossed := false;
    if (current.y > p.y) != (previous.y > p.y) {
      var crossingX := (previous.x - current.x) * (p.y - current.y) / (previous.y - current.y) + current.x;
      assert crossingX == CrossingX(p, previous, current);
      hide CrossingX;
      crossed := p.x < crossingX;
    }
  }

  method PointInPolygon(p: Point, polygon: seq<Point>) returns (inside: bool)
    ensures inside == Inside(p, polygon)
  {
    hide Crosses;
    if |polygon| < 3 {
      return false;
    }
    inside := false;
    var previous := polygon[|polygon| - 1];
    for i := 0 to |polygon|
      invariant previous == if i == 0 then polygon[|polygon| - 1] else polygon[i - 1]
      invariant inside == if i == 0 then false
                          else (Crosses(p, polygon[|polygon| - 1], polygon[0]) != PathParity(p, polygon[..i]))
    {
      var current := polygon[i];
      var crossed := CrossesEdge(p, previous, current);
      if crossed {
        inside := !inside;
      }
      if i > 0 {
        assert polygon[..i + 1] == polygon[..i] + [current];
        PathJoin(p, polygon[..i], [current]);
      }
      previous := current;
    }
    assert polygon[..|polygon|] == polygon;
  }

  method InExclusionZone(center: Point, zones: seq<seq<Point>>) returns (excluded: bool)
    ensures excluded <==> exists i :: 0 <= i < |zones| && Inside(center, zones[i])
  {
    excluded := false;
    for i := 0 to |zones|
      invariant excluded <==> exists k :: 0 <= k < i && Inside(center, zones[k])
    {
      var inside := PointInPolygon(center, zones[i]);
      excluded := excluded || inside;
    }
  }

  // ---- the parity does not depend on where or in which direction the ring is read --------

  /** Joining two paths adds the edge between them. */
  lemma {:induction false} PathJoin(p: Point, a: seq<Point>, b: seq<Point>)
    requires a != [] && b != []
    ensures PathParity(p, a + b)
         == ((PathParity(p, a) != Crosses(p, a[|a| - 1], b[0])) != PathParity(p, b))
  {
    assert (a + b)[1..] == a[1..] + b;
    if |a| > 1 {
      PathJoin(p, a[1..], b);
    } else {
      assert a + b == [a[0]] + b;
    }
  }

  /** Starting the vertex list elsewhere on the ring changes nothing. */
  lemma RotationInvariant(p: Point, polygon: seq<Point>, k: nat)
    requires k <= |polygon|
    ensures Inside(p, polygon[k..] + polygon[..k]) == Inside(p, polygon)
  {
    if 0 < k < |polygon| {
      var a, b := polygon[..k], polygon[k..];
      assert polygon == a + b;
      PathJoin(p, a, b);
      PathJoin(p, b, a);
    } else {
      assert polygon[k..] + polygon[..k] == polygon;
    }
  }

  lemma MulDiv(x: real, e: real, d: real)
    requires d != 0.0
    ensures x * e / d == x * (e / d)
  {
  }

  lemma OppositeQuotient(v: real, d: real, c: real)
    requires d != 0.0 && c == -d
    ensures v / c == -(v / d)
  {
  }

  /** Two fractions of opposite wholes that add up to 1. */
  lemma Fractions(u: real, v: real, d: real, c: real)
    requires d != 0.0 && c == -d && u - v == d
    ensures u / d + v / c == 1.0
  {
    OppositeQuotient(v, d, c);
    assert u / d - v / d == (u - v) / d;
  }

  lemma SharesOfOne(w: real, x: real, s: real, t: real)
    requires s + t == 1.0 && x == -w
    ensures x * t == w * s - w
  {
    assert w * s + w * t == w * (s + t);
  }

  /** An edge is divided in the same place from both ends. */
  lemma SameCrossing(ax: real, bx: real, e: real, g: real, d: real, c: real)
    requires d != 0.0 && c == -d && e - g == d
    ensures (ax - bx) * e / d + bx == (bx - ax) * g / c + ax
  {
    MulDiv(ax - bx, e, d);
    MulDiv(bx - ax, g, c);
    Fractions(e, g, d, c);
    SharesOfOne(ax - bx, bx - ax, e / d, g / c);
  }

  lemma CrossingXSymmetric(p: Point, a: Point, b: Point)
    requires a.y != b.y
    ensures CrossingX(p, a, b) == CrossingX(p, b, a)
  {
    SameCrossing(a.x, b.x, p.y - b.y, p.y - a.y, a.y - b.y, b.y - a.y);
  }

  lemma CrossesSymmetric(p: Point, a: Point, b: Point)
    ensures Crosses(p, a, b) == Crosses(p, b, a)
  {
    hide CrossingX;
    if Straddles(p, a, b) {
      CrossingXSymmetric(p, a, b);
    }
  }

  function Reversed(s: seq<Point>): (r: seq<Point>)
    ensures |r| == |s|
  {
    if s == [] then [] else Reversed(s[1..]) + [s[0]]
  }

  lemma {:induction false} ReversedEnds(s: seq<Point>)
    requires s != []
    ensures Reversed(s)[0] == s[|s| - 1] && Reversed(s)[|s| - 1] == s[0]
  {
    if |s| > 1 {
      ReversedEnds(s[1..]);
    }
  }

  lemma {:induction false} PathReversed(p: Point, s: seq<Point>)
    ensures PathParity(p, Reversed(s)) == PathParity(p, s)
  {
    if |s| >= 2 {
      PathReversed(p, s[1..]);
      ReversedEnds(s[1..]);
      PathJoin(p, Reversed(s[1..]), [s[0]]);
      CrossesSymmetric(p, s[0], s[1]);
    } else if |s| == 1 {
      assert Reversed(s) == s;
    }
  }

  /** Walking the ring the other way round changes nothing. */
  lemma ReversalInvariant(p: Point, polygon: seq<Point>)
    ensures Inside(p, Reversed(polygon)) == Inside(p, polygon)
  {
    if polygon != [] {
      PathReversed(p, polygon);
      ReversedEnds(polygon);
      CrossesSymmetric(p, polygon[0], polygon[|polygon| - 1]);
    }
  }

  // ---- cutting a polygon ------------------------------------------------------------------

  /** Two paths that share the vertex at index `k`. */
  lemma PathSplit(p: Point, s: seq<Point>, k: nat)
    requires k < |s|
    ensures PathParity(p, s) == (PathParity(p, s[..k + 1]) != PathParity(p, s[k..]))
  {
    assert s == s[..k + 1] + s[k + 1..];
    if k + 1 < |s| {
      PathJoin(p, s[..k + 1], s[k + 1..]);
      assert s[k..][1..] == s[k + 1..];
    } else {
      assert s[..k + 1] == s;
    }
  }

  /**
   * A chord between two vertices splits the interior: a point is in exactly one of the parts, or in both or
   * neither.
   */
  lemma ChordSplitsInterior(p: Point, polygon: seq<Point>, i: nat, j: nat)
    requires i < j < |polygon|
    requires |polygon[i..j + 1]| >= 3 && |polygon[j..] + polygon[..i + 1]| >= 3
    ensures Inside(p, polygon) == (Inside(p, polygon[i..j + 1]) != Inside(p, polygon[j..] + polygon[..i + 1]))
  {
    hide Crosses;
    var n := |polygon|;
    var first, second := polygon[i..j + 1], polygon[j..] + polygon[..i + 1];
    PathSplit(p, polygon, j);
    PathSplit(p, polygon[..j + 1], i);
    assert polygon[..j + 1][..i + 1] == polygon[..i + 1] && polygon[..j + 1][i..] == first;
    PathJoin(p, polygon[j..], polygon[..i + 1]);
    assert polygon[j..][|polygon[j..]| - 1] == polygon[n - 1];
    assert first[0] == polygon[i] && first[|first| - 1] == polygon[j];
    assert second[0] == polygon[j] && second[|second| - 1] == polygon[i];
    CrossesSymmetric(p, polygon[i], polygon[j]);
  }

  // ---- what the parity means --------------------------------------------------------------

  /** An edge's crossing lies between its ends. */
  lemma CrossingBetween(p: Point, a: Point, b: Point, low: real, high: real)
    requires Straddles(p, a, b) && low <= a.x <= high && low <= b.x <= high
    ensures low <= CrossingX(p, a, b) <= high
  {
    var d, e := a.y - b.y, p.y - b.y;
    if d > 0.0 {
      Fraction(e, d);
    } else {
      Fraction(-e, -d);
      FlipFraction(e, d);
    }
    MulDiv(a.x - b.x, e, d);
    Convex(a.x, b.x, e / d, low, high);
  }

  lemma Fraction(e: real, d: real)
    requires 0.0 <= e <= d && d > 0.0
    ensures 0.0 <= e / d <= 1.0
  {
  }

  lemma FlipFraction(e: real, d: real)
    requires d != 0.0
    ensures e / d == (-e) / (-d)
  {
  }

  lemma Convex(a: real, b: real, t: real, low: real, high: real)
    requires 0.0 <= t <= 1.0 && low <= a <= high && low <= b <= high
    ensures low <= (a - b) * t + b <= high
  {
    assert (a - b) * t + b == a * t + b * (1.0 - t);
    NonNegative(high - a, t);
    NonNegative(high - b, 1.0 - t);
    NonNegative(a - low, t);
    NonNegative(b - low, 1.0 - t);
    var s := 1.0 - t;
    assert (high - a) * t == high * t - a * t && (high - b) * s == high * s - b * s;
    assert (a - low) * t == a * t - low * t && (b - low) * s == b * s - low * s;
    assert high * t + high * s == high && low * t + low * s == low;
  }

  lemma NonNegative(x: real, y: real)
    requires x >= 0.0 && y >= 0.0
    ensures x * y >= 0.0
  {
  }

  lemma {:induction false} PathRightOf(p: Point, s: seq<Point>)
    requires forall v :: v in s ==> v.x <= p.x
    ensures !PathParity(p, s)
  {
    if |s| >= 2 {
      assert s[0] in s && s[1] in s;
      if Straddles(p, s[0], s[1]) {
        CrossingBetween(p, s[0], s[1], if s[0].x <= s[1].x then s[0].x else s[1].x, p.x);
      }
      PathRightOf(p, s[1..]);
    }
  }

  lemma {:induction false} PathLeftOf(p: Point, s: seq<Point>)
    requires s != [] && forall v :: v in s ==> p.x < v.x
    ensures PathParity(p, s) == ((s[0].y > p.y) != (s[|s| - 1].y > p.y))
  {
    if |s| >= 2 {
      assert s[0] in s && s[1] in s;
      CrossesToTheRight(p, s[0], s[1]);
      PathLeftOf(p, s[1..]);
    }
  }

  lemma CrossesToTheRight(p: Point, a: Point, b: Point)
    requires p.x < a.x && p.x < b.x
    ensures Crosses(p, a, b) == Straddles(p, a, b)
  {
    if Straddles(p, a, b) {
      var low, high := if a.x <= b.x then a.x else b.x, if a.x <= b.x then b.x else a.x;
      CrossingBetween(p, a, b, low, high);
    }
  }

  lemma {:induction false} PathOneSide(p: Point, s: seq<Point>)
    requires (forall v :: v in s ==> v.y <= p.y) || (forall v :: v in s ==> v.y > p.y)
    ensures !PathParity(p, s)
  {
    if |s| >= 2 {
      assert s[0] in s && s[1] in s;
      PathOneSide(p, s[1..]);
    }
  }

  /** No point beyond the polygon's bounding box counts as inside, on any side of it. */
  lemma OutsideTheBox(p: Point, polygon: seq<Point>)
    requires polygon != []
    requires || (forall v :: v in polygon ==> v.x <= p.x)
             || (forall v :: v in polygon ==> p.x < v.x)
             || (forall v :: v in polygon ==> v.y <= p.y)
             || (forall v :: v in polygon ==> p.y < v.y)
    ensures !Inside(p, polygon)
  {
    var last := polygon[|polygon| - 1];
    assert polygon[0] in polygon && last in polygon;
    if forall v :: v in polygon ==> v.x <= p.x {
      PathRightOf(p, polygon);
      PathRightOf(p, [last, polygon[0]]);
    } else if forall v :: v in polygon ==> p.x < v.x {
      PathLeftOf(p, polygon);
      CrossesToTheRight(p, last, polygon[0]);
    } else {
      PathOneSide(p, polygon);
    }
  }

  // ---- triangles: parity is the orientation test --------------------------------------------

  /** Twice the signed area of a, b, p. */
  function Turn(a: Point, b: Point, p: Point): real {
    (b.x - a.x) * (p.y - a.y) - (b.y - a.y) * (p.x - a.x)
  }

  /** The ray crosses an edge exactly when the point is on the proper side of it. */
  lemma CrossesByTurn(p: Point, a: Point, b: Point)
    requires Turn(a, b, p) != 0.0
    ensures Straddles(p, a, b) ==>
      (Crosses(p, a, b) <==> (if b.y > a.y then Turn(a, b, p) > 0.0 else Turn(a, b, p) < 0.0))
  {
    if Straddles(p, a, b) {
      var d := a.y - b.y;
      var u := (a.x - b.x) * (p.y - b.y);
      var q := u / d;
      assert q * d == u;
      // Turn is the distance to the crossing, scaled by the edge's height.
      assert Turn(a, b, p) == -((q + b.x - p.x) * d) by {
        assert Turn(a, b, p) == -(u + b.x * d - p.x * d) by {
          assert (b.x - a.x) * (p.y - a.y) == -(a.x - b.x) * (p.y - b.y) - (a.x - b.x) * (b.y - a.y);
        }
        assert (q + b.x - p.x) * d == q * d + b.x * d - p.x * d;
      }
      SignOfProduct(q + b.x - p.x, d);
    }
  }

  lemma SignOfProduct(x: real, d: real)
    requires d != 0.0
    ensures d > 0.0 ==> (x * d > 0.0 <==> x > 0.0)
    ensures d < 0.0 ==> (x * d < 0.0 <==> x > 0.0)
  {
  }

  /** The three turns weigh the vertices so that they balance at `p`. */
  lemma TurnsBalance(a: Point, b: Point, c: Point, p: Point)
    ensures Turn(b, c, p) * (a.y - p.y) + Turn(c, a, p) * (b.y - p.y) + Turn(a, b, p) * (c.y - p.y) == 0.0
  {
  }

  predicate SameTurns(a: Point, b: Point, c: Point, p: Point) {
    || (Turn(a, b, p) > 0.0 && Turn(b, c, p) > 0.0 && Turn(c, a, p) > 0.0)
    || (Turn(a, b, p) < 0.0 && Turn(b, c, p) < 0.0 && Turn(c, a, p) < 0.0)
  }

  predicate OffTheLines(a: Point, b: Point, c: Point, p: Point) {
    Turn(a, b, p) != 0.0 && Turn(b, c, p) != 0.0 && Turn(c, a, p) != 0.0
  }

  lemma TriangleParity(a: Point, b: Point, c: Point, p: Point)
    ensures Inside(p, [a, b, c]) == ((Crosses(p, a, b) != Crosses(p, b, c)) != Crosses(p, c, a))
  {
    hide Crosses;
    assert [a, b, c][1..] == [b, c] && [b, c][1..] == [c];
    assert !PathParity(p, [c]);
    assert PathParity(p, [b, c]) == Crosses(p, b, c);
    assert PathParity(p, [a, b, c]) == (Crosses(p, a, b) != Crosses(p, b, c));
  }

  /** When `a` alone is on its side of the horizontal through `p`. */
  lemma ApexCase(a: Point, b: Point, c: Point, p: Point)
    requires OffTheLines(a, b, c, p)
    requires (a.y > p.y) != (b.y > p.y) && (b.y > p.y) == (c.y > p.y)
    ensures Inside(p, [a, b, c]) == SameTurns(a, b, c, p)
  {
    TriangleParity(a, b, c, p);
    CrossesByTurn(p, a, b);
    CrossesByTurn(p, c, a);
    TurnsBalance(a, b, c, p);
    var ta, tb, tc := Turn(b, c, p), Turn(c, a, p), Turn(a, b, p);
    ApexSigns(ta, tb, tc, a.y - p.y, b.y - p.y, c.y - p.y);
    hide Turn;
  }

  lemma ApexSigns(ta: real, tb: real, tc: real, ha: real, hb: real, hc: real)
    requires ta != 0.0 && tb != 0.0 && tc != 0.0
    requires ta * ha + tb * hb + tc * hc == 0.0
    requires (ha > 0.0 && hb <= 0.0 && hc <= 0.0) || (ha <= 0.0 && hb > 0.0 && hc > 0.0)
    ensures tb > 0.0 && tc > 0.0 ==> ta > 0.0
    ensures tb < 0.0 && tc < 0.0 ==> ta < 0.0
  {
  }

  /** When no side crosses the horizontal through `p`. */
  lemma FlatCase(a: Point, b: Point, c: Point, p: Point)
    requires OffTheLines(a, b, c, p)
    requires (a.y > p.y) == (b.y > p.y) == (c.y > p.y)
    ensures !Inside(p, [a, b, c]) && !SameTurns(a, b, c, p)
  {
    TriangleParity(a, b, c, p);
    TurnsBalance(a, b, c, p);
    TurnOnLevel(a, b, p);
    hide Turn;
    FlatSigns(Turn(b, c, p), Turn(c, a, p), Turn(a, b, p), a.y - p.y, b.y - p.y, c.y - p.y);
  }

  lemma TurnOnLevel(a: Point, b: Point, p: Point)
    ensures a.y == p.y && b.y == p.y ==> Turn(a, b, p) == 0.0
  {
  }

  lemma FlatSigns(ta: real, tb: real, tc: real, ha: real, hb: real, hc: real)
    requires ta * ha + tb * hb + tc * hc == 0.0 && (ha != 0.0 || hb != 0.0)
    requires (ha > 0.0 && hb > 0.0 && hc > 0.0) || (ha <= 0.0 && hb <= 0.0 && hc <= 0.0)
    ensures !(ta > 0.0 && tb > 0.0 && tc > 0.0) && !(ta < 0.0 && tb < 0.0 && tc < 0.0)
  {
  }

  /** Off the lines through its sides, a triangle contains exactly the points all three turns agree on. */
  lemma TriangleInsideIsOrientation(a: Point, b: Point, c: Point, p: Point)
    requires OffTheLines(a, b, c, p)
    ensures Inside(p, [a, b, c]) == SameTurns(a, b, c, p)
  {
    hide Turn, Crosses;
    if (a.y > p.y) == (b.y > p.y) == (c.y > p.y) {
      FlatCase(a, b, c, p);
    } else if (b.y > p.y) == (c.y > p.y) {
      ApexCase(a, b, c, p);
    } else if (a.y > p.y) == (c.y > p.y) {
      RotationInvariant(p, [a, b, c], 1);
      assert [a, b, c][1..] + [a, b, c][..1] == [b, c, a];
      ApexCase(b, c, a, p);
    } else {
      RotationInvariant(p, [a, b, c], 2);
      assert [a, b, c][2..] + [a, b, c][..2] == [c, a, b];
      ApexCase(c, a, b, p);
    }
  }
}
