/**
 * Reading elevations off a triangulated surface, and comparing two surfaces
 * (`_surface_elevation_at` and `cut_fill_preview` in src/screen2xyz_civil/surface.py).
 */
module Interpolation {
  import opened Common
  import opened Polygon
  import opened Segments
  import opened Sorting

  /** A surface triangle with the elevations of its three vertices looked up. */
  datatype Facet = Facet(plan: Triangle, za: real, zb: real, zc: real, disabled: bool)

  datatype Vertex = Vertex(at: Point, elevation: real)

  datatype SurfaceType = ExistingGround | DesignGrade

  datatype Surface = Surface(surfaceType: SurfaceType, vertices: seq<Vertex>, facets: seq<Facet>)

  predicate Hit(f: Facet, p: Point) { !f.disabled && PointInTriangle(p, f.plan) }

  function Blend(f: Facet, p: Point): real
    requires Denominator(f.plan) != 0.0
  {
    var first, second := FirstWeight(f.plan, p), SecondWeight(f.plan, p);
    first * f.za + second * f.zb + (1.0 - first - second) * f.zc
  }

  /** The facets are tried in order; the first enabled one around the point decides. */
  function ElevationAt(facets: seq<Facet>, p: Point): Option<real> {
    if facets == [] then None
    else if Hit(facets[0], p) then Some(Blend(facets[0], p))
    else ElevationAt(facets[1..], p)
  }

  method SurfaceElevationAt(surface: Surface, p: Point) returns (z: Option<real>)
    ensures z == ElevationAt(surface.facets, p)
  {
    hide Blend, PointInTriangle;
    var facets := surface.facets;
    for i := 0 to |facets|
      invariant ElevationAt(facets, p) == ElevationAt(facets[i..], p)
    {
      var f := facets[i];
      assert facets[i..][0] == f && facets[i..][1..] == facets[i + 1..];
      if f.disabled {
        continue;
      }
      if !PointInTriangle(p, f.plan) {
        continue;
      }
      return Some(Blended(f, p));
    }
    return None;
  }

  function Blended(f: Facet, p: Point): (z: real)
    requires PointInTriangle(p, f.plan)
    ensures Denominator(f.plan) != 0.0 && z == Blend(f, p)
  {
    Blend(f, p)
  }

  // ---- the weights ---------------------------------------------------------------------------

  lemma WeightsAreTurns(t: Triangle, p: Point)
    requires Denominator(t) != 0.0
    ensures Denominator(t) == Turn(t.b, t.c, p) + Turn(t.c, t.a, p) + Turn(t.a, t.b, p)
    ensures FirstWeight(t, p) * Denominator(t) == Turn(t.b, t.c, p)
    ensures SecondWeight(t, p) * Denominator(t) == Turn(t.c, t.a, p)
    ensures (1.0 - FirstWeight(t, p) - SecondWeight(t, p)) * Denominator(t) == Turn(t.a, t.b, p)
  {
  }

  /** The weights reproduce the point they were computed for. */
  lemma WeightsReproduce(t: Triangle, p: Point)
    requires Denominator(t) != 0.0
    ensures var f, s := FirstWeight(t, p), SecondWeight(t, p);
      && f * t.a.x + s * t.b.x + (1.0 - f - s) * t.c.x == p.x
      && f * t.a.y + s * t.b.y + (1.0 - f - s) * t.c.y == p.y
  {
  }

  /**
   * Away from the lines through the sides, the ray-casting test and the weights agree on what is
   * inside a triangle, whichever way round its vertices are listed.
   */
  lemma ParityIsPositiveWeights(t: Triangle, p: Point)
    requires Denominator(t) != 0.0 && OffTheLines(t.a, t.b, t.c, p)
    ensures Inside(p, [t.a, t.b, t.c]) <==>
      var f, s := FirstWeight(t, p), SecondWeight(t, p); f > 0.0 && s > 0.0 && 1.0 - f - s > 0.0
  {
    TriangleInsideIsOrientation(t.a, t.b, t.c, p);
    WeightsAreTurns(t, p);
    hide Turn, Denominator, FirstWeight, SecondWeight, Inside;
    var f, s := FirstWeight(t, p), SecondWeight(t, p);
    AllPositive(f, s, 1.0 - f - s, Denominator(t), Turn(t.b, t.c, p), Turn(t.c, t.a, p), Turn(t.a, t.b, p));
  }

  lemma AllPositive(f: real, s: real, t: real, den: real, o1: real, o2: real, o3: real)
    requires den != 0.0 && f * den == o1 && s * den == o2 && t * den == o3 && den == o1 + o2 + o3
    ensures f > 0.0 && s > 0.0 && t > 0.0
       <==> (o1 > 0.0 && o2 > 0.0 && o3 > 0.0) || (o1 < 0.0 && o2 < 0.0 && o3 < 0.0)
  {
  }

  // ---- planes are reproduced exactly ----------------------------------------------------------

  datatype Plane = Plane(base: real, east: real, north: real) {
    function At(p: Point): real { base + east * p.x + north * p.y }
  }

  predicate OnPlane(f: Facet, g: Plane) {
    f.za == g.At(f.plan.a) && f.zb == g.At(f.plan.b) && f.zc == g.At(f.plan.c)
  }

  lemma BlendAlong(f: real, s: real, t: real, k: real, e: real, n: real,
                   x1: real, y1: real, x2: real, y2: real, x3: real, y3: real, x: real, y: real)
    requires f + s + t == 1.0
    requires f * x1 + s * x2 + t * x3 == x && f * y1 + s * y2 + t * y3 == y
    ensures f * (k + e * x1 + n * y1) + s * (k + e * x2 + n * y2) + t * (k + e * x3 + n * y3) == k + e * x + n * y
  {
  }

  lemma BlendOnPlane(f: Facet, g: Plane, p: Point)
    requires Denominator(f.plan) != 0.0 && OnPlane(f, g)
    ensures Blend(f, p) == g.At(p)
  {
    var t := f.plan;
    WeightsReproduce(t, p);
    hide Denominator, FirstWeight, SecondWeight;
    var first, second := FirstWeight(t, p), SecondWeight(t, p);
    BlendAlong(first, second, 1.0 - first - second, g.base, g.east, g.north,
               t.a.x, t.a.y, t.b.x, t.b.y, t.c.x, t.c.y, p.x, p.y);
  }

  /** When every enabled facet lies on one plane, any elevation returned is the plane's. */
  lemma {:induction false} PlaneExact(facets: seq<Facet>, g: Plane, p: Point)
    requires forall f :: f in facets && !f.disabled ==> OnPlane(f, g)
    ensures ElevationAt(facets, p) in {None, Some(g.At(p))}
  {
    hide Blend, OnPlane, Denominator;
    if facets != [] {
      var f := facets[0];
      assert f in facets;
      if Hit(f, p) {
        DenominatorOfHit(f, p);
        BlendOnPlane(f, g, p);
      } else {
        PlaneExact(facets[1..], g, p);
      }
    }
  }

  lemma DenominatorOfHit(f: Facet, p: Point)
    requires PointInTriangle(p, f.plan)
    ensures Denominator(f.plan) != 0.0
  {
  }

  // ---- common sides ---------------------------------------------------------------------------

  function Corner(f: Facet, i: nat): Point
    requires i < 3
  {
    if i == 0 then f.plan.a else if i == 1 then f.plan.b else f.plan.c
  }

  function Height(f: Facet, i: nat): real
    requires i < 3
  {
    if i == 0 then f.za else if i == 1 then f.zb else f.zc
  }

  function Rotated(f: Facet): Facet {
    Facet(Triangle(f.plan.b, f.plan.c, f.plan.a), f.zb, f.zc, f.za, f.disabled)
  }

  lemma SameFactor(x: real, y: real, d: real)
    requires d != 0.0 && x * d == y * d
    ensures x == y
  {
  }

  /** Listing a facet's vertices from another one on changes neither its area nor its elevations. */
  lemma BlendRotates(f: Facet, p: Point)
    requires Denominator(f.plan) != 0.0
    ensures Denominator(Rotated(f).plan) == Denominator(f.plan) && Blend(Rotated(f), p) == Blend(f, p)
  {
    var t, u := f.plan, Rotated(f).plan;
    WeightsAreTurns(t, p);
    assert Denominator(u) == Denominator(t);
    WeightsAreTurns(u, p);
    hide Turn, Denominator, FirstWeight, SecondWeight;
    SameFactor(FirstWeight(u, p), SecondWeight(t, p), Denominator(t));
    SameFactor(SecondWeight(u, p), 1.0 - FirstWeight(t, p) - SecondWeight(t, p), Denominator(t));
  }

  /** The point a fraction `s` of the way from `a` to `b`. */
  predicate Along(a: Point, b: Point, p: Point, s: real) {
    p.x == a.x + s * (b.x - a.x) && p.y == a.y + s * (b.y - a.y)
  }

  lemma AlongBack(a: Point, b: Point, p: Point, s: real)
    requires Along(a, b, p, s)
    ensures Along(b, a, p, 1.0 - s)
  {
  }

  lemma FirstSideValue(f: Facet, p: Point, s: real)
    requires Denominator(f.plan) != 0.0 && Along(f.plan.a, f.plan.b, p, s)
    ensures Blend(f, p) == f.za + s * (f.zb - f.za)
  {
  }

  lemma HeightBack(x: real, y: real, s: real)
    ensures y + (1.0 - s) * (x - y) == x + s * (y - x)
  {
  }

  function After(i: nat): (j: nat)
    requires i < 3
    ensures j < 3
  {
    if i == 2 then 0 else i + 1
  }

  lemma {:induction false} ForwardSideValue(f: Facet, i: nat, p: Point, s: real)
    requires i < 3 && Denominator(f.plan) != 0.0 && Along(Corner(f, i), Corner(f, After(i)), p, s)
    ensures Blend(f, p) == Height(f, i) + s * (Height(f, After(i)) - Height(f, i))
    decreases i
  {
    hide Blend, Denominator, Along;
    if i == 0 {
      FirstSideValue(f, p, s);
    } else {
      BlendRotates(f, p);
      ForwardSideValue(Rotated(f), i - 1, p, s);
    }
  }

  /** On any side, in either direction, the elevation runs evenly from one end to the other. */
  lemma SideValue(f: Facet, i: nat, j: nat, p: Point, s: real)
    requires i < 3 && j < 3 && i != j && Denominator(f.plan) != 0.0
    requires Along(Corner(f, i), Corner(f, j), p, s)
    ensures Blend(f, p) == Height(f, i) + s * (Height(f, j) - Height(f, i))
  {
    hide Blend, Denominator, Along, Corner, Height;
    if j == After(i) {
      ForwardSideValue(f, i, p, s);
    } else {
      AlongBack(Corner(f, i), Corner(f, j), p, s);
      ForwardSideValue(f, j, p, 1.0 - s);
      HeightBack(Height(f, i), Height(f, j), s);
    }
  }

  /** On a side two facets have in common, wherever each lists it, both give the same elevation. */
  lemma SharedSideAgrees(f: Facet, i: nat, j: nat, g: Facet, k: nat, l: nat, p: Point, s: real)
    requires i < 3 && j < 3 && i != j && k < 3 && l < 3 && k != l
    requires Denominator(f.plan) != 0.0 && Denominator(g.plan) != 0.0
    requires Corner(f, i) == Corner(g, k) && Corner(f, j) == Corner(g, l)
    requires Height(f, i) == Height(g, k) && Height(f, j) == Height(g, l)
    requires Along(Corner(f, i), Corner(f, j), p, s)
    ensures Blend(f, p) == Blend(g, p) == Height(f, i) + s * (Height(f, j) - Height(f, i))
  {
    hide Blend, Denominator, Along;
    SideValue(f, i, j, p, s);
    SideValue(g, k, l, p, s);
  }

  // ---- elevations stay in range ---------------------------------------------------------------

  function Least(f: Facet): real {
    if f.za <= f.zb && f.za <= f.zc then f.za else if f.zb <= f.zc then f.zb else f.zc
  }

  function Greatest(f: Facet): real {
    if f.za >= f.zb && f.za >= f.zc then f.za else if f.zb >= f.zc then f.zb else f.zc
  }

  /** Weights that are at least -e pull a blend of numbers in [0, r], one of them 0, at most 2er below 0. */
  lemma LowBlend(f: real, s: real, t: real, a: real, b: real, c: real, e: real, r: real)
    requires f >= -e && s >= -e && t >= -e && e >= 0.0
    requires 0.0 <= a <= r && 0.0 <= b <= r && 0.0 <= c <= r && (a == 0.0 || b == 0.0 || c == 0.0)
    ensures f * a + s * b + t * c >= -(2.0 * e * r)
  {
    LowProduct(f, a, e, r);
    LowProduct(s, b, e, r);
    LowProduct(t, c, e, r);
  }

  lemma LowProduct(w: real, x: real, e: real, r: real)
    requires w >= -e && 0.0 <= x <= r && e >= 0.0
    ensures w * x >= -(e * r) && (x == 0.0 ==> w * x == 0.0)
  {
  }

  predicate InRange(f: Facet, p: Point)
    requires PointInTriangle(p, f.plan)
  {
    var slack := 2.0 * NEAR * (Greatest(f) - Least(f));
    Least(f) - slack <= Blended(f, p) <= Greatest(f) + slack
  }

  /** An elevation read off a facet leaves its vertices' range by at most 2e-10 of the range. */
  lemma BlendInRange(f: Facet, p: Point)
    requires PointInTriangle(p, f.plan)
    ensures InRange(f, p)
  {
    var first, second := FirstWeight(f.plan, p), SecondWeight(f.plan, p);
    var third := 1.0 - first - second;
    var low, high := Least(f), Greatest(f);
    hide Denominator, FirstWeight, SecondWeight;
    LowBlend(first, second, third, f.za - low, f.zb - low, f.zc - low, NEAR, high - low);
    LowBlend(first, second, third, high - f.za, high - f.zb, high - f.zc, NEAR, high - low);
    Shift(first, second, third, f.za, f.zb, f.zc, low);
    Shift(first, second, third, f.za, f.zb, f.zc, high);
  }

  lemma Shift(f: real, s: real, t: real, a: real, b: real, c: real, m: real)
    requires f + s + t == 1.0
    ensures f * (a - m) + s * (b - m) + t * (c - m) == f * a + s * b + t * c - m
    ensures f * (m - a) + s * (m - b) + t * (m - c) == m - (f * a + s * b + t * c)
  {
  }

  /** Whatever the surface returns comes from an enabled facet around the point and stays in its range. */
  lemma {:induction false} ElevationInRange(facets: seq<Facet>, p: Point)
    requires ElevationAt(facets, p).Some?
    ensures exists f :: f in facets && Hit(f, p) && ElevationAt(facets, p) == Some(Blended(f, p)) && InRange(f, p)
  {
    hide Blend, Denominator, InRange;
    if Hit(facets[0], p) {
      BlendInRange(facets[0], p);
    } else {
      ElevationInRange(facets[1..], p);
    }
  }

  /** No elevation is returned exactly where no enabled facet covers the point. */
  lemma {:induction false} CoverageIsExact(facets: seq<Facet>, p: Point)
    ensures ElevationAt(facets, p).None? <==> forall f :: f in facets ==> !Hit(f, p)
  {
    hide Hit;
    if facets != [] && !Hit(facets[0], p) {
      CoverageIsExact(facets[1..], p);
    } else if facets != [] {
      assert facets[0] in facets;
    }
  }

  // ---- which points a facet covers -------------------------------------------------------------

  /** The turns of a facet's sides towards the point, against the turn of the facet itself, up to the tolerance. */
  predicate TurnsAgree(t: Triangle, p: Point) {
    var whole := Turn(t.a, t.b, t.c);
    var slack := 0.0000000001 * whole;
    if whole > 0.0 then
      Turn(t.b, t.c, p) >= -slack && Turn(t.c, t.a, p) >= -slack && Turn(t.a, t.b, p) >= -slack
    else
      Turn(t.b, t.c, p) <= -slack && Turn(t.c, t.a, p) <= -slack && Turn(t.a, t.b, p) <= -slack
  }

  lemma WholeTurn(t: Triangle)
    ensures Denominator(t) == Turn(t.a, t.b, t.c)
  {
  }

  lemma SignedWeight(w: real, den: real, o: real)
    requires den != 0.0 && w * den == o
    ensures w >= -NEAR <==> if den > 0.0 then o >= -(NEAR * den) else o <= -(NEAR * den)
  {
    var x := w + NEAR;
    assert x * den == o + NEAR * den;
    ProductSign(x, den);
  }

  lemma ProductSign(x: real, d: real)
    requires d != 0.0
    ensures x >= 0.0 <==> if d > 0.0 then x * d >= 0.0 else x * d <= 0.0
  {
  }

  /**
   * What the test accepts, in turns alone: the triangle has more than the flat area, and the point lies on the
   * inner side of each of its sides or within the tolerance, whichever way round the corners are listed.
   */
  lemma TriangleTestExactly(t: Triangle, p: Point)
    ensures PointInTriangle(p, t) <==>
      var whole := Turn(t.a, t.b, t.c);
      (whole > 0.000000000001 || whole < -0.000000000001) && TurnsAgree(t, p)
  {
    WholeTurn(t);
    if Denominator(t) != 0.0 {
      WeightsAreTurns(t, p);
      hide Turn, Denominator, FirstWeight, SecondWeight;
      var first, second, den := FirstWeight(t, p), SecondWeight(t, p), Denominator(t);
      SignedWeight(first, den, Turn(t.b, t.c, p));
      SignedWeight(second, den, Turn(t.c, t.a, p));
      SignedWeight(1.0 - first - second, den, Turn(t.a, t.b, p));
    }
  }

  /** An elevation comes only from an enabled facet around the point. */
  lemma {:induction false} ElevationIsCovered(facets: seq<Facet>, p: Point)
    requires ElevationAt(facets, p).Some?
    ensures exists f :: f in facets && !f.disabled && TurnsAgree(f.plan, p)
  {
    hide PointInTriangle, TurnsAgree, Blend;
    if Hit(facets[0], p) {
      assert facets[0] in facets;
      TriangleTestExactly(facets[0].plan, p);
    } else {
      ElevationIsCovered(facets[1..], p);
    }
  }

  /** The point with the shares `u`, `v` and the rest of 1 in the three corners. */
  predicate Mixes(t: Triangle, p: Point, u: real, v: real) {
    && u >= 0.0 && v >= 0.0 && u + v <= 1.0
    && p.x == u * t.a.x + v * t.b.x + (1.0 - u - v) * t.c.x
    && p.y == u * t.a.y + v * t.b.y + (1.0 - u - v) * t.c.y
  }

  lemma TurnsOfMix(t: Triangle, p: Point, u: real, v: real)
    requires Mixes(t, p, u, v)
    ensures Turn(t.b, t.c, p) == u * Turn(t.a, t.b, t.c)
    ensures Turn(t.c, t.a, p) == v * Turn(t.a, t.b, t.c)
    ensures Turn(t.a, t.b, p) == (1.0 - u - v) * Turn(t.a, t.b, t.c)
  {
    var x1, y1, x2, y2 := t.a.x - t.c.x, t.a.y - t.c.y, t.b.x - t.c.x, t.b.y - t.c.y;
    var x, y := p.x - t.c.x, p.y - t.c.y;
    assert x == u * x1 + v * x2 && y == u * y1 + v * y2;
    var whole := x1 * y2 - y1 * x2;
    MixTurns(x1, y1, x2, y2, u, v);
    assert Turn(t.a, t.b, t.c) == whole;
    assert Turn(t.b, t.c, p) == x * y2 - y * x2;
    assert Turn(t.c, t.a, p) == x1 * y - y1 * x;
    assert Turn(t.a, t.b, p) == whole - (x * y2 - y * x2) - (x1 * y - y1 * x);
    Rest(u, v, whole);
  }

  lemma MixTurns(x1: real, y1: real, x2: real, y2: real, u: real, v: real)
    ensures (u * x1 + v * x2) * y2 - (u * y1 + v * y2) * x2 == u * (x1 * y2 - y1 * x2)
    ensures x1 * (u * y1 + v * y2) - y1 * (u * x1 + v * x2) == v * (x1 * y2 - y1 * x2)
  {
  }

  lemma Rest(u: real, v: real, w: real)
    ensures w - u * w - v * w == (1.0 - u - v) * w
  {
  }

  lemma ShareAgrees(u: real, w: real)
    requires u >= 0.0
    ensures w > 0.0 ==> u * w >= 0.0
    ensures w < 0.0 ==> u * w <= 0.0
  {
  }

  lemma MixIsInside(t: Triangle, p: Point, u: real, v: real)
    requires Mixes(t, p, u, v)
    ensures TurnsAgree(t, p)
  {
    TurnsOfMix(t, p, u, v);
    hide Turn;
    var whole := Turn(t.a, t.b, t.c);
    ShareAgrees(u, whole);
    ShareAgrees(v, whole);
    ShareAgrees(1.0 - u - v, whole);
  }

  predicate Broad(t: Triangle) {
    var whole := Turn(t.a, t.b, t.c); whole > 0.000000000001 || whole < -0.000000000001
  }

  function Mixture(f: Facet, u: real, v: real): real { u * f.za + v * f.zb + (1.0 - u - v) * f.zc }

  /** A point in an enabled facet gets the elevation its shares in the corners give. */
  lemma MixedElevation(f: Facet, p: Point, u: real, v: real)
    requires !f.disabled && Broad(f.plan) && Mixes(f.plan, p, u, v)
    ensures Hit(f, p) && Blended(f, p) == Mixture(f, u, v)
  {
    hide Turn, Denominator, FirstWeight, SecondWeight, TurnsAgree, Mixes, PointInTriangle;
    MixIsInside(f.plan, p, u, v);
    TriangleTestExactly(f.plan, p);
    BroadIs(f.plan);
    TurnsOfMix(f.plan, p, u, v);
    WholeTurn(f.plan);
    WeightsAreTurns(f.plan, p);
    SameFactor(FirstWeight(f.plan, p), u, Denominator(f.plan));
    SameFactor(SecondWeight(f.plan, p), v, Denominator(f.plan));
  }

  predicate PassedOver(f: Facet, p: Point) { f.disabled || !Broad(f.plan) || !TurnsAgree(f.plan, p) }

  predicate AllPassedOver(facets: seq<Facet>, n: nat, p: Point)
    requires n <= |facets|
  {
    forall k :: 0 <= k < n ==> PassedOver(facets[k], p)
  }

  lemma PassedOverIsNoHit(f: Facet, p: Point)
    ensures PassedOver(f, p) <==> !Hit(f, p)
  {
    hide PointInTriangle, TurnsAgree, Turn;
    TriangleTestExactly(f.plan, p);
  }

  /**
   * Every point that is a mixture of the corners of an enabled facet of more than the flat area gets an
   * elevation, and where no earlier facet covers it, the same mixture of that facet's elevations.
   */
  lemma {:induction false} MixturesAreCovered(facets: seq<Facet>, i: nat, p: Point, u: real, v: real)
    requires i < |facets| && !facets[i].disabled && Broad(facets[i].plan) && Mixes(facets[i].plan, p, u, v)
    ensures ElevationAt(facets, p).Some?
    ensures AllPassedOver(facets, i, p) ==> ElevationAt(facets, p) == Some(Mixture(facets[i], u, v))
  {
    hide Hit, PassedOver, Broad, Mixes, Blend, Mixture;
    if i == 0 {
      MixedElevation(facets[0], p, u, v);
    } else {
      var rest := facets[1..];
      assert rest[i - 1] == facets[i];
      MixturesAreCovered(rest, i - 1, p, u, v);
      PassedOverIsNoHit(facets[0], p);
      assert AllPassedOver(facets, i, p) ==> PassedOver(facets[0], p) && AllPassedOver(rest, i - 1, p);
    }
  }

  lemma BroadIs(t: Triangle)
    ensures Broad(t) <==> Turn(t.a, t.b, t.c) > 0.000000000001 || Turn(t.a, t.b, t.c) < -0.000000000001
  {
  }

  // ---- comparing two surfaces -----------------------------------------------------------------

  datatype Preview = Preview(samples: nat, fill: nat, cut: nat, zero: nat,
                             mean: real, minimum: real, maximum: real)

  datatype Outcome = Ok(preview: Preview) | SurfaceError

  /** Design minus existing, at the design vertices the existing surface covers. */
  function Samples(facets: seq<Facet>, vertices: seq<Vertex>): seq<real> {
    if vertices == [] then []
    else
      var existing := ElevationAt(facets, vertices[0].at);
      (if existing.Some? then [vertices[0].elevation - existing.value] else [])
      + Samples(facets, vertices[1..])
  }

  function Sum(s: seq<real>): real {
    if s == [] then 0.0 else s[0] + Sum(s[1..])
  }

  function Tally(s: seq<real>, counted: real -> bool): nat {
    if s == [] then 0 else (if counted(s[0]) then 1 else 0) + Tally(s[1..], counted)
  }

  function Rise(): real -> bool { (x: real) => x > 0.0 }
  function Drop(): real -> bool { (x: real) => x < 0.0 }
  function Level(): real -> bool { (x: real) => Abs(x) <= FLAT }

  ghost predicate Summarises(v: Preview, s: seq<real>) {
    && s != [] && v.samples == |s|
    && v.fill == Tally(s, Rise()) && v.cut == Tally(s, Drop()) && v.zero == Tally(s, Level())
    && v.mean == Sum(s) / (|s| as real)
    && v.minimum in s && v.maximum in s
    && forall x :: x in s ==> v.minimum <= x <= v.maximum
  }

  lemma {:induction false} SumSnoc(s: seq<real>, x: real)
    ensures Sum(s + [x]) == Sum(s) + x
  {
    if s == [] {
      assert s + [x] == [x];
    } else {
      assert (s + [x])[0] == s[0] && (s + [x])[1..] == s[1..] + [x];
      SumSnoc(s[1..], x);
    }
  }

  lemma {:induction false} TallySnoc(s: seq<real>, x: real, counted: real -> bool)
    ensures Tally(s + [x], counted) == Tally(s, counted) + if counted(x) then 1 else 0
  {
    if s == [] {
      assert s + [x] == [x];
    } else {
      assert (s + [x])[0] == s[0] && (s + [x])[1..] == s[1..] + [x];
      TallySnoc(s[1..], x, counted);
    }
  }

  method Sample(existing: Surface, design: Surface) returns (samples: seq<real>)
    ensures samples == Samples(existing.facets, design.vertices)
  {
    hide ElevationAt, Samples;
    samples := [];
    var vertices := design.vertices;
    SamplesFrom(existing.facets, vertices, |vertices|);
    for i := 0 to |vertices|
      invariant samples + Samples(existing.facets, vertices[i..]) == Samples(existing.facets, vertices)
    {
      var z := SurfaceElevationAt(existing, vertices[i].at);
      SamplesFrom(existing.facets, vertices, i);
      if z.Some? {
        samples := samples + [vertices[i].elevation - z.value];
      }
    }
  }

  lemma SamplesFrom(facets: seq<Facet>, vertices: seq<Vertex>, i: nat)
    requires i <= |vertices|
    ensures vertices[0..] == vertices
    ensures i == |vertices| ==> Samples(facets, vertices[i..]) == []
    ensures i < |vertices| ==>
      var z := ElevationAt(facets, vertices[i].at);
      Samples(facets, vertices[i..])
      == (if z.Some? then [vertices[i].elevation - z.value] else []) + Samples(facets, vertices[i + 1..])
  {
  }

  method Summarise(samples: seq<real>) returns (v: Preview)
    requires samples != []
    ensures Summarises(v, samples)
  {
    var fill, cut, zero, sum := 0, 0, 0, 0.0;
    var minimum, maximum := samples[0], samples[0];
    for i := 0 to |samples|
      invariant fill == Tally(samples[..i], Rise())
      invariant cut == Tally(samples[..i], Drop())
      invariant zero == Tally(samples[..i], Level())
      invariant sum == Sum(samples[..i])
      invariant minimum in samples && maximum in samples
      invariant forall k :: 0 <= k < i ==> minimum <= samples[k] <= maximum
    {
      var x := samples[i];
      assert samples[..i + 1] == samples[..i] + [x];
      SumSnoc(samples[..i], x);
      TallySnoc(samples[..i], x, Rise());
      TallySnoc(samples[..i], x, Drop());
      TallySnoc(samples[..i], x, Level());
      fill := fill + if x > 0.0 then 1 else 0;
      cut := cut + if x < 0.0 then 1 else 0;
      zero := zero + if Abs(x) <= FLAT then 1 else 0;
      sum := sum + x;
      minimum := if x < minimum then x else minimum;
      maximum := if x > maximum then x else maximum;
    }
    assert samples[..|samples|] == samples;
    v := Preview(|samples|, fill, cut, zero, sum / (|samples| as real), minimum, maximum);
  }

  method CutFillPreview(existing: Surface, design: Surface) returns (r: Outcome)
    ensures r.SurfaceError? <==> existing.surfaceType != ExistingGround || design.surfaceType != DesignGrade
                                 || Samples(existing.facets, design.vertices) == []
    ensures r.Ok? ==> Summarises(r.preview, Samples(existing.facets, design.vertices))
  {
    if existing.surfaceType != ExistingGround || design.surfaceType != DesignGrade {
      return SurfaceError;
    }
    var samples := Sample(existing, design);
    if samples == [] {
      return SurfaceError;
    }
    var v := Summarise(samples);
    return Ok(v);
  }

  // ---- what the preview tells ------------------------------------------------------------------

  /** A total of `n` numbers whose mean lies between `low` and `high`. */
  predicate MeansBetween(sum: real, n: nat, low: real, high: real) {
    low * (n as real) <= sum <= high * (n as real)
  }

  lemma {:induction false} SumBetween(s: seq<real>, low: real, high: real)
    requires forall x :: x in s ==> low <= x <= high
    ensures MeansBetween(Sum(s), |s|, low, high)
  {
    hide MeansBetween;
    NoneBetween(low, high);
    if s != [] {
      assert s[0] in s && forall x :: x in s[1..] ==> x in s;
      SumBetween(s[1..], low, high);
      OneMoreBetween(s[0], Sum(s[1..]), |s[1..]|, low, high);
    }
  }

  lemma NoneBetween(low: real, high: real)
    ensures MeansBetween(0.0, 0, low, high)
  {
  }

  lemma OneMoreBetween(x: real, sum: real, n: nat, low: real, high: real)
    requires low <= x <= high && MeansBetween(sum, n, low, high)
    ensures MeansBetween(x + sum, n + 1, low, high)
  {
  }

  lemma MeanOf(sum: real, n: nat, low: real, high: real)
    requires n > 0 && MeansBetween(sum, n, low, high)
    ensures low <= sum / (n as real) <= high
  {
  }

  lemma MeanBetween(v: Preview, s: seq<real>)
    requires Summarises(v, s)
    ensures v.minimum <= v.mean <= v.maximum
  {
    SumBetween(s, v.minimum, v.maximum);
    hide Sum, Tally, MeansBetween;
    MeanOf(Sum(s), |s|, v.minimum, v.maximum);
  }

  predicate Tiny(x: real) { x != 0.0 && Abs(x) <= FLAT }

  /**
   * Every sample is counted, and none twice unless it is non-zero and within the zero tolerance:
   * the three counts add up to the number of samples exactly when no such sample exists.
   */
  lemma {:induction false} CountsPartition(s: seq<real>)
    ensures Tally(s, Rise()) + Tally(s, Drop()) + Tally(s, Level()) >= |s|
    ensures Tally(s, Rise()) + Tally(s, Drop()) + Tally(s, Level()) == |s| <==> forall i :: 0 <= i < |s| ==> !Tiny(s[i])
  {
    if s != [] {
      CountsPartition(s[1..]);
      assert forall i :: 0 <= i < |s[1..]| ==> s[1..][i] == s[i + 1];
      assert forall i :: 1 <= i < |s| ==> s[i] == s[1..][i - 1];
    }
  }

  lemma {:induction false} SamplesApart(facets: seq<Facet>, vertices: seq<Vertex>, g: Plane, k: real)
    requires forall f :: f in facets && !f.disabled ==> OnPlane(f, g)
    requires forall v :: v in vertices ==> v.elevation == g.At(v.at) + k
    ensures forall x :: x in Samples(facets, vertices) ==> x == k
  {
    hide OnPlane, ElevationAt;
    if vertices != [] {
      assert vertices[0] in vertices;
      PlaneExact(facets, g, vertices[0].at);
      SamplesApart(facets, vertices[1..], g, k);
    }
  }

  /** Two parallel planar surfaces a height k apart: minimum, mean and maximum are all k. */
  lemma ParallelPlanes(existing: Surface, design: Surface, g: Plane, k: real, v: Preview)
    requires forall f :: f in existing.facets && !f.disabled ==> OnPlane(f, g)
    requires forall d :: d in design.vertices ==> d.elevation == g.At(d.at) + k
    requires Summarises(v, Samples(existing.facets, design.vertices))
    ensures v.minimum == v.mean == v.maximum == k
  {
    SamplesApart(existing.facets, design.vertices, g, k);
    MeanBetween(v, Samples(existing.facets, design.vertices));
  }

  // ---- what is counted as fill and as cut ------------------------------------------------------

  function Over(facets: seq<Facet>): Vertex -> bool {
    (v: Vertex) => var z := ElevationAt(facets, v.at); z.Some? && v.elevation > z.value
  }

  function Under(facets: seq<Facet>): Vertex -> bool {
    (v: Vertex) => var z := ElevationAt(facets, v.at); z.Some? && v.elevation < z.value
  }

  function OnIt(facets: seq<Facet>): Vertex -> bool {
    (v: Vertex) =>
      var z := ElevationAt(facets, v.at);
      z.Some? && -0.000000000001 <= v.elevation - z.value <= 0.000000000001
  }

  function Covered(facets: seq<Facet>): Vertex -> bool { (v: Vertex) => ElevationAt(facets, v.at).Some? }

  lemma {:induction false} SamplesCount(facets: seq<Facet>, vertices: seq<Vertex>)
    ensures var s := Samples(facets, vertices);
      && Tally(s, Rise()) == |Filter(vertices, Over(facets))|
      && Tally(s, Drop()) == |Filter(vertices, Under(facets))|
      && Tally(s, Level()) == |Filter(vertices, OnIt(facets))|
      && |s| == |Filter(vertices, Covered(facets))|
  {
    hide ElevationAt;
    if vertices != [] {
      SamplesCount(facets, vertices[1..]);
      var z, rest := ElevationAt(facets, vertices[0].at), Samples(facets, vertices[1..]);
      if z.Some? {
        var x := vertices[0].elevation - z.value;
        assert Samples(facets, vertices) == [x] + rest && ([x] + rest)[1..] == rest;
      } else {
        assert Samples(facets, vertices) == rest;
      }
    }
  }

  /** Fill counts the design vertices above the existing surface, cut those below it, zero those on it. */
  lemma PreviewCounts(v: Preview, existing: Surface, design: Surface)
    requires Summarises(v, Samples(existing.facets, design.vertices))
    ensures v.samples == |Filter(design.vertices, Covered(existing.facets))|
    ensures v.fill == |Filter(design.vertices, Over(existing.facets))|
    ensures v.cut == |Filter(design.vertices, Under(existing.facets))|
    ensures v.zero == |Filter(design.vertices, OnIt(existing.facets))|
  {
    hide Samples, Tally, Filter;
    SamplesCount(existing.facets, design.vertices);
  }
}
