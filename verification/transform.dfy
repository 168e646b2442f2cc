/**
 * Page pixels and local East/North metres (src/screen2xyz_civil/transform.py).
 * Lengths that the program takes with hypot come in as numbers, tied to their
 * points by `Measured`.
 */
module Transform {
  import opened Common

  datatype Local = Local(east: real, north: real)

  datatype ScaleCheck = ScaleCheck(known: real, measured: real, errorPercent: real)

  datatype Calibration = Calibration(
    revision: int, scale: real, origin: Point, eastX: real, eastY: real,
    originEast: real, originNorth: real, check: Option<ScaleCheck>)

  function Square(a: Point, b: Point): real {
    (b.x - a.x) * (b.x - a.x) + (b.y - a.y) * (b.y - a.y)
  }

  predicate Measured(a: Point, b: Point, length: real) {
    length >= 0.0 && length * length == Square(a, b)
  }

  /** The optional second distance: none of its three parts, all of them, or only some. */
  datatype CheckRequest = NoCheck | IncompleteCheck | Check(known: real, length: real)

  /** What the estimator enters to calibrate a page. */
  datatype Survey = Survey(
    first: Point, second: Point, length: real, known: real,
    origin: Point, eastReference: Point, eastLength: real,
    originEast: real, originNorth: real, check: CheckRequest)

  predicate SurveyMeasured(s: Survey) {
    && Measured(s.first, s.second, s.length)
    && Measured(s.origin, s.eastReference, s.eastLength)
    && (s.check.Check? ==> s.check.length >= 0.0)
  }

  function VerifyScale(known: real, length: real, scale: real): Option<ScaleCheck> {
    if known <= 0.0 then None
    else Some(ScaleCheck(known, length * scale, Abs(length * scale - known) / known * 100.0))
  }

  /** None stands for the CivilModelError of an unusable survey. */
  function BuildCalibration(revision: int, s: Survey): Option<Calibration> {
    if s.known <= 0.0 || s.length <= 0.0 || s.eastLength <= 0.0 || s.check.IncompleteCheck? then None
    else
      var scale := s.known / s.length;
      var check := if s.check.Check? then VerifyScale(s.check.known, s.check.length, scale) else None;
      if s.check.Check? && check.None? then None
      else Some(Calibration(revision, scale, s.origin,
                            (s.eastReference.x - s.origin.x) / s.eastLength,
                            (s.origin.y - s.eastReference.y) / s.eastLength,
                            s.originEast, s.originNorth, check))
  }

  /** What the constructor of a calibration insists on. */
  predicate Usable(c: Calibration) {
    c.revision >= 1 && c.scale > 0.0 && c.eastX * c.eastX + c.eastY * c.eastY == 1.0
  }

  function Dot(x: real, y: real, u: real, v: real): real { x * u + y * v }

  function Scaled(base: real, a: real, k: real): real { base + a * k }

  function ToLocal(p: Point, c: Calibration): Local {
    var dx, dy := p.x - c.origin.x, c.origin.y - p.y;
    Local(Scaled(c.originEast, Dot(dx, dy, c.eastX, c.eastY), c.scale),
          Scaled(c.originNorth, Dot(dx, dy, -c.eastY, c.eastX), c.scale))
  }

  function ToPixel(l: Local, c: Calibration): Point
    requires c.scale != 0.0
  {
    var e, n := (l.east - c.originEast) / c.scale, (l.north - c.originNorth) / c.scale;
    Point(c.origin.x + Dot(e, n, c.eastX, -c.eastY), c.origin.y - Dot(e, n, c.eastY, c.eastX))
  }

  // ---- a built calibration is usable -----------------------------------------------------------

  lemma UnitVector(x: real, y: real, length: real)
    requires length > 0.0 && length * length == x * x + y * y
    ensures var u, v := x / length, y / length; u * u + v * v == 1.0
  {
    var u, v := x / length, y / length;
    assert u * length == x && v * length == y;
    ScaledUnit(x, y, u, v, length);
  }

  lemma ScaledUnit(x: real, y: real, u: real, v: real, d: real)
    requires d > 0.0 && d * d == x * x + y * y && u * d == x && v * d == y
    ensures u * u + v * v == 1.0
  {
    var q :| q == d * d;
    PositiveSquare(d, d, q);
    Squares(x, u, d, q);
    Squares(y, v, d, q);
    var w := u * u + v * v - 1.0;
    assert w * q == (u * u) * q + (v * v) * q - q;
    ZeroFactor(w, q);
  }

  lemma PositiveSquare(d: real, e: real, q: real)
    requires d > 0.0 && e > 0.0 && q == d * e
    ensures q > 0.0
  {
  }

  lemma Squares(x: real, u: real, d: real, q: real)
    requires u * d == x && q == d * d
    ensures x * x == (u * u) * q
  {
  }

  lemma ZeroFactor(w: real, q: real)
    requires q > 0.0 && w * q == 0.0
    ensures w == 0.0
  {
  }

  lemma PositiveQuotient(x: real, y: real)
    requires x > 0.0 && y > 0.0
    ensures x / y > 0.0
  {
  }

  lemma BuiltIsUsable(revision: int, s: Survey)
    requires revision >= 1 && SurveyMeasured(s) && BuildCalibration(revision, s).Some?
    ensures Usable(BuildCalibration(revision, s).value)
  {
    PositiveQuotient(s.known, s.length);
    var x, y := s.eastReference.x - s.origin.x, s.origin.y - s.eastReference.y;
    assert Square(s.origin, s.eastReference) == x * x + y * y;
    UnitVector(x, y, s.eastLength);
  }

  // ---- the two directions undo each other --------------------------------------------------------

  /** Turning by a unit vector and back. */
  lemma TurnBack(x: real, y: real, u: real, v: real)
    requires u * u + v * v == 1.0
    ensures Dot(Dot(x, y, u, v), Dot(x, y, -v, u), u, -v) == x
    ensures Dot(Dot(x, y, u, v), Dot(x, y, -v, u), v, u) == y
  {
  }

  lemma Unscale(base: real, a: real, k: real)
    requires k != 0.0
    ensures (Scaled(base, a, k) - base) / k == a
  {
  }

  lemma PixelRoundTrip(p: Point, c: Calibration)
    requires Usable(c)
    ensures ToPixel(ToLocal(p, c), c) == p
  {
    hide Dot, Scaled;
    var dx, dy := p.x - c.origin.x, c.origin.y - p.y;
    Unscale(c.originEast, Dot(dx, dy, c.eastX, c.eastY), c.scale);
    Unscale(c.originNorth, Dot(dx, dy, -c.eastY, c.eastX), c.scale);
    TurnBack(dx, dy, c.eastX, c.eastY);
  }

  /** Turning back first, by the transposed matrix. */
  lemma TurnForth(e: real, n: real, u: real, v: real)
    requires u * u + v * v == 1.0
    ensures Dot(Dot(e, n, u, -v), Dot(e, n, v, u), u, v) == e
    ensures Dot(Dot(e, n, u, -v), Dot(e, n, v, u), -v, u) == n
  {
    assert (e * u - n * v) * u + (e * v + n * u) * v == e * (u * u + v * v);
    assert -(e * u - n * v) * v + (e * v + n * u) * u == n * (u * u + v * v);
  }

  lemma Rescale(base: real, x: real, k: real)
    requires k != 0.0
    ensures Scaled(base, (x - base) / k, k) == x
  {
    assert (x - base) / k * k == x - base;
  }

  lemma LocalRoundTrip(l: Local, c: Calibration)
    requires Usable(c)
    ensures ToLocal(ToPixel(l, c), c) == l
  {
    hide Dot, Scaled;
    var e, n := (l.east - c.originEast) / c.scale, (l.north - c.originNorth) / c.scale;
    TurnForth(e, n, c.eastX, c.eastY);
    Rescale(c.originEast, l.east, c.scale);
    Rescale(c.originNorth, l.north, c.scale);
  }

  // ---- distances ------------------------------------------------------------------------------

  function LocalSquare(a: Local, b: Local): real {
    (b.east - a.east) * (b.east - a.east) + (b.north - a.north) * (b.north - a.north)
  }

  /** Turning keeps lengths, scaling multiplies them. */
  lemma TurnedLength(x: real, y: real, u: real, v: real, k: real, e: real, n: real)
    requires u * u + v * v == 1.0
    requires e == Dot(x, y, u, v) * k && n == Dot(x, y, -v, u) * k
    ensures e * e + n * n == k * k * (x * x + y * y)
  {
  }

  lemma DistancesScale(p: Point, q: Point, c: Calibration)
    requires Usable(c)
    ensures LocalSquare(ToLocal(p, c), ToLocal(q, c)) == c.scale * c.scale * Square(p, q)
  {
    var x, y := q.x - p.x, p.y - q.y;
    var a, b := ToLocal(p, c), ToLocal(q, c);
    var px, py, qx, qy := p.x - c.origin.x, c.origin.y - p.y, q.x - c.origin.x, c.origin.y - q.y;
    Spread(c.originEast, px, py, qx, qy, c.eastX, c.eastY, c.scale);
    Spread(c.originNorth, px, py, qx, qy, -c.eastY, c.eastX, c.scale);
    hide Dot, Scaled;
    TurnedLength(x, y, c.eastX, c.eastY, c.scale, b.east - a.east, b.north - a.north);
    Upside(p, q);
  }

  lemma Upside(p: Point, q: Point)
    ensures Square(p, q) == (q.x - p.x) * (q.x - p.x) + (p.y - q.y) * (p.y - q.y)
  {
  }

  lemma Spread(base: real, px: real, py: real, qx: real, qy: real, u: real, v: real, k: real)
    ensures Scaled(base, Dot(qx, qy, u, v), k) - Scaled(base, Dot(px, py, u, v), k) == Dot(qx - px, qy - py, u, v) * k
  {
  }

  /** On the calibrated page the two scale points lie exactly the known distance apart. */
  lemma KnownDistanceReproduced(revision: int, s: Survey)
    requires revision >= 1 && SurveyMeasured(s) && BuildCalibration(revision, s).Some?
    ensures var c := BuildCalibration(revision, s).value;
      LocalSquare(ToLocal(s.first, c), ToLocal(s.second, c)) == s.known * s.known
  {
    var c := BuildCalibration(revision, s).value;
    BuiltIsUsable(revision, s);
    DistancesScale(s.first, s.second, c);
    hide ToLocal, LocalSquare, Usable, Square, VerifyScale;
    ScaledLength(c.scale, s.length, s.known, Square(s.first, s.second));
  }

  lemma ScaledLength(k: real, length: real, known: real, square: real)
    requires length > 0.0 && k == known / length && square == length * length
    ensures k * k * square == known * known
  {
  }

  /** The origin pixel lands on the origin coordinates, and the East reference due east of it. */
  lemma EastPointsEast(revision: int, s: Survey)
    requires revision >= 1 && SurveyMeasured(s) && BuildCalibration(revision, s).Some?
    ensures var c := BuildCalibration(revision, s).value;
      var o, e := ToLocal(s.origin, c), ToLocal(s.eastReference, c);
      o == Local(s.originEast, s.originNorth) && e.north == o.north && e.east > o.east
  {
    var c := BuildCalibration(revision, s).value;
    BuiltIsUsable(revision, s);
    var x, y := s.eastReference.x - s.origin.x, s.origin.y - s.eastReference.y;
    Along(x, y, s.eastLength, c.eastX, c.eastY);
    Still(c.eastX, c.eastY);
    Still(-c.eastY, c.eastX);
    hide Dot, Usable, VerifyScale, Square;
    Moved(s.originEast, s.eastLength, c.scale);
    Moved(s.originNorth, 0.0, c.scale);
    Moved(s.originEast, 0.0, c.scale);
  }

  lemma Along(x: real, y: real, length: real, u: real, v: real)
    requires length > 0.0 && u == x / length && v == y / length && u * u + v * v == 1.0
    ensures Dot(x, y, u, v) == length && Dot(x, y, -v, u) == 0.0
  {
  }

  lemma Still(u: real, v: real)
    ensures Dot(0.0, 0.0, u, v) == 0.0
  {
  }

  lemma Moved(base: real, a: real, k: real)
    requires a >= 0.0 && k > 0.0
    ensures a == 0.0 ==> Scaled(base, a, k) == base
    ensures a > 0.0 ==> Scaled(base, a, k) > base
  {
  }

  // ---- which side North lies on ------------------------------------------------------------------

  /** Twice the area of the triangle on the page, positive when its corners run clockwise there: y grows downwards. */
  function PageTurn(a: Point, b: Point, c: Point): real { (b.x - a.x) * (c.y - a.y) - (b.y - a.y) * (c.x - a.x) }

  /** Twice the area on the ground, positive when the corners run counter-clockwise on a map with North up. */
  function GroundTurn(a: Local, b: Local, c: Local): real {
    (b.east - a.east) * (c.north - a.north) - (b.north - a.north) * (c.east - a.east)
  }

  lemma TurnedArea(x1: real, y1: real, x2: real, y2: real, u: real, v: real, k: real)
    requires u * u + v * v == 1.0
    ensures Dot(x1, y1, u, v) * k * (Dot(x2, y2, -v, u) * k) - Dot(x1, y1, -v, u) * k * (Dot(x2, y2, u, v) * k)
         == k * k * (x1 * y2 - y1 * x2)
  {
    var e1, n1, e2, n2 := Dot(x1, y1, u, v), Dot(x1, y1, -v, u), Dot(x2, y2, u, v), Dot(x2, y2, -v, u);
    AreaKept(x1, y1, x2, y2, u, v);
    hide Dot;
    Factors(e1, n2, k);
    Factors(n1, e2, k);
    Distribute(k * k, e1 * n2, n1 * e2);
  }

  lemma AreaKept(x1: real, y1: real, x2: real, y2: real, u: real, v: real)
    requires u * u + v * v == 1.0
    ensures Dot(x1, y1, u, v) * Dot(x2, y2, -v, u) - Dot(x1, y1, -v, u) * Dot(x2, y2, u, v) == x1 * y2 - y1 * x2
  {
    assert (x1 * u + y1 * v) * (-x2 * v + y2 * u) - (-x1 * v + y1 * u) * (x2 * u + y2 * v)
        == (x1 * y2 - y1 * x2) * (u * u + v * v);
  }

  lemma Factors(a: real, b: real, k: real)
    ensures a * k * (b * k) == k * k * (a * b)
  {
  }

  lemma Distribute(k: real, a: real, b: real)
    ensures k * a - k * b == k * (a - b)
  {
  }

  /** Figures keep their shape and are not mirrored: turned on the page one way, they turn on the map the same way. */
  lemma OrientationKept(p: Point, q: Point, r: Point, c: Calibration)
    requires Usable(c)
    ensures GroundTurn(ToLocal(p, c), ToLocal(q, c), ToLocal(r, c)) == -(c.scale * c.scale * PageTurn(p, q, r))
  {
    var px, py := p.x - c.origin.x, c.origin.y - p.y;
    var qx, qy := q.x - c.origin.x, c.origin.y - q.y;
    var rx, ry := r.x - c.origin.x, c.origin.y - r.y;
    Spread(c.originEast, px, py, qx, qy, c.eastX, c.eastY, c.scale);
    Spread(c.originNorth, px, py, qx, qy, -c.eastY, c.eastX, c.scale);
    Spread(c.originEast, px, py, rx, ry, c.eastX, c.eastY, c.scale);
    Spread(c.originNorth, px, py, rx, ry, -c.eastY, c.eastX, c.scale);
    hide Dot, Scaled;
    TurnedArea(qx - px, qy - py, rx - px, ry - py, c.eastX, c.eastY, c.scale);
    Downwards(p, q, r, c.scale * c.scale);
  }

  lemma Downwards(p: Point, q: Point, r: Point, k: real)
    ensures k * ((q.x - p.x) * (p.y - r.y) - (p.y - q.y) * (r.x - p.x)) == -(k * PageTurn(p, q, r))
  {
    assert (q.x - p.x) * (p.y - r.y) - (p.y - q.y) * (r.x - p.x) == -PageTurn(p, q, r);
  }

  /** A quarter turn counter-clockwise on the page, about the origin. */
  function QuarterTurn(o: Point, p: Point): Point { Point(o.x + (p.y - o.y), o.y - (p.x - o.x)) }

  /** The East reference, turned by a quarter, lies due north, as far as it lies east itself. */
  lemma QuarterTurnPointsNorth(revision: int, s: Survey)
    requires revision >= 1 && SurveyMeasured(s) && BuildCalibration(revision, s).Some?
    ensures var c := BuildCalibration(revision, s).value;
      var o, e := ToLocal(s.origin, c), ToLocal(s.eastReference, c);
      var n := ToLocal(QuarterTurn(s.origin, s.eastReference), c);
      && n.east == o.east == s.originEast && n.north - o.north == e.east - o.east > 0.0
  {
    var c := BuildCalibration(revision, s).value;
    EastPointsEast(revision, s);
    var x, y := s.eastReference.x - s.origin.x, s.origin.y - s.eastReference.y;
    DotTurned(x, y, c.eastX, c.eastY);
    BuiltIsUsable(revision, s);
    Along(x, y, s.eastLength, c.eastX, c.eastY);
    hide Dot, Usable, VerifyScale, Square;
    Moved(s.originEast, 0.0, c.scale);
  }

  lemma DotTurned(x: real, y: real, u: real, v: real)
    ensures Dot(-y, x, u, v) == -Dot(x, y, -v, u)
    ensures Dot(-y, x, -v, u) == Dot(x, y, u, v)
  {
  }

  // ---- when a survey is refused --------------------------------------------------------------------

  /** A survey is refused exactly for a distance that is not positive or a second one that is incomplete. */
  lemma SurveyRefusedExactly(revision: int, s: Survey)
    ensures BuildCalibration(revision, s).None?
       <==> s.known <= 0.0 || s.length <= 0.0 || s.eastLength <= 0.0
            || s.check.IncompleteCheck? || (s.check.Check? && s.check.known <= 0.0)
  {
  }

  /** The check compares the second distance as measured at the new scale with the one that is known. */
  lemma CheckMeasures(revision: int, s: Survey)
    requires BuildCalibration(revision, s).Some?
    ensures var c := BuildCalibration(revision, s).value;
      && c.revision == revision && c.scale * s.length == s.known && (c.check.Some? <==> s.check.Check?)
      && (c.check.Some? ==>
           var k := c.check.value;
           k.known == s.check.known && k.measured * s.length == s.check.length * s.known && ErrorIs(k))
  {
    var scale := s.known / s.length;
    assert scale * s.length == s.known;
    if s.check.Check? {
      VerifiedMeans(s.check.known, s.check.length, scale);
      hide VerifyScale;
      SameRatio(s.check.length, scale, s.length, s.known);
    }
  }

  lemma SameRatio(x: real, k: real, length: real, known: real)
    requires k * length == known
    ensures x * k * length == x * known
  {
  }

  /** The error is the difference in per cent of the known distance, without its sign. */
  predicate ErrorIs(k: ScaleCheck) {
    k.known > 0.0 && k.errorPercent >= 0.0
    && (k.errorPercent * k.known == 100.0 * (k.measured - k.known)
        || k.errorPercent * k.known == 100.0 * (k.known - k.measured))
  }

  lemma VerifiedMeans(known: real, length: real, scale: real)
    ensures VerifyScale(known, length, scale).None? <==> known <= 0.0
    ensures known > 0.0 ==>
      var k := VerifyScale(known, length, scale).value; k.known == known && k.measured == length * scale && ErrorIs(k)
  {
    if known > 0.0 {
      PerCent(Abs(length * scale - known), known);
    }
  }

  lemma PerCent(d: real, known: real)
    requires known > 0.0 && d >= 0.0
    ensures d / known * 100.0 >= 0.0 && d / known * 100.0 * known == 100.0 * d
  {
    assert d / known * known == d;
    NotNegative(d, known);
  }

  lemma NotNegative(d: real, known: real)
    requires known > 0.0 && d >= 0.0
    ensures d / known >= 0.0
  {
  }
}
