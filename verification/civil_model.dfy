/**
 * The civil project, its points and its snapshots (src/screen2xyz_civil/models.py),
 * and the list of points an export takes (src/screen2xyz_civil/exports.py).
 */
module CivilModel {
  import opened Common
  import opened PointIds
  import opened Sorting
  import opened Transform

  type Time = nat

  // In alphabetical order of their names, which is how the Point Cart sorts them.
  datatype PointType =
    | ContourElevation | DesignGrade | Dimension | DrawingMetadata | ExistingGround | MaterialThickness
    | RejectedType | ReviewRequiredType | SlabElevation | SlopeAnnotation | UnknownNumeric | UtilityInvert | UtilityRim
  {
    predicate Terrain() { ExistingGround? || DesignGrade? || ContourElevation? }
  }

  datatype Status = Approved | AutoHighConfidence | EditedAndApproved | Rejected | ReviewRequired | Unreviewed {
    predicate IsApproved() { Approved? || EditedAndApproved? }
  }

  datatype SourceMethod = Manual | PdfText | PdfVector | LocalOcr | MockOcr

  /** The fields of a point that the edit trail records. */
  datatype View = View(elevation: real, kind: PointType, pixel: Point, number: string, description: string,
                       sheet: string, revisionLabel: string, notes: string)

  datatype Change = Change(at: Time, before: View, statusBefore: Status, after: View)

  datatype CivilPoint = CivilPoint(
    id: Id, number: string, pageIndex: int, pixel: Point, local: Option<Local>, elevation: real,
    kind: PointType, source: SourceMethod, status: Status, description: string, sheet: string,
    revisionLabel: string, notes: string, created: Time, updated: Time, edits: seq<Change>, revision: Option<int>)
  {
    /** What the constructor of a point insists on. */
    predicate Ok() { HasPrefix(id) && pageIndex >= 0 && pixel.x >= 0.0 && pixel.y >= 0.0 }

    function AsView(): View { View(elevation, kind, pixel, number, description, sheet, revisionLabel, notes) }

    function ShownNumber(): string { if number == "" then id.text else number }
  }

  datatype Crop = Crop(x: real, y: real, width: real, height: real) {
    predicate Ok() { x >= 0.0 && y >= 0.0 && width > 0.0 && height > 0.0 }

    predicate Contains(p: Point) { x <= p.x <= x + width && y <= p.y <= y + height }
  }

  datatype Happening =
    | CropSet | RangeSet | CalibrationApplied | ScaleChecked | PointAdded | CandidateAdded | BatchIngested
    | PointEdited | PointApproved | PointRejected | ManualPointDeleted | CartPointDeleted | BulkApproved | BulkDescribed
    | Renumbered | CartSorted | Undone | Redone

  datatype Entry = Entry(at: Time, what: Happening)

  /** One export: the points written, and the list of approved points it chose them from. */
  datatype Export = Export(at: Time, revision: Option<int>, rows: seq<CivilPoint>, approved: seq<CivilPoint>)

  /** Width and height of the source page, 0 when unknown. */
  datatype Project = Project(
    width: real, height: real, crop: Option<Crop>, calibration: Option<Calibration>, history: seq<Calibration>,
    low: real, high: real, points: seq<CivilPoint>, exports: seq<Export>, stale: bool,
    log: seq<Entry>, updated: Time)

  function KeyOfId(): CivilPoint -> Id { (p: CivilPoint) => p.id }

  function Ids(points: seq<CivilPoint>): (ids: seq<Id>)
    ensures |ids| == |points| && forall i :: 0 <= i < |points| ==> ids[i] == points[i].id
  {
    if points == [] then [] else [points[0].id] + Ids(points[1..])
  }

  predicate UniqueIds(points: seq<CivilPoint>) {
    forall i, j :: 0 <= i < j < |points| ==> points[i].id != points[j].id
  }

  // ---- snapshots --------------------------------------------------------------------------------

  /** The dictionary form: the range is nested, and three id lists are written but never read back. */
  datatype Snapshot = Snapshot(
    width: real, height: real, crop: Option<Crop>, calibration: Option<Calibration>, history: seq<Calibration>,
    range: (real, real), candidates: seq<CivilPoint>,
    approvedPoints: seq<Id>, rejectedPoints: seq<Id>, manualPoints: seq<Id>,
    exports: seq<Export>, stale: bool, log: seq<Entry>, updated: Time)

  function IdsWhere(points: seq<CivilPoint>, p: CivilPoint -> bool): seq<Id> { Ids(Filter(points, p)) }

  function ToDict(p: Project): Snapshot {
    Snapshot(p.width, p.height, p.crop, p.calibration, p.history, (p.low, p.high), p.points,
             IdsWhere(p.points, (c: CivilPoint) => c.status.IsApproved()),
             IdsWhere(p.points, (c: CivilPoint) => c.status.Rejected?),
             IdsWhere(p.points, (c: CivilPoint) => c.source.Manual?),
             p.exports, p.stale, p.log, p.updated)
  }

  /** Every constructor run while loading accepts its part. */
  predicate Loadable(p: Project) {
    && p.low < p.high
    && (p.crop.Some? ==> p.crop.value.Ok())
    && (p.calibration.Some? ==> Usable(p.calibration.value))
    && (forall i :: 0 <= i < |p.history| ==> Usable(p.history[i]))
    && (forall i :: 0 <= i < |p.points| ==> p.points[i].Ok())
    && UniqueIds(p.points)
  }

  /** The project a snapshot describes, before any constructor has looked at it. */
  function Described(s: Snapshot): Project {
    Project(s.width, s.height, s.crop, s.calibration, s.history, s.range.0, s.range.1,
            s.candidates, s.exports, s.stale, s.log, s.updated)
  }

  /** None stands for the CivilModelError raised on loading. */
  function FromDict(s: Snapshot): Option<Project> {
    if Loadable(Described(s)) then Some(Described(s)) else None
  }

  lemma DescribedIsFaithful(p: Project)
    ensures Described(ToDict(p)) == p
  {
  }

  /** A snapshot restores exactly the project it was taken of, or, if a constructor objects, nothing. */
  lemma SnapshotRoundTrip(p: Project)
    ensures FromDict(ToDict(p)) == if Loadable(p) then Some(p) else None
  {
  }

  /** Loading fails exactly for these. */
  lemma LoadingRefusedExactly(p: Project)
    ensures FromDict(ToDict(p)).None? <==>
      || p.high <= p.low
      || (p.crop.Some? && var c := p.crop.value; c.x < 0.0 || c.y < 0.0 || c.width <= 0.0 || c.height <= 0.0)
      || (p.calibration.Some? && !Usable(p.calibration.value))
      || (exists c :: c in p.history && !Usable(c))
      || (exists c :: c in p.points
           && (c.pixel.x < 0.0 || c.pixel.y < 0.0 || c.pageIndex < 0 || !("PT-" <= c.id.text)))
      || (exists i, j :: 0 <= i < j < |p.points| && p.points[i].id == p.points[j].id)
  {
    SnapshotRoundTrip(p);
    hide ToDict, FromDict, Usable;
    if forall i :: 0 <= i < |p.history| ==> Usable(p.history[i]) {
      assert forall c :: c in p.history ==> Usable(c);
    }
    if forall i :: 0 <= i < |p.points| ==> p.points[i].Ok() {
      assert forall c :: c in p.points ==> c.Ok();
    }
  }

  // ---- the exported list ---------------------------------------------------------------------------

  predicate Exportable(p: CivilPoint) { p.status.IsApproved() && p.kind.Terrain() && p.local.Some? }

  function IsExportable(): CivilPoint -> bool { (p: CivilPoint) => Exportable(p) }

  /** By point number, then by id, both as text. */
  predicate NumberLeq(a: CivilPoint, b: CivilPoint) {
    if a.ShownNumber() == b.ShownNumber() then TextLeq(a.id.text, b.id.text)
    else TextLeq(a.ShownNumber(), b.ShownNumber())
  }

  function ByNumber(): (CivilPoint, CivilPoint) -> bool { (a: CivilPoint, b: CivilPoint) => NumberLeq(a, b) }

  function ApprovedPoints(points: seq<CivilPoint>): seq<CivilPoint> {
    Sort(Filter(points, IsExportable()), ByNumber())
  }

  lemma NumberLeqTotal(a: CivilPoint, b: CivilPoint)
    ensures NumberLeq(a, b) || NumberLeq(b, a)
    ensures NumberLeq(a, b) && NumberLeq(b, a) ==> a.id == b.id
  {
    TextTotal(a.ShownNumber(), b.ShownNumber());
    TextTotal(a.id.text, b.id.text);
  }

  lemma NumberLeqTransitive(a: CivilPoint, b: CivilPoint, c: CivilPoint)
    requires NumberLeq(a, b) && NumberLeq(b, c)
    ensures NumberLeq(a, c)
  {
    var x, y, z := a.ShownNumber(), b.ShownNumber(), c.ShownNumber();
    if x == y == z {
      TextTransitive(a.id.text, b.id.text, c.id.text);
    } else if x != y && y != z {
      TextTransitive(x, y, z);
      TextTotal(x, y);
    }
  }

  lemma ByNumberIsPreorder()
    ensures TotalPreorder(ByNumber())
  {
    var leq := ByNumber();
    hide NumberLeq;
    forall a, b
      ensures leq(a, b) || leq(b, a)
    {
      NumberLeqTotal(a, b);
    }
    forall a, b, c | leq(a, b) && leq(b, c)
      ensures leq(a, c)
    {
      NumberLeqTransitive(a, b, c);
    }
  }

  lemma UniqueIsDistinct(points: seq<CivilPoint>)
    ensures UniqueIds(points) <==> Distinct(points, KeyOfId())
  {
  }

  lemma ApprovedIsStrict(points: seq<CivilPoint>)
    requires UniqueIds(points)
    ensures Strict(ApprovedPoints(points), ByNumber())
  {
    var leq := ByNumber();
    var kept := Filter(points, IsExportable());
    var r := ApprovedPoints(points);
    ByNumberIsPreorder();
    UniqueIsDistinct(points);
    FilterDistinct(points, KeyOfId(), IsExportable());
    SortSorted(kept, leq);
    SortDistinct(kept, KeyOfId(), leq);
    UniqueIsDistinct(r);
    hide NumberLeq;
    forall i, j | 0 <= i < j < |r|
      ensures !leq(r[j], r[i])
    {
      assert leq(r[i], r[j]);
      NumberLeqTotal(r[i], r[j]);
    }
  }

  /** Exactly the approved, terrain-typed, located points are exported. */
  lemma ApprovedMembers(points: seq<CivilPoint>)
    ensures forall c :: c in ApprovedPoints(points) <==> c in points && Exportable(c)
  {
    ByNumberIsPreorder();
    FilterMembers(points, IsExportable());
    SortMembers(Filter(points, IsExportable()), ByNumber());
  }

  lemma ApprovedInOrder(points: seq<CivilPoint>)
    ensures Sorted(ApprovedPoints(points), ByNumber())
  {
    ByNumberIsPreorder();
    SortSorted(Filter(points, IsExportable()), ByNumber());
  }

  /** The list does not depend on the order of the cart. */
  lemma ApprovedIgnoresOrder(a: seq<CivilPoint>, b: seq<CivilPoint>)
    requires UniqueIds(a) && UniqueIds(b) && forall c :: c in a <==> c in b
    ensures ApprovedPoints(a) == ApprovedPoints(b)
  {
    ByNumberIsPreorder();
    ApprovedIsStrict(a);
    ApprovedIsStrict(b);
    ApprovedMembers(a);
    ApprovedMembers(b);
    StrictUnique(ApprovedPoints(a), ApprovedPoints(b), ByNumber());
  }
}
