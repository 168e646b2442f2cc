/**
 * What each estimator action does to a project (src/screen2xyz_civil/workflow.py), as a
 * function; the class in civil_workflow.dfy performs the same actions in place.
 * All clock readings during one action are taken to be equal.
 */
module CivilActions {
  import opened Common
  import opened CivilModel
  import opened PointIds
  import opened Sorting
  import opened Transform

  /** A raising action may leave the project half changed. */
  datatype Outcome = Done(project: Project) | Raised(project: Project)

  datatype KindRequest = Keep | To(kind: PointType) | UnknownKind

  /** Text arrives stripped. */
  datatype Edit = Edit(elevation: Option<real>, kind: KindRequest, pixel: Option<Point>,
                       number: Option<string>, description: Option<string>, sheet: Option<string>,
                       revisionLabel: Option<string>, notes: Option<string>)

  datatype CartKey = ByPointNumber | ByPage | ByElevation | ByClass | ByStatus | ByCreation | Unsupported

  /** A text candidate with its classification: `usable` when it is a terrain candidate with an elevation. */
  datatype Found = Found(center: Point, usable: bool, pageIndex: int, pixel: Point, elevation: real,
                         kind: PointType, source: SourceMethod, confident: bool)

  datatype Action =
    | SetCrop(crop: Crop)
    | SetPlausibleRange(low: real, high: real)
    | ApplyCalibration(survey: Survey)
    | VerifyCurrentScale(known: real, length: real)
    | AddManualPoint(pageIndex: int, pixel: Point, elevation: real, kind: PointType)
    | AddCandidate(point: CivilPoint)
    | EditPoint(id: Id, edit: Edit)
    | ApprovePoint(id: Id)
    | RejectPoint(id: Id)
    | MarkReviewRequired(id: Id)
    | MergeDuplicate(keep: Id, reject: Id)
    | DeleteManualPoint(id: Id)
    | DeleteCartPoint(id: Id)
    | RenumberPoints(chosen: Option<seq<Id>>, prefix: string, start: int, padding: int)
    | SortPoints(key: CartKey, reverse: bool)
    | BulkApprove(ids: seq<Id>)
    | BulkChangeDescription(ids: seq<Id>, description: string)
    | IngestCandidates(found: seq<Found>)
  {
    /** Actions that call other undoable actions. */
    predicate Nests() { BulkApprove? || BulkChangeDescription? || IngestCandidates? || MergeDuplicate? }
  }

  /** Arguments whose own constructors have run, and lengths that are lengths. */
  predicate WellFormed(a: Action) {
    match a
    case SetCrop(crop) => crop.Ok()
    case ApplyCalibration(survey) => SurveyMeasured(survey)
    case VerifyCurrentScale(_, length) => length >= 0.0
    case AddCandidate(point) => point.Ok()
    case _ => true
  }

  // ---- pieces -------------------------------------------------------------------------------------

  function Audited(p: Project, now: Time, what: Happening): Project {
    p.(log := p.log + [Entry(now, what)], updated := now)
  }

  predicate InRange(p: Project, elevation: real) { p.low <= elevation <= p.high }

  predicate InCrop(p: Project, pixel: Point) { p.crop.Some? ==> p.crop.value.Contains(pixel) }

  function IndexFrom(points: seq<CivilPoint>, id: Id, i: nat): (k: Option<nat>)
    requires i <= |points|
    ensures k.Some? ==> i <= k.value < |points| && points[k.value].id == id
    ensures k.None? ==> forall j :: i <= j < |points| ==> points[j].id != id
    decreases |points| - i
  {
    if i == |points| then None else if points[i].id == id then Some(i) else IndexFrom(points, id, i + 1)
  }

  function IndexOf(points: seq<CivilPoint>, id: Id): (k: Option<nat>)
    ensures k.Some? ==> k.value < |points| && points[k.value].id == id
    ensures k.None? ==> forall j :: 0 <= j < |points| ==> points[j].id != id
  {
    IndexFrom(points, id, 0)
  }

  function WithPoint(p: Project, i: nat, point: CivilPoint): Project
    requires i < |p.points|
  {
    p.(points := p.points[i := point])
  }

  /** The point as the calibration, if there is one, places it. */
  function Located(point: CivilPoint, calibration: Option<Calibration>): CivilPoint {
    match calibration
    case None => point
    case Some(c) => point.(local := Some(ToLocal(point.pixel, c)), revision := Some(c.revision))
  }

  function Recalibrated(points: seq<CivilPoint>, c: Calibration, now: Time): (r: seq<CivilPoint>)
    ensures |r| == |points|
  {
    seq(|points|, i requires 0 <= i < |points| => Located(points[i], Some(c)).(updated := now))
  }

  function DefaultDescription(kind: PointType, otherwise: string): string {
    match kind
    case ExistingGround => "EX_GROUND"
    case DesignGrade => "DESIGN_GRADE"
    case ContourElevation => "CONTOUR"
    case _ => otherwise
  }

  function NextRevision(p: Project): int {
    if p.calibration.None? then 1 else p.calibration.value.revision + 1
  }

  // ---- actions on the page ------------------------------------------------------------------------

  function DoSetCrop(p: Project, crop: Crop, now: Time): Outcome {
    if (p.width != 0.0 && crop.x + crop.width > p.width) || (p.height != 0.0 && crop.y + crop.height > p.height)
    then Raised(p)
    else Done(Audited(p.(crop := Some(crop), stale := true), now, CropSet))
  }

  function DoSetRange(p: Project, low: real, high: real, now: Time): Outcome {
    if low >= high then Raised(p)
    else Done(Audited(p.(low := low, high := high, stale := true), now, RangeSet))
  }

  function DoCalibrate(p: Project, survey: Survey, now: Time): Outcome {
    match BuildCalibration(NextRevision(p), survey)
    case None => Raised(p)
    case Some(c) =>
      var history := if p.calibration.Some? then p.history + [p.calibration.value] else p.history;
      Done(Audited(p.(history := history, calibration := Some(c), points := Recalibrated(p.points, c, now),
                      stale := true), now, CalibrationApplied))
  }

  function DoVerifyScale(p: Project, known: real, length: real, now: Time): Outcome {
    if p.calibration.None? then Raised(p)
    else
      match VerifyScale(known, length, p.calibration.value.scale)
      case None => Raised(p)
      case Some(check) =>
        Done(Audited(p.(calibration := Some(p.calibration.value.(check := Some(check))), stale := true),
                     now, ScaleChecked))
  }

  // ---- actions on one point --------------------------------------------------------------------------

  function ManualPoint(p: Project, pageIndex: int, pixel: Point, elevation: real, kind: PointType,
                       now: Time): CivilPoint {
    var id := NextId(Ids(p.points));
    var description :=
      match kind case ExistingGround => "MANUAL_EX" case DesignGrade => "MANUAL_DES" case _ => "CONTOUR";
    Located(CivilPoint(id, id.text, pageIndex, pixel, None, elevation, kind, Manual, Unreviewed, description,
                       "", "", "", now, now, [], None), p.calibration)
  }

  function DoAddManual(p: Project, pageIndex: int, pixel: Point, elevation: real, kind: PointType, now: Time): Outcome {
    if !kind.Terrain() || !InRange(p, elevation) || !InCrop(p, pixel) then Raised(p)
    else
      var point := ManualPoint(p, pageIndex, pixel, elevation, kind, now);
      if !point.Ok() then Raised(p)
      else Done(Audited(p.(points := p.points + [point], stale := true), now, PointAdded))
  }

  function Numbered(point: CivilPoint): CivilPoint {
    if point.number == "" then point.(number := point.id.text) else point
  }

  function DoAddCandidate(p: Project, point: CivilPoint, now: Time): Outcome {
    if IndexOf(p.points, point.id).Some? || point.status.IsApproved() || !InCrop(p, point.pixel) then Raised(p)
    else Done(Audited(p.(points := p.points + [Numbered(Located(point, p.calibration))], stale := true),
                      now, CandidateAdded))
  }

  predicate NumberTaken(points: seq<CivilPoint>, id: Id, number: string) {
    exists i :: 0 <= i < |points| && points[i].id != id && points[i].number == number
  }

  function WithElevation(point: CivilPoint, elevation: Option<real>): CivilPoint {
    if elevation.Some? then point.(elevation := elevation.value) else point
  }

  function WithKind(point: CivilPoint, request: KindRequest): CivilPoint {
    if request.To? then point.(kind := request.kind, description := DefaultDescription(request.kind, point.description))
    else point
  }

  function WithPixel(point: CivilPoint, pixel: Option<Point>, calibration: Option<Calibration>): CivilPoint {
    if pixel.Some? then Located(point.(pixel := pixel.value), calibration) else point
  }

  function WithText(point: CivilPoint, edit: Edit): CivilPoint {
    point.(number := if edit.number.Some? then edit.number.value else point.number,
           description := if edit.description.Some? then edit.description.value else point.description,
           sheet := if edit.sheet.Some? then edit.sheet.value else point.sheet,
           revisionLabel := if edit.revisionLabel.Some? then edit.revisionLabel.value else point.revisionLabel,
           notes := if edit.notes.Some? then edit.notes.value else point.notes)
  }

  /** Back to review, with the change on record. */
  function Reviewed(before: CivilPoint, after: CivilPoint, now: Time): CivilPoint {
    after.(status := ReviewRequired, updated := now,
           edits := after.edits + [Change(now, before.AsView(), before.status, after.AsView())])
  }

  /** The changes are made one after the other, so a refused one leaves the earlier ones behind. */
  function DoEdit(p: Project, id: Id, edit: Edit, now: Time): Outcome {
    match IndexOf(p.points, id)
    case None => Raised(p)
    case Some(i) =>
      var before := p.points[i];
      if edit.elevation.Some? && !InRange(p, edit.elevation.value) then Raised(p)
      else
        var raised := WithElevation(before, edit.elevation);
        if edit.kind.UnknownKind? then Raised(WithPoint(p, i, raised))
        else
          var retyped := WithKind(raised, edit.kind);
          if edit.pixel.Some? && !InCrop(p, edit.pixel.value) then Raised(WithPoint(p, i, retyped))
          else
            var moved := WithPixel(retyped, edit.pixel, p.calibration);
            if edit.number.Some? && (edit.number.value == "" || NumberTaken(p.points, id, edit.number.value))
            then Raised(WithPoint(p, i, moved))
            else
              var point := Reviewed(before, WithText(moved, edit), now);
              Done(Audited(WithPoint(p, i, point).(stale := true), now, PointEdited))
  }

  function ApprovedPoint(point: CivilPoint, c: Calibration, now: Time): CivilPoint {
    point.(status := if point.edits != [] then EditedAndApproved else Approved,
           updated := now, revision := Some(c.revision))
  }

  function DoApprove(p: Project, id: Id, now: Time): Outcome {
    match IndexOf(p.points, id)
    case None => Raised(p)
    case Some(i) =>
      var point := p.points[i];
      if p.calibration.None? || !point.kind.Terrain() || !InRange(p, point.elevation) || point.local.None?
      then Raised(p)
      else
        var approved := ApprovedPoint(point, p.calibration.value, now);
        Done(Audited(WithPoint(p, i, approved).(stale := true), now, PointApproved))
  }

  function DoReject(p: Project, id: Id, now: Time): Outcome {
    match IndexOf(p.points, id)
    case None => Raised(p)
    case Some(i) =>
      Done(Audited(WithPoint(p, i, p.points[i].(status := Rejected, updated := now)).(stale := true),
                   now, PointRejected))
  }

  /** The one action that leaves no entry in the decision log. */
  function DoMark(p: Project, id: Id, now: Time): Outcome {
    match IndexOf(p.points, id)
    case None => Raised(p)
    case Some(i) =>
      Done(WithPoint(p, i, p.points[i].(status := ReviewRequired, updated := now)).(stale := true, updated := now))
  }

  /** Duplicates lie at most 0.05 m apart. */
  predicate TooFarApart(a: Local, b: Local) { LocalSquare(a, b) > 0.05 * 0.05 }

  function DoMerge(p: Project, keep: Id, reject: Id, now: Time): Outcome {
    if keep == reject then Raised(p)
    else
      match (IndexOf(p.points, keep), IndexOf(p.points, reject))
      case (Some(i), Some(j)) =>
        var a, b := p.points[i].local, p.points[j].local;
        if a.None? || b.None? || TooFarApart(a.value, b.value) then Raised(p) else DoReject(p, reject, now)
      case _ => Raised(p)
  }

  function Without(points: seq<CivilPoint>, i: nat): seq<CivilPoint>
    requires i < |points|
  {
    points[..i] + points[i + 1..]
  }

  function DoDelete(p: Project, id: Id, manualOnly: bool, now: Time): Outcome {
    match IndexOf(p.points, id)
    case None => Raised(p)
    case Some(i) =>
      if manualOnly && !p.points[i].source.Manual? then Raised(p)
      else Done(Audited(p.(points := Without(p.points, i), stale := true), now,
                        if manualOnly then ManualPointDeleted else CartPointDeleted))
  }

  // ---- actions on the cart ---------------------------------------------------------------------------

  function Numbers(prefix: string, start: nat, count: nat, padding: nat): (r: seq<string>)
    ensures |r| == count
    decreases count
  {
    if count == 0 then [] else [prefix + Padded(start, padding)] + Numbers(prefix, start + 1, count - 1, padding)
  }

  /** The listed points get the listed numbers; when a point is listed twice, the later number stays. */
  function AssignNumbers(points: seq<CivilPoint>, ids: seq<Id>, numbers: seq<string>, now: Time): (r: seq<CivilPoint>)
    requires |ids| == |numbers|
    ensures |r| == |points|
    decreases |ids|
  {
    if ids == [] then points
    else
      var rest := match IndexOf(points, ids[0])
        case None => points
        case Some(i) => points[i := points[i].(number := numbers[0], updated := now)];
      AssignNumbers(rest, ids[1..], numbers[1..], now)
  }

  predicate NumberClash(points: seq<CivilPoint>, ids: seq<Id>, numbers: seq<string>) {
    exists i :: 0 <= i < |points| && points[i].id !in ids && points[i].number in numbers
  }

  function Selection(p: Project, chosen: Option<seq<Id>>): seq<Id> {
    if chosen.Some? then chosen.value else Ids(p.points)
  }

  predicate CanRenumber(p: Project, selected: seq<Id>, prefix: string, start: int, padding: int) {
    && start >= 0 && 1 <= padding <= 12 && selected != []
    && (forall k :: 0 <= k < |selected| ==> IndexOf(p.points, selected[k]).Some?)
    && !NumberClash(p.points, selected, Numbers(prefix, start, |selected|, padding))
  }

  function DoRenumber(p: Project, chosen: Option<seq<Id>>, prefix: string, start: int, padding: int,
                      now: Time): Outcome {
    var selected := Selection(p, chosen);
    if !CanRenumber(p, selected, prefix, start, padding) then Raised(p)
    else
      var numbers := Numbers(prefix, start, |selected|, padding);
      Done(Audited(p.(points := AssignNumbers(p.points, selected, numbers, now), stale := true), now, Renumbered))
  }

  function TypeRank(kind: PointType): int {
    match kind
    case ContourElevation => 0 case DesignGrade => 1 case Dimension => 2 case DrawingMetadata => 3
    case ExistingGround => 4 case MaterialThickness => 5 case RejectedType => 6 case ReviewRequiredType => 7
    case SlabElevation => 8 case SlopeAnnotation => 9 case UnknownNumeric => 10 case UtilityInvert => 11
    case UtilityRim => 12
  }

  function StatusRank(status: Status): int {
    match status
    case Approved => 0 case AutoHighConfidence => 1 case EditedAndApproved => 2
    case Rejected => 3 case ReviewRequired => 4 case Unreviewed => 5
  }

  function Rank(point: CivilPoint, key: CartKey): real {
    match key
    case ByPage => point.pageIndex as real
    case ByElevation => point.elevation
    case ByClass => TypeRank(point.kind) as real
    case ByStatus => StatusRank(point.status) as real
    case ByCreation => point.created as real
    case _ => 0.0
  }

  predicate CartLeq(a: CivilPoint, b: CivilPoint, key: CartKey) {
    if key.ByPointNumber? then TextLeq(a.ShownNumber(), b.ShownNumber())
    else Rank(a, key) < Rank(b, key) || (Rank(a, key) == Rank(b, key) && TextLeq(a.id.text, b.id.text))
  }

  /** Reversing keeps equal rows in their old order. */
  function CartOrder(key: CartKey, reverse: bool): (CivilPoint, CivilPoint) -> bool {
    (a: CivilPoint, b: CivilPoint) => if reverse then CartLeq(b, a, key) else CartLeq(a, b, key)
  }

  function DoSort(p: Project, key: CartKey, reverse: bool, now: Time): Outcome {
    if key.Unsupported? then Raised(p)
    else Done(Audited(p.(points := Sort(p.points, CartOrder(key, reverse))), now, CartSorted))
  }

  // ---- actions made of actions --------------------------------------------------------------------------

  /** One after the other, until one raises. */
  function ApproveAll(p: Project, ids: seq<Id>, now: Time): Outcome
    decreases |ids|
  {
    if ids == [] then Done(p)
    else
      match DoApprove(p, ids[0], now)
      case Raised(q) => Raised(q)
      case Done(q) => ApproveAll(q, ids[1..], now)
  }

  function DescriptionEdit(description: string): Edit {
    Edit(None, Keep, None, None, Some(description), None, None, None)
  }

  function DescribeAll(p: Project, ids: seq<Id>, description: string, now: Time): Outcome
    decreases |ids|
  {
    if ids == [] then Done(p)
    else
      match DoEdit(p, ids[0], DescriptionEdit(description), now)
      case Raised(q) => Raised(q)
      case Done(q) => DescribeAll(q, ids[1..], description, now)
  }

  function FoundPoint(p: Project, f: Found, now: Time): CivilPoint {
    CivilPoint(NextId(Ids(p.points)), "", f.pageIndex, f.pixel, None, f.elevation, f.kind, f.source,
               if f.kind.Terrain() && f.confident then AutoHighConfidence else ReviewRequired,
               DefaultDescription(f.kind, ""), "", "", "", now, now, [], None)
  }

  /** A candidate outside the crop or not usable is passed over. */
  function IngestOne(p: Project, f: Found, now: Time): Outcome {
    if !InCrop(p, f.center) || !f.usable then Done(p)
    else
      var point := FoundPoint(p, f, now);
      if !point.Ok() then Raised(p) else DoAddCandidate(p, point, now)
  }

  function IngestAll(p: Project, found: seq<Found>, now: Time): Outcome
    decreases |found|
  {
    if found == [] then Done(p)
    else
      match IngestOne(p, found[0], now)
      case Raised(q) => Raised(q)
      case Done(q) => IngestAll(q, found[1..], now)
  }

  function Logged(o: Outcome, now: Time, what: Happening): Outcome {
    if o.Done? then Done(Audited(o.project, now, what)) else o
  }

  /** The body of each action. */
  function Effect(p: Project, a: Action, now: Time): Outcome {
    match a
    case SetCrop(crop) => DoSetCrop(p, crop, now)
    case SetPlausibleRange(low, high) => DoSetRange(p, low, high, now)
    case ApplyCalibration(survey) => DoCalibrate(p, survey, now)
    case VerifyCurrentScale(known, length) => DoVerifyScale(p, known, length, now)
    case AddManualPoint(pageIndex, pixel, elevation, kind) => DoAddManual(p, pageIndex, pixel, elevation, kind, now)
    case AddCandidate(point) => DoAddCandidate(p, point, now)
    case EditPoint(id, edit) => DoEdit(p, id, edit, now)
    case ApprovePoint(id) => DoApprove(p, id, now)
    case RejectPoint(id) => DoReject(p, id, now)
    case MarkReviewRequired(id) => DoMark(p, id, now)
    case MergeDuplicate(keep, reject) => DoMerge(p, keep, reject, now)
    case DeleteManualPoint(id) => DoDelete(p, id, true, now)
    case DeleteCartPoint(id) => DoDelete(p, id, false, now)
    case RenumberPoints(ids, prefix, start, padding) => DoRenumber(p, ids, prefix, start, padding, now)
    case SortPoints(key, reverse) => DoSort(p, key, reverse, now)
    case BulkApprove(ids) => if ids == [] then Raised(p) else Logged(ApproveAll(p, ids, now), now, BulkApproved)
    case BulkChangeDescription(ids, description) =>
      if ids == [] then Raised(p) else Logged(DescribeAll(p, ids, description, now), now, BulkDescribed)
    case IngestCandidates(found) => Logged(IngestAll(p, found, now), now, BatchIngested)
  }
}
