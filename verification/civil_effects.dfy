/**
 * What each estimator action changes, field by field, and when it is refused
 * (src/screen2xyz_civil/workflow.py), in terms of the cart before and after.
 */
module CivilEffects {
  import opened Common
  import opened CivilActions
  import opened CivilLaws
  import opened CivilModel
  import opened PointIds
  import opened Sorting
  import opened Transform

  /** Between the bounds, and within the crop when there is one. */
  predicate Plausible(p: Project, elevation: real) { p.low <= elevation && elevation <= p.high }

  predicate WithinCrop(p: Project, at: Point) {
    p.crop.None?
    || (var c := p.crop.value; c.x <= at.x && at.x <= c.x + c.width && c.y <= at.y && at.y <= c.y + c.height)
  }

  predicate IsTerrain(kind: PointType) { kind == ExistingGround || kind == DesignGrade || kind == ContourElevation }

  predicate IsApproved(status: Status) { status == Approved || status == EditedAndApproved }

  /** The project with another cart, marked stale and with one more entry in its log. */
  function Changed(p: Project, points: seq<CivilPoint>, now: Time, what: Happening): Project {
    p.(points := points, stale := true, log := p.log + [Entry(now, what)], updated := now)
  }

  predicate KnownId(points: seq<CivilPoint>, id: Id) { exists i :: 0 <= i < |points| && points[i].id == id }

  /** `i` is the row of that id, the first if there were several. */
  predicate RowOf(points: seq<CivilPoint>, id: Id, i: nat) {
    i < |points| && points[i].id == id && forall j :: 0 <= j < i ==> points[j].id != id
  }

  lemma {:induction false} FirstRow(points: seq<CivilPoint>, id: Id, n: nat)
    requires n <= |points| && forall j :: 0 <= j < n ==> points[j].id != id
    ensures IndexFrom(points, id, n) == IndexOf(points, id)
  {
    if n > 0 {
      FirstRow(points, id, n - 1);
    }
  }

  lemma RowIs(points: seq<CivilPoint>, id: Id, i: nat)
    requires RowOf(points, id, i)
    ensures IndexOf(points, id) == Some(i)
  {
    FirstRow(points, id, i);
  }

  lemma {:induction false} IndexIsRow(points: seq<CivilPoint>, id: Id, n: nat)
    requires n <= |points| && (forall j :: 0 <= j < n ==> points[j].id != id) && IndexFrom(points, id, n).Some?
    ensures RowOf(points, id, IndexFrom(points, id, n).value)
    decreases |points| - n
  {
    if points[n].id != id {
      IndexIsRow(points, id, n + 1);
    }
  }

  lemma RowExists(points: seq<CivilPoint>, id: Id)
    ensures KnownId(points, id) <==> IndexOf(points, id).Some?
    ensures IndexOf(points, id).Some? ==> RowOf(points, id, IndexOf(points, id).value)
  {
    if IndexOf(points, id).Some? {
      IndexIsRow(points, id, 0);
    }
  }

  // ---- the page ----------------------------------------------------------------------------------

  /** A crop must lie on the page, as far as the page's size is known. */
  lemma SetCropEffect(p: Project, crop: Crop, now: Time)
    ensures var o := Effect(p, SetCrop(crop), now);
      && (o.Done? <==> (p.width == 0.0 || crop.x + crop.width <= p.width)
                       && (p.height == 0.0 || crop.y + crop.height <= p.height))
      && (o.Done? ==> o.project == Changed(p, p.points, now, CropSet).(crop := Some(crop)))
  {
  }

  lemma SetRangeEffect(p: Project, low: real, high: real, now: Time)
    ensures var o := Effect(p, SetPlausibleRange(low, high), now);
      && (o.Done? <==> low < high)
      && (o.Done? ==> o.project == Changed(p, p.points, now, RangeSet).(low := low, high := high))
  {
  }

  /** Refused exactly with the survey; else the old calibration joins the history and every point is placed anew. */
  lemma CalibrateEffect(p: Project, survey: Survey, now: Time)
    ensures var o := Effect(p, ApplyCalibration(survey), now);
      var revision := if p.calibration.Some? then p.calibration.value.revision + 1 else 1;
      && (o.Done? <==> BuildCalibration(revision, survey).Some?)
      && (o.Done? ==>
           var q := o.project;
           && q.calibration == BuildCalibration(revision, survey)
           && q.history == p.history + (if p.calibration.Some? then [p.calibration.value] else [])
           && q == Changed(p, q.points, now, CalibrationApplied).(calibration := q.calibration, history := q.history)
           && |q.points| == |p.points|
           && forall i :: 0 <= i < |p.points| ==>
                q.points[i] == p.points[i].(local := Some(ToLocal(p.points[i].pixel, q.calibration.value)),
                                            revision := Some(revision), updated := now))
  {
    hide ToLocal, VerifyScale;
  }

  /** The current scale can be checked again against any positive distance. */
  lemma VerifyScaleEffect(p: Project, known: real, length: real, now: Time)
    ensures var o := Effect(p, VerifyCurrentScale(known, length), now);
      && (o.Done? <==> p.calibration.Some? && known > 0.0)
      && (o.Done? ==>
           var c := p.calibration.value;
           var check := VerifyScale(known, length, c.scale);
           o.project == Changed(p, p.points, now, ScaleChecked).(calibration := Some(c.(check := check))))
  {
    if p.calibration.Some? {
      VerifiedMeans(known, length, p.calibration.value.scale);
    }
    hide VerifyScale;
  }

  // ---- one point ------------------------------------------------------------------------------------

  /** Where the calibration, if there is one, puts a pixel, and otherwise what was known before. */
  function PlacedLocal(p: Project, pixel: Point, otherwise: Option<Local>): Option<Local> {
    if p.calibration.Some? then Some(ToLocal(pixel, p.calibration.value)) else otherwise
  }

  function PlacedRevision(p: Project, otherwise: Option<int>): Option<int> {
    if p.calibration.Some? then Some(p.calibration.value.revision) else otherwise
  }

  /** A manual point comes last in the cart, unreviewed, under the next id, which is also its number. */
  lemma AddManualEffect(p: Project, pageIndex: int, pixel: Point, elevation: real, kind: PointType, now: Time)
    ensures var o := Effect(p, AddManualPoint(pageIndex, pixel, elevation, kind), now);
      && (o.Done? <==> IsTerrain(kind) && Plausible(p, elevation) && WithinCrop(p, pixel)
                       && pageIndex >= 0 && pixel.x >= 0.0 && pixel.y >= 0.0)
      && (o.Done? ==>
           && |o.project.points| == |p.points| + 1
           && o.project == Changed(p, p.points + [o.project.points[|p.points|]], now, PointAdded)
           && var q := o.project.points[|p.points|];
              && q.id == NextId(Ids(p.points)) && q.number == q.id.text
              && q.pageIndex == pageIndex && q.pixel == pixel && q.elevation == elevation && q.kind == kind
              && q.local == PlacedLocal(p, pixel, None) && q.revision == PlacedRevision(p, None)
              && q.source == Manual && q.status == Unreviewed
              && q.description == (if kind == ExistingGround then "MANUAL_EX"
                                   else if kind == DesignGrade then "MANUAL_DES" else "CONTOUR")
              && q.sheet == "" && q.revisionLabel == "" && q.notes == ""
              && q.created == now && q.updated == now && q.edits == [])
  {
    hide ToLocal, NextId, Ids, HasPrefix;
    NextIdIsFresh(Ids(p.points));
  }

  /** A candidate comes last, placed by the calibration; without a number it is numbered by its id. */
  lemma AddCandidateEffect(p: Project, point: CivilPoint, now: Time)
    ensures var o := Effect(p, AddCandidate(point), now);
      && (o.Done? <==> !KnownId(p.points, point.id) && !IsApproved(point.status) && WithinCrop(p, point.pixel))
      && (o.Done? ==>
           o.project == Changed(p, p.points + [point.(
             local := PlacedLocal(p, point.pixel, point.local), revision := PlacedRevision(p, point.revision),
             number := if point.number == "" then point.id.text else point.number)], now, CandidateAdded))
  {
    RowExists(p.points, point.id);
    hide ToLocal, IndexOf, KnownId;
  }

  predicate NumberFree(points: seq<CivilPoint>, id: Id, number: string) {
    forall j :: 0 <= j < |points| && points[j].id != id ==> points[j].number != number
  }

  /** Every part of an edit that is given must be acceptable. */
  predicate EditAllowed(p: Project, id: Id, edit: Edit) {
    && (edit.elevation.Some? ==> Plausible(p, edit.elevation.value))
    && edit.kind != UnknownKind
    && (edit.pixel.Some? ==> WithinCrop(p, edit.pixel.value))
    && (edit.number.Some? ==> edit.number.value != "" && NumberFree(p.points, id, edit.number.value))
  }

  function DescriptionAfter(before: CivilPoint, edit: Edit): string {
    if edit.description.Some? then edit.description.value
    else if edit.kind == To(ExistingGround) then "EX_GROUND"
    else if edit.kind == To(DesignGrade) then "DESIGN_GRADE"
    else if edit.kind == To(ContourElevation) then "CONTOUR"
    else before.description
  }

  /** Each of the eight fields is the new one where one is given, and the old one where not. */
  predicate FieldsEdited(before: CivilPoint, edit: Edit, v: View) {
    && v.elevation == (if edit.elevation.Some? then edit.elevation.value else before.elevation)
    && v.kind == (if edit.kind.To? then edit.kind.kind else before.kind)
    && v.pixel == (if edit.pixel.Some? then edit.pixel.value else before.pixel)
    && v.number == (if edit.number.Some? then edit.number.value else before.number)
    && v.description == DescriptionAfter(before, edit)
    && v.sheet == (if edit.sheet.Some? then edit.sheet.value else before.sheet)
    && v.revisionLabel == (if edit.revisionLabel.Some? then edit.revisionLabel.value else before.revisionLabel)
    && v.notes == (if edit.notes.Some? then edit.notes.value else before.notes)
  }

  function ViewOf(q: CivilPoint): View {
    View(q.elevation, q.kind, q.pixel, q.number, q.description, q.sheet, q.revisionLabel, q.notes)
  }

  /** The row after an edit: the fields, the place if it moved, back to review, with the change on record. */
  predicate RowEdited(p: Project, before: CivilPoint, edit: Edit, now: Time, after: CivilPoint) {
    && FieldsEdited(before, edit, ViewOf(after))
    && after.local == (if edit.pixel.Some? then PlacedLocal(p, edit.pixel.value, before.local) else before.local)
    && after.revision == (if edit.pixel.Some? then PlacedRevision(p, before.revision) else before.revision)
    && after.status == ReviewRequired && after.updated == now
    && after.edits == before.edits + [Change(now, ViewOf(before), before.status, ViewOf(after))]
    && after.id == before.id && after.pageIndex == before.pageIndex && after.source == before.source
    && after.created == before.created
  }

  lemma TakenIsNotFree(points: seq<CivilPoint>, id: Id, number: string)
    ensures NumberTaken(points, id, number) <==> !NumberFree(points, id, number)
  {
  }

  function AfterEdit(p: Project, before: CivilPoint, edit: Edit, now: Time): CivilPoint {
    var retyped := WithKind(WithElevation(before, edit.elevation), edit.kind);
    Reviewed(before, WithText(WithPixel(retyped, edit.pixel, p.calibration), edit), now)
  }

  lemma RowIsEdited(p: Project, before: CivilPoint, edit: Edit, now: Time)
    requires edit.kind != UnknownKind
    ensures RowEdited(p, before, edit, now, AfterEdit(p, before, edit, now))
  {
    hide ToLocal, WithPixel, WithKind, WithElevation;
    MovedFields(p, before, edit);
  }

  /** Elevation, class and place, before the texts. */
  lemma MovedFields(p: Project, before: CivilPoint, edit: Edit)
    requires edit.kind != UnknownKind
    ensures var q := WithPixel(WithKind(WithElevation(before, edit.elevation), edit.kind), edit.pixel, p.calibration);
      && q.elevation == (if edit.elevation.Some? then edit.elevation.value else before.elevation)
      && q.kind == (if edit.kind.To? then edit.kind.kind else before.kind)
      && q.pixel == (if edit.pixel.Some? then edit.pixel.value else before.pixel)
      && q.description == DescriptionAfter(before, edit.(description := None))
      && q.local == (if edit.pixel.Some? then PlacedLocal(p, edit.pixel.value, before.local) else before.local)
      && q.revision == (if edit.pixel.Some? then PlacedRevision(p, before.revision) else before.revision)
      && q.number == before.number && q.sheet == before.sheet && q.revisionLabel == before.revisionLabel
      && q.notes == before.notes && q.edits == before.edits && q.id == before.id
      && q.pageIndex == before.pageIndex && q.source == before.source && q.created == before.created
  {
    hide ToLocal;
  }

  lemma EditGoesThrough(p: Project, id: Id, edit: Edit, i: nat, now: Time)
    requires IndexOf(p.points, id) == Some(i)
    ensures var o := DoEdit(p, id, edit, now);
      && (o.Done? <==> EditAllowed(p, id, edit))
      && (o.Done? ==> o.project == Changed(p, p.points[i := AfterEdit(p, p.points[i], edit, now)], now, PointEdited))
  {
    hide ToLocal, NumberTaken, NumberFree, IndexOf, WithKind, WithElevation, WithPixel, WithText, Reviewed;
    if edit.number.Some? {
      TakenIsNotFree(p.points, id, edit.number.value);
    }
  }

  lemma EditEffect(p: Project, id: Id, edit: Edit, i: nat, now: Time)
    requires RowOf(p.points, id, i)
    ensures var o := Effect(p, EditPoint(id, edit), now);
      && (o.Done? <==> EditAllowed(p, id, edit))
      && (o.Done? ==>
           && |o.project.points| == |p.points|
           && o.project == Changed(p, p.points[i := o.project.points[i]], now, PointEdited)
           && RowEdited(p, p.points[i], edit, now, o.project.points[i]))
  {
    hide DoEdit, IndexOf, RowEdited, AfterEdit, EditAllowed;
    RowIs(p.points, id, i);
    EditGoesThrough(p, id, edit, i, now);
    if EditAllowed(p, id, edit) {
      AllowedIsKnownKind(p, id, edit);
      RowIsEdited(p, p.points[i], edit, now);
    }
  }

  lemma AllowedIsKnownKind(p: Project, id: Id, edit: Edit)
    requires EditAllowed(p, id, edit)
    ensures edit.kind != UnknownKind
  {
  }

  lemma ApproveEffect(p: Project, id: Id, i: nat, now: Time)
    requires RowOf(p.points, id, i)
    ensures var o, q := Effect(p, ApprovePoint(id), now), p.points[i];
      && (o.Done? <==> p.calibration.Some? && IsTerrain(q.kind) && Plausible(p, q.elevation) && q.local.Some?)
      && (o.Done? ==>
           o.project == Changed(p, p.points[i := q.(status := if q.edits == [] then Approved else EditedAndApproved,
             revision := Some(p.calibration.value.revision), updated := now)], now, PointApproved))
  {
    RowIs(p.points, id, i);
    hide IndexOf, RowOf;
  }

  lemma RejectEffect(p: Project, id: Id, i: nat, now: Time)
    requires RowOf(p.points, id, i)
    ensures Effect(p, RejectPoint(id), now)
         == Done(Changed(p, p.points[i := p.points[i].(status := Rejected, updated := now)], now, PointRejected))
  {
    RowIs(p.points, id, i);
    hide IndexOf, RowOf;
  }

  /** Sending a point back leaves no entry in the log. */
  lemma MarkEffect(p: Project, id: Id, i: nat, now: Time)
    requires RowOf(p.points, id, i)
    ensures Effect(p, MarkReviewRequired(id), now)
         == Done(p.(points := p.points[i := p.points[i].(status := ReviewRequired, updated := now)], stale := true,
                    updated := now))
  {
    RowIs(p.points, id, i);
    hide IndexOf, RowOf;
  }

  /** At most a twentieth of a metre apart. */
  predicate CloseBy(a: Local, b: Local) {
    var e, n := a.east - b.east, a.north - b.north;
    400.0 * (e * e + n * n) <= 1.0
  }

  lemma CloseByMeans(a: Local, b: Local)
    ensures TooFarApart(a, b) <==> !CloseBy(a, b)
  {
    var e, n := a.east - b.east, a.north - b.north;
    assert LocalSquare(a, b) == e * e + n * n;
    hide LocalSquare;
  }

  /** Merging rejects the one and leaves the other. */
  lemma MergeEffect(p: Project, keep: Id, reject: Id, i: nat, j: nat, now: Time)
    requires RowOf(p.points, keep, i) && RowOf(p.points, reject, j)
    ensures var o, a, b := Effect(p, MergeDuplicate(keep, reject), now), p.points[i].local, p.points[j].local;
      && (o.Done? <==> i != j && a.Some? && b.Some? && CloseBy(a.value, b.value))
      && (o.Done? ==> o == Effect(p, RejectPoint(reject), now))
  {
    RowIs(p.points, keep, i);
    RowIs(p.points, reject, j);
    if p.points[i].local.Some? && p.points[j].local.Some? {
      CloseByMeans(p.points[i].local.value, p.points[j].local.value);
    }
    hide IndexOf, TooFarApart, CloseBy;
  }

  /** Actions on an id that is not in the cart are refused. */
  lemma UnknownIdRefused(p: Project, id: Id, other: Id, edit: Edit, now: Time)
    requires !KnownId(p.points, id)
    ensures Effect(p, EditPoint(id, edit), now).Raised? && Effect(p, ApprovePoint(id), now).Raised?
    ensures Effect(p, RejectPoint(id), now).Raised? && Effect(p, MarkReviewRequired(id), now).Raised?
    ensures Effect(p, DeleteCartPoint(id), now).Raised? && Effect(p, DeleteManualPoint(id), now).Raised?
    ensures Effect(p, MergeDuplicate(id, other), now).Raised? && Effect(p, MergeDuplicate(other, id), now).Raised?
  {
    RowExists(p.points, id);
    hide IndexOf, KnownId, ToLocal;
  }

  /** One row less: the others are unchanged and in their old order. */
  predicate RowGone(before: seq<CivilPoint>, after: seq<CivilPoint>, i: nat) {
    && |after| + 1 == |before| && i < |before|
    && forall k :: 0 <= k < |after| ==> after[k] == before[if k < i then k else k + 1]
  }

  lemma DeleteEffect(p: Project, id: Id, i: nat, now: Time)
    requires RowOf(p.points, id, i)
    ensures var o := Effect(p, DeleteCartPoint(id), now);
      && o.Done? && RowGone(p.points, o.project.points, i)
      && o.project == Changed(p, o.project.points, now, CartPointDeleted)
      && (UniqueIds(p.points) ==> !KnownId(o.project.points, id))
    ensures var o := Effect(p, DeleteManualPoint(id), now);
      && (o.Done? <==> p.points[i].source == Manual)
      && (o.Done? ==>
           && RowGone(p.points, o.project.points, i)
           && o.project == Changed(p, o.project.points, now, ManualPointDeleted)
           && (UniqueIds(p.points) ==> !KnownId(o.project.points, id)))
  {
    RowIs(p.points, id, i);
    hide IndexOf;
  }

  // ---- the cart ---------------------------------------------------------------------------------------

  /** The place of the last mention of an id in a list, if any. */
  function LastMention(ids: seq<Id>, id: Id): Option<nat> {
    if ids == [] then None
    else if ids[|ids| - 1] == id then Some(|ids| - 1)
    else LastMention(ids[..|ids| - 1], id)
  }

  function NumberAt(prefix: string, start: nat, padding: nat, k: nat): string { prefix + Padded(start + k, padding) }

  lemma {:induction false} NumbersAt(prefix: string, start: nat, count: nat, padding: nat, k: nat)
    requires k < count
    ensures Numbers(prefix, start, count, padding)[k] == NumberAt(prefix, start, padding, k)
    decreases count
  {
    hide Padded;
    if k > 0 {
      NumbersAt(prefix, start + 1, count - 1, padding, k - 1);
    }
  }

  /** The row as it is numbered: by the last mention of its id, or not at all. */
  function NumberedRow(point: CivilPoint, ids: seq<Id>, numbers: seq<string>, now: Time): CivilPoint
    requires |ids| == |numbers|
  {
    match LastMention(ids, point.id)
    case None => point
    case Some(k) => if k < |numbers| then point.(number := numbers[k], updated := now) else point
  }

  lemma {:induction false} LastMentionHead(ids: seq<Id>, id: Id)
    requires ids != []
    ensures LastMention(ids, id)
         == match LastMention(ids[1..], id)
            case Some(k) => Some(k + 1)
            case None => if ids[0] == id then Some(0) else None
  {
    var n := |ids| - 1;
    if n > 0 && ids[n] != id {
      LastMentionHead(ids[..n], id);
      assert ids[..n][1..] == ids[1..][..n - 1];
    }
  }

  lemma {:induction false} MentionBelow(ids: seq<Id>, id: Id)
    ensures LastMention(ids, id).Some? ==> LastMention(ids, id).value < |ids| && ids[LastMention(ids, id).value] == id
    ensures LastMention(ids, id).None? ==> id !in ids
  {
    if ids != [] {
      MentionBelow(ids[..|ids| - 1], id);
      assert ids == ids[..|ids| - 1] + [ids[|ids| - 1]];
    }
  }

  lemma NumberedHead(point: CivilPoint, ids: seq<Id>, numbers: seq<string>, now: Time)
    requires |ids| == |numbers| && ids != []
    ensures NumberedRow(point, ids, numbers, now)
         == NumberedRow(if point.id == ids[0] then point.(number := numbers[0], updated := now) else point,
                        ids[1..], numbers[1..], now)
  {
    LastMentionHead(ids, point.id);
    MentionBelow(ids[1..], point.id);
    MentionBelow(ids, point.id);
  }

  lemma {:induction false} AssignedRows(points: seq<CivilPoint>, ids: seq<Id>, numbers: seq<string>, now: Time, j: nat)
    requires |ids| == |numbers| && UniqueIds(points) && j < |points|
    requires forall k :: 0 <= k < |ids| ==> KnownId(points, ids[k])
    ensures AssignNumbers(points, ids, numbers, now)[j] == NumberedRow(points[j], ids, numbers, now)
    decreases |ids|
  {
    if ids != [] {
      RowExists(points, ids[0]);
      assert KnownId(points, ids[0]);
      var i := IndexOf(points, ids[0]).value;
      var rest := points[i := points[i].(number := numbers[0], updated := now)];
      assert points[j].id == ids[0] <==> j == i;
      forall k | 0 <= k < |ids[1..]|
        ensures KnownId(rest, ids[1..][k])
      {
        StillKnown(points, i, rest[i], ids[k + 1]);
      }
      hide NumberedRow, IndexOf, KnownId;
      AssignedRows(rest, ids[1..], numbers[1..], now, j);
      NumberedHead(points[j], ids, numbers, now);
    }
  }

  lemma StillKnown(points: seq<CivilPoint>, i: nat, point: CivilPoint, id: Id)
    requires i < |points| && point.id == points[i].id && KnownId(points, id)
    ensures KnownId(points[i := point], id)
  {
    var k :| 0 <= k < |points| && points[k].id == id;
    assert points[i := point][k].id == id;
  }

  /** What may be renumbered: known points, and no number that a point left out already has. */
  predicate RenumberAllowed(p: Project, selected: seq<Id>, prefix: string, start: int, padding: int) {
    && start >= 0 && 1 <= padding <= 12 && selected != []
    && (forall k :: 0 <= k < |selected| ==> KnownId(p.points, selected[k]))
    && forall j, k :: 0 <= j < |p.points| && 0 <= k < |selected| && p.points[j].id !in selected ==>
         p.points[j].number != NumberAt(prefix, start, padding, k)
  }

  lemma ClashMeans(points: seq<CivilPoint>, selected: seq<Id>, prefix: string, start: nat, padding: nat)
    ensures NumberClash(points, selected, Numbers(prefix, start, |selected|, padding)) <==>
      exists j, k :: 0 <= j < |points| && 0 <= k < |selected| && points[j].id !in selected
        && points[j].number == NumberAt(prefix, start, padding, k)
  {
    hide NumberAt, Numbers;
    var numbers := Numbers(prefix, start, |selected|, padding);
    forall k | 0 <= k < |selected|
      ensures numbers[k] == NumberAt(prefix, start, padding, k)
    {
      NumbersAt(prefix, start, |selected|, padding, k);
    }
  }

  lemma CanRenumberMeans(p: Project, selected: seq<Id>, prefix: string, start: int, padding: int)
    ensures CanRenumber(p, selected, prefix, start, padding) <==> RenumberAllowed(p, selected, prefix, start, padding)
  {
    hide NumberAt, Numbers, NumberClash, IndexOf, KnownId;
    forall k | 0 <= k < |selected|
      ensures IndexOf(p.points, selected[k]).Some? <==> KnownId(p.points, selected[k])
    {
      RowExists(p.points, selected[k]);
    }
    if start >= 0 && padding >= 0 {
      ClashMeans(p.points, selected, prefix, start, padding);
    }
  }

  /** The k-th selected point gets the k-th number; nothing else changes. */
  lemma RenumberEffect(p: Project, chosen: Option<seq<Id>>, prefix: string, start: int, padding: int, now: Time)
    requires UniqueIds(p.points)
    ensures var o := Effect(p, RenumberPoints(chosen, prefix, start, padding), now);
      var selected := if chosen.Some? then chosen.value else Ids(p.points);
      && (o.Done? <==> RenumberAllowed(p, selected, prefix, start, padding))
      && (o.Done? ==>
           && o.project == Changed(p, o.project.points, now, Renumbered) && |o.project.points| == |p.points|
           && forall j :: 0 <= j < |p.points| ==>
                var k := LastMention(selected, p.points[j].id);
                o.project.points[j] == if k.None? then p.points[j]
                  else p.points[j].(number := NumberAt(prefix, start, padding, k.value), updated := now))
  {
    hide NumberAt, Numbers, CanRenumber, RenumberAllowed, AssignNumbers, KnownId;
    var selected := Selection(p, chosen);
    CanRenumberMeans(p, selected, prefix, start, padding);
    if CanRenumber(p, selected, prefix, start, padding) {
      AllowedIsKnown(p, selected, prefix, start, padding);
      var numbers := Numbers(prefix, start, |selected|, padding);
      forall j | 0 <= j < |p.points|
        ensures var k := LastMention(selected, p.points[j].id);
          AssignNumbers(p.points, selected, numbers, now)[j] == if k.None? then p.points[j]
            else p.points[j].(number := NumberAt(prefix, start, padding, k.value), updated := now)
      {
        AssignedRows(p.points, selected, numbers, now, j);
        var k := LastMention(selected, p.points[j].id);
        MentionBelow(selected, p.points[j].id);
        if k.Some? {
          NumbersAt(prefix, start, |selected|, padding, k.value);
        }
      }
    }
  }

  lemma AllowedIsKnown(p: Project, selected: seq<Id>, prefix: string, start: int, padding: int)
    requires RenumberAllowed(p, selected, prefix, start, padding)
    ensures start >= 0 && padding >= 0 && forall k :: 0 <= k < |selected| ==> KnownId(p.points, selected[k])
  {
  }

  // ---- sorting the cart ----------------------------------------------------------------------------------

  /** The names in use, which are what the cart is sorted by. */
  function KindName(kind: PointType): string {
    match kind
    case ContourElevation => "CONTOUR_ELEVATION"
    case DesignGrade => "DESIGN_GRADE"
    case Dimension => "DIMENSION"
    case DrawingMetadata => "DRAWING_METADATA"
    case ExistingGround => "EXISTING_GROUND"
    case MaterialThickness => "MATERIAL_THICKNESS"
    case RejectedType => "REJECTED"
    case ReviewRequiredType => "REVIEW_REQUIRED"
    case SlabElevation => "SLAB_ELEVATION"
    case SlopeAnnotation => "SLOPE_ANNOTATION"
    case UnknownNumeric => "UNKNOWN_NUMERIC"
    case UtilityInvert => "UTILITY_INVERT"
    case UtilityRim => "UTILITY_RIM"
  }

  function StatusName(status: Status): string {
    match status
    case Approved => "APPROVED"
    case AutoHighConfidence => "AUTO_HIGH_CONFIDENCE"
    case EditedAndApproved => "EDITED_AND_APPROVED"
    case Rejected => "REJECTED"
    case ReviewRequired => "REVIEW_REQUIRED"
    case Unreviewed => "UNREVIEWED"
  }

  /** Texts that differ first at `k`. */
  lemma DifferFirst(a: string, b: string, k: nat)
    requires k < |a| && k < |b| && a[..k] == b[..k] && a[k] < b[k]
    ensures InDictionaryOrder(a, b) && !InDictionaryOrder(b, a)
  {
    assert DifferAt(a, b, k);
    forall j | DifferAt(b, a, j)
      ensures j == k
    {
      SameDifference(a, b, k, j);
    }
  }

  lemma SameDifference(a: string, b: string, k: nat, j: nat)
    requires DifferAt(a, b, k) && DifferAt(b, a, j)
    ensures j == k
  {
    if j < k {
      SameBelow(a, b, k, j);
    } else if k < j {
      SameBelow(b, a, j, k);
    }
  }

  lemma SameBelow(a: string, b: string, k: nat, j: nat)
    requires j < k <= |a| && k <= |b| && a[..k] == b[..k]
    ensures a[j] == b[j]
  {
    assert a[j] == a[..k][j] && b[j] == b[..k][j];
  }

  /** A chain of names, each before the next. */
  predicate Ascending(names: seq<string>) {
    forall i :: 0 <= i < |names| - 1 ==> TextLeq(names[i], names[i + 1]) && !TextLeq(names[i + 1], names[i])
  }

  lemma {:induction false} ChainOrder(names: seq<string>, i: nat, j: nat)
    requires Ascending(names) && i < j < |names|
    ensures TextLeq(names[i], names[j]) && !TextLeq(names[j], names[i])
    decreases j - i
  {
    hide TextLeq;
    if j > i + 1 {
      ChainOrder(names, i, j - 1);
      StrictlyBefore(names[i], names[j - 1], names[j]);
    }
  }

  lemma StrictlyBefore(a: string, b: string, c: string)
    requires TextLeq(a, b) && !TextLeq(b, a) && TextLeq(b, c) && !TextLeq(c, b)
    ensures TextLeq(a, c) && !TextLeq(c, a)
  {
    hide TextLeq;
    TextTransitive(a, b, c);
    if TextLeq(c, a) {
      TextTransitive(c, a, b);
    }
  }

  function KindNames(): seq<string> {
    ["CONTOUR_ELEVATION", "DESIGN_GRADE", "DIMENSION", "DRAWING_METADATA", "EXISTING_GROUND", "MATERIAL_THICKNESS",
     "REJECTED", "REVIEW_REQUIRED", "SLAB_ELEVATION", "SLOPE_ANNOTATION", "UNKNOWN_NUMERIC", "UTILITY_INVERT",
     "UTILITY_RIM"]
  }

  function StatusNames(): seq<string> {
    ["APPROVED", "AUTO_HIGH_CONFIDENCE", "EDITED_AND_APPROVED", "REJECTED", "REVIEW_REQUIRED", "UNREVIEWED"]
  }

  /** The first difference of two texts, below the given length. */
  lemma Before(a: string, b: string, k: nat)
    requires k < |a| && k < |b| && a[..k] == b[..k] && a[k] < b[k]
    ensures TextLeq(a, b) && !TextLeq(b, a)
  {
    DifferFirst(a, b, k);
    TextLeqMeans(a, b);
    TextLeqMeans(b, a);
  }

  lemma KindNamesAscend()
    ensures Ascending(KindNames())
  {
    hide TextLeq;
    var n := KindNames();
    Before(n[0], n[1], 0);
    Before(n[1], n[2], 1);
    Before(n[2], n[3], 1);
    Before(n[3], n[4], 0);
    Before(n[4], n[5], 0);
    Before(n[5], n[6], 0);
    Before(n[6], n[7], 2);
    Before(n[7], n[8], 0);
    Before(n[8], n[9], 2);
    Before(n[9], n[10], 0);
    Before(n[10], n[11], 1);
    Before(n[11], n[12], 8);
  }

  lemma StatusNamesAscend()
    ensures Ascending(StatusNames())
  {
    hide TextLeq;
    var n := StatusNames();
    Before(n[0], n[1], 1);
    Before(n[1], n[2], 0);
    Before(n[2], n[3], 0);
    Before(n[3], n[4], 2);
    Before(n[4], n[5], 0);
  }

  lemma SameIsBefore(a: string)
    ensures TextLeq(a, a)
  {
    TextTotal(a, a);
  }

  lemma KindNameAt(a: PointType)
    ensures 0 <= TypeRank(a) < |KindNames()| && KindNames()[TypeRank(a)] == KindName(a)
  {
  }

  lemma StatusNameAt(a: Status)
    ensures 0 <= StatusRank(a) < |StatusNames()| && StatusNames()[StatusRank(a)] == StatusName(a)
  {
  }

  lemma RanksApart(a: PointType, b: PointType, s: Status, t: Status)
    ensures TypeRank(a) == TypeRank(b) ==> a == b
    ensures StatusRank(s) == StatusRank(t) ==> s == t
  {
  }

  lemma ClassRanks(a: PointType, b: PointType)
    ensures TypeRank(a) <= TypeRank(b) <==> TextLeq(KindName(a), KindName(b))
  {
    hide TextLeq, KindNames, KindName, TypeRank, Ascending;
    KindNamesAscend();
    KindNameAt(a);
    KindNameAt(b);
    var i, j := TypeRank(a), TypeRank(b);
    SameIsBefore(KindName(a));
    if i < j {
      ChainOrder(KindNames(), i, j);
    } else if j < i {
      ChainOrder(KindNames(), j, i);
    }
  }

  lemma StatusRanks(a: Status, b: Status)
    ensures StatusRank(a) <= StatusRank(b) <==> TextLeq(StatusName(a), StatusName(b))
  {
    hide TextLeq, StatusNames, StatusName, StatusRank, Ascending;
    StatusNamesAscend();
    StatusNameAt(a);
    StatusNameAt(b);
    var i, j := StatusRank(a), StatusRank(b);
    SameIsBefore(StatusName(a));
    if i < j {
      ChainOrder(StatusNames(), i, j);
    } else if j < i {
      ChainOrder(StatusNames(), j, i);
    }
  }

  /** The order of the cart under each key: the key first, the id among equals; numbers alone by themselves. */
  ghost predicate InCartOrder(a: CivilPoint, b: CivilPoint, key: CartKey) {
    match key
    case ByPointNumber =>
      InDictionaryOrder(if a.number == "" then a.id.text else a.number, if b.number == "" then b.id.text else b.number)
    case ByPage => a.pageIndex < b.pageIndex || (a.pageIndex == b.pageIndex && InDictionaryOrder(a.id.text, b.id.text))
    case ByElevation =>
      a.elevation < b.elevation || (a.elevation == b.elevation && InDictionaryOrder(a.id.text, b.id.text))
    case ByClass =>
      if a.kind == b.kind then InDictionaryOrder(a.id.text, b.id.text)
      else InDictionaryOrder(KindName(a.kind), KindName(b.kind))
    case ByStatus =>
      if a.status == b.status then InDictionaryOrder(a.id.text, b.id.text)
      else InDictionaryOrder(StatusName(a.status), StatusName(b.status))
    case ByCreation => a.created < b.created || (a.created == b.created && InDictionaryOrder(a.id.text, b.id.text))
    case Unsupported => true
  }

  lemma CartOrderMeans(a: CivilPoint, b: CivilPoint, key: CartKey)
    requires key != Unsupported
    ensures CartLeq(a, b, key) <==> InCartOrder(a, b, key)
  {
    hide TextLeq, InDictionaryOrder, KindName, StatusName, TypeRank, StatusRank;
    TextLeqMeans(a.id.text, b.id.text);
    RanksApart(a.kind, b.kind, a.status, b.status);
    match key
    case ByPointNumber => TextLeqMeans(a.ShownNumber(), b.ShownNumber());
    case ByClass =>
      ClassRanks(a.kind, b.kind);
      ClassRanks(b.kind, a.kind);
      TextLeqMeans(KindName(a.kind), KindName(b.kind));
    case ByStatus =>
      StatusRanks(a.status, b.status);
      StatusRanks(b.status, a.status);
      TextLeqMeans(StatusName(a.status), StatusName(b.status));
    case _ =>
  }

  /** Sorting permutes the rows into that order, or into its reverse, and does not mark the exports stale. */
  lemma SortEffect(p: Project, key: CartKey, reverse: bool, now: Time)
    ensures var o := Effect(p, SortPoints(key, reverse), now);
      && (o.Done? <==> key != Unsupported)
      && (o.Done? ==>
           var points := o.project.points;
           && o.project == p.(points := points, log := p.log + [Entry(now, CartSorted)], updated := now)
           && multiset(points) == multiset(p.points) && |points| == |p.points|
           && (forall i, j :: 0 <= i < j < |points| ==>
                if reverse then InCartOrder(points[j], points[i], key) else InCartOrder(points[i], points[j], key)))
  {
    hide Sort, CartLeq, InCartOrder;
    if key != Unsupported {
      var leq := CartOrder(key, reverse);
      CartOrderIsPreorder(key, reverse);
      SortSorted(p.points, leq);
      var r := Sort(p.points, leq);
      forall i, j | 0 <= i < j < |r|
        ensures if reverse then InCartOrder(r[j], r[i], key) else InCartOrder(r[i], r[j], key)
      {
        assert leq(r[i], r[j]);
        CartOrderMeans(r[i], r[j], key);
        CartOrderMeans(r[j], r[i], key);
      }
    }
  }

  // ---- several points at once -----------------------------------------------------------------------------

  /** Approving the listed points: refused for an empty list, else exactly if each of them may be approved. */
  lemma BulkApproveEffect(p: Project, ids: seq<Id>, now: Time)
    ensures var o := Effect(p, BulkApprove(ids), now);
      && (o.Done? <==> ids != [] && forall k :: 0 <= k < |ids| ==> Effect(p, ApprovePoint(ids[k]), now).Done?)
      && (o.Done? && UniqueIds(p.points) ==>
           && OnlyThese(p.points, o.project.points, ids)
           && forall j :: 0 <= j < |p.points| && p.points[j].id in ids ==> IsApproved(o.project.points[j].status))
  {
    hide ApproveAll, DoApprove, UniqueIds, OnlyThese;
    BulkApprovalExactly(p, ids, now);
    forall k | 0 <= k < |ids|
      ensures Approvable(p, ids[k]) <==> DoApprove(p, ids[k], now).Done?
    {
      ApprovableMeans(p, ids[k], now);
    }
    if ApproveAll(p, ids, now).Done? && UniqueIds(p.points) {
      BulkApprovalEffect(p, ids, now);
      SameRows(p.points, ApproveAll(p, ids, now).project.points, ids);
    }
  }

  lemma SameRows(before: seq<CivilPoint>, after: seq<CivilPoint>, ids: seq<Id>)
    requires OnlyThese(before, after, ids)
    ensures |after| == |before| && forall i :: 0 <= i < |before| ==> after[i].id == before[i].id
  {
  }

  lemma ApprovableMeans(p: Project, id: Id, now: Time)
    ensures Approvable(p, id) <==> DoApprove(p, id, now).Done?
  {
  }

  /** Rows with one id described anew, in the way an edit does it. */
  predicate Described(before: CivilPoint, description: string, after: CivilPoint) {
    && after.description == description && after.status == ReviewRequired
    && after.id == before.id && after.number == before.number && after.pixel == before.pixel
    && after.kind == before.kind
    && after.elevation == before.elevation && after.local == before.local && after.revision == before.revision
    && after.pageIndex == before.pageIndex && after.source == before.source && after.created == before.created
    && after.sheet == before.sheet && after.revisionLabel == before.revisionLabel && after.notes == before.notes
  }

  lemma DescriptionAllowed(p: Project, id: Id, description: string)
    ensures EditAllowed(p, id, DescriptionEdit(description))
  {
  }

  lemma DescribedRow(p: Project, before: CivilPoint, description: string, now: Time, after: CivilPoint)
    requires RowEdited(p, before, DescriptionEdit(description), now, after)
    ensures Described(before, description, after)
  {
  }

  lemma {:induction false} DescribeAllEffect(p: Project, ids: seq<Id>, description: string, now: Time)
    requires UniqueIds(p.points)
    ensures var o := DescribeAll(p, ids, description, now);
      && (o.Done? <==> forall k :: 0 <= k < |ids| ==> KnownId(p.points, ids[k]))
      && (o.Done? ==>
           && OnlyThese(p.points, o.project.points, ids)
           && forall j :: 0 <= j < |p.points| && p.points[j].id in ids ==>
                |o.project.points| == |p.points| && Described(p.points[j], description, o.project.points[j]))
    decreases |ids|
  {
    hide RowEdited, Described, KnownId, RowOf, EditAllowed, DoEdit;
    if ids != [] {
      var id := ids[0];
      RowExists(p.points, id);
      if KnownId(p.points, id) {
        var i := IndexOf(p.points, id).value;
        hide IndexOf;
        EditEffect(p, id, DescriptionEdit(description), i, now);
        DescriptionAllowed(p, id, description);
        var q := DoEdit(p, id, DescriptionEdit(description), now).project;
        DescribedRow(p, p.points[i], description, now, q.points[i]);
        DescribedIds(p.points[i], description, q.points[i]);
        DescribeStep(p.points, i, q.points[i]);
        forall k | 0 <= k < |ids[1..]|
          ensures KnownId(q.points, ids[1..][k]) <==> KnownId(p.points, ids[k + 1])
        {
          KnownAfter(p.points, i, q.points[i], ids[k + 1]);
        }
        DescribeAllEffect(q, ids[1..], description, now);
        DescribeRest(p.points, q.points, ids, description, i, DescribeAll(q, ids[1..], description, now));
      } else {
        UnknownIdRefused(p, id, id, DescriptionEdit(description), now);
      }
    }
  }

  lemma DescribedIds(before: CivilPoint, description: string, after: CivilPoint)
    requires Described(before, description, after)
    ensures after.id == before.id
  {
  }

  lemma DescribeStep(points: seq<CivilPoint>, i: nat, point: CivilPoint)
    requires UniqueIds(points) && i < |points| && point.id == points[i].id
    ensures UniqueIds(points[i := point]) && OnlyThese(points, points[i := point], [point.id])
  {
  }

  lemma KnownAfter(points: seq<CivilPoint>, i: nat, point: CivilPoint, id: Id)
    requires i < |points| && point.id == points[i].id
    ensures KnownId(points[i := point], id) <==> KnownId(points, id)
  {
    if KnownId(points, id) {
      StillKnown(points, i, point, id);
    }
    if KnownId(points[i := point], id) {
      StillKnown(points[i := point], i, points[i], id);
      assert points[i := point][i := points[i]] == points;
    }
  }

  lemma DescribeRest(a: seq<CivilPoint>, b: seq<CivilPoint>, ids: seq<Id>, description: string, i: nat, o: Outcome)
    requires ids != [] && UniqueIds(a) && i < |a| && a[i].id == ids[0] && |b| == |a| && b == a[i := b[i]]
    requires Described(a[i], description, b[i]) && OnlyThese(a, b, [ids[0]])
    requires o.Done? ==>
      && OnlyThese(b, o.project.points, ids[1..])
      && forall j :: 0 <= j < |b| && b[j].id in ids[1..] ==>
           |o.project.points| == |b| && Described(b[j], description, o.project.points[j])
    ensures o.Done? ==>
      && OnlyThese(a, o.project.points, ids)
      && forall j :: 0 <= j < |a| && a[j].id in ids ==>
           |o.project.points| == |a| && Described(a[j], description, o.project.points[j])
  {
    if o.Done? {
      var c := o.project.points;
      OnlyTheseTrans(a, b, c, ids);
      forall j | 0 <= j < |a| && a[j].id in ids
        ensures Described(a[j], description, c[j])
      {
        assert ids == [ids[0]] + ids[1..];
        if a[j].id == ids[0] {
          assert j == i;
        }
      }
    }
  }

  /** Describing the listed points anew: refused for an empty list or an unknown id; no other field is lost. */
  lemma BulkDescribeEffect(p: Project, ids: seq<Id>, description: string, now: Time)
    requires UniqueIds(p.points)
    ensures var o := Effect(p, BulkChangeDescription(ids, description), now);
      && (o.Done? <==> ids != [] && forall k :: 0 <= k < |ids| ==> KnownId(p.points, ids[k]))
      && (o.Done? ==>
           && OnlyThese(p.points, o.project.points, ids)
           && forall j :: 0 <= j < |p.points| && p.points[j].id in ids ==>
                |o.project.points| == |p.points| && Described(p.points[j], description, o.project.points[j]))
  {
    hide DescribeAll, Described, KnownId, OnlyThese;
    DescribeAllEffect(p, ids, description, now);
  }

  // ---- ingesting text candidates ------------------------------------------------------------------------------

  /** Inside the crop and usable; the others are passed over. */
  function TakenIn(p: Project): Found -> bool { (f: Found) => f.usable && WithinCrop(p, f.center) }

  /** The row a candidate becomes. */
  predicate RowOfFound(p: Project, f: Found, q: CivilPoint, now: Time) {
    && q.number == q.id.text && q.pageIndex == f.pageIndex && q.pixel == f.pixel && q.elevation == f.elevation
    && q.kind == f.kind && q.source == f.source
    && q.local == PlacedLocal(p, f.pixel, None) && q.revision == PlacedRevision(p, None)
    && q.status == (if IsTerrain(f.kind) && f.confident then AutoHighConfidence else ReviewRequired)
    && q.description == (if f.kind == ExistingGround then "EX_GROUND"
                         else if f.kind == DesignGrade then "DESIGN_GRADE"
                         else if f.kind == ContourElevation then "CONTOUR" else "")
    && q.sheet == "" && q.revisionLabel == "" && q.notes == ""
    && q.created == now && q.updated == now && q.edits == []
  }

  predicate SameFrame(p: Project, q: Project) { q.crop == p.crop && q.calibration == p.calibration }

  lemma IngestOneEffect(p: Project, f: Found, now: Time)
    ensures var o := IngestOne(p, f, now);
      && (!TakenIn(p)(f) ==> o == Done(p))
      && (TakenIn(p)(f) && o.Done? ==>
           && SameFrame(p, o.project) && |o.project.points| == |p.points| + 1
           && o.project.points == p.points + [o.project.points[|p.points|]]
           && o.project.points[|p.points|].id == NextId(Ids(p.points))
           && RowOfFound(p, f, o.project.points[|p.points|], now))
  {
    NextIdIsFresh(Ids(p.points));
    hide ToLocal, NextId, Ids, IndexOf, HasPrefix;
  }

  /** The candidates that are taken become the last rows of the cart, one each and in their order. */
  lemma {:induction false} IngestAllEffect(p: Project, found: seq<Found>, now: Time)
    requires IngestAll(p, found, now).Done?
    ensures var q, taken := IngestAll(p, found, now).project, Filter(found, TakenIn(p));
      && SameFrame(p, q) && |q.points| == |p.points| + |taken| && p.points <= q.points
      && forall k :: 0 <= k < |taken| ==> RowOfFound(p, taken[k], q.points[|p.points| + k], now)
    decreases |found|
  {
    hide IngestOne, RowOfFound;
    if found != [] {
      var f := found[0];
      IngestOneEffect(p, f, now);
      var p1 := IngestOne(p, f, now).project;
      IngestAllEffect(p1, found[1..], now);
      SameTaken(p, p1, found[1..]);
      var q, rest := IngestAll(p1, found[1..], now).project, Filter(found[1..], TakenIn(p));
      forall k | 0 <= k < |rest|
        ensures RowOfFound(p, rest[k], q.points[|p1.points| + k], now)
      {
        SameRow(p, p1, rest[k], q.points[|p1.points| + k], now);
      }
      if TakenIn(p)(f) {
        assert Filter(found, TakenIn(p)) == [f] + rest;
        assert q.points[|p.points|] == p1.points[|p.points|];
      }
    }
  }

  lemma {:induction false} SameTaken(p: Project, q: Project, found: seq<Found>)
    requires SameFrame(p, q)
    ensures Filter(found, TakenIn(q)) == Filter(found, TakenIn(p))
  {
    if found != [] {
      SameTaken(p, q, found[1..]);
      assert TakenIn(q)(found[0]) == TakenIn(p)(found[0]);
    }
  }

  lemma SameRow(p: Project, q: Project, f: Found, row: CivilPoint, now: Time)
    requires SameFrame(p, q) && RowOfFound(q, f, row, now)
    ensures RowOfFound(p, f, row, now)
  {
    hide ToLocal;
  }

  lemma IngestEffect(p: Project, found: seq<Found>, now: Time)
    ensures var o, taken := Effect(p, IngestCandidates(found), now), Filter(found, TakenIn(p));
      o.Done? ==>
        && |o.project.points| == |p.points| + |taken| && p.points <= o.project.points
        && forall k :: 0 <= k < |taken| ==> RowOfFound(p, taken[k], o.project.points[|p.points| + k], now)
  {
    hide IngestAll, RowOfFound, Filter;
    if IngestAll(p, found, now).Done? {
      IngestAllEffect(p, found, now);
    }
  }

  // ---- the exported list -----------------------------------------------------------------------------------------

  /** Exactly the approved terrain points with a place are exported. */
  lemma ExportedExactly(points: seq<CivilPoint>, c: CivilPoint)
    ensures c in ApprovedPoints(points) <==>
      c in points && IsApproved(c.status) && IsTerrain(c.kind) && c.local.Some?
  {
    hide ApprovedPoints;
    ApprovedMembers(points);
  }

  /** They are listed by number, those without a number by id, and equal numbers by id. */
  lemma ExportedInOrder(points: seq<CivilPoint>, i: nat, j: nat)
    requires i < j < |ApprovedPoints(points)|
    ensures var a, b := ApprovedPoints(points)[i], ApprovedPoints(points)[j];
      var m, n := if a.number == "" then a.id.text else a.number, if b.number == "" then b.id.text else b.number;
      if m == n then InDictionaryOrder(a.id.text, b.id.text) else InDictionaryOrder(m, n)
  {
    hide Sort, Filter, InDictionaryOrder, TextLeq;
    ByNumberIsPreorder();
    SortSorted(Filter(points, IsExportable()), ByNumber());
    var a, b := ApprovedPoints(points)[i], ApprovedPoints(points)[j];
    assert ByNumber()(a, b);
    TextLeqMeans(a.ShownNumber(), b.ShownNumber());
    TextLeqMeans(a.id.text, b.id.text);
  }
}
