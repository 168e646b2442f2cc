/** What every successful action keeps: coherence of the project and freshness of its exports. */
module CivilLaws {
  import opened Common
  import opened CivilActions
  import opened CivilModel
  import opened PointIds
  import opened Sorting
  import opened Transform

  /** With a calibration set, a point sits where that calibration puts it. */
  predicate PlacedBy(point: CivilPoint, calibration: Option<Calibration>) {
    calibration.Some? ==>
      point.local == Some(ToLocal(point.pixel, calibration.value)) && point.revision == Some(calibration.value.revision)
  }

  predicate Sound(point: CivilPoint) {
    point.status.IsApproved() ==> point.kind.Terrain() && point.local.Some?
  }

  /** Earlier calibrations are numbered 1..n, the current one n + 1. */
  predicate RevisionsCount(history: seq<Calibration>, calibration: Option<Calibration>) {
    && (forall i :: 0 <= i < |history| ==> history[i].revision == i + 1)
    && match calibration
       case None => history == []
       case Some(c) => c.revision == |history| + 1
  }

  predicate Keeps(point: CivilPoint, calibration: Option<Calibration>) {
    point.Ok() && PlacedBy(point, calibration) && Sound(point)
  }

  predicate PointsCohere(points: seq<CivilPoint>, calibration: Option<Calibration>) {
    UniqueIds(points) && forall i :: 0 <= i < |points| ==> Keeps(points[i], calibration)
  }

  predicate FrameCoheres(low: real, high: real, crop: Option<Crop>, calibration: Option<Calibration>,
                         history: seq<Calibration>) {
    && low < high && (crop.Some? ==> crop.value.Ok())
    && (calibration.Some? ==> Usable(calibration.value))
    && (forall i :: 0 <= i < |history| ==> Usable(history[i]))
    && RevisionsCount(history, calibration)
  }

  predicate Coherent(p: Project) {
    FrameCoheres(p.low, p.high, p.crop, p.calibration, p.history) && PointsCohere(p.points, p.calibration)
  }

  /** Exports not marked stale still show the approved points as they are. */
  predicate Fresh(p: Project) {
    !p.stale ==> p.exports != [] && p.exports[|p.exports| - 1].approved == ApprovedPoints(p.points)
  }

  /** A move to a negative pixel, which only a set crop refuses. */
  predicate MovesOffPage(a: Action) {
    a.EditPoint? && a.edit.pixel.Some? && (a.edit.pixel.value.x < 0.0 || a.edit.pixel.value.y < 0.0)
  }

  lemma CoherentIsLoadable(p: Project)
    requires Coherent(p)
    ensures Loadable(p)
  {
  }

  // ---- one point replaced, added or removed ---------------------------------------------------------

  lemma ReplaceCoheres(points: seq<CivilPoint>, i: nat, point: CivilPoint, calibration: Option<Calibration>)
    requires i < |points| && PointsCohere(points, calibration)
    requires point.id == points[i].id && Keeps(point, calibration)
    ensures PointsCohere(points[i := point], calibration)
  {
  }

  lemma AppendCoheres(points: seq<CivilPoint>, point: CivilPoint, calibration: Option<Calibration>)
    requires PointsCohere(points, calibration) && Keeps(point, calibration)
    requires forall i :: 0 <= i < |points| ==> points[i].id != point.id
    ensures PointsCohere(points + [point], calibration)
  {
  }

  lemma FreshIdIsNew(points: seq<CivilPoint>)
    ensures HasPrefix(NextId(Ids(points)))
    ensures forall i :: 0 <= i < |points| ==> points[i].id != NextId(Ids(points))
  {
    NextIdIsFresh(Ids(points));
    forall i | 0 <= i < |points|
      ensures points[i].id != NextId(Ids(points))
    {
      assert Ids(points)[i] in Ids(points);
    }
  }

  lemma LocatedKeeps(point: CivilPoint, calibration: Option<Calibration>)
    requires point.Ok() && !point.status.IsApproved()
    ensures Keeps(Located(point, calibration), calibration) && Located(point, calibration).id == point.id
  {
  }

  // ---- the page ---------------------------------------------------------------------------------------

  lemma CropKeeps(p: Project, crop: Crop, now: Time)
    requires Coherent(p) && crop.Ok() && DoSetCrop(p, crop, now).Done?
    ensures Coherent(DoSetCrop(p, crop, now).project) && Fresh(DoSetCrop(p, crop, now).project)
  {
  }

  lemma RangeKeeps(p: Project, low: real, high: real, now: Time)
    requires Coherent(p) && DoSetRange(p, low, high, now).Done?
    ensures Coherent(DoSetRange(p, low, high, now).project) && Fresh(DoSetRange(p, low, high, now).project)
  {
  }

  lemma RecalibratedCoheres(points: seq<CivilPoint>, previous: Option<Calibration>, c: Calibration, now: Time)
    requires PointsCohere(points, previous)
    ensures PointsCohere(Recalibrated(points, c, now), Some(c))
  {
  }

  lemma CalibrateFrame(p: Project, c: Calibration, history: seq<Calibration>)
    requires FrameCoheres(p.low, p.high, p.crop, p.calibration, p.history) && Usable(c)
    requires c.revision == NextRevision(p)
    requires history == if p.calibration.Some? then p.history + [p.calibration.value] else p.history
    ensures FrameCoheres(p.low, p.high, p.crop, Some(c), history)
  {
  }

  lemma CalibrateKeeps(p: Project, survey: Survey, now: Time)
    requires Coherent(p) && SurveyMeasured(survey) && DoCalibrate(p, survey, now).Done?
    ensures Coherent(DoCalibrate(p, survey, now).project) && Fresh(DoCalibrate(p, survey, now).project)
  {
    var revision := NextRevision(p);
    assert revision >= 1 by {
      hide Usable, PointsCohere;
    }
    BuiltIsUsable(revision, survey);
    BuiltRevision(revision, survey);
    var c := BuildCalibration(revision, survey).value;
    hide Usable, BuildCalibration, Recalibrated, SurveyMeasured;
    RecalibratedCoheres(p.points, p.calibration, c, now);
    var history := if p.calibration.Some? then p.history + [p.calibration.value] else p.history;
    CalibrateFrame(p, c, history);
    hide PointsCohere, FrameCoheres;
  }

  lemma BuiltRevision(revision: int, survey: Survey)
    requires BuildCalibration(revision, survey).Some?
    ensures BuildCalibration(revision, survey).value.revision == revision
  {
  }

  lemma VerifyScaleKeeps(p: Project, known: real, length: real, now: Time)
    requires Coherent(p) && DoVerifyScale(p, known, length, now).Done?
    ensures Coherent(DoVerifyScale(p, known, length, now).project)
    ensures Fresh(DoVerifyScale(p, known, length, now).project)
  {
  }

  // ---- single points --------------------------------------------------------------------------------

  lemma AddManualKeeps(p: Project, pageIndex: int, pixel: Point, elevation: real, kind: PointType, now: Time)
    requires Coherent(p) && DoAddManual(p, pageIndex, pixel, elevation, kind, now).Done?
    ensures Coherent(DoAddManual(p, pageIndex, pixel, elevation, kind, now).project)
    ensures Fresh(DoAddManual(p, pageIndex, pixel, elevation, kind, now).project)
  {
    var point := ManualPoint(p, pageIndex, pixel, elevation, kind, now);
    ManualKeeps(p, pageIndex, pixel, elevation, kind, now);
    FreshIdIsNew(p.points);
    AppendCoheres(p.points, point, p.calibration);
    hide PointsCohere, FrameCoheres, Keeps, ManualPoint;
  }

  lemma ManualKeeps(p: Project, pageIndex: int, pixel: Point, elevation: real, kind: PointType, now: Time)
    requires ManualPoint(p, pageIndex, pixel, elevation, kind, now).Ok()
    ensures Keeps(ManualPoint(p, pageIndex, pixel, elevation, kind, now), p.calibration)
    ensures ManualPoint(p, pageIndex, pixel, elevation, kind, now).id == NextId(Ids(p.points))
  {
  }

  lemma NumberedKeeps(point: CivilPoint, calibration: Option<Calibration>)
    requires Keeps(point, calibration)
    ensures Keeps(Numbered(point), calibration) && Numbered(point).id == point.id
  {
  }

  lemma AddCandidateKeeps(p: Project, point: CivilPoint, now: Time)
    requires Coherent(p) && point.Ok() && DoAddCandidate(p, point, now).Done?
    ensures Coherent(DoAddCandidate(p, point, now).project) && Fresh(DoAddCandidate(p, point, now).project)
  {
    LocatedKeeps(point, p.calibration);
    NumberedKeeps(Located(point, p.calibration), p.calibration);
    hide Keeps, Located, Numbered, FrameCoheres;
    AppendCoheres(p.points, Numbered(Located(point, p.calibration)), p.calibration);
    hide PointsCohere;
  }

  /** The point an edit leaves keeps its id and its place, and is no longer approved. */
  lemma EditedKeeps(before: CivilPoint, edit: Edit, calibration: Option<Calibration>, now: Time)
    requires Keeps(before, calibration)
    requires edit.pixel.Some? ==> edit.pixel.value.x >= 0.0 && edit.pixel.value.y >= 0.0
    ensures var moved := WithPixel(WithKind(WithElevation(before, edit.elevation), edit.kind), edit.pixel, calibration);
      var point := Reviewed(before, WithText(moved, edit), now);
      Keeps(point, calibration) && point.id == before.id
  {
  }

  lemma EditKeeps(p: Project, id: Id, edit: Edit, now: Time)
    requires Coherent(p) && DoEdit(p, id, edit, now).Done? && !MovesOffPage(EditPoint(id, edit))
    ensures Coherent(DoEdit(p, id, edit, now).project) && Fresh(DoEdit(p, id, edit, now).project)
  {
    var i := IndexOf(p.points, id).value;
    EditedKeeps(p.points[i], edit, p.calibration, now);
    hide Keeps, WithKind, WithElevation, WithPixel, WithText, Reviewed, NumberTaken;
    var moved := WithPixel(WithKind(WithElevation(p.points[i], edit.elevation), edit.kind), edit.pixel, p.calibration);
    ReplaceCoheres(p.points, i, Reviewed(p.points[i], WithText(moved, edit), now), p.calibration);
    hide PointsCohere, FrameCoheres;
  }

  lemma ApproveKeeps(p: Project, id: Id, now: Time)
    requires Coherent(p) && DoApprove(p, id, now).Done?
    ensures Coherent(DoApprove(p, id, now).project) && Fresh(DoApprove(p, id, now).project)
  {
    var i := IndexOf(p.points, id).value;
    var point := ApprovedPoint(p.points[i], p.calibration.value, now);
    ApprovedKeeps(p.points[i], p.calibration.value, now);
    hide Keeps, ApprovedPoint;
    ReplaceCoheres(p.points, i, point, p.calibration);
    hide PointsCohere, FrameCoheres;
  }

  lemma ApprovedKeeps(point: CivilPoint, c: Calibration, now: Time)
    requires Keeps(point, Some(c)) && point.kind.Terrain()
    ensures Keeps(ApprovedPoint(point, c, now), Some(c)) && ApprovedPoint(point, c, now).id == point.id
  {
  }

  lemma RestatusKeeps(point: CivilPoint, status: Status, calibration: Option<Calibration>, now: Time)
    requires Keeps(point, calibration) && !status.IsApproved()
    ensures Keeps(point.(status := status, updated := now), calibration)
  {
  }

  lemma RejectKeeps(p: Project, id: Id, now: Time)
    requires Coherent(p) && DoReject(p, id, now).Done?
    ensures Coherent(DoReject(p, id, now).project) && Fresh(DoReject(p, id, now).project)
  {
    var i := IndexOf(p.points, id).value;
    RestatusKeeps(p.points[i], Rejected, p.calibration, now);
    hide Keeps;
    ReplaceCoheres(p.points, i, p.points[i].(status := Rejected, updated := now), p.calibration);
    hide PointsCohere, FrameCoheres;
  }

  lemma MarkKeeps(p: Project, id: Id, now: Time)
    requires Coherent(p) && DoMark(p, id, now).Done?
    ensures Coherent(DoMark(p, id, now).project) && Fresh(DoMark(p, id, now).project)
  {
  }

  lemma DeleteKeeps(p: Project, id: Id, manualOnly: bool, now: Time)
    requires Coherent(p) && DoDelete(p, id, manualOnly, now).Done?
    ensures Coherent(DoDelete(p, id, manualOnly, now).project) && Fresh(DoDelete(p, id, manualOnly, now).project)
  {
  }

  // ---- the cart ------------------------------------------------------------------------------------

  lemma RenumberedKeeps(point: CivilPoint, number: string, calibration: Option<Calibration>, now: Time)
    requires Keeps(point, calibration)
    ensures Keeps(point.(number := number, updated := now), calibration)
  {
  }

  lemma {:induction false} AssignCoheres(points: seq<CivilPoint>, ids: seq<Id>, numbers: seq<string>,
                                         calibration: Option<Calibration>, now: Time)
    requires |ids| == |numbers| && PointsCohere(points, calibration)
    ensures PointsCohere(AssignNumbers(points, ids, numbers, now), calibration)
    decreases |ids|
  {
    if ids != [] {
      var k := IndexOf(points, ids[0]);
      var rest := points;
      if k.Some? {
        var i := k.value;
        rest := points[i := points[i].(number := numbers[0], updated := now)];
        RenumberedKeeps(points[i], numbers[0], calibration, now);
        hide Keeps;
        ReplaceCoheres(points, i, rest[i], calibration);
      }
      hide PointsCohere;
      AssignCoheres(rest, ids[1..], numbers[1..], calibration, now);
    }
  }

  lemma {:induction false} NumbersAt(prefix: string, start: nat, count: nat, padding: nat, k: nat)
    requires k < count
    ensures Numbers(prefix, start, count, padding)[k] == prefix + Padded(start + k, padding)
    decreases count
  {
    hide Padded;
    var rest := Numbers(prefix, start + 1, count - 1, padding);
    assert Numbers(prefix, start, count, padding) == [prefix + Padded(start, padding)] + rest;
    hide Numbers;
    if k > 0 {
      NumbersAt(prefix, start + 1, count - 1, padding, k - 1);
      assert start + 1 + (k - 1) == start + k;
    }
  }

  lemma PaddedInjective(prefix: string, m: nat, n: nat, padding: nat)
    requires prefix + Padded(m, padding) == prefix + Padded(n, padding)
    ensures m == n
  {
    PaddedRoundTrip(m, padding);
    PaddedRoundTrip(n, padding);
    hide Padded, Value, AllDigits;
    var a, b := prefix + Padded(m, padding), prefix + Padded(n, padding);
    assert Padded(m, padding) == a[|prefix|..] == b[|prefix|..] == Padded(n, padding);
  }

  /** New numbers never collide with each other, so that half of the program's check never fires. */
  lemma NumbersAreDistinct(prefix: string, start: nat, count: nat, padding: nat, i: nat, j: nat)
    requires i < j < count
    ensures Numbers(prefix, start, count, padding)[i] != Numbers(prefix, start, count, padding)[j]
  {
    NumbersAt(prefix, start, count, padding, i);
    NumbersAt(prefix, start, count, padding, j);
    hide Numbers, Padded;
    if prefix + Padded(start + i, padding) == prefix + Padded(start + j, padding) {
      PaddedInjective(prefix, start + i, start + j, padding);
    }
  }

  lemma RenumberKeeps(p: Project, chosen: Option<seq<Id>>, prefix: string, start: int, padding: int, now: Time)
    requires Coherent(p) && DoRenumber(p, chosen, prefix, start, padding, now).Done?
    ensures Coherent(DoRenumber(p, chosen, prefix, start, padding, now).project)
    ensures Fresh(DoRenumber(p, chosen, prefix, start, padding, now).project)
  {
    var selected := Selection(p, chosen);
    assert start >= 0 && padding >= 0;
    hide PointsCohere, FrameCoheres, AssignNumbers, CanRenumber, Selection, Numbers, ApprovedPoints;
    AssignCoheres(p.points, selected, Numbers(prefix, start, |selected|, padding), p.calibration, now);
  }

  lemma CartLeqTotal(a: CivilPoint, b: CivilPoint, key: CartKey)
    ensures CartLeq(a, b, key) || CartLeq(b, a, key)
  {
    hide Rank;
    TextTotal(a.ShownNumber(), b.ShownNumber());
    TextTotal(a.id.text, b.id.text);
  }

  lemma CartLeqTransitive(a: CivilPoint, b: CivilPoint, c: CivilPoint, key: CartKey)
    requires CartLeq(a, b, key) && CartLeq(b, c, key)
    ensures CartLeq(a, c, key)
  {
    hide Rank, TextLeq;
    if key.ByPointNumber? {
      TextTransitive(a.ShownNumber(), b.ShownNumber(), c.ShownNumber());
    } else if Rank(a, key) == Rank(b, key) == Rank(c, key) {
      TextTransitive(a.id.text, b.id.text, c.id.text);
    }
  }

  lemma CartOrderIsPreorder(key: CartKey, reverse: bool)
    ensures TotalPreorder(CartOrder(key, reverse))
  {
    var leq := CartOrder(key, reverse);
    hide CartLeq;
    forall a, b
      ensures leq(a, b) || leq(b, a)
    {
      CartLeqTotal(a, b, key);
    }
    forall a, b, c | leq(a, b) && leq(b, c)
      ensures leq(a, c)
    {
      if reverse {
        CartLeqTransitive(c, b, a, key);
      } else {
        CartLeqTransitive(a, b, c, key);
      }
    }
  }

  /** Sorting the cart neither loses, adds nor changes a point, and leaves the exported list as it was. */
  lemma SortingIsHarmless(points: seq<CivilPoint>, key: CartKey, reverse: bool)
    requires UniqueIds(points)
    ensures var r := Sort(points, CartOrder(key, reverse));
      && multiset(r) == multiset(points) && UniqueIds(r) && Sorted(r, CartOrder(key, reverse))
      && ApprovedPoints(r) == ApprovedPoints(points)
  {
    var leq := CartOrder(key, reverse);
    CartOrderIsPreorder(key, reverse);
    SortSorted(points, leq);
    SortMembers(points, leq);
    UniqueIsDistinct(points);
    SortDistinct(points, KeyOfId(), leq);
    UniqueIsDistinct(Sort(points, leq));
    ApprovedIgnoresOrder(Sort(points, leq), points);
  }

  lemma SortKeeps(p: Project, key: CartKey, reverse: bool, now: Time)
    requires Coherent(p) && Fresh(p) && DoSort(p, key, reverse, now).Done?
    ensures Coherent(DoSort(p, key, reverse, now).project) && Fresh(DoSort(p, key, reverse, now).project)
  {
    hide FrameCoheres, Keeps;
    var leq := CartOrder(key, reverse);
    var r := Sort(p.points, leq);
    SortingIsHarmless(p.points, key, reverse);
    CartOrderIsPreorder(key, reverse);
    SortMembers(p.points, leq);
    forall i | 0 <= i < |r|
      ensures Keeps(r[i], p.calibration)
    {
      assert r[i] in r && r[i] in p.points;
    }
  }

  // ---- actions made of actions ------------------------------------------------------------------------

  lemma AuditedKeeps(p: Project, now: Time, what: Happening)
    requires Coherent(p) && Fresh(p)
    ensures Coherent(Audited(p, now, what)) && Fresh(Audited(p, now, what))
  {
  }

  lemma {:induction false} ApproveAllKeeps(p: Project, ids: seq<Id>, now: Time)
    requires Coherent(p) && Fresh(p) && ApproveAll(p, ids, now).Done?
    ensures Coherent(ApproveAll(p, ids, now).project) && Fresh(ApproveAll(p, ids, now).project)
    decreases |ids|
  {
    hide Coherent, Fresh, DoApprove;
    if ids != [] {
      ApproveKeeps(p, ids[0], now);
      ApproveAllKeeps(DoApprove(p, ids[0], now).project, ids[1..], now);
    }
  }

  lemma {:induction false} DescribeAllKeeps(p: Project, ids: seq<Id>, description: string, now: Time)
    requires Coherent(p) && Fresh(p) && DescribeAll(p, ids, description, now).Done?
    ensures Coherent(DescribeAll(p, ids, description, now).project)
    ensures Fresh(DescribeAll(p, ids, description, now).project)
    decreases |ids|
  {
    hide Coherent, Fresh, DoEdit;
    if ids != [] {
      EditKeeps(p, ids[0], DescriptionEdit(description), now);
      DescribeAllKeeps(DoEdit(p, ids[0], DescriptionEdit(description), now).project, ids[1..], description, now);
    }
  }

  lemma IngestOneKeeps(p: Project, f: Found, now: Time)
    requires Coherent(p) && Fresh(p) && IngestOne(p, f, now).Done?
    ensures Coherent(IngestOne(p, f, now).project) && Fresh(IngestOne(p, f, now).project)
  {
    hide Coherent, Fresh, DoAddCandidate, FoundPoint;
    if InCrop(p, f.center) && f.usable {
      AddCandidateKeeps(p, FoundPoint(p, f, now), now);
    }
  }

  lemma {:induction false} IngestAllKeeps(p: Project, found: seq<Found>, now: Time)
    requires Coherent(p) && Fresh(p) && IngestAll(p, found, now).Done?
    ensures Coherent(IngestAll(p, found, now).project) && Fresh(IngestAll(p, found, now).project)
    decreases |found|
  {
    hide Coherent, Fresh, IngestOne;
    if found != [] {
      IngestOneKeeps(p, found[0], now);
      IngestAllKeeps(IngestOne(p, found[0], now).project, found[1..], now);
    }
  }

  /** Every action that succeeds, nested ones included, keeps the project coherent and its exports fresh. */
  lemma ActionKeeps(p: Project, a: Action, now: Time)
    requires Coherent(p) && Fresh(p) && WellFormed(a) && !MovesOffPage(a) && Effect(p, a, now).Done?
    ensures Coherent(Effect(p, a, now).project) && Fresh(Effect(p, a, now).project)
  {
    hide Coherent, Fresh, DoSetCrop, DoSetRange, DoCalibrate, DoVerifyScale, DoAddManual, DoAddCandidate, DoEdit,
         DoApprove, DoReject, DoMark, DoDelete, DoRenumber, DoSort, ApproveAll, DescribeAll, IngestAll;
    match a
    case SetCrop(crop) => CropKeeps(p, crop, now);
    case SetPlausibleRange(low, high) => RangeKeeps(p, low, high, now);
    case ApplyCalibration(survey) => CalibrateKeeps(p, survey, now);
    case VerifyCurrentScale(known, length) => VerifyScaleKeeps(p, known, length, now);
    case AddManualPoint(pageIndex, pixel, elevation, kind) => AddManualKeeps(p, pageIndex, pixel, elevation, kind, now);
    case AddCandidate(point) => AddCandidateKeeps(p, point, now);
    case EditPoint(id, edit) => EditKeeps(p, id, edit, now);
    case ApprovePoint(id) => ApproveKeeps(p, id, now);
    case RejectPoint(id) => RejectKeeps(p, id, now);
    case MarkReviewRequired(id) => MarkKeeps(p, id, now);
    case MergeDuplicate(keep, reject) => RejectKeeps(p, reject, now);
    case DeleteManualPoint(id) => DeleteKeeps(p, id, true, now);
    case DeleteCartPoint(id) => DeleteKeeps(p, id, false, now);
    case RenumberPoints(chosen, prefix, start, padding) => RenumberKeeps(p, chosen, prefix, start, padding, now);
    case SortPoints(key, reverse) => SortKeeps(p, key, reverse, now);
    case BulkApprove(ids) =>
      ApproveAllKeeps(p, ids, now);
      AuditedKeeps(ApproveAll(p, ids, now).project, now, BulkApproved);
    case BulkChangeDescription(ids, description) =>
      DescribeAllKeeps(p, ids, description, now);
      AuditedKeeps(DescribeAll(p, ids, description, now).project, now, BulkDescribed);
    case IngestCandidates(found) =>
      IngestAllKeeps(p, found, now);
      AuditedKeeps(IngestAll(p, found, now).project, now, BatchIngested);
  }

  // ---- what the review actions change, and what they leave alone -----------------------------------------

  /** Same rows in the same order, and only rows with a listed id may differ. */
  predicate OnlyThese(before: seq<CivilPoint>, after: seq<CivilPoint>, ids: seq<Id>) {
    && |after| == |before|
    && (forall i :: 0 <= i < |before| ==> after[i].id == before[i].id)
    && (forall i :: 0 <= i < |before| ==> before[i].id in ids || after[i] == before[i])
  }

  lemma OneRowChanged(points: seq<CivilPoint>, i: nat, point: CivilPoint)
    requires i < |points| && point.id == points[i].id
    ensures OnlyThese(points, points[i := point], [point.id])
  {
  }

  /** The one row an action aimed at a point changes, with the status it ends in. */
  lemma SinglePointEffects(p: Project, id: Id, edit: Edit, now: Time)
    ensures var o := DoApprove(p, id, now); o.Done? ==>
      OnlyThese(p.points, o.project.points, [id]) && o.project.points[IndexOf(p.points, id).value].status.IsApproved()
    ensures var o := DoReject(p, id, now); o.Done? ==>
      OnlyThese(p.points, o.project.points, [id]) && o.project.points[IndexOf(p.points, id).value].status.Rejected?
    ensures var o := DoMark(p, id, now); o.Done? ==>
      && OnlyThese(p.points, o.project.points, [id])
      && o.project.points[IndexOf(p.points, id).value].status.ReviewRequired?
    ensures var o := DoEdit(p, id, edit, now); o.Done? ==>
      && OnlyThese(p.points, o.project.points, [id])
      && o.project.points[IndexOf(p.points, id).value].status.ReviewRequired?
  {
    ApproveEffect(p, id, now);
    RestatusEffect(p, id, now);
    EditEffect(p, id, edit, now);
    hide DoApprove, DoReject, DoMark, DoEdit, OnlyThese;
  }

  lemma ApproveEffect(p: Project, id: Id, now: Time)
    ensures var o := DoApprove(p, id, now); o.Done? ==>
      OnlyThese(p.points, o.project.points, [id]) && o.project.points[IndexOf(p.points, id).value].status.IsApproved()
  {
  }

  lemma RestatusEffect(p: Project, id: Id, now: Time)
    ensures var o := DoReject(p, id, now); o.Done? ==>
      OnlyThese(p.points, o.project.points, [id]) && o.project.points[IndexOf(p.points, id).value].status.Rejected?
    ensures var o := DoMark(p, id, now); o.Done? ==>
      && OnlyThese(p.points, o.project.points, [id])
      && o.project.points[IndexOf(p.points, id).value].status.ReviewRequired?
  {
    if IndexOf(p.points, id).Some? {
      var i := IndexOf(p.points, id).value;
      OneRowChanged(p.points, i, p.points[i].(status := Rejected, updated := now));
      OneRowChanged(p.points, i, p.points[i].(status := ReviewRequired, updated := now));
      hide OnlyThese;
    }
  }

  lemma EditEffect(p: Project, id: Id, edit: Edit, now: Time)
    ensures var o := DoEdit(p, id, edit, now); o.Done? ==>
      && OnlyThese(p.points, o.project.points, [id])
      && o.project.points[IndexOf(p.points, id).value].status.ReviewRequired?
  {
    hide NumberTaken, ToLocal, DefaultDescription;
    if DoEdit(p, id, edit, now).Done? {
      var i := IndexOf(p.points, id).value;
      var retyped := WithKind(WithElevation(p.points[i], edit.elevation), edit.kind);
      var moved := WithPixel(retyped, edit.pixel, p.calibration);
      assert moved.id == id;
      hide WithPixel, WithKind, WithElevation;
      OneRowChanged(p.points, i, Reviewed(p.points[i], WithText(moved, edit), now));
      hide OnlyThese, WithText;
    }
  }

  /** What must hold before a point can be approved. */
  predicate Approvable(p: Project, id: Id) {
    && p.calibration.Some? && IndexOf(p.points, id).Some?
    && var point := p.points[IndexOf(p.points, id).value];
       point.kind.Terrain() && InRange(p, point.elevation) && point.local.Some?
  }

  lemma {:induction false} SameIndex(a: seq<CivilPoint>, b: seq<CivilPoint>, id: Id, i: nat)
    requires i <= |a| == |b| && forall k :: 0 <= k < |a| ==> a[k].id == b[k].id
    ensures IndexFrom(a, id, i) == IndexFrom(b, id, i)
    decreases |a| - i
  {
    if i < |a| && a[i].id != id {
      SameIndex(a, b, id, i + 1);
    }
  }

  /** Approving one point does not affect whether another can be approved. */
  lemma ApprovalsDoNotInterfere(p: Project, id: Id, other: Id, now: Time)
    requires DoApprove(p, id, now).Done?
    ensures Approvable(DoApprove(p, id, now).project, other) <==> Approvable(p, other)
  {
    var q := DoApprove(p, id, now).project;
    SameIndex(p.points, q.points, other, 0);
  }

  /** Bulk approval goes through exactly when every listed point can be approved on its own. */
  lemma {:induction false} BulkApprovalExactly(p: Project, ids: seq<Id>, now: Time)
    ensures ApproveAll(p, ids, now).Done? <==> forall k :: 0 <= k < |ids| ==> Approvable(p, ids[k])
    decreases |ids|
  {
    if ids != [] {
      var o := DoApprove(p, ids[0], now);
      assert o.Done? <==> Approvable(p, ids[0]);
      hide DoApprove, Approvable;
      if o.Done? {
        forall k | 0 <= k < |ids|
          ensures Approvable(o.project, ids[k]) <==> Approvable(p, ids[k])
        {
          ApprovalsDoNotInterfere(p, ids[0], ids[k], now);
        }
        BulkApprovalExactly(o.project, ids[1..], now);
        assert forall k :: 0 <= k < |ids[1..]| ==> ids[1..][k] == ids[k + 1];
        assert forall k :: 1 <= k < |ids| ==> ids[k] == ids[1..][k - 1];
      }
    }
  }

  lemma OnlyTheseTrans(a: seq<CivilPoint>, b: seq<CivilPoint>, c: seq<CivilPoint>, ids: seq<Id>)
    requires ids != [] && OnlyThese(a, b, [ids[0]]) && OnlyThese(b, c, ids[1..])
    ensures OnlyThese(a, c, ids)
  {
  }

  /** Afterwards exactly the listed points have changed, and all of them are approved. */
  lemma {:induction false} BulkApprovalEffect(p: Project, ids: seq<Id>, now: Time)
    requires UniqueIds(p.points) && ApproveAll(p, ids, now).Done?
    ensures var points := ApproveAll(p, ids, now).project.points;
      OnlyThese(p.points, points, ids)
      && forall i :: 0 <= i < |points| && points[i].id in ids ==> points[i].status.IsApproved()
    decreases |ids|
  {
    if ids != [] {
      var q := DoApprove(p, ids[0], now).project;
      ApproveEffect(p, ids[0], now);
      hide DoApprove;
      BulkApprovalEffect(q, ids[1..], now);
      OnlyTheseTrans(p.points, q.points, ApproveAll(q, ids[1..], now).project.points, ids);
      hide ApproveAll;
    }
  }
}
