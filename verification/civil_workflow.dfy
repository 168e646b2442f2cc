/**
 * The review workflow itself (src/screen2xyz_civil/workflow.py): one object that carries the project
 * and the two stacks, with nested actions counted by `mutationDepth`.
 */
module CivilWorkflow {
  import opened Common
  import opened CivilActions
  import opened CivilModel
  import opened CivilTimeline
  import opened PointIds
  import opened Sorting
  import opened Transform

  function Ended(ok: bool, p: Project): Outcome { if ok then Done(p) else Raised(p) }

  class Workflow {
    var project: Project
    var undoStack: seq<Snapshot>
    var redoStack: seq<Snapshot>
    var mutationDepth: nat

    function Current(): State
      reads this
    {
      State(project, undoStack, redoStack)
    }

    constructor (project: Project)
      ensures Current() == State(project, [], []) && mutationDepth == 0
    {
      this.project, undoStack, redoStack, mutationDepth := project, [], [], 0;
    }

    /** Every action goes through here: one snapshot for the outermost, none for those it calls. */
    method Perform(a: Action, now: Time) returns (ok: bool)
      modifies this
      ensures mutationDepth == old(mutationDepth)
      ensures ok == Effect(old(project), a, now).Done?
      ensures old(mutationDepth) == 0 ==> Current() == CivilTimeline.Perform(old(Current()), a, now)
      ensures old(mutationDepth) > 0 ==>
        project == Effect(old(project), a, now).project && undoStack == old(undoStack) && redoStack == old(redoStack)
      decreases a.Nests(), 2
    {
      var outer := mutationDepth == 0;
      var snapshot := ToDict(project);
      if outer {
        undoStack := undoStack + [snapshot];
        redoStack := [];
      }
      mutationDepth := mutationDepth + 1;
      ok := Body(a, now);
      hide Effect, ToDict, FromDict;
      if !ok && outer {
        var restored := RestoreSnapshot(snapshot);
        if restored {
          undoStack := undoStack[..|undoStack| - 1];
          assert undoStack == old(undoStack);
        }
      }
      mutationDepth := mutationDepth - 1;
    }

    method RestoreSnapshot(snapshot: Snapshot) returns (ok: bool)
      modifies this`project
      ensures ok == FromDict(snapshot).Some?
      ensures project == if ok then FromDict(snapshot).value else old(project)
    {
      var restored := FromDict(snapshot);
      ok := restored.Some?;
      if ok {
        project := restored.value;
      }
    }

    method Undo(now: Time) returns (ok: bool)
      modifies this
      ensures Current() == UndoStep(old(Current()), now) && mutationDepth == old(mutationDepth)
      ensures ok == (old(undoStack) != [] && FromDict(Last(old(undoStack))).Some?)
    {
      hide ToDict, FromDict;
      if undoStack == [] {
        return false;
      }
      var current, snapshot := ToDict(project), undoStack[|undoStack| - 1];
      undoStack := undoStack[..|undoStack| - 1];
      redoStack := redoStack + [current];
      ok := RestoreSnapshot(snapshot);
      if ok {
        project := Audited(project, now, Undone);
      }
    }

    method Redo(now: Time) returns (ok: bool)
      modifies this
      ensures Current() == RedoStep(old(Current()), now) && mutationDepth == old(mutationDepth)
      ensures ok == (old(redoStack) != [] && FromDict(Last(old(redoStack))).Some?)
    {
      hide ToDict, FromDict;
      if redoStack == [] {
        return false;
      }
      var current, snapshot := ToDict(project), redoStack[|redoStack| - 1];
      redoStack := redoStack[..|redoStack| - 1];
      undoStack := undoStack + [current];
      ok := RestoreSnapshot(snapshot);
      if ok {
        project := Audited(project, now, Redone);
      }
    }

    /** The first point with the id. */
    method Find(id: Id) returns (k: Option<nat>)
      ensures k == IndexOf(project.points, id)
    {
      var points := project.points;
      for i := 0 to |points|
        invariant IndexOf(points, id) == IndexFrom(points, id, i)
      {
        if points[i].id == id {
          return Some(i);
        }
      }
      return None;
    }

    method Body(a: Action, now: Time) returns (ok: bool)
      requires mutationDepth > 0
      modifies this
      ensures mutationDepth == old(mutationDepth) && undoStack == old(undoStack) && redoStack == old(redoStack)
      ensures Ended(ok, project) == Effect(old(project), a, now)
      decreases a.Nests(), 1
    {
      hide DoSetCrop, DoSetRange, DoCalibrate, DoVerifyScale, DoAddManual, DoAddCandidate, DoEdit, DoApprove,
           DoReject, DoMark, DoDelete, DoRenumber, DoSort, ApproveAll, DescribeAll, IngestAll, Audited;
      match a
      case SetCrop(crop) => ok := SetCrop(crop, now);
      case SetPlausibleRange(low, high) => ok := SetPlausibleElevationRange(low, high, now);
      case ApplyCalibration(survey) => ok := ApplyCalibration(survey, now);
      case VerifyCurrentScale(known, length) => ok := VerifyCurrentScale(known, length, now);
      case AddManualPoint(pageIndex, pixel, elevation, kind) =>
        ok := AddManualPoint(pageIndex, pixel, elevation, kind, now);
      case AddCandidate(point) => ok := AddCandidate(point, now);
      case EditPoint(id, edit) => ok := EditPoint(id, edit, now);
      case ApprovePoint(id) => ok := ApprovePoint(id, now);
      case RejectPoint(id) => ok := SetStatus(id, false, now);
      case MarkReviewRequired(id) => ok := SetStatus(id, true, now);
      case MergeDuplicate(keep, reject) => ok := MergeDuplicate(keep, reject, now);
      case DeleteManualPoint(id) => ok := DeletePoint(id, true, now);
      case DeleteCartPoint(id) => ok := DeletePoint(id, false, now);
      case RenumberPoints(chosen, prefix, start, padding) => ok := RenumberPoints(chosen, prefix, start, padding, now);
      case SortPoints(key, reverse) => ok := SortPoints(key, reverse, now);
      case BulkApprove(ids) => ok := BulkApprove(ids, now);
      case BulkChangeDescription(ids, description) => ok := BulkChangeDescription(ids, description, now);
      case IngestCandidates(found) => ok := IngestTextCandidates(found, now);
    }

    // ---- the bodies -----------------------------------------------------------------------------

    method Audit(now: Time, what: Happening)
      modifies this`project
      ensures project == Audited(old(project), now, what)
    {
      project := project.(log := project.log + [Entry(now, what)], updated := now);
    }

    method SetCrop(crop: Crop, now: Time) returns (ok: bool)
      modifies this`project
      ensures Ended(ok, project) == DoSetCrop(old(project), crop, now)
    {
      if project.width != 0.0 && crop.x + crop.width > project.width {
        return false;
      }
      if project.height != 0.0 && crop.y + crop.height > project.height {
        return false;
      }
      project := project.(crop := Some(crop), stale := true);
      Audit(now, CropSet);
      ok := true;
    }

    method SetPlausibleElevationRange(low: real, high: real, now: Time) returns (ok: bool)
      modifies this`project
      ensures Ended(ok, project) == DoSetRange(old(project), low, high, now)
    {
      if low >= high {
        return false;
      }
      project := project.(low := low, high := high, stale := true);
      Audit(now, RangeSet);
      ok := true;
    }

    method ApplyCalibration(survey: Survey, now: Time) returns (ok: bool)
      modifies this`project
      ensures Ended(ok, project) == DoCalibrate(old(project), survey, now)
    {
      hide BuildCalibration, ToLocal;
      var revision := if project.calibration.None? then 1 else project.calibration.value.revision + 1;
      var built := BuildCalibration(revision, survey);
      if built.None? {
        return false;
      }
      var c := built.value;
      hide Recalibrated;
      if project.calibration.Some? {
        project := project.(history := project.history + [project.calibration.value]);
      }
      project := project.(calibration := Some(c));
      Recalibrate(c, now);
      project := project.(stale := true);
      Audit(now, CalibrationApplied);
      ok := true;
    }

    method Recalibrate(c: Calibration, now: Time)
      modifies this`project
      ensures project == old(project).(points := Recalibrated(old(project).points, c, now))
    {
      var points := project.points;
      ghost var goal := Recalibrated(points, c, now);
      for i := 0 to |points|
        invariant |project.points| == |points|
        invariant forall k :: 0 <= k < i ==> project.points[k] == goal[k]
        invariant forall k :: i <= k < |points| ==> project.points[k] == points[k]
        invariant project == old(project).(points := project.points)
      {
        var point := Placed(project.points[i], c, now);
        PlacedIs(points, i, c, now);
        hide Recalibrated, Placed;
        Store(i, point);
      }
      hide Recalibrated, Placed;
      assert project.points == goal;
    }

    static function Placed(point: CivilPoint, c: Calibration, now: Time): CivilPoint {
      point.(local := Some(ToLocal(point.pixel, c)), revision := Some(c.revision), updated := now)
    }

    static lemma PlacedIs(points: seq<CivilPoint>, i: nat, c: Calibration, now: Time)
      requires i < |points|
      ensures Recalibrated(points, c, now)[i] == Placed(points[i], c, now)
    {
    }

    method VerifyCurrentScale(known: real, length: real, now: Time) returns (ok: bool)
      modifies this`project
      ensures Ended(ok, project) == DoVerifyScale(old(project), known, length, now)
    {
      if project.calibration.None? {
        return false;
      }
      var check := VerifyScale(known, length, project.calibration.value.scale);
      if check.None? {
        return false;
      }
      project := project.(calibration := Some(project.calibration.value.(check := check)), stale := true);
      Audit(now, ScaleChecked);
      ok := true;
    }

    method AddManualPoint(pageIndex: int, pixel: Point, elevation: real, kind: PointType, now: Time) returns (ok: bool)
      modifies this`project
      ensures Ended(ok, project) == DoAddManual(old(project), pageIndex, pixel, elevation, kind, now)
    {
      hide ToLocal, NextId, Ids;
      if !kind.Terrain() || !InRange(project, elevation) || !InCrop(project, pixel) {
        return false;
      }
      var id := NextPointId(Ids(project.points));
      var local, revision := None, None;
      if project.calibration.Some? {
        local := Some(ToLocal(pixel, project.calibration.value));
        revision := Some(project.calibration.value.revision);
      }
      var description := "CONTOUR";
      if kind == ExistingGround {
        description := "MANUAL_EX";
      } else if kind == DesignGrade {
        description := "MANUAL_DES";
      }
      var point := CivilPoint(id, id.text, pageIndex, pixel, local, elevation, kind, Manual, Unreviewed, description,
                              "", "", "", now, now, [], revision);
      assert point == ManualPoint(project, pageIndex, pixel, elevation, kind, now);
      hide ManualPoint;
      if !point.Ok() {
        return false;
      }
      project := project.(points := project.points + [point], stale := true);
      Audit(now, PointAdded);
      ok := true;
    }

    method AddCandidate(candidate: CivilPoint, now: Time) returns (ok: bool)
      modifies this`project
      ensures Ended(ok, project) == DoAddCandidate(old(project), candidate, now)
    {
      hide ToLocal;
      var point := candidate;
      var existing := Find(point.id);
      if existing.Some? || point.status.IsApproved() || !InCrop(project, point.pixel) {
        return false;
      }
      if project.calibration.Some? {
        var c := project.calibration.value;
        point := point.(local := Some(ToLocal(point.pixel, c)), revision := Some(c.revision));
      }
      if point.number == "" {
        point := point.(number := point.id.text);
      }
      assert point == Numbered(Located(candidate, project.calibration));
      hide Numbered, Located;
      project := project.(points := project.points + [point], stale := true);
      Audit(now, CandidateAdded);
      ok := true;
    }

    method Store(i: nat, point: CivilPoint)
      requires i < |project.points|
      modifies this`project
      ensures project == WithPoint(old(project), i, point)
    {
      project := project.(points := project.points[i := point]);
    }

    static lemma StoreNothing(p: Project, i: nat)
      requires i < |p.points|
      ensures WithPoint(p, i, p.points[i]) == p
    {
    }

    static lemma StoreTwice(p: Project, i: nat, a: CivilPoint, b: CivilPoint)
      requires i < |p.points|
      ensures WithPoint(WithPoint(p, i, a), i, b) == WithPoint(p, i, b)
    {
    }

    method EditElevation(i: nat, elevation: Option<real>) returns (ok: bool)
      requires i < |project.points|
      modifies this`project
      ensures ok == (elevation.Some? ==> InRange(old(project), elevation.value))
      ensures project == if ok then WithPoint(old(project), i, WithElevation(old(project).points[i], elevation))
                         else old(project)
    {
      StoreNothing(project, i);
      if elevation.Some? {
        if !InRange(project, elevation.value) {
          return false;
        }
        Store(i, project.points[i].(elevation := elevation.value));
      }
      ok := true;
    }

    method EditKind(i: nat, request: KindRequest) returns (ok: bool)
      requires i < |project.points|
      modifies this`project
      ensures ok == !request.UnknownKind?
      ensures project == if ok then WithPoint(old(project), i, WithKind(old(project).points[i], request))
                         else old(project)
    {
      hide DefaultDescription;
      StoreNothing(project, i);
      if request.UnknownKind? {
        return false;
      }
      if request.To? {
        var point := project.points[i];
        Store(i, point.(kind := request.kind, description := DefaultDescription(request.kind, point.description)));
      }
      ok := true;
    }

    method EditPixel(i: nat, pixel: Option<Point>) returns (ok: bool)
      requires i < |project.points|
      modifies this`project
      ensures ok == (pixel.Some? ==> InCrop(old(project), pixel.value))
      ensures project ==
        if ok then WithPoint(old(project), i, WithPixel(old(project).points[i], pixel, old(project).calibration))
        else old(project)
    {
      hide ToLocal;
      StoreNothing(project, i);
      if pixel.Some? {
        if !InCrop(project, pixel.value) {
          return false;
        }
        var point := project.points[i].(pixel := pixel.value);
        if project.calibration.Some? {
          var c := project.calibration.value;
          point := point.(local := Some(ToLocal(pixel.value, c)), revision := Some(c.revision));
        }
        Store(i, point);
      }
      ok := true;
    }

    method EditPoint(id: Id, edit: Edit, now: Time) returns (ok: bool)
      modifies this`project
      ensures Ended(ok, project) == DoEdit(old(project), id, edit, now)
    {
      hide ToLocal, NumberTaken, WithText, Reviewed, WithElevation, WithKind, WithPixel;
      var k := Find(id);
      if k.None? {
        return false;
      }
      var i := k.value;
      var before := project.points[i];
      ghost var p := project;
      ok := EditElevation(i, edit.elevation);
      if !ok {
        return;
      }
      ghost var raised := WithElevation(before, edit.elevation);
      ok := EditKind(i, edit.kind);
      if !ok {
        return;
      }
      ghost var retyped := WithKind(raised, edit.kind);
      StoreTwice(p, i, raised, retyped);
      ok := EditPixel(i, edit.pixel);
      if !ok {
        return;
      }
      ghost var moved := WithPixel(retyped, edit.pixel, p.calibration);
      StoreTwice(p, i, retyped, moved);
      MovedId(before, edit, p.calibration);
      TakenSame(p.points, i, moved, id, edit);
      if edit.number.Some? && (edit.number.value == "" || NumberTaken(project.points, id, edit.number.value)) {
        return false;
      }
      var point := Reviewed(before, WithText(project.points[i], edit), now);
      StoreTwice(p, i, moved, point);
      Store(i, point);
      project := project.(stale := true);
      Audit(now, PointEdited);
      ok := true;
    }

    static lemma MovedId(before: CivilPoint, edit: Edit, calibration: Option<Calibration>)
      ensures WithPixel(WithKind(WithElevation(before, edit.elevation), edit.kind), edit.pixel, calibration).id
           == before.id
    {
    }

    /** Other points' numbers are not affected by the changes made so far. */
    static lemma TakenSame(points: seq<CivilPoint>, i: nat, point: CivilPoint, id: Id, edit: Edit)
      requires i < |points| && points[i].id == point.id == id
      ensures edit.number.Some? ==>
        NumberTaken(points[i := point], id, edit.number.value) == NumberTaken(points, id, edit.number.value)
    {
      if edit.number.Some? {
        var number, r := edit.number.value, points[i := point];
        if NumberTaken(points, id, number) {
          var j :| 0 <= j < |points| && points[j].id != id && points[j].number == number;
          assert r[j] == points[j];
        }
        if NumberTaken(r, id, number) {
          var j :| 0 <= j < |r| && r[j].id != id && r[j].number == number;
          assert r[j] == points[j];
        }
      }
    }

    method ApprovePoint(id: Id, now: Time) returns (ok: bool)
      modifies this`project
      ensures Ended(ok, project) == DoApprove(old(project), id, now)
    {
      var k := Find(id);
      if k.None? || project.calibration.None? {
        return false;
      }
      var point := project.points[k.value];
      if !point.kind.Terrain() || !InRange(project, point.elevation) || point.local.None? {
        return false;
      }
      point := point.(status := if point.edits != [] then EditedAndApproved else Approved, updated := now,
                      revision := Some(project.calibration.value.revision));
      Store(k.value, point);
      project := project.(stale := true);
      Audit(now, PointApproved);
      ok := true;
    }

    /** Rejecting a point, or marking it for review, which is not logged. */
    method SetStatus(id: Id, review: bool, now: Time) returns (ok: bool)
      modifies this`project
      ensures Ended(ok, project) == if review then DoMark(old(project), id, now) else DoReject(old(project), id, now)
    {
      var k := Find(id);
      if k.None? {
        return false;
      }
      var point := project.points[k.value];
      Store(k.value, point.(status := if review then ReviewRequired else Rejected, updated := now));
      project := project.(stale := true, updated := now);
      if !review {
        Audit(now, PointRejected);
      }
      ok := true;
    }

    method MergeDuplicate(keep: Id, reject: Id, now: Time) returns (ok: bool)
      requires mutationDepth > 0
      modifies this
      ensures mutationDepth == old(mutationDepth) && undoStack == old(undoStack) && redoStack == old(redoStack)
      ensures Ended(ok, project) == DoMerge(old(project), keep, reject, now)
      decreases true, 0
    {
      hide DoReject, TooFarApart;
      if keep == reject {
        return false;
      }
      var i := Find(keep);
      var j := Find(reject);
      if i.None? || j.None? {
        return false;
      }
      var a, b := project.points[i.value].local, project.points[j.value].local;
      if a.None? || b.None? || TooFarApart(a.value, b.value) {
        return false;
      }
      ok := Perform(Action.RejectPoint(reject), now);
    }

    method DeletePoint(id: Id, manualOnly: bool, now: Time) returns (ok: bool)
      modifies this`project
      ensures Ended(ok, project) == DoDelete(old(project), id, manualOnly, now)
    {
      var k := Find(id);
      if k.None? {
        return false;
      }
      if manualOnly && !project.points[k.value].source.Manual? {
        return false;
      }
      project := project.(points := Without(project.points, k.value), stale := true);
      Audit(now, if manualOnly then ManualPointDeleted else CartPointDeleted);
      ok := true;
    }

    method RenumberPoints(chosen: Option<seq<Id>>, prefix: string, start: int, padding: int, now: Time)
      returns (ok: bool)
      modifies this`project
      ensures Ended(ok, project) == DoRenumber(old(project), chosen, prefix, start, padding, now)
    {
      hide CanRenumber, Numbers, Selection;
      var selected := Selection(project, chosen);
      if !CanRenumber(project, selected, prefix, start, padding) {
        return false;
      }
      assert start >= 0 && padding >= 0 by { RenumberBounds(project, selected, prefix, start, padding); }
      var numbers := Numbers(prefix, start, |selected|, padding);
      ghost var before := project;
      for n := 0 to |selected|
        invariant |project.points| == |before.points|
        invariant project == before.(points := project.points)
        invariant AssignNumbers(project.points, selected[n..], numbers[n..], now)
               == AssignNumbers(before.points, selected, numbers, now)
      {
        assert selected[n..][0] == selected[n] && selected[n..][1..] == selected[n + 1..];
        assert numbers[n..][0] == numbers[n] && numbers[n..][1..] == numbers[n + 1..];
        var k := Find(selected[n]);
        if k.Some? {
          Store(k.value, project.points[k.value].(number := numbers[n], updated := now));
        }
      }
      project := project.(stale := true);
      Audit(now, Renumbered);
      ok := true;
    }

    static lemma RenumberBounds(p: Project, selected: seq<Id>, prefix: string, start: int, padding: int)
      requires CanRenumber(p, selected, prefix, start, padding)
      ensures start >= 0 && padding >= 0
    {
    }

    method SortPoints(key: CartKey, reverse: bool, now: Time) returns (ok: bool)
      modifies this`project
      ensures Ended(ok, project) == DoSort(old(project), key, reverse, now)
    {
      if key.Unsupported? {
        return false;
      }
      project := project.(points := Sort(project.points, CartOrder(key, reverse)));
      Audit(now, CartSorted);
      ok := true;
    }

    method BulkApprove(ids: seq<Id>, now: Time) returns (ok: bool)
      requires mutationDepth > 0
      modifies this
      ensures mutationDepth == old(mutationDepth) && undoStack == old(undoStack) && redoStack == old(redoStack)
      ensures Ended(ok, project) == if ids == [] then Raised(old(project))
                                    else Logged(ApproveAll(old(project), ids, now), now, BulkApproved)
      decreases true, 0
    {
      hide DoApprove, Audited;
      if ids == [] {
        return false;
      }
      for n := 0 to |ids|
        invariant mutationDepth == old(mutationDepth) && undoStack == old(undoStack) && redoStack == old(redoStack)
        invariant ApproveAll(project, ids[n..], now) == ApproveAll(old(project), ids, now)
      {
        assert ids[n..][0] == ids[n] && ids[n..][1..] == ids[n + 1..];
        ok := Perform(Action.ApprovePoint(ids[n]), now);
        if !ok {
          return;
        }
      }
      Audit(now, BulkApproved);
      ok := true;
    }

    method BulkChangeDescription(ids: seq<Id>, description: string, now: Time) returns (ok: bool)
      requires mutationDepth > 0
      modifies this
      ensures mutationDepth == old(mutationDepth) && undoStack == old(undoStack) && redoStack == old(redoStack)
      ensures Ended(ok, project) == if ids == [] then Raised(old(project))
                                    else Logged(DescribeAll(old(project), ids, description, now), now, BulkDescribed)
      decreases true, 0
    {
      hide DoEdit, Audited;
      if ids == [] {
        return false;
      }
      for n := 0 to |ids|
        invariant mutationDepth == old(mutationDepth) && undoStack == old(undoStack) && redoStack == old(redoStack)
        invariant DescribeAll(project, ids[n..], description, now) == DescribeAll(old(project), ids, description, now)
      {
        assert ids[n..][0] == ids[n] && ids[n..][1..] == ids[n + 1..];
        ok := Perform(Action.EditPoint(ids[n], DescriptionEdit(description)), now);
        if !ok {
          return;
        }
      }
      Audit(now, BulkDescribed);
      ok := true;
    }

    method IngestTextCandidates(found: seq<Found>, now: Time) returns (ok: bool)
      requires mutationDepth > 0
      modifies this
      ensures mutationDepth == old(mutationDepth) && undoStack == old(undoStack) && redoStack == old(redoStack)
      ensures Ended(ok, project) == Logged(IngestAll(old(project), found, now), now, BatchIngested)
      decreases true, 0
    {
      hide DoAddCandidate, Audited, NextId, Ids;
      for n := 0 to |found|
        invariant mutationDepth == old(mutationDepth) && undoStack == old(undoStack) && redoStack == old(redoStack)
        invariant IngestAll(project, found[n..], now) == IngestAll(old(project), found, now)
      {
        assert found[n..][0] == found[n] && found[n..][1..] == found[n + 1..];
        var f := found[n];
        if !InCrop(project, f.center) || !f.usable {
          continue;
        }
        var id := NextPointId(Ids(project.points));
        var status := if f.kind.Terrain() && f.confident then AutoHighConfidence else ReviewRequired;
        var point := CivilPoint(id, "", f.pageIndex, f.pixel, None, f.elevation, f.kind, f.source, status,
                                DefaultDescription(f.kind, ""), "", "", "", now, now, [], None);
        if !point.Ok() {
          return false;
        }
        ok := Perform(Action.AddCandidate(point), now);
        if !ok {
          return;
        }
      }
      Audit(now, BatchIngested);
      ok := true;
    }
  }
}
