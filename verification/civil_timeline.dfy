/**
 * Undo and redo over whole runs of a review session (`undoable`, `undo`, `redo` in
 * src/screen2xyz_civil/workflow.py), with exports in between (src/screen2xyz_civil/exports.py).
 */
module CivilTimeline {
  import opened Common
  import opened CivilActions
  import opened CivilLaws
  import opened CivilModel
  import opened PointIds
  import opened Sorting
  import opened Transform

  datatype State = State(project: Project, undo: seq<Snapshot>, redo: seq<Snapshot>)

  /** An outer action.  Where restoring the snapshot raises as well, the half-changed project stays. */
  function Perform(s: State, a: Action, now: Time): State {
    var snapshot := ToDict(s.project);
    match Effect(s.project, a, now)
    case Done(p) => State(p, s.undo + [snapshot], [])
    case Raised(p) =>
      match FromDict(snapshot)
      case Some(restored) => State(restored, s.undo, [])
      case None => State(p, s.undo + [snapshot], [])
  }

  function Last<T>(s: seq<T>): T
    requires s != []
  {
    s[|s| - 1]
  }

  function Front<T>(s: seq<T>): seq<T>
    requires s != []
  {
    s[..|s| - 1]
  }

  function Restored(p: Project, snapshot: Snapshot, now: Time, what: Happening): Project {
    match FromDict(snapshot)
    case Some(q) => Audited(q, now, what)
    case None => p
  }

  function UndoStep(s: State, now: Time): State {
    if s.undo == [] then s
    else State(Restored(s.project, Last(s.undo), now, Undone), Front(s.undo), s.redo + [ToDict(s.project)])
  }

  function RedoStep(s: State, now: Time): State {
    if s.redo == [] then s
    else State(Restored(s.project, Last(s.redo), now, Redone), s.undo + [ToDict(s.project)], Front(s.redo))
  }

  // ---- exports --------------------------------------------------------------------------------------

  function Chosen(selection: Option<set<Id>>): CivilPoint -> bool {
    (p: CivilPoint) => selection.None? || p.id in selection.value
  }

  function Rows(p: Project, selection: Option<set<Id>>): seq<CivilPoint> {
    Filter(ApprovedPoints(p.points), Chosen(selection))
  }

  /** A selection must name points of the cart, and at least one that is approved. */
  predicate SelectionOk(p: Project, selection: Option<set<Id>>) {
    selection.Some? ==> selection.value <= (set point | point in p.points :: point.id) && Rows(p, selection) != []
  }

  function Revision(p: Project): Option<int> {
    if p.calibration.Some? then Some(p.calibration.value.revision) else None
  }

  /** `published` is false when the quality gate, a writer or the final rename fails. */
  function ExportStep(p: Project, selection: Option<set<Id>>, published: bool, now: Time): Project {
    if !published || !SelectionOk(p, selection) then p
    else p.(exports := p.exports + [Export(now, Revision(p), Rows(p, selection), ApprovedPoints(p.points))],
            stale := false)
  }

  /** The bookkeeping of an export: it is made before the rename, and taken back if the rename fails. */
  method ExportHandoff(p: Project, selection: Option<set<Id>>, built: bool, renamed: bool, now: Time)
    returns (q: Project, ok: bool)
    ensures ok == (built && renamed && SelectionOk(p, selection))
    ensures q == ExportStep(p, selection, built && renamed, now)
  {
    q := p;
    var historyLength, priorStale := |q.exports|, q.stale;
    if built && SelectionOk(p, selection) {
      var approved := ApprovedPoints(p.points);
      var rows := Filter(approved, Chosen(selection));
      q := q.(exports := q.exports + [Export(now, Revision(p), rows, approved)], stale := false);
      if renamed {
        return q, true;
      }
    }
    q := q.(exports := q.exports[..historyLength], stale := priorStale);
    ok := false;
  }

  // ---- whole runs -------------------------------------------------------------------------------------

  datatype Event =
    | Act(action: Action, now: Time)
    | Undo(now: Time)
    | Redo(now: Time)
    | Handoff(selection: Option<set<Id>>, published: bool, now: Time)

  function Step(s: State, e: Event): State {
    match e
    case Act(a, now) => Perform(s, a, now)
    case Undo(now) => UndoStep(s, now)
    case Redo(now) => RedoStep(s, now)
    case Handoff(selection, published, now) => s.(project := ExportStep(s.project, selection, published, now))
  }

  function Run(s: State, events: seq<Event>): State
    decreases |events|
  {
    if events == [] then s else Run(Step(s, events[0]), events[1..])
  }

  /** Arguments are well formed and no point is moved to a negative pixel. */
  predicate Proper(e: Event) {
    e.Act? ==> WellFormed(e.action) && !MovesOffPage(e.action)
  }

  predicate AllProper(events: seq<Event>) {
    forall i :: 0 <= i < |events| ==> Proper(events[i])
  }

  // ---- every project in sight is coherent and fresh -----------------------------------------------------

  predicate Good(p: Project) { Coherent(p) && Fresh(p) }

  predicate AllGood(snapshots: seq<Snapshot>) {
    forall i :: 0 <= i < |snapshots| ==> Good(Described(snapshots[i]))
  }

  predicate Inv(s: State) { Good(s.project) && AllGood(s.undo) && AllGood(s.redo) }

  lemma PushGood(snapshots: seq<Snapshot>, p: Project)
    requires AllGood(snapshots) && Good(p)
    ensures AllGood(snapshots + [ToDict(p)])
  {
    DescribedIsFaithful(p);
    hide Good, ToDict, Described;
  }

  lemma RestoredGood(p: Project, snapshot: Snapshot, now: Time, what: Happening)
    requires Good(Described(snapshot))
    ensures FromDict(snapshot) == Some(Described(snapshot))
    ensures Restored(p, snapshot, now, what) == Audited(Described(snapshot), now, what)
    ensures Good(Restored(p, snapshot, now, what))
  {
  }

  lemma ExportGood(p: Project, selection: Option<set<Id>>, published: bool, now: Time)
    requires Good(p)
    ensures Good(ExportStep(p, selection, published, now))
  {
    hide PointsCohere, FrameCoheres, ApprovedPoints, SelectionOk;
  }

  lemma StepKeepsInv(s: State, e: Event)
    requires Inv(s) && Proper(e)
    ensures Inv(Step(s, e))
  {
    hide ToDict, Described, Audited, Coherent, Fresh, Effect, ExportStep, WellFormed, MovesOffPage;
    match e
    case Act(a, now) =>
      SnapshotRoundTrip(s.project);
      CoherentIsLoadable(s.project);
      hide FromDict, Loadable;
      if Effect(s.project, a, now).Done? {
        ActionKeeps(s.project, a, now);
        PushGood(s.undo, s.project);
      }
    case Undo(now) =>
      if s.undo != [] {
        RestoredGood(s.project, Last(s.undo), now, Undone);
        PushGood(s.redo, s.project);
        hide Restored, FromDict;
      }
    case Redo(now) =>
      if s.redo != [] {
        RestoredGood(s.project, Last(s.redo), now, Redone);
        PushGood(s.undo, s.project);
        hide Restored, FromDict;
      }
    case Handoff(selection, published, now) => ExportGood(s.project, selection, published, now);
  }

  /**
   * Coherence in every reachable state: after any run of actions, undos, redos and exports, the
   * project and every snapshot on either stack are coherent and no export is wrongly called fresh.
   */
  lemma {:induction false} RunKeepsInv(s: State, events: seq<Event>)
    requires Inv(s) && AllProper(events)
    ensures Inv(Run(s, events))
    decreases |events|
  {
    hide Inv, Step, Proper;
    if events != [] {
      StepKeepsInv(s, events[0]);
      assert forall i :: 0 <= i < |events[1..]| ==> events[1..][i] == events[i + 1];
      RunKeepsInv(Step(s, events[0]), events[1..]);
    }
  }

  function NewProject(width: real, height: real, now: Time): Project {
    Project(width, height, None, None, [], -1000.0, 10000.0, [], [], true, [], now)
  }

  /** The two promises, spelled out for a session that starts from a new project. */
  lemma SessionIsCoherent(width: real, height: real, start: Time, events: seq<Event>)
    requires AllProper(events)
    ensures var p := Run(State(NewProject(width, height, start), [], []), events).project;
      && (forall i, j :: 0 <= i < j < |p.points| ==> p.points[i].id != p.points[j].id)
      && (forall i :: 0 <= i < |p.points| && p.calibration.Some? ==>
            p.points[i].local == Some(ToLocal(p.points[i].pixel, p.calibration.value))
            && p.points[i].revision == Some(p.calibration.value.revision))
      && (forall i :: 0 <= i < |p.points| && p.points[i].status.IsApproved() ==>
            p.points[i].kind.Terrain() && p.points[i].local.Some?)
      && (forall i :: 0 <= i < |p.history| ==> p.history[i].revision == i + 1)
      && (p.calibration.Some? ==> p.calibration.value.revision == |p.history| + 1)
  {
    var s := State(NewProject(width, height, start), [], []);
    RunKeepsInv(s, events);
    hide Run, Usable, ToLocal;
  }

  lemma ExportsStayFresh(width: real, height: real, start: Time, events: seq<Event>)
    requires AllProper(events)
    ensures var p := Run(State(NewProject(width, height, start), [], []), events).project;
      !p.stale ==> p.exports != [] && Last(p.exports).approved == ApprovedPoints(p.points)
  {
    var s := State(NewProject(width, height, start), [], []);
    RunKeepsInv(s, events);
    hide Run, Coherent, ApprovedPoints;
  }

  /**
   * What was written, though, is the selection: an export clears the stale mark, yet shows the whole
   * approved list only if every approved point was selected.
   */
  lemma PartialExportLooksFresh(p: Project, selection: set<Id>, now: Time)
    requires SelectionOk(p, Some(selection))
    ensures var q := ExportStep(p, Some(selection), true, now);
      !q.stale
      && (Last(q.exports).rows == ApprovedPoints(q.points)
          <==> forall point :: point in p.points && Exportable(point) ==> point.id in selection)
  {
    var approved := ApprovedPoints(p.points);
    var chosen := Chosen(Some(selection));
    ApprovedMembers(p.points);
    FilterAll(approved, chosen);
    hide ApprovedPoints, SelectionOk, Filter;
  }

  predicate Selected(c: CivilPoint, selection: Option<set<Id>>) { selection.None? || c.id in selection.value }

  /**
   * An export goes into the history exactly when it is published and a selection, if there is one, names points
   * of the cart only and an exportable one among them; it holds the selected exportable points, no others, in the
   * order of the approved list.
   */
  lemma ExportExactly(p: Project, selection: Option<set<Id>>, published: bool, now: Time)
    ensures var q := ExportStep(p, selection, published, now);
      && (q == p || |q.exports| == |p.exports| + 1)
      && (|q.exports| == |p.exports| + 1 <==>
           && published
           && (selection.Some? ==>
                && (forall id :: id in selection.value ==> exists c :: c in p.points && c.id == id)
                && (exists c :: c in p.points && Exportable(c) && c.id in selection.value)))
      && (|q.exports| == |p.exports| + 1 ==>
           var x := q.exports[|p.exports|];
           && q == p.(exports := p.exports + [x], stale := false)
           && x.at == now && x.revision == Revision(p) && x.approved == ApprovedPoints(p.points)
           && (forall c :: c in x.rows <==> c in p.points && Exportable(c) && Selected(c, selection))
           && Sorted(x.rows, ByNumber()))
  {
    hide ApprovedPoints, Exportable;
    var approved := ApprovedPoints(p.points);
    ApprovedMembers(p.points);
    FilterMembers(approved, Chosen(selection));
    ApprovedInOrder(p.points);
    ByNumberIsPreorder();
    FilterSorted(approved, Chosen(selection), ByNumber());
    var rows := Rows(p, selection);
    assert rows != [] ==> rows[0] in rows;
    if selection.Some? {
      SelectionMeans(p, selection.value);
    }
    hide Rows, SelectionOk;
  }

  lemma SelectionMeans(p: Project, selection: set<Id>)
    ensures SelectionOk(p, Some(selection)) <==>
      && (forall id :: id in selection ==> exists c :: c in p.points && c.id == id)
      && Rows(p, Some(selection)) != []
  {
    hide Rows;
    var known := set point | point in p.points :: point.id;
    assert selection <= known <==> forall id :: id in selection ==> id in known;
  }

  function ApprovedAt(id: Id, pixel: Point, c: Calibration): CivilPoint {
    Located(CivilPoint(id, id.text, 0, pixel, None, 10.0, ExistingGround, Manual, Approved, "", "", "", "", 0, 0, [],
                       None), Some(c))
  }

  function TwoApproved(): Project {
    var c := Calibration(1, 0.5, Point(0.0, 100.0), 1.0, 0.0, 0.0, 0.0, None);
    var points := [ApprovedAt(Id("PT-0001"), Point(5.0, 5.0), c), ApprovedAt(Id("PT-0002"), Point(9.0, 5.0), c)];
    NewProject(100.0, 100.0, 0).(calibration := Some(c), points := points)
  }

  lemma ApprovedAtKeeps(id: Id, pixel: Point, c: Calibration)
    requires HasPrefix(id) && pixel.x >= 0.0 && pixel.y >= 0.0
    ensures var point := ApprovedAt(id, pixel, c); Keeps(point, Some(c)) && Exportable(point) && point.id == id
  {
    hide ToLocal, HasPrefix;
  }

  lemma TwoIds()
    ensures HasPrefix(Id("PT-0001")) && HasPrefix(Id("PT-0002")) && Id("PT-0001") != Id("PT-0002")
  {
    assert "PT-0001"[..3] == "PT-" && "PT-0002"[..3] == "PT-" && "PT-0001"[6] != "PT-0002"[6];
  }

  lemma TwoApprovedIsGood()
    ensures Inv(State(TwoApproved(), [], []))
    ensures var points := TwoApproved().points;
      && points[0].id == Id("PT-0001") && points[0].id != points[1].id
      && Exportable(points[0]) && Exportable(points[1])
  {
    hide ApprovedAt, Keeps, HasPrefix, Exportable, ApprovedPoints;
    var c := TwoApproved().calibration.value;
    TwoIds();
    ApprovedAtKeeps(Id("PT-0001"), Point(5.0, 5.0), c);
    ApprovedAtKeeps(Id("PT-0002"), Point(9.0, 5.0), c);
  }

  /** A selection that names an exportable point, and only points of the cart, passes. */
  lemma SelectionPasses(p: Project, chosen: CivilPoint, left: CivilPoint)
    requires chosen in p.points && Exportable(chosen) && left in p.points && Exportable(left) && chosen.id != left.id
    ensures SelectionOk(p, Some({chosen.id}))
    ensures !forall point :: point in p.points && Exportable(point) ==> point.id in {chosen.id}
  {
    hide ApprovedPoints, Exportable;
    ApprovedMembers(p.points);
    FilterMembers(ApprovedPoints(p.points), Chosen(Some({chosen.id})));
    assert chosen in Rows(p, Some({chosen.id}));
  }

  /** It happens: of two approved points only the first is exported, and the project no longer counts as stale. */
  lemma PartialExportHappens(now: Time)
    ensures var s, selection := State(TwoApproved(), [], []), Some({Id("PT-0001")});
      var q := ExportStep(s.project, selection, true, now);
      && Inv(s) && SelectionOk(s.project, selection)
      && !q.stale && Last(q.exports).rows != ApprovedPoints(q.points)
  {
    hide ApprovedPoints, Inv, ToLocal, ExportStep, SelectionOk, Rows;
    var p := TwoApproved();
    var first, second := p.points[0], p.points[1];
    TwoApprovedIsGood();
    SelectionPasses(p, first, second);
    PartialExportLooksFresh(p, {first.id}, now);
    KeepsPoints(p, Some({first.id}), now);
  }

  lemma KeepsPoints(p: Project, selection: Option<set<Id>>, now: Time)
    ensures ExportStep(p, selection, true, now).points == p.points
  {
    hide SelectionOk, Rows, ApprovedPoints;
  }

  lemma {:induction false} FilterAll<T(!new)>(s: seq<T>, f: T -> bool)
    ensures Filter(s, f) == s <==> forall x :: x in s ==> f(x)
  {
    if forall x :: x in s ==> f(x) {
      if s != [] {
        assert s[0] in s && forall x :: x in s[1..] ==> x in s;
        FilterAll(s[1..], f);
      }
    }
    FilterMembers(s, f);
  }

  // ---- undo and redo move a cursor along one timeline ------------------------------------------------------

  /** A project without the parts that undo leaves a trace in. */
  function Core(p: Project): Project { p.(log := [], updated := 0) }

  function Past(undo: seq<Snapshot>): (r: seq<Project>)
    ensures |r| == |undo|
    decreases |undo|
  {
    if undo == [] then [] else Past(Front(undo)) + [Core(Described(Last(undo)))]
  }

  function Future(redo: seq<Snapshot>): (r: seq<Project>)
    ensures |r| == |redo|
    decreases |redo|
  {
    if redo == [] then [] else [Core(Described(Last(redo)))] + Future(Front(redo))
  }

  datatype Timeline = Timeline(states: seq<Project>, at: nat)

  function TimelineOf(s: State): (t: Timeline)
    ensures t.at < |t.states|
  {
    Timeline(Past(s.undo) + [Core(s.project)] + Future(s.redo), |s.undo|)
  }

  datatype Move = Commit(core: Project) | Abandon | Back | Forth | Amend(core: Project)

  function MoveOf(s: State, e: Event): Move {
    match e
    case Act(a, now) =>
      var o := Effect(s.project, a, now);
      if o.Done? then Commit(Core(o.project)) else Abandon
    case Undo(_) => Back
    case Redo(_) => Forth
    case Handoff(selection, published, now) => Amend(Core(ExportStep(s.project, selection, published, now)))
  }

  /** Committing and abandoning forget the future; going back and forth forgets nothing. */
  function Moved(t: Timeline, m: Move): (r: Timeline)
    requires t.at < |t.states|
    ensures r.at < |r.states|
  {
    match m
    case Commit(core) => Timeline(t.states[..t.at + 1] + [core], t.at + 1)
    case Abandon => Timeline(t.states[..t.at + 1], t.at)
    case Back => if t.at == 0 then t else t.(at := t.at - 1)
    case Forth => if t.at + 1 == |t.states| then t else t.(at := t.at + 1)
    case Amend(core) => t.(states := t.states[t.at := core])
  }

  lemma PastPush(undo: seq<Snapshot>, p: Project)
    ensures Past(undo + [ToDict(p)]) == Past(undo) + [Core(p)]
  {
  }

  lemma FuturePush(redo: seq<Snapshot>, p: Project)
    ensures Future(redo + [ToDict(p)]) == [Core(p)] + Future(redo)
  {
  }

  lemma AuditedCore(p: Project, now: Time, what: Happening)
    ensures Core(Audited(p, now, what)) == Core(p)
  {
  }

  lemma CommitMoves(s: State, p: Project)
    ensures TimelineOf(State(p, s.undo + [ToDict(s.project)], [])) == Moved(TimelineOf(s), Commit(Core(p)))
  {
  }

  lemma AbandonMoves(s: State)
    ensures TimelineOf(State(s.project, s.undo, [])) == Moved(TimelineOf(s), Abandon)
  {
  }

  lemma BackMoves(s: State, now: Time)
    requires s.undo != [] && AllGood(s.undo)
    ensures TimelineOf(UndoStep(s, now)) == Moved(TimelineOf(s), Back)
  {
    var last := Last(s.undo);
    RestoredGood(s.project, last, now, Undone);
    AuditedCore(Described(last), now, Undone);
    FuturePush(s.redo, s.project);
    assert Past(s.undo) == Past(Front(s.undo)) + [Core(Described(last))];
    hide Past, Future, Core, ToDict, Audited, Restored, Described, FromDict, Good;
    var a, b, c, d := Past(Front(s.undo)), [Core(Described(last))], [Core(s.project)], Future(s.redo);
    assert (a + b) + c + d == a + b + (c + d);
  }

  lemma ForthMoves(s: State, now: Time)
    requires s.redo != [] && AllGood(s.redo)
    ensures TimelineOf(RedoStep(s, now)) == Moved(TimelineOf(s), Forth)
  {
    var last := Last(s.redo);
    RestoredGood(s.project, last, now, Redone);
    AuditedCore(Described(last), now, Redone);
    PastPush(s.undo, s.project);
    assert Future(s.redo) == [Core(Described(last))] + Future(Front(s.redo));
    hide Past, Future, Core, ToDict, Audited, Restored, Described, FromDict, Good;
    var a, b, c, d := Past(s.undo), [Core(s.project)], [Core(Described(last))], Future(Front(s.redo));
    assert (a + b) + c + d == a + b + (c + d);
  }

  lemma AmendMoves(s: State, p: Project)
    ensures TimelineOf(s.(project := p)) == Moved(TimelineOf(s), Amend(Core(p)))
  {
    hide Past, Future, Core;
    var a, b, c := Past(s.undo), [Core(s.project)], Future(s.redo);
    assert (a + b + c)[|a| := Core(p)] == a + [Core(p)] + c;
  }

  lemma ActMoves(s: State, a: Action, now: Time)
    requires Inv(s)
    ensures TimelineOf(Perform(s, a, now)) == Moved(TimelineOf(s), MoveOf(s, Act(a, now)))
  {
    SnapshotRoundTrip(s.project);
    CoherentIsLoadable(s.project);
    hide Effect, ToDict, FromDict, Inv, Coherent, Fresh, Loadable, TimelineOf, Moved, Core;
    var o := Effect(s.project, a, now);
    if o.Done? {
      CommitMoves(s, o.project);
    } else {
      AbandonMoves(s);
    }
  }

  lemma UndoStepMoves(s: State, now: Time)
    requires Inv(s)
    ensures TimelineOf(UndoStep(s, now)) == Moved(TimelineOf(s), Back)
  {
    InvParts(s);
    NothingToUndo(s, now);
    CurrentState(s);
    hide Inv, UndoStep, RedoStep, TimelineOf, Core, AllGood;
    if s.undo != [] {
      BackMoves(s, now);
    }
  }

  lemma RedoStepMoves(s: State, now: Time)
    requires Inv(s)
    ensures TimelineOf(RedoStep(s, now)) == Moved(TimelineOf(s), Forth)
  {
    InvParts(s);
    NothingToRedo(s, now);
    CurrentState(s);
    hide Inv, UndoStep, RedoStep, TimelineOf, Core, AllGood;
    if s.redo != [] {
      ForthMoves(s, now);
    }
  }

  /** The stacks of snapshots behave as one timeline with a cursor. */
  lemma StepMovesCursor(s: State, e: Event)
    requires Inv(s) && Proper(e)
    ensures TimelineOf(Step(s, e)) == Moved(TimelineOf(s), MoveOf(s, e))
  {
    hide Inv, Perform, UndoStep, RedoStep, ExportStep, Effect, TimelineOf, Moved, Core;
    match e
    case Act(a, now) => ActMoves(s, a, now);
    case Undo(now) => UndoStepMoves(s, now);
    case Redo(now) => RedoStepMoves(s, now);
    case Handoff(selection, published, now) => AmendMoves(s, ExportStep(s.project, selection, published, now));
  }

  lemma NothingToUndo(s: State, now: Time)
    ensures s.undo == [] ==> UndoStep(s, now) == s
  {
  }

  lemma NothingToRedo(s: State, now: Time)
    ensures s.redo == [] ==> RedoStep(s, now) == s
  {
  }

  function MovesOf(s: State, events: seq<Event>): seq<Move>
    decreases |events|
  {
    if events == [] then [] else [MoveOf(s, events[0])] + MovesOf(Step(s, events[0]), events[1..])
  }

  function MovedAlong(t: Timeline, moves: seq<Move>): Timeline
    requires t.at < |t.states|
    decreases |moves|
  {
    if moves == [] then t else MovedAlong(Moved(t, moves[0]), moves[1..])
  }

  /** The same over whole runs: the state machine refines the cursor machine. */
  lemma {:induction false} RunMovesCursor(s: State, events: seq<Event>)
    requires Inv(s) && AllProper(events)
    ensures TimelineOf(Run(s, events)) == MovedAlong(TimelineOf(s), MovesOf(s, events))
    decreases |events|
  {
    hide Inv, Step, Proper, TimelineOf, Moved, MoveOf;
    if events != [] {
      var next := Step(s, events[0]);
      StepKeepsInv(s, events[0]);
      StepMovesCursor(s, events[0]);
      assert forall i :: 0 <= i < |events[1..]| ==> events[1..][i] == events[i + 1];
      RunMovesCursor(next, events[1..]);
      assert MovesOf(s, events)[1..] == MovesOf(next, events[1..]);
    }
  }

  // ---- what that means for the estimator ---------------------------------------------------------------------

  lemma CurrentState(s: State)
    ensures TimelineOf(s).states[TimelineOf(s).at] == Core(s.project) && TimelineOf(s).at == |s.undo|
    ensures |TimelineOf(s).states| == |s.undo| + 1 + |s.redo|
  {
  }

  lemma CursorSteps(t: Timeline)
    requires t.at < |t.states|
    ensures t.at > 0 ==> Moved(t, Back) == Timeline(t.states, t.at - 1)
    ensures t.at + 1 < |t.states| ==> Moved(t, Forth) == Timeline(t.states, t.at + 1)
  {
  }

  lemma InvParts(s: State)
    requires Inv(s)
    ensures AllGood(s.undo) && AllGood(s.redo)
  {
    hide AllGood, Good;
  }

  lemma UndoKeepsInv(s: State, now: Time)
    requires Inv(s)
    ensures Inv(UndoStep(s, now))
  {
    hide Inv, UndoStep, RedoStep, Perform;
    StepKeepsInv(s, Undo(now));
  }

  lemma RedoKeepsInv(s: State, now: Time)
    requires Inv(s)
    ensures Inv(RedoStep(s, now))
  {
    hide Inv, UndoStep, RedoStep, Perform;
    StepKeepsInv(s, Redo(now));
  }

  lemma StackLengths(s: State, now: Time)
    ensures s.undo != [] ==> |UndoStep(s, now).undo| == |s.undo| - 1 && |UndoStep(s, now).redo| == |s.redo| + 1
    ensures s.redo != [] ==> |RedoStep(s, now).undo| == |s.undo| + 1 && |RedoStep(s, now).redo| == |s.redo| - 1
  {
    hide Restored, ToDict;
  }

  lemma UndoMovesBack(s: State, now: Time)
    requires Inv(s) && s.undo != []
    ensures Inv(UndoStep(s, now))
    ensures TimelineOf(UndoStep(s, now)) == Timeline(TimelineOf(s).states, |s.undo| - 1)
    ensures |UndoStep(s, now).undo| == |s.undo| - 1 && |UndoStep(s, now).redo| == |s.redo| + 1
  {
    hide Inv, TimelineOf, Moved, Core, UndoStep, RedoStep;
    UndoKeepsInv(s, now);
    StackLengths(s, now);
    UndoStepMoves(s, now);
    CurrentState(s);
    CursorSteps(TimelineOf(s));
  }

  lemma RedoMovesForth(s: State, now: Time)
    requires Inv(s) && s.redo != []
    ensures Inv(RedoStep(s, now))
    ensures TimelineOf(RedoStep(s, now)) == Timeline(TimelineOf(s).states, |s.undo| + 1)
    ensures |RedoStep(s, now).undo| == |s.undo| + 1 && |RedoStep(s, now).redo| == |s.redo| - 1
  {
    hide Inv, TimelineOf, Moved, Core, UndoStep, RedoStep;
    RedoKeepsInv(s, now);
    StackLengths(s, now);
    RedoStepMoves(s, now);
    CurrentState(s);
    CursorSteps(TimelineOf(s));
  }

  /** Undo then redo, and redo then undo, change nothing but the log and the time stamp. */
  lemma UndoRedoIsIdentity(s: State, t1: Time, t2: Time)
    requires Inv(s)
    ensures s.undo != [] ==> TimelineOf(RedoStep(UndoStep(s, t1), t2)) == TimelineOf(s)
    ensures s.redo != [] ==> TimelineOf(UndoStep(RedoStep(s, t1), t2)) == TimelineOf(s)
  {
    hide Inv, UndoStep, RedoStep, TimelineOf, Core;
    CurrentState(s);
    if s.undo != [] {
      UndoMovesBack(s, t1);
      RedoMovesForth(UndoStep(s, t1), t2);
    }
    if s.redo != [] {
      RedoMovesForth(s, t1);
      UndoMovesBack(RedoStep(s, t1), t2);
    }
  }

  /** A failed action leaves project and undo stack exactly as they were, and empties the redo stack. */
  lemma FailedActionRollsBack(s: State, a: Action, now: Time)
    requires Effect(s.project, a, now).Raised?
    ensures Perform(s, a, now).redo == []
    ensures Perform(s, a, now) == State(s.project, s.undo, []) <==> Loadable(s.project)
  {
    SnapshotRoundTrip(s.project);
    hide Effect, ToDict, FromDict, Loadable;
    assert |s.undo + [ToDict(s.project)]| != |s.undo|;
  }

  /** Events that are all actions, some of which may fail. */
  predicate AllActs(events: seq<Event>) {
    forall i :: 0 <= i < |events| ==> events[i].Act?
  }

  function Successes(s: State, events: seq<Event>): nat
    decreases |events|
  {
    if events == [] then 0
    else (if MoveOf(s, events[0]).Commit? then 1 else 0) + Successes(Step(s, events[0]), events[1..])
  }

  function UndoMany(s: State, k: nat, now: Time): State
    decreases k
  {
    if k == 0 then s else UndoMany(UndoStep(s, now), k - 1, now)
  }

  function RedoMany(s: State, k: nat, now: Time): State
    decreases k
  {
    if k == 0 then s else RedoMany(RedoStep(s, now), k - 1, now)
  }

  /** `u` is ahead of `t` by `k` states and agrees with it up to the cursor of `t`. */
  predicate Ahead(t: Timeline, u: Timeline, k: nat) {
    t.at < |t.states| && u.at == t.at + k < |u.states| && t.states[..t.at + 1] == u.states[..t.at + 1]
  }

  lemma AheadTrans(t: Timeline, u: Timeline, v: Timeline, j: nat, k: nat)
    requires Ahead(t, u, j) && Ahead(u, v, k)
    ensures Ahead(t, v, j + k)
  {
  }

  lemma ActionAhead(t: Timeline, m: Move)
    requires t.at < |t.states| && (m.Commit? || m.Abandon?)
    ensures Ahead(t, Moved(t, m), if m.Commit? then 1 else 0)
  {
  }

  /** Actions never touch what lies at or before the cursor, and move it by the number that succeed. */
  lemma {:induction false} ActionsExtend(s: State, events: seq<Event>)
    requires Inv(s) && AllProper(events) && AllActs(events)
    ensures Ahead(TimelineOf(s), TimelineOf(Run(s, events)), Successes(s, events))
    decreases |events|
  {
    hide Inv, Step, Proper, TimelineOf, Moved, Core, Effect, Ahead;
    if events == [] {
      AheadOfItself(TimelineOf(s));
    } else {
      var next := Step(s, events[0]);
      StepKeepsInv(s, events[0]);
      StepMovesCursor(s, events[0]);
      ActionAhead(TimelineOf(s), MoveOf(s, events[0]));
      assert forall i :: 0 <= i < |events[1..]| ==> events[1..][i] == events[i + 1];
      ActionsExtend(next, events[1..]);
      AheadTrans(TimelineOf(s), TimelineOf(next), TimelineOf(Run(s, events)),
                 if MoveOf(s, events[0]).Commit? then 1 else 0, Successes(next, events[1..]));
    }
  }

  lemma AheadOfItself(t: Timeline)
    requires t.at < |t.states|
    ensures Ahead(t, t, 0)
  {
  }

  lemma {:induction false} UndoManyMoves(s: State, k: nat, now: Time)
    requires Inv(s) && k <= |s.undo|
    ensures Inv(UndoMany(s, k, now)) && |UndoMany(s, k, now).redo| == |s.redo| + k
    ensures TimelineOf(UndoMany(s, k, now)) == Timeline(TimelineOf(s).states, |s.undo| - k)
    decreases k
  {
    hide Inv, UndoStep, TimelineOf, Core;
    CurrentState(s);
    if k > 0 {
      UndoMovesBack(s, now);
      UndoManyMoves(UndoStep(s, now), k - 1, now);
    }
  }

  lemma {:induction false} RedoManyMoves(s: State, k: nat, now: Time)
    requires Inv(s) && k <= |s.redo|
    ensures TimelineOf(RedoMany(s, k, now)) == Timeline(TimelineOf(s).states, |s.undo| + k)
    decreases k
  {
    hide Inv, RedoStep, TimelineOf, Core;
    CurrentState(s);
    if k > 0 {
      RedoMovesForth(s, now);
      RedoManyMoves(RedoStep(s, now), k - 1, now);
    }
  }

  /**
   * After any actions of which k succeed, k undos bring the project back to what it was, and k redos
   * after that bring it back to what it had become, log and time stamp aside.
   */
  lemma UndosReverseActions(s: State, events: seq<Event>, now: Time)
    requires Inv(s) && AllProper(events) && AllActs(events)
    ensures var k, after := Successes(s, events), Run(s, events);
      var before := UndoMany(after, k, now);
      && Core(before.project) == Core(s.project)
      && |before.undo| == |s.undo|
      && Core(RedoMany(before, k, now).project) == Core(after.project)
  {
    var k, after := Successes(s, events), Run(s, events);
    var before := UndoMany(after, k, now);
    ActionsExtend(s, events);
    RunKeepsInv(s, events);
    CurrentState(s);
    CurrentState(after);
    hide Inv, TimelineOf, Core, UndoMany, RedoMany, Run, Successes;
    UndoManyMoves(after, k, now);
    CurrentState(before);
    RedoManyMoves(before, k, now);
    CurrentState(RedoMany(before, k, now));
    var t, u := TimelineOf(s), TimelineOf(after);
    assert t.states[..t.at + 1][t.at] == u.states[..t.at + 1][t.at];
  }

  // ---- the one way out: a point moved off the page -----------------------------------------------------------

  lemma OffPageEdit(p: Project, id: Id, edit: Edit, now: Time)
    requires MovesOffPage(EditPoint(id, edit)) && DoEdit(p, id, edit, now).Done?
    ensures !Loadable(DoEdit(p, id, edit, now).project)
  {
    var i := IndexOf(p.points, id).value;
    var q := DoEdit(p, id, edit, now).project;
    assert q.points[i].pixel == edit.pixel.value by {
      hide ToLocal, NumberTaken;
    }
    hide DoEdit, UniqueIds, Usable;
    assert !q.points[i].Ok();
  }

  /** A successful action leaves a project that can be loaded again exactly when it moves no point off the page. */
  lemma LoadableUnlessOffPage(p: Project, a: Action, now: Time)
    requires Good(p) && WellFormed(a) && Effect(p, a, now).Done?
    ensures Loadable(Effect(p, a, now).project) <==> !MovesOffPage(a)
  {
    if MovesOffPage(a) {
      OffPageEdit(p, a.id, a.edit, now);
    } else {
      ActionKeeps(p, a, now);
      CoherentIsLoadable(Effect(p, a, now).project);
    }
  }

  lemma UndoneTo(p: Project, undo: seq<Snapshot>, snapshot: Snapshot, now: Time)
    requires FromDict(snapshot).Some?
    ensures UndoStep(State(p, undo + [snapshot], []), now)
         == State(Audited(FromDict(snapshot).value, now, Undone), undo, [ToDict(p)])
  {
    hide ToDict, FromDict, Audited;
    assert Front(undo + [snapshot]) == undo;
  }

  lemma RedoRefused(p: Project, undo: seq<Snapshot>, snapshot: Snapshot, now: Time)
    requires FromDict(snapshot).None?
    ensures RedoStep(State(p, undo, [snapshot]), now) == State(p, undo + [ToDict(p)], [])
  {
    hide ToDict, FromDict;
    assert Front([snapshot]) == [];
  }

  lemma PerformDone(s: State, a: Action, now: Time)
    requires Effect(s.project, a, now).Done?
    ensures Perform(s, a, now) == State(Effect(s.project, a, now).project, s.undo + [ToDict(s.project)], [])
  {
    hide Effect, ToDict, FromDict;
  }

  /** Undoing and redoing such a move loses it: redo raises with its entry already taken off the stack. */
  lemma OffPageMoveIsLost(s: State, a: Action, now: Time)
    requires Inv(s) && MovesOffPage(a) && WellFormed(a) && Effect(s.project, a, now).Done?
    ensures var after := RedoStep(UndoStep(Perform(s, a, now), now), now);
      after.redo == [] && Core(after.project) == Core(s.project)
      && Last(after.undo) == ToDict(after.project)
  {
    var p := Effect(s.project, a, now).project;
    LoadableUnlessOffPage(s.project, a, now);
    CoherentIsLoadable(s.project);
    SnapshotRoundTrip(p);
    SnapshotRoundTrip(s.project);
    PerformDone(s, a, now);
    hide Effect, ToDict, Loadable, FromDict, Inv, Core, Audited, Perform, UndoStep, RedoStep, MovesOffPage;
    var q := Audited(s.project, now, Undone);
    UndoneTo(p, s.undo, ToDict(s.project), now);
    RedoRefused(q, s.undo, ToDict(p), now);
    AuditedCore(s.project, now, Undone);
  }

  function PageWithOnePoint(): Project {
    var point := CivilPoint(Id("PT-0001"), "1", 0, Point(5.0, 5.0), None, 10.0, ExistingGround, Manual, Unreviewed,
                            "", "", "", "", 0, 0, [], None);
    NewProject(100.0, 100.0, 0).(points := [point])
  }

  /** It does happen: on a page without a crop, a point moved one pixel past the left border. */
  lemma OffPageMoveHappens()
    ensures var s := State(PageWithOnePoint(), [], []);
      var a := EditPoint(Id("PT-0001"), Edit(None, Keep, Some(Point(-1.0, 5.0)), None, None, None, None, None));
      Inv(s) && WellFormed(a) && MovesOffPage(a) && Effect(s.project, a, 1).Done?
  {
    var p := PageWithOnePoint();
    assert "PT-0001"[..3] == "PT-";
    assert p.points[0].Ok() && Keeps(p.points[0], None);
    assert IndexFrom(p.points, Id("PT-0001"), 0) == Some(0);
  }
}
