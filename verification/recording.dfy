/**
 * One recording session as a state machine: engine, journal, skip counter and
 * pause state move together (src/screen2xyz_m2/controller.py, journal.py).
 *
 * `Next` is one step of the session; the lemmas hold for every step and, by
 * `RunKeepsInv`, for every run.  The classes that carry the steps out are in
 * controller.dfy.
 */
module Recording {
  import opened Common
  import opened Stability
  import opened StabilityLaws

  const DISK_STOP_BYTES := 500 * MIB
  const FAILURE_STREAK_LIMIT := 3

  datatype PauseReason =
    | UserRequest | PauseTargetUnavailable | TargetMinimizedStreak | DisplayInvalidated
    | BackendBlankStreak | WorkerFailureStreak | DiskLimit | CropWriteFailure
    | EvidenceBufferLimit

  /** Where, if anywhere, writing the event fails; nothing of the line itself is written then. */
  datatype Fault = NoFault | CropFault | LineFault

  /** What the disk does to one append: crop bytes written before any fault, and the line's length. */
  datatype Io = Io(cropBytes: nat, lineLength: nat, fault: Fault)

  datatype Event = Event(
    seqNo: nat, status: EventStatus, changedIds: set<SourceId>, reasons: seq<Reason>,
    signature: Signature, skipped: nat)

  datatype Journal = Journal(events: seq<Event>, eventSeq: nat, diskBytes: nat)

  /** append_event: None when it raises a storage failure for the given reason. */
  function Appended(j: Journal, e: Event, io: Io): (Journal, Option<PauseReason>) {
    if j.diskBytes >= DISK_STOP_BYTES then (j, Some(DiskLimit))
    else if io.fault != NoFault then (j.(diskBytes := j.diskBytes + io.cropBytes), Some(CropWriteFailure))
    else
      (Journal(j.events + [e.(seqNo := j.eventSeq + 1)], j.eventSeq + 1,
               j.diskBytes + io.cropBytes + io.lineLength + 1), None)
  }

  datatype Session = Session(
    engine: Engine, journal: Journal, skipped: nat, skippedTicks: nat,
    recording: bool, pause: Option<PauseReason>, failures: nat,
    seen: map<SourceId, seq<Sample>>)

  /**
   * `StartedAgain`: after any pause the operator can disarm, preview again and start; the recording goes on
   * with the same journal and the same engine.
   */
  datatype Step =
    | Captured(tick: Tick, framePause: Option<PauseReason>, io: Io)
    | WorkerDown(downIo: Io, respawned: bool)
    | TickSkipped
    | UserPaused(pauseAnswered: bool)
    | UserResumed(resumeAnswered: bool)
    | StartedAgain

  function EnterPause(s: Session, reason: PauseReason): Session {
    s.(recording := false, pause := Some(reason), engine := Discarded(s.engine))
  }

  function Consumed(skipped: nat, count: nat): nat {
    if skipped >= count then skipped - count else 0
  }

  function EventOf(d: Decision, skipped: nat): Event
    requires d.event.Some?
  {
    Event(0, d.event.value, d.changedIds, d.reasons, d.signature, skipped)
  }

  // ---- a captured frame ----------------------------------------------------

  /** Stability and journal part of a tick; the pause is the one still to be entered. */
  function Ingest(cfg: Config, mode: Mode, s: Session, t: Tick, framePause: Option<PauseReason>, io: Io)
    : (r: (Session, Option<PauseReason>))
    requires Configured(cfg, s.engine)
    ensures Configured(cfg, r.0.engine)
  {
    if framePause == Some(DisplayInvalidated) then
      (s.(engine := Discarded(s.engine)), framePause)
    else
      var r := Fold(cfg, s.engine, t, |t.observations|);
      if r.None? then (s, Some(EvidenceBufferLimit))
      else
        var d := Decide(mode, r.value);
        var done := s.(engine := r.value.engine, seen := Recorded(s.seen, t, |t.observations|));
        if d.event.None? then (done, framePause)
        else
          var (j, failure) := Appended(s.journal, EventOf(d, s.skipped), io);
          if failure.None? then
            (done.(journal := j, skipped := Consumed(s.skipped, s.skipped)), framePause)
          else
            // The storage pause discards the candidates; the rollback then restores the whole engine.
            (EnterPause(s, failure.value).(engine := s.engine, journal := j), framePause)
  }

  /** The pause entered at the end of the tick, if any. */
  function FinalPause(j: Journal, pause: Option<PauseReason>): Option<PauseReason> {
    if pause.None? && j.diskBytes >= DISK_STOP_BYTES then Some(DiskLimit) else pause
  }

  function AfterCapture(cfg: Config, mode: Mode, s: Session, t: Tick, framePause: Option<PauseReason>,
                        io: Io): (r: Session)
    requires Configured(cfg, s.engine)
    ensures Configured(cfg, r.engine)
  {
    var (s1, pause) := Ingest(cfg, mode, s.(failures := 0), t, framePause, io);
    var last := FinalPause(s1.journal, pause);
    if last.Some? then EnterPause(s1, last.value) else s1
  }

  // ---- a dead or failing worker ---------------------------------------------

  function NewlyFailed(e: Engine): set<SourceId> {
    set sid | sid in e.states && e.states[sid].status != Some(CaptureFailure)
  }

  function JournalFailure(mode: Mode, s: Session, io: Io): Session {
    var failed := NewlyFailed(s.engine);
    if failed == {} || mode == ChangedOnly then s
    else
      var e := Event(0, RetainedError, failed, [ErrorTransition], SignatureOf(s.engine), s.skipped);
      var (j, failure) := Appended(s.journal, e, io);
      if failure.None? then
        s.(engine := MarkedFailed(s.engine, failed), journal := j, skipped := Consumed(s.skipped, s.skipped))
      else EnterPause(s.(journal := j), failure.value)
  }

  function AfterWorkerFailure(mode: Mode, s: Session, io: Io, respawned: bool): Session {
    var s1 := JournalFailure(mode, s.(failures := s.failures + 1, engine := Discarded(s.engine)), io);
    if s1.failures >= FAILURE_STREAK_LIMIT then EnterPause(s1, WorkerFailureStreak)
    else if !respawned then EnterPause(s1.(failures := s1.failures + 1), WorkerFailureStreak)
    else s1
  }

  // ---- what the operator does -------------------------------------------------

  /** A worker that does not answer is counted as a failure. */
  function Failing(s: Session, answered: bool): Session { if answered then s else s.(failures := s.failures + 1) }

  /** Other pauses need a new preview, or a new target as well. */
  predicate Resumable(pause: Option<PauseReason>) {
    pause !in {Some(DisplayInvalidated), Some(PauseTargetUnavailable)}
  }

  // ---- one step, and runs -----------------------------------------------------

  function Next(cfg: Config, mode: Mode, s: Session, step: Step): (r: Session)
    requires Configured(cfg, s.engine)
    ensures Configured(cfg, r.engine)
  {
    match step
    case Captured(t, framePause, io) => if s.recording then AfterCapture(cfg, mode, s, t, framePause, io) else s
    case WorkerDown(io, respawned) => if s.recording then AfterWorkerFailure(mode, s, io, respawned) else s
    case TickSkipped => s.(skipped := s.skipped + 1, skippedTicks := s.skippedTicks + 1)
    case UserPaused(answered) =>
      if s.recording then Failing(s.(recording := false, pause := Some(UserRequest)), answered) else s
    case UserResumed(answered) =>
      if s.recording || !Resumable(s.pause) then s
      else if answered then s.(recording := true, pause := None)
      else Failing(s, false)
    case StartedAgain => if s.recording then s else s.(recording := true, pause := None)
  }

  predicate Wellformed(step: Step) { step.Captured? ==> Keyed(step.tick) }

  function Initial(cfg: Config): Session {
    Session(Engine(map sid | sid in cfg :: Fresh(), 0), Journal([], 0, 0), 0, 0, true, None, 0,
            map sid | sid in cfg :: [])
  }

  /** The session after `steps`, starting from `s`. */
  function Run(cfg: Config, mode: Mode, ids: seq<SourceId>, s: Session, steps: seq<Step>): (r: Session)
    requires Inv(cfg, mode, ids, s)
    requires forall step :: step in steps ==> Wellformed(step)
    ensures Inv(cfg, mode, ids, r)
    decreases |steps|
  {
    if steps == [] then s
    else
      NextKeepsInv(cfg, mode, ids, s, steps[0]);
      Run(cfg, mode, ids, Next(cfg, mode, s, steps[0]), steps[1..])
  }

  // ---- the invariant -------------------------------------------------------------

  function SkippedIn(events: seq<Event>): nat {
    if events == [] then 0 else SkippedIn(events[..|events| - 1]) + events[|events| - 1].skipped
  }

  /** Event numbers on disk are exactly 1..n. */
  predicate Contiguous(j: Journal) {
    j.eventSeq == |j.events| && forall i :: 0 <= i < |j.events| ==> j.events[i].seqNo == i + 1
  }

  /** The last journaled signature still describes every source it lists. */
  ghost predicate Reflects(j: Journal, e: Engine) {
    j.events != [] ==>
      var signed := j.events[|j.events| - 1].signature;
      forall sid :: sid in signed ==>
        sid in e.states && e.states[sid].seeded && signed[sid] == (e.states[sid].value, e.states[sid].kind)
  }

  ghost predicate EngineInv(cfg: Config, mode: Mode, ids: seq<SourceId>, e: Engine, seen: map<SourceId, seq<Sample>>) {
    Configured(cfg, e) && Balanced(ids, e) && Remembers(mode, e) && AllBacked(e, seen)
  }

  ghost predicate LedgerInv(j: Journal, skipped: nat, skippedTicks: nat) {
    Contiguous(j) && SkippedIn(j.events) + skipped == skippedTicks
  }

  ghost predicate Inv(cfg: Config, mode: Mode, ids: seq<SourceId>, s: Session) {
    && EngineInv(cfg, mode, ids, s.engine, s.seen)
    && LedgerInv(s.journal, s.skipped, s.skippedTicks)
    && Reflects(s.journal, s.engine)
  }

  /** Seeded sources keep their value and kind. */
  ghost predicate Unmoved(a: Engine, b: Engine) {
    forall sid :: sid in a.states && a.states[sid].seeded ==> sid in b.states && SameValue(a.states[sid], b.states[sid])
  }

  lemma UnmovedStillReflects(j: Journal, a: Engine, b: Engine)
    requires Reflects(j, a) && Unmoved(a, b)
    ensures Reflects(j, b)
  {
  }

  lemma DiscardKeeps(cfg: Config, mode: Mode, ids: seq<SourceId>, e: Engine, seen: map<SourceId, seq<Sample>>)
    requires EngineInv(cfg, mode, ids, e, seen)
    ensures EngineInv(cfg, mode, ids, Discarded(e), seen)
    ensures Unmoved(e, Discarded(e))
  {
    DiscardStaysBalanced(ids, e);
  }

  lemma PauseKeepsInv(cfg: Config, mode: Mode, ids: seq<SourceId>, s: Session, reason: PauseReason)
    requires Inv(cfg, mode, ids, s)
    ensures Inv(cfg, mode, ids, EnterPause(s, reason))
    ensures Unmoved(s.engine, EnterPause(s, reason).engine)
  {
    DiscardKeeps(cfg, mode, ids, s.engine, s.seen);
    UnmovedStillReflects(s.journal, s.engine, Discarded(s.engine));
  }

  lemma AppendKeeps(j: Journal, e: Event, io: Io, skipped: nat, skippedTicks: nat)
    requires LedgerInv(j, skipped, skippedTicks) && e.skipped == skipped
    ensures var (j1, failure) := Appended(j, e, io);
      && (failure.Some? ==> j1.events == j.events && LedgerInv(j1, skipped, skippedTicks))
      && (failure.None? ==> j1.events == j.events + [e.(seqNo := |j.events| + 1)]
                            && LedgerInv(j1, Consumed(skipped, skipped), skippedTicks))
  {
    var j1 := Appended(j, e, io).0;
    if Appended(j, e, io).1.None? {
      assert j1.events[..|j1.events| - 1] == j.events;
      SkippedSnoc(j.events, j1.events[|j.events|]);
    }
    hide SkippedIn;
  }

  lemma SkippedSnoc(events: seq<Event>, e: Event)
    ensures SkippedIn(events + [e]) == SkippedIn(events) + e.skipped
  {
    assert (events + [e])[..|events|] == events;
  }

  lemma SignedReflects(j: Journal, e: Event, io: Io, after: Engine)
    requires Appended(j, e, io).1.None? && e.signature == SignatureOf(after)
    ensures Reflects(Appended(j, e, io).0, after)
  {
  }

  lemma FoldKeeps(cfg: Config, mode: Mode, ids: seq<SourceId>, e: Engine, t: Tick, seen: map<SourceId, seq<Sample>>)
    requires EngineInv(cfg, mode, ids, e, seen) && Keyed(t)
    requires Fold(cfg, e, t, |t.observations|).Some?
    ensures var p := Fold(cfg, e, t, |t.observations|).value;
      && EngineInv(cfg, mode, ids, p.engine, Recorded(seen, t, |t.observations|))
      && (Decide(mode, p).event.None? ==> Unmoved(e, p.engine))
  {
    FoldStaysBalanced(ids, cfg, e, t, |t.observations|);
    NoSilentChange(mode, cfg, e, t);
    ConfirmationIsEarned(cfg, e, t, seen);
    FoldIsPointwise(cfg, e, t, |t.observations|);
  }

  lemma DecidedSignature(mode: Mode, p: Progress)
    ensures Decide(mode, p).signature == SignatureOf(p.engine)
  {
  }

  lemma IngestKeepsInv(cfg: Config, mode: Mode, ids: seq<SourceId>, s: Session, t: Tick,
                       framePause: Option<PauseReason>, io: Io)
    requires Inv(cfg, mode, ids, s) && Keyed(t)
    ensures var (s1, pause) := Ingest(cfg, mode, s, t, framePause, io);
      && Inv(cfg, mode, ids, s1)
      && (s1.journal.events == s.journal.events ==> Unmoved(s.engine, s1.engine))
  {
    hide Fold, Decide, SignatureOf, Appended, Discarded, Recorded, Balanced, Remembers, AllBacked, Reflects, LedgerInv;
    var r := Fold(cfg, s.engine, t, |t.observations|);
    if framePause == Some(DisplayInvalidated) {
      DiscardKeeps(cfg, mode, ids, s.engine, s.seen);
      UnmovedStillReflects(s.journal, s.engine, Discarded(s.engine));
    } else if r.Some? {
      FoldKeeps(cfg, mode, ids, s.engine, t, s.seen);
      var d := Decide(mode, r.value);
      if d.event.Some? {
        var e := EventOf(d, s.skipped);
        AppendKeeps(s.journal, e, io, s.skipped, s.skippedTicks);
        DecidedSignature(mode, r.value);
        if Appended(s.journal, e, io).1.None? {
          SignedReflects(s.journal, e, io, r.value.engine);
        } else {
          SameEventsReflect(s.journal, Appended(s.journal, e, io).0, s.engine);
        }
      } else {
        UnmovedStillReflects(s.journal, s.engine, r.value.engine);
      }
    }
  }

  lemma SameEventsReflect(j: Journal, j1: Journal, e: Engine)
    requires Reflects(j, e) && j1.events == j.events
    ensures Reflects(j1, e)
  {
  }

  lemma MarkKeeps(cfg: Config, mode: Mode, ids: seq<SourceId>, e: Engine, seen: map<SourceId, seq<Sample>>,
                  failed: set<SourceId>)
    requires EngineInv(cfg, mode, ids, e, seen) && mode != ChangedOnly
    ensures EngineInv(cfg, mode, ids, MarkedFailed(e, failed), seen)
    ensures Unmoved(e, MarkedFailed(e, failed))
    ensures SignatureOf(MarkedFailed(e, failed)) == SignatureOf(e)
  {
    MarkBalanced(ids, e, failed);
    hide Balanced, Backed;
  }

  lemma MarkBalanced(ids: seq<SourceId>, e: Engine, failed: set<SourceId>)
    requires Balanced(ids, e)
    ensures Balanced(ids, MarkedFailed(e, failed))
  {
    HeldSame(ids, e.states, MarkedFailed(e, failed).states);
  }

  lemma FailureKeepsInv(cfg: Config, mode: Mode, ids: seq<SourceId>, s: Session, io: Io)
    requires Inv(cfg, mode, ids, s)
    ensures Inv(cfg, mode, ids, JournalFailure(mode, s, io))
    ensures Unmoved(s.engine, JournalFailure(mode, s, io).engine)
  {
    hide MarkedFailed, SignatureOf, Appended, Discarded, Balanced, Remembers, AllBacked, Reflects, LedgerInv;
    var failed := NewlyFailed(s.engine);
    if failed != {} && mode != ChangedOnly {
      var e := Event(0, RetainedError, failed, [ErrorTransition], SignatureOf(s.engine), s.skipped);
      AppendKeeps(s.journal, e, io, s.skipped, s.skippedTicks);
      var (j, failure) := Appended(s.journal, e, io);
      if failure.Some? {
        SameEventsReflect(s.journal, j, s.engine);
        PauseKeepsInv(cfg, mode, ids, s.(journal := j), failure.value);
      } else {
        MarkKeeps(cfg, mode, ids, s.engine, s.seen, failed);
        SignedReflects(s.journal, e, io, MarkedFailed(s.engine, failed));
      }
    }
  }

  lemma {:induction false} HeldSame(ids: seq<SourceId>, a: map<SourceId, SourceState>, b: map<SourceId, SourceState>)
    requires forall sid :: sid in ids ==> sid in a && sid in b && a[sid].candidate == b[sid].candidate
    ensures Held(ids, a) == Held(ids, b)
  {
    if ids != [] {
      HeldSame(ids[1..], a, b);
    }
  }

  lemma CaptureKeepsInv(cfg: Config, mode: Mode, ids: seq<SourceId>, s: Session, t: Tick,
                        framePause: Option<PauseReason>, io: Io)
    requires Inv(cfg, mode, ids, s) && Keyed(t)
    ensures var s1 := AfterCapture(cfg, mode, s, t, framePause, io);
      && Inv(cfg, mode, ids, s1)
      && (s1.journal.events == s.journal.events ==> Unmoved(s.engine, s1.engine))
  {
    hide Ingest, Balanced, Remembers, AllBacked, LedgerInv, Reflects, Discarded;
    var s0 := s.(failures := 0);
    IngestKeepsInv(cfg, mode, ids, s0, t, framePause, io);
    var (s1, pause) := Ingest(cfg, mode, s0, t, framePause, io);
    var last := FinalPause(s1.journal, pause);
    if last.Some? {
      PauseKeepsInv(cfg, mode, ids, s1, last.value);
    }
  }

  lemma WorkerFailureKeepsInv(cfg: Config, mode: Mode, ids: seq<SourceId>, s: Session, io: Io, respawned: bool)
    requires Inv(cfg, mode, ids, s)
    ensures Inv(cfg, mode, ids, AfterWorkerFailure(mode, s, io, respawned))
    ensures Unmoved(s.engine, AfterWorkerFailure(mode, s, io, respawned).engine)
  {
    hide JournalFailure, EngineInv, LedgerInv, Reflects, Discarded;
    PauseKeepsInv(cfg, mode, ids, s, WorkerFailureStreak);
    var s0 := s.(failures := s.failures + 1, engine := Discarded(s.engine));
    FailureKeepsInv(cfg, mode, ids, s0, io);
    var s1 := JournalFailure(mode, s0, io);
    PauseKeepsInv(cfg, mode, ids, s1, WorkerFailureStreak);
    PauseKeepsInv(cfg, mode, ids, s1.(failures := s1.failures + 1), WorkerFailureStreak);
  }

  lemma NothingMoved(e: Engine)
    ensures Unmoved(e, e)
  {
  }

  lemma SkipKeepsLedger(j: Journal, skipped: nat, skippedTicks: nat)
    requires LedgerInv(j, skipped, skippedTicks)
    ensures LedgerInv(j, skipped + 1, skippedTicks + 1)
  {
    hide SkippedIn, Contiguous;
  }

  /**
   * One step of a session, whatever it is: the invariant holds after it, and a
   * step that journals nothing moves no seeded source.
   */
  lemma NextKeepsInv(cfg: Config, mode: Mode, ids: seq<SourceId>, s: Session, step: Step)
    requires Inv(cfg, mode, ids, s) && Wellformed(step)
    ensures Inv(cfg, mode, ids, Next(cfg, mode, s, step))
    ensures Next(cfg, mode, s, step).journal.events == s.journal.events ==>
      Unmoved(s.engine, Next(cfg, mode, s, step).engine)
  {
    hide AfterCapture, AfterWorkerFailure, EngineInv, LedgerInv, Reflects, Unmoved;
    NothingMoved(s.engine);
    match step
    case Captured(t, framePause, io) =>
      if s.recording {
        CaptureKeepsInv(cfg, mode, ids, s, t, framePause, io);
      }
    case WorkerDown(io, respawned) =>
      if s.recording {
        WorkerFailureKeepsInv(cfg, mode, ids, s, io, respawned);
      }
    case TickSkipped => SkipKeepsLedger(s.journal, s.skipped, s.skippedTicks);
    case _ =>
  }
}
