/**
 * What a dead or failing worker does to a recording, and what the journal does with the disk it is given, in terms
 * of statuses, counts and bytes (src/screen2xyz_m2/controller.py, journal.py).
 */
module WorkerFailures {
  import opened Common
  import opened Stability
  import opened StabilityLaws
  import opened Recording
  import opened RecordingLaws

  // ---- one append ----------------------------------------------------------

  /** Refused from 500 MiB on and by a fault of the disk; the bytes that were written count in either case. */
  lemma AppendExactly(j: Journal, e: Event, io: Io)
    ensures var (r, failure) := Appended(j, e, io);
      && failure == (if j.diskBytes >= 524_288_000 then Some(DiskLimit)
                     else if io.fault.NoFault? then None else Some(CropWriteFailure))
      && (failure.None? ==>
            && r.events == j.events + [e.(seqNo := j.eventSeq + 1)] && r.eventSeq == j.eventSeq + 1
            && r.diskBytes == j.diskBytes + io.cropBytes + io.lineLength + 1)
      && (failure.Some? ==>
            && r.events == j.events && r.eventSeq == j.eventSeq
            && r.diskBytes == j.diskBytes + (if failure == Some(DiskLimit) then 0 else io.cropBytes))
  {
  }

  // ---- a dead worker -------------------------------------------------------

  /** Its source has not been reported as failed before. */
  predicate Unreported(e: Engine, sid: SourceId) {
    sid in e.states && e.states[sid].status != Some(CaptureFailure)
  }

  predicate AnyUnreported(e: Engine) { exists sid :: sid in e.states && e.states[sid].status != Some(CaptureFailure) }

  /** Without its candidate, and reported if it is among the newly failed; its value stays. */
  predicate Reported(before: SourceState, after: SourceState, newly: bool) {
    && after.candidate.None? && after.seeded == before.seeded && after.value == before.value
    && after.kind == before.kind && after.lastError == before.lastError
    && after.preValue == before.preValue && after.preKind == before.preKind
    && after.status == (if newly then Some(CaptureFailure) else before.status)
    && after.errorActive == (newly || before.errorActive)
  }

  /** The event for a dead worker; in changed_only mode, and when nothing is new, there is none. */
  ghost predicate IsReport(before: Session, e: Event) {
    && e.seqNo == before.journal.eventSeq + 1 && e.status == RetainedError && e.reasons == [ErrorTransition]
    && e.skipped == before.skipped
    && (forall sid :: sid in e.changedIds <==> Unreported(before.engine, sid))
    && e.signature == SignatureOf(before.engine)
  }

  /** What the failure reports, and what the journal makes of it. */
  ghost predicate ReportedIn(mode: Mode, before: Session, after: Session, io: Io) {
    var j, k := before.journal, after.journal;
    var due := mode != ChangedOnly && AnyUnreported(before.engine);
    var taken := due && j.diskBytes < 524_288_000 && io.fault.NoFault?;
    && (if taken then
          && |k.events| == |j.events| + 1 && j.events <= k.events && IsReport(before, k.events[|j.events|])
          && k.diskBytes == j.diskBytes + io.cropBytes + io.lineLength + 1 && after.skipped == 0
        else
          && k.events == j.events && k.eventSeq == j.eventSeq && after.skipped == before.skipped
          && k.diskBytes == j.diskBytes + (if due && j.diskBytes < 524_288_000 then io.cropBytes else 0))
    && after.engine.states.Keys == before.engine.states.Keys
    && (forall sid :: sid in before.engine.states ==>
          Reported(before.engine.states[sid], after.engine.states[sid], taken && Unreported(before.engine, sid)))
  }

  /** Why the session pauses: three failures in a row or no new worker, else a storage failure, if any. */
  function PauseAfter(mode: Mode, before: Session, io: Io, respawned: bool): Option<PauseReason> {
    if before.failures + 1 >= 3 || !respawned then Some(WorkerFailureStreak)
    else if mode == ChangedOnly || !AnyUnreported(before.engine) then None
    else if before.journal.diskBytes >= 524_288_000 then Some(DiskLimit)
    else if !io.fault.NoFault? then Some(CropWriteFailure)
    else None
  }

  lemma NewlyFailedAre(e: Engine)
    ensures NewlyFailed(Discarded(e)) == {} <==> !AnyUnreported(e)
    ensures forall sid :: sid in NewlyFailed(Discarded(e)) <==> Unreported(e, sid)
    ensures SignatureOf(Discarded(e)) == SignatureOf(e)
  {
    assert forall sid :: sid in NewlyFailed(Discarded(e)) <==> Unreported(e, sid);
    if AnyUnreported(e) {
      var sid :| sid in e.states && e.states[sid].status != Some(CaptureFailure);
      assert sid in NewlyFailed(Discarded(e));
    }
  }

  lemma StateReported(e: Engine, failed: set<SourceId>, sid: SourceId)
    requires sid in e.states
    ensures Reported(e.states[sid], Discarded(e).states[sid], false)
    ensures Reported(e.states[sid], MarkedFailed(Discarded(e), failed).states[sid], sid in failed)
  {
  }

  /** What a refused append comes to, none being due aside. */
  function Refusal(s: Session, io: Io): Option<PauseReason> {
    if s.journal.diskBytes >= 524_288_000 then Some(DiskLimit)
    else if !io.fault.NoFault? then Some(CropWriteFailure)
    else None
  }

  lemma FailureReported(mode: Mode, s: Session, io: Io)
    ensures var r := JournalFailure(mode, s.(failures := s.failures + 1, engine := Discarded(s.engine)), io);
      var refusal := if mode == ChangedOnly || !AnyUnreported(s.engine) then None else Refusal(s, io);
      && ReportedIn(mode, s, r, io)
      && r.failures == s.failures + 1 && r.skippedTicks == s.skippedTicks && r.seen == s.seen
      && r.recording == (s.recording && refusal.None?) && r.pause == (if refusal.Some? then refusal else s.pause)
  {
    hide MarkedFailed, SignatureOf, Discarded, NewlyFailed, AnyUnreported, Reported, Unreported;
    NewlyFailedAre(s.engine);
    var failed := NewlyFailed(Discarded(s.engine));
    KeysStay(s.engine, failed);
    forall sid | sid in s.engine.states
      ensures Reported(s.engine.states[sid], Discarded(s.engine).states[sid], false)
      ensures Reported(s.engine.states[sid], MarkedFailed(Discarded(s.engine), failed).states[sid],
                       Unreported(s.engine, sid))
    {
      StateReported(s.engine, failed, sid);
    }
    DiscardedTwice(s.engine);
  }

  lemma DiscardedTwice(e: Engine)
    ensures Discarded(Discarded(e)) == Discarded(e)
  {
  }

  /** Discarding once more takes nothing away. */
  lemma PauseKeepsReport(mode: Mode, before: Session, after: Session, io: Io, reason: PauseReason)
    requires ReportedIn(mode, before, after, io)
    ensures ReportedIn(mode, before, EnterPause(after, reason), io)
  {
    hide SignatureOf, AnyUnreported, Unreported, IsReport;
  }

  lemma RecountKeepsReport(mode: Mode, before: Session, after: Session, io: Io, n: nat)
    requires ReportedIn(mode, before, after, io)
    ensures ReportedIn(mode, before, after.(failures := n), io)
  {
    hide SignatureOf, AnyUnreported, Unreported, IsReport, Reported;
  }

  /**
   * A worker failure in a running session: all candidates go, each source not reported yet is reported in one
   * event, and the recording goes on exactly when a new worker started, it was the first or second failure in a
   * row, and the journal took the event.
   */
  lemma WorkerFailureExactly(cfg: Config, mode: Mode, s: Session, io: Io, respawned: bool)
    requires Configured(cfg, s.engine) && s.recording
    ensures var r, pause := Next(cfg, mode, s, WorkerDown(io, respawned)), PauseAfter(mode, s, io, respawned);
      && ReportedIn(mode, s, r, io)
      && r.recording == pause.None? && r.pause == (if pause.Some? then pause else s.pause)
      && r.failures == s.failures + (if s.failures + 1 < 3 && !respawned then 2 else 1)
      && r.skippedTicks == s.skippedTicks && r.seen == s.seen
  {
    hide ReportedIn, AnyUnreported, AfterCapture, JournalFailure, Discarded;
    FailureReported(mode, s, io);
    var s1 := JournalFailure(mode, s.(failures := s.failures + 1, engine := Discarded(s.engine)), io);
    if s1.failures >= FAILURE_STREAK_LIMIT {
      PauseKeepsReport(mode, s, s1, io, WorkerFailureStreak);
    } else if !respawned {
      RecountKeepsReport(mode, s, s1, io, s1.failures + 1);
      PauseKeepsReport(mode, s, s1.(failures := s1.failures + 1), io, WorkerFailureStreak);
    }
  }

  lemma KeysStay(e: Engine, failed: set<SourceId>)
    ensures MarkedFailed(Discarded(e), failed).states.Keys == e.states.Keys
  {
  }

  // ---- over runs -----------------------------------------------------------

  /** Three failures in a row stop the recording, whatever the restarts do. */
  lemma ThirdFailurePauses(cfg: Config, mode: Mode, ids: seq<SourceId>, s: Session, a: Step, b: Step, c: Step)
    requires Inv(cfg, mode, ids, s) && a.WorkerDown? && b.WorkerDown? && c.WorkerDown?
    ensures AllWellformed([a, b, c]) && !Run(cfg, mode, ids, s, [a, b, c]).recording
  {
    hide Inv, Next;
    assert AllWellformed([a, b, c]);
    var s1 := OneFailure(cfg, mode, ids, s, a, [b, c]);
    var s2 := OneFailure(cfg, mode, ids, s1, b, [c]);
    var s3 := OneFailure(cfg, mode, ids, s2, c, []);
    assert [a] + [b, c] == [a, b, c] && [b] + [c] == [b, c] && [c] + [] == [c];
  }

  lemma OneFailure(cfg: Config, mode: Mode, ids: seq<SourceId>, s: Session, step: Step, rest: seq<Step>)
    returns (r: Session)
    requires Inv(cfg, mode, ids, s) && step.WorkerDown? && AllWellformed([step] + rest)
    ensures Inv(cfg, mode, ids, r) && AllWellformed(rest)
    ensures Run(cfg, mode, ids, s, [step] + rest) == Run(cfg, mode, ids, r, rest)
    ensures !s.recording ==> r == s
    ensures s.recording ==> r.failures > s.failures && (s.failures >= 2 ==> !r.recording)
  {
    hide AfterWorkerFailure, AfterCapture, ReportedIn, AnyUnreported, Inv;
    ConfiguredByInv(cfg, mode, ids, s);
    NextKeepsInv(cfg, mode, ids, s, step);
    r := Next(cfg, mode, s, step);
    assert ([step] + rest)[0] == step && ([step] + rest)[1..] == rest;
    if s.recording {
      WorkerFailureExactly(cfg, mode, s, step.downIo, step.respawned);
    }
    assert forall other :: other in rest ==> other in [step] + rest;
  }

  /** No step writes more than `most` bytes. */
  predicate Writes(step: Step, most: nat) {
    match step
    case Captured(_, _, io) => io.cropBytes + io.lineLength + 1 <= most
    case WorkerDown(io, _) => io.cropBytes + io.lineLength + 1 <= most
    case _ => true
  }

  lemma StepWrites(cfg: Config, mode: Mode, s: Session, step: Step, most: nat)
    requires Configured(cfg, s.engine) && Writes(step, most)
    ensures var bytes := Next(cfg, mode, s, step).journal.diskBytes;
      bytes == s.journal.diskBytes || (s.journal.diskBytes < 524_288_000 && bytes <= s.journal.diskBytes + most)
  {
    hide AfterCapture, AfterWorkerFailure, Reported, IsReport, AnyUnreported, Unreported, PauseAfter;
    if s.recording {
      match step
      case Captured(t, framePause, io) => CaptureWrites(cfg, mode, s, t, framePause, io);
      case WorkerDown(io, respawned) => WorkerFailureExactly(cfg, mode, s, io, respawned);
      case _ =>
    }
  }

  lemma CaptureWrites(cfg: Config, mode: Mode, s: Session, t: Tick, framePause: Option<PauseReason>, io: Io)
    requires Configured(cfg, s.engine)
    ensures var bytes := AfterCapture(cfg, mode, s, t, framePause, io).journal.diskBytes;
      || bytes == s.journal.diskBytes
      || (s.journal.diskBytes < 524_288_000 && bytes <= s.journal.diskBytes + io.cropBytes + io.lineLength + 1)
  {
    hide Fold, Decide, Discarded, Recorded;
  }

  /**
   * A session starts on an empty disk and never fills more than 500 MiB and one more event's bytes; it is over
   * that limit only with a recording that the next captured frame ends.
   */
  lemma {:induction false} DiskStaysBounded(cfg: Config, mode: Mode, ids: seq<SourceId>, s: Session, steps: seq<Step>,
                                            most: nat)
    requires Inv(cfg, mode, ids, s) && AllWellformed(steps) && s.journal.diskBytes < 524_288_000 + most
    requires forall step :: step in steps ==> Writes(step, most)
    ensures Run(cfg, mode, ids, s, steps).journal.diskBytes < 524_288_000 + most
    decreases |steps|
  {
    hide Next, Inv, Writes;
    if steps != [] {
      NextKeepsInv(cfg, mode, ids, s, steps[0]);
      ConfiguredByInv(cfg, mode, ids, s);
      StepWrites(cfg, mode, s, steps[0], most);
      DiskStaysBounded(cfg, mode, ids, Next(cfg, mode, s, steps[0]), steps[1..], most);
    }
  }

  lemma ConfiguredByInv(cfg: Config, mode: Mode, ids: seq<SourceId>, s: Session)
    requires Inv(cfg, mode, ids, s)
    ensures Configured(cfg, s.engine)
  {
  }

  /** A captured frame leaves no recording on a full disk. */
  lemma FullDiskStops(cfg: Config, mode: Mode, s: Session, t: Tick, framePause: Option<PauseReason>, io: Io)
    requires Configured(cfg, s.engine) && s.recording
    ensures var r := Next(cfg, mode, s, Captured(t, framePause, io));
      r.recording ==> r.journal.diskBytes < 524_288_000 && r.failures == 0 && r.pause == s.pause
  {
    hide Fold, Decide, Discarded, Recorded;
  }
}
