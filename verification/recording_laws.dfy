/**
 * Whole-run guarantees of a recording session, and the exact extent to which a
 * failed journal append leaves the session as it was.
 */
module RecordingLaws {
  import opened Common
  import opened Stability
  import opened StabilityLaws
  import opened Recording

  ghost predicate AllWellformed(steps: seq<Step>) {
    forall step :: step in steps ==> Wellformed(step)
  }

  predicate Distinct(ids: seq<SourceId>) {
    forall i, j :: 0 <= i < j < |ids| ==> ids[i] != ids[j]
  }

  lemma InitialInv(cfg: Config, mode: Mode, ids: seq<SourceId>)
    requires Distinct(ids) && forall sid :: sid in ids <==> sid in cfg
    ensures Inv(cfg, mode, ids, Initial(cfg))
  {
    HeldNothing(ids, Initial(cfg).engine.states);
  }

  /** A session starts recording: nothing is journaled, skipped or failed, and no source has a value or an error. */
  lemma SessionStarts(cfg: Config)
    ensures var s := Initial(cfg);
      && s.recording && s.pause.None? && s.journal == Journal([], 0, 0)
      && s.skipped == s.skippedTicks == s.failures == s.engine.bytes == 0
      && s.engine.states.Keys == s.seen.Keys == cfg.Keys
      && forall sid :: sid in cfg ==>
           var st := s.engine.states[sid];
           !st.seeded && !st.errorActive && st.candidate.None? && st.lastError.None? && s.seen[sid] == []
  {
  }

  /**
   * After any run from the start of a session: event numbers are 1..n, the last
   * journaled signature is still true of every source it lists, every skipped
   * tick is either journaled or pending, and the evidence bytes are exactly the
   * pending candidates' crops, within the bound.
   */
  lemma EveryRunIsConsistent(cfg: Config, mode: Mode, ids: seq<SourceId>, steps: seq<Step>)
    requires Distinct(ids) && forall sid :: sid in ids <==> sid in cfg
    requires AllWellformed(steps)
    ensures Inv(cfg, mode, ids, Initial(cfg))
    ensures var s := Run(cfg, mode, ids, Initial(cfg), steps);
      && (forall i :: 0 <= i < |s.journal.events| ==> s.journal.events[i].seqNo == i + 1)
      && Reflects(s.journal, s.engine)
      && SkippedIn(s.journal.events) + s.skipped == s.skippedTicks
      && s.engine.bytes == Held(ids, s.engine.states) <= AGGREGATE_CROP_MAX_BYTES
  {
    hide Run, Initial, SkippedIn, Held, Reflects, Remembers, AllBacked;
    InitialInv(cfg, mode, ids);
  }

  /** The journal only grows: a run never rewrites or drops an event. */
  lemma {:induction false} JournalOnlyGrows(cfg: Config, mode: Mode, ids: seq<SourceId>, s: Session, steps: seq<Step>)
    requires Inv(cfg, mode, ids, s) && AllWellformed(steps)
    ensures s.journal.events <= Run(cfg, mode, ids, s, steps).journal.events
    decreases |steps|
  {
    hide Next, LedgerInv, Reflects;
    if steps != [] {
      NextKeepsInv(cfg, mode, ids, s, steps[0]);
      StepOnlyAppends(cfg, mode, s, steps[0]);
      JournalOnlyGrows(cfg, mode, ids, Next(cfg, mode, s, steps[0]), steps[1..]);
    }
  }

  lemma CaptureOnlyAppends(cfg: Config, mode: Mode, s: Session, t: Tick, framePause: Option<PauseReason>, io: Io)
    requires Configured(cfg, s.engine)
    ensures s.journal.events <= AfterCapture(cfg, mode, s, t, framePause, io).journal.events
  {
    hide Fold, Decide, Discarded, Recorded;
  }

  lemma FailureOnlyAppends(mode: Mode, s: Session, io: Io, respawned: bool)
    ensures s.journal.events <= AfterWorkerFailure(mode, s, io, respawned).journal.events
  {
    hide MarkedFailed, NewlyFailed, SignatureOf, Discarded;
  }

  lemma StepOnlyAppends(cfg: Config, mode: Mode, s: Session, step: Step)
    requires Configured(cfg, s.engine)
    ensures s.journal.events <= Next(cfg, mode, s, step).journal.events
  {
    hide AfterCapture, AfterWorkerFailure;
    match step
    case Captured(t, framePause, io) => CaptureOnlyAppends(cfg, mode, s, t, framePause, io);
    case WorkerDown(io, respawned) => FailureOnlyAppends(mode, s, io, respawned);
    case _ =>
  }

  /** Over a whole run that journals nothing new, no seeded source moves. */
  lemma {:induction false} QuietRunMovesNothing(cfg: Config, mode: Mode, ids: seq<SourceId>, s: Session,
                                                steps: seq<Step>)
    requires Inv(cfg, mode, ids, s) && AllWellformed(steps)
    requires Run(cfg, mode, ids, s, steps).journal.events == s.journal.events
    ensures Unmoved(s.engine, Run(cfg, mode, ids, s, steps).engine)
    decreases |steps|
  {
    hide Next, LedgerInv, Reflects;
    if steps != [] {
      var s1 := Next(cfg, mode, s, steps[0]);
      NextKeepsInv(cfg, mode, ids, s, steps[0]);
      StepOnlyAppends(cfg, mode, s, steps[0]);
      JournalOnlyGrows(cfg, mode, ids, s1, steps[1..]);
      assert s1.journal.events == s.journal.events;
      QuietRunMovesNothing(cfg, mode, ids, s1, steps[1..]);
    }
  }

  // ---- a failed append --------------------------------------------------------

  /** A captured frame whose event the journal refused to take. */
  predicate AppendFails(cfg: Config, mode: Mode, s: Session, t: Tick, framePause: Option<PauseReason>, io: Io)
    requires Configured(cfg, s.engine)
  {
    var r := Fold(cfg, s.engine, t, |t.observations|);
    && s.recording && framePause != Some(DisplayInvalidated) && r.Some?
    && Decide(mode, r.value).event.Some?
    && Appended(s.journal, EventOf(Decide(mode, r.value), s.skipped), io).1.Some?
  }

  predicate NothingPending(e: Engine) {
    forall sid :: sid in e.states ==> e.states[sid].candidate.None?
  }

  /**
   * A failed append journals nothing, consumes no skip count and records no
   * observation.  The engine is exactly as before the tick if and only if no
   * further pause is entered in the same tick (from the frame itself, or because
   * the disk is full) or no candidate was pending; otherwise it differs by the
   * discarded candidates alone.
   */
  lemma FailedAppendRollsBack(cfg: Config, mode: Mode, ids: seq<SourceId>, s: Session, t: Tick,
                              framePause: Option<PauseReason>, io: Io)
    requires Inv(cfg, mode, ids, s) && Keyed(t) && AppendFails(cfg, mode, s, t, framePause, io)
    ensures var s1 := Next(cfg, mode, s, Captured(t, framePause, io));
      && !s1.recording
      && s1.journal.events == s.journal.events && s1.journal.eventSeq == s.journal.eventSeq
      && s1.skipped == s.skipped && s1.seen == s.seen
      && (s1.engine == s.engine <==>
            (framePause.None? && s1.journal.diskBytes < DISK_STOP_BYTES) || NothingPending(s.engine))
      && (s1.engine == s.engine || s1.engine == Discarded(s.engine))
  {
    hide Fold, Decide, Discarded, Recorded, NothingPending, Balanced, Remembers, AllBacked, Reflects, LedgerInv;
    DiscardIsVisible(ids, s.engine);
  }

  lemma DiscardIsVisible(ids: seq<SourceId>, e: Engine)
    requires Balanced(ids, e)
    ensures Discarded(e) == e <==> NothingPending(e)
  {
    if NothingPending(e) {
      HeldNothing(ids, e.states);
      assert Discarded(e).states == e.states;
    } else {
      var sid :| sid in e.states && e.states[sid].candidate.Some?;
      assert Discarded(e).states[sid].candidate.None?;
    }
  }

  /** A frame whose event the journal takes. */
  lemma EventIsAppended(cfg: Config, mode: Mode, s: Session, t: Tick, io: Io)
    requires Configured(cfg, s.engine) && s.recording
    requires s.journal.diskBytes < DISK_STOP_BYTES && io.fault == NoFault
    requires Fold(cfg, s.engine, t, |t.observations|).Some?
    requires Decide(mode, Fold(cfg, s.engine, t, |t.observations|).value).event.Some?
    ensures var d := Decide(mode, Fold(cfg, s.engine, t, |t.observations|).value);
      Next(cfg, mode, s, Captured(t, None, io)).journal.events
        == s.journal.events + [EventOf(d, s.skipped).(seqNo := s.journal.eventSeq + 1)]
  {
    hide Fold, Decide, Discarded, Recorded;
  }

  /** A frame whose observations amount to no event. */
  lemma NoEventIsAppended(cfg: Config, mode: Mode, s: Session, t: Tick, io: Io)
    requires Configured(cfg, s.engine)
    requires Fold(cfg, s.engine, t, |t.observations|).Some?
    requires Decide(mode, Fold(cfg, s.engine, t, |t.observations|).value).event.None?
    ensures Next(cfg, mode, s, Captured(t, None, io)).journal.events == s.journal.events
  {
  }

  /** A storage pause can be resumed by the user. */
  lemma FailedAppendPauses(cfg: Config, mode: Mode, s: Session, t: Tick, io: Io)
    requires Configured(cfg, s.engine) && AppendFails(cfg, mode, s, t, None, io)
    ensures Next(cfg, mode, s, Captured(t, None, io)).pause in {Some(DiskLimit), Some(CropWriteFailure)}
  {
  }

  /** A frame the evidence buffer refuses. */
  lemma OverflowAppendsNothing(cfg: Config, mode: Mode, s: Session, t: Tick, io: Io)
    requires Configured(cfg, s.engine) && Fold(cfg, s.engine, t, |t.observations|).None?
    ensures Next(cfg, mode, s, Captured(t, None, io)).journal.events == s.journal.events
  {
    hide Fold, Decide, Discarded, Recorded;
  }

  // ---- resuming --------------------------------------------------------------------

  /**
   * A paused session goes on when the worker answers, unless the display changed or the target is gone, when it
   * is not asked; asked in vain, it counts a failure.  Starting again always works.
   */
  lemma ResumedExactly(cfg: Config, mode: Mode, s: Session, answered: bool)
    requires Configured(cfg, s.engine) && !s.recording
    ensures var r := Next(cfg, mode, s, UserResumed(answered));
      if s.pause == Some(DisplayInvalidated) || s.pause == Some(PauseTargetUnavailable) then r == s
      else if answered then r == s.(recording := true, pause := None)
      else r == s.(failures := s.failures + 1)
    ensures Next(cfg, mode, s, StartedAgain) == s.(recording := true, pause := None)
  {
    hide AfterCapture, AfterWorkerFailure;
  }

  /** Pausing by hand stops the session and keeps everything else, pending candidates included. */
  lemma PausedByHand(cfg: Config, mode: Mode, s: Session, answered: bool)
    requires Configured(cfg, s.engine) && s.recording
    ensures Next(cfg, mode, s, UserPaused(answered))
         == s.(recording := false, pause := Some(UserRequest), failures := s.failures + (if answered then 0 else 1))
  {
    hide AfterCapture, AfterWorkerFailure;
  }
}
