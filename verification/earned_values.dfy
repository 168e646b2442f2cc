/** Over whole runs, every stable value a session ever holds was confirmed by its readings. */
module EarnedValues {
  import opened Common
  import opened Stability
  import opened StabilityLaws
  import opened Recording
  import opened RecordingLaws

  /** At some point of its history the source had just earned this value. */
  ghost predicate EarnedOnce(cfg: Settings, h: seq<Sample>, value: Option<string>, kind: string) {
    exists k: nat :: k <= |h| && Earned(cfg, h[..k], value, kind)
  }

  ghost predicate SourceEarned(cfg: Settings, st: SourceState, h: seq<Sample>) {
    st.seeded ==> EarnedOnce(cfg, h, st.value, st.kind)
  }

  ghost predicate AllEarned(cfg: Config, e: Engine, seen: map<SourceId, seq<Sample>>) {
    && cfg.Keys == e.states.Keys == seen.Keys
    && forall sid :: sid in e.states ==> SourceEarned(cfg[sid], e.states[sid], seen[sid])
  }

  /** Only candidates and error marks differ. */
  ghost predicate SameValues(a: Engine, b: Engine) {
    && a.states.Keys == b.states.Keys
    && forall sid :: sid in a.states ==>
         b.states[sid].seeded == a.states[sid].seeded
         && b.states[sid].value == a.states[sid].value && b.states[sid].kind == a.states[sid].kind
  }

  lemma SameValuesEarned(cfg: Config, a: Engine, b: Engine, seen: map<SourceId, seq<Sample>>)
    requires AllEarned(cfg, a, seen) && SameValues(a, b)
    ensures AllEarned(cfg, b, seen)
  {
  }

  lemma LongerHistory(cfg: Settings, h: seq<Sample>, s: Sample, value: Option<string>, kind: string)
    requires EarnedOnce(cfg, h, value, kind)
    ensures EarnedOnce(cfg, h + [s], value, kind)
  {
    hide Earned;
    var k: nat :| k <= |h| && Earned(cfg, h[..k], value, kind);
    assert (h + [s])[..k] == h[..k];
  }

  lemma JustEarned(cfg: Settings, h: seq<Sample>, value: Option<string>, kind: string)
    requires Earned(cfg, h, value, kind)
    ensures EarnedOnce(cfg, h, value, kind)
  {
    hide Earned;
    assert h[..|h|] == h;
  }

  /** One observation of one source. */
  lemma LocalEarned(cfg: Settings, st: SourceState, h: seq<Sample>, obs: Observation, t: Tick, crop: Option<Bytes>)
    requires Backed(st, h) && SourceEarned(cfg, st, h)
    ensures SourceEarned(cfg, Local(cfg, st, obs, t.frame, t.now, crop).state, h + [Sample(obs, t.now)])
  {
    LocalIsEarned(cfg, st, h, obs, t.frame, t.now, crop);
    LocalKeepsSeeded(cfg, st, obs, t, crop);
    var after := Local(cfg, st, obs, t.frame, t.now, crop).state;
    hide Local, Backed, Earned, EarnedOnce;
    if after.seeded {
      if st.seeded && SameValue(st, after) {
        LongerHistory(cfg, h, Sample(obs, t.now), st.value, st.kind);
      } else {
        JustEarned(cfg, h + [Sample(obs, t.now)], after.value, after.kind);
      }
    }
  }

  lemma LocalKeepsSeeded(cfg: Settings, st: SourceState, obs: Observation, t: Tick, crop: Option<Bytes>)
    ensures st.seeded ==> Local(cfg, st, obs, t.frame, t.now, crop).state.seeded
  {
  }

  lemma TickEarned(cfg: Config, e: Engine, t: Tick, seen: map<SourceId, seq<Sample>>)
    requires Configured(cfg, e) && Keyed(t) && AllBacked(e, seen) && AllEarned(cfg, e, seen)
    requires Fold(cfg, e, t, |t.observations|).Some?
    ensures AllEarned(cfg, Fold(cfg, e, t, |t.observations|).value.engine, Recorded(seen, t, |t.observations|))
  {
    var n := |t.observations|;
    FoldIsPointwise(cfg, e, t, n);
    var e1, seen1 := Fold(cfg, e, t, n).value.engine, Recorded(seen, t, n);
    hide Fold, Local, Backed, EarnedOnce;
    forall sid | sid in e.states
      ensures SourceEarned(cfg[sid], e1.states[sid], seen1[sid])
    {
      if Seen(t, n, sid).Some? {
        LocalEarned(cfg[sid], e.states[sid], seen[sid], Seen(t, n, sid).value, t, CropOf(t, sid));
      }
    }
  }

  lemma DiscardSameValues(e: Engine)
    ensures SameValues(e, Discarded(e))
  {
  }

  lemma MarkSameValues(e: Engine, failed: set<SourceId>)
    ensures SameValues(e, MarkedFailed(e, failed))
  {
  }

  ghost predicate SessionEarned(cfg: Config, s: Session) { AllEarned(cfg, s.engine, s.seen) }

  lemma PauseEarned(cfg: Config, s: Session, reason: PauseReason)
    requires SessionEarned(cfg, s)
    ensures SessionEarned(cfg, EnterPause(s, reason))
  {
    hide AllEarned, Discarded, SameValues;
    DiscardSameValues(s.engine);
    SameValuesEarned(cfg, s.engine, Discarded(s.engine), s.seen);
  }

  lemma IngestEarned(cfg: Config, mode: Mode, ids: seq<SourceId>, s: Session, t: Tick,
                     framePause: Option<PauseReason>, io: Io)
    requires Inv(cfg, mode, ids, s) && Keyed(t) && SessionEarned(cfg, s)
    ensures SessionEarned(cfg, Ingest(cfg, mode, s, t, framePause, io).0)
  {
    hide Fold, Decide, SignatureOf, Appended, Discarded, Recorded, AllEarned, SameValues, Balanced, AllBacked,
         Remembers, LedgerInv, Reflects;
    var r := Fold(cfg, s.engine, t, |t.observations|);
    if framePause == Some(DisplayInvalidated) {
      DiscardSameValues(s.engine);
      SameValuesEarned(cfg, s.engine, Discarded(s.engine), s.seen);
    } else if r.Some? {
      TickEarned(cfg, s.engine, t, s.seen);
    }
  }

  lemma CaptureEarned(cfg: Config, mode: Mode, ids: seq<SourceId>, s: Session, t: Tick,
                      framePause: Option<PauseReason>, io: Io)
    requires Inv(cfg, mode, ids, s) && Keyed(t) && SessionEarned(cfg, s)
    ensures SessionEarned(cfg, AfterCapture(cfg, mode, s, t, framePause, io))
  {
    hide Ingest, AllEarned, Discarded, Balanced, AllBacked, Remembers, LedgerInv, Reflects;
    var s0 := s.(failures := 0);
    IngestEarned(cfg, mode, ids, s0, t, framePause, io);
    var (s1, pause) := Ingest(cfg, mode, s0, t, framePause, io);
    var last := FinalPause(s1.journal, pause);
    if last.Some? {
      PauseEarned(cfg, s1, last.value);
    }
  }

  lemma FailureEarned(cfg: Config, mode: Mode, s: Session, io: Io)
    requires SessionEarned(cfg, s)
    ensures SessionEarned(cfg, JournalFailure(mode, s, io))
  {
    hide MarkedFailed, NewlyFailed, SignatureOf, AllEarned, Discarded, Appended, SameValues;
    var failed := NewlyFailed(s.engine);
    MarkSameValues(s.engine, failed);
    SameValuesEarned(cfg, s.engine, MarkedFailed(s.engine, failed), s.seen);
    if failed != {} && mode != ChangedOnly {
      var e := Event(0, RetainedError, failed, [ErrorTransition], SignatureOf(s.engine), s.skipped);
      var (j, failure) := Appended(s.journal, e, io);
      if failure.Some? {
        PauseEarned(cfg, s.(journal := j), failure.value);
      }
    }
  }

  lemma WorkerFailureEarned(cfg: Config, mode: Mode, s: Session, io: Io, respawned: bool)
    requires SessionEarned(cfg, s)
    ensures SessionEarned(cfg, AfterWorkerFailure(mode, s, io, respawned))
  {
    hide JournalFailure, AllEarned, Discarded, SameValues;
    DiscardSameValues(s.engine);
    SameValuesEarned(cfg, s.engine, Discarded(s.engine), s.seen);
    var s0 := s.(failures := s.failures + 1, engine := Discarded(s.engine));
    FailureEarned(cfg, mode, s0, io);
    var s1 := JournalFailure(mode, s0, io);
    PauseEarned(cfg, s1, WorkerFailureStreak);
    PauseEarned(cfg, s1.(failures := s1.failures + 1), WorkerFailureStreak);
  }

  lemma NextEarned(cfg: Config, mode: Mode, ids: seq<SourceId>, s: Session, step: Step)
    requires Inv(cfg, mode, ids, s) && Wellformed(step) && SessionEarned(cfg, s)
    ensures SessionEarned(cfg, Next(cfg, mode, s, step))
  {
    hide AfterCapture, AfterWorkerFailure, AllEarned;
    match step
    case Captured(t, framePause, io) => CaptureEarned(cfg, mode, ids, s, t, framePause, io);
    case WorkerDown(io, respawned) => WorkerFailureEarned(cfg, mode, s, io, respawned);
    case _ => assert Next(cfg, mode, s, step).engine == s.engine && Next(cfg, mode, s, step).seen == s.seen;
  }

  lemma {:induction false} RunEarned(cfg: Config, mode: Mode, ids: seq<SourceId>, s: Session, steps: seq<Step>)
    requires Inv(cfg, mode, ids, s) && AllWellformed(steps) && SessionEarned(cfg, s)
    ensures SessionEarned(cfg, Run(cfg, mode, ids, s, steps))
    decreases |steps|
  {
    hide Next, LedgerInv, Reflects, SessionEarned;
    if steps != [] {
      NextKeepsInv(cfg, mode, ids, s, steps[0]);
      NextEarned(cfg, mode, ids, s, steps[0]);
      RunEarned(cfg, mode, ids, Next(cfg, mode, s, steps[0]), steps[1..]);
    }
  }

  /**
   * After any run of frames, worker failures, failed appends, pauses and resumes: each source that has a
   * stable value earned it, by enough equal OK readings in a row, the first of them old enough, which the
   * session took in and did not roll back.
   */
  lemma EveryStableValueWasEarned(cfg: Config, mode: Mode, ids: seq<SourceId>, steps: seq<Step>, sid: SourceId)
    requires Distinct(ids) && (forall s :: s in ids <==> s in cfg) && AllWellformed(steps) && sid in cfg
    ensures Inv(cfg, mode, ids, Initial(cfg))
    ensures var s := Run(cfg, mode, ids, Initial(cfg), steps);
      sid in s.engine.states && sid in s.seen
      && (s.engine.states[sid].seeded ==>
           EarnedOnce(cfg[sid], s.seen[sid], s.engine.states[sid].value, s.engine.states[sid].kind))
  {
    InitialInv(cfg, mode, ids);
    assert SessionEarned(cfg, Initial(cfg)) by {
      hide EarnedOnce;
    }
    RunEarned(cfg, mode, ids, Initial(cfg), steps);
    hide Run, EarnedOnce;
  }
}
