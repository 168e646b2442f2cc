/**
 * What becomes of an event the journal refused, when the same frame is captured again after the
 * session resumes: what is retained then, exactly, with and without a further pause in between.
 */
module RetryLaws {
  import opened Common
  import opened Stability
  import opened StabilityLaws
  import opened Recording
  import opened RecordingLaws

  // ---- which sources an event names ----------------------------------------------------------------

  /** An error event (`error`) lists errors and changes, any other event changes and recoveries. */
  predicate Named(mode: Mode, error: bool, tr: Transition) {
    || tr.Changed?
    || (tr.Errored? && mode != ChangedOnly)
    || (tr.Recovered? && !error && (mode == ChangedOnly ==> tr.moved))
  }

  function EventFor(mode: Mode, named: set<SourceId>, error: bool): Option<EventStatus> {
    if error then Some(RetainedError)
    else if named != {} then Some(RetainedChange)
    else if mode == EveryTick then Some(RetainedDiagnostic)
    else None
  }

  predicate HasError(mode: Mode, p: Progress) { ErroredIn(p) != {} && mode != ChangedOnly }

  lemma DecidedNames(mode: Mode, p: Progress)
    ensures var d := Decide(mode, p);
      && d.event == EventFor(mode, d.changedIds, HasError(mode, p))
      && forall sid :: sid in d.changedIds <==>
           sid in p.steps && Named(mode, HasError(mode, p), p.steps[sid].transition)
  {
    var d := Decide(mode, p);
    forall sid
      ensures sid in d.changedIds <==> sid in p.steps && Named(mode, HasError(mode, p), p.steps[sid].transition)
    {
      assert sid in ErroredIn(p) <==> sid in p.steps && p.steps[sid].transition.Errored?;
    }
  }

  // ---- the same frame again, from the same engine ---------------------------------------------------------

  /** The reading completes its candidate's count, and its debounce runs out between the two captures. */
  predicate Ripens(cfg: Settings, st: SourceState, obs: Observation, t: Tick, u: Tick) {
    && obs.status == OK && !Settled(cfg, st, obs) && Matches(st, obs)
    && st.candidate.value.count + 1 >= cfg.confirmations
    && t.now - st.candidate.value.firstSeen < cfg.debounce <= u.now - st.candidate.value.firstSeen
  }

  /** What committing the pending candidate will be. */
  function RipeTransition(st: SourceState): Transition {
    match st.candidate
    case None => Quiet
    case Some(c) =>
      if st.errorActive then Recovered(c.value != st.preValue || c.kind != st.preKind)
      else if st.seeded && (st.value != c.value || st.kind != c.kind) then Changed
      else Quiet
  }

  lemma LocalRipens(cfg: Settings, st: SourceState, obs: Observation, t: Tick, u: Tick, crop: Option<Bytes>)
    requires Again(t, u)
    ensures var a, b := Local(cfg, st, obs, t.frame, t.now, crop), Local(cfg, st, obs, u.frame, u.now, crop);
      if Ripens(cfg, st, obs, t, u) then a.transition == Quiet && b.transition == RipeTransition(st)
      else b.transition == a.transition
  {
  }

  predicate RipensIn(cfg: Config, e: Engine, t: Tick, u: Tick, sid: SourceId)
    requires Configured(cfg, e)
  {
    sid in e.states
    && var obs := Seen(t, |t.observations|, sid); obs.Some? && Ripens(cfg[sid], e.states[sid], obs.value, t, u)
  }

  lemma StepAgain(cfg: Config, e: Engine, t: Tick, u: Tick, sid: SourceId)
    requires Configured(cfg, e) && Keyed(t) && Again(t, u)
    requires Fold(cfg, e, t, |t.observations|).Some? && Fold(cfg, e, u, |u.observations|).Some?
    ensures var p, q := Fold(cfg, e, t, |t.observations|).value, Fold(cfg, e, u, |u.observations|).value;
      && (sid in p.steps <==> sid in q.steps) && (sid in p.steps ==> sid in e.states)
      && (sid in p.steps ==>
           if RipensIn(cfg, e, t, u, sid)
           then p.steps[sid].transition == Quiet && q.steps[sid].transition == RipeTransition(e.states[sid])
           else q.steps[sid].transition == p.steps[sid].transition)
      && (RipensIn(cfg, e, t, u, sid) ==> sid in p.steps)
  {
    var n := |t.observations|;
    FoldIsPointwise(cfg, e, t, n);
    FoldIsPointwise(cfg, e, u, n);
    SeenAgain(t, u, n, sid);
    hide Fold, Local, Ripens, RipeTransition;
    if sid in e.states && Seen(t, n, sid).Some? {
      LocalRipens(cfg[sid], e.states[sid], Seen(t, n, sid).value, t, u, CropOf(t, sid));
    }
  }

  /** `q` is `p`, except that the sources in `ripe`, quiet so far, make the given transitions. */
  ghost predicate Advanced(p: Progress, q: Progress, ripe: map<SourceId, Transition>) {
    && p.steps.Keys == q.steps.Keys && ripe.Keys <= p.steps.Keys
    && forall sid :: sid in p.steps ==>
         if sid in ripe then p.steps[sid].transition == Quiet && q.steps[sid].transition == ripe[sid]
         else q.steps[sid].transition == p.steps[sid].transition
  }

  ghost function NamedOf(mode: Mode, error: bool, ripe: map<SourceId, Transition>): set<SourceId> {
    set sid | sid in ripe && Named(mode, error, ripe[sid])
  }

  lemma DecideAdvanced(mode: Mode, p: Progress, q: Progress, ripe: map<SourceId, Transition>)
    requires Advanced(p, q, ripe) && forall sid :: sid in ripe ==> !ripe[sid].Errored?
    ensures var a, b := Decide(mode, p), Decide(mode, q);
      var error := a.event == Some(RetainedError);
      && b.changedIds == a.changedIds + NamedOf(mode, error, ripe) && a.changedIds !! NamedOf(mode, error, ripe)
      && a.event == EventFor(mode, a.changedIds, error) && b.event == EventFor(mode, b.changedIds, error)
  {
    hide Decide, ErroredIn, Named;
    AdvancedErrors(p, q, ripe);
    DecidedNames(mode, p);
    DecidedNames(mode, q);
    QuietIsNotNamed(mode, HasError(mode, p));
    var a, b, error := Decide(mode, p), Decide(mode, q), HasError(mode, p);
    assert HasError(mode, q) == error;
    hide HasError;
    forall sid
      ensures sid in b.changedIds <==> sid in a.changedIds || sid in NamedOf(mode, error, ripe)
      ensures sid in a.changedIds ==> sid !in NamedOf(mode, error, ripe)
    {
    }
  }

  lemma AdvancedErrors(p: Progress, q: Progress, ripe: map<SourceId, Transition>)
    requires Advanced(p, q, ripe) && forall sid :: sid in ripe ==> !ripe[sid].Errored?
    ensures ErroredIn(q) == ErroredIn(p)
  {
  }

  /** The sources that ripen, each with its transition. */
  ghost function Ripe(cfg: Config, e: Engine, t: Tick, u: Tick): (ripe: map<SourceId, Transition>)
    requires Configured(cfg, e)
    ensures forall sid :: sid in ripe <==> RipensIn(cfg, e, t, u, sid)
    ensures forall sid :: sid in ripe ==> sid in e.states && ripe[sid] == RipeTransition(e.states[sid])
  {
    map sid | sid in e.states && RipensIn(cfg, e, t, u, sid) :: RipeTransition(e.states[sid])
  }

  lemma FoldIsAdvanced(cfg: Config, e: Engine, t: Tick, u: Tick)
    requires Configured(cfg, e) && Keyed(t) && Again(t, u)
    requires Fold(cfg, e, t, |t.observations|).Some? && Fold(cfg, e, u, |u.observations|).Some?
    ensures var p, q := Fold(cfg, e, t, |t.observations|).value, Fold(cfg, e, u, |u.observations|).value;
      Advanced(p, q, Ripe(cfg, e, t, u))
  {
    hide Fold, RipensIn, RipeTransition;
    var p, q := Fold(cfg, e, t, |t.observations|).value, Fold(cfg, e, u, |u.observations|).value;
    var ripe := Ripe(cfg, e, t, u);
    hide Ripe;
    forall sid
      ensures sid in p.steps <==> sid in q.steps
      ensures sid in ripe ==> sid in p.steps
      ensures sid in p.steps ==>
        if sid in ripe then p.steps[sid].transition == Quiet && q.steps[sid].transition == ripe[sid]
        else q.steps[sid].transition == p.steps[sid].transition
    {
      StepAgain(cfg, e, t, u, sid);
    }
  }

  /** The sources that ripen into something the event of this tick has room for. */
  ghost function NewlyNamed(mode: Mode, cfg: Config, e: Engine, t: Tick, u: Tick, error: bool): set<SourceId>
    requires Configured(cfg, e)
  {
    set sid | sid in e.states && RipensIn(cfg, e, t, u, sid) && Named(mode, error, RipeTransition(e.states[sid]))
  }

  lemma NewlyNamedIs(mode: Mode, cfg: Config, e: Engine, t: Tick, u: Tick, error: bool)
    requires Configured(cfg, e)
    ensures NamedOf(mode, error, Ripe(cfg, e, t, u)) == NewlyNamed(mode, cfg, e, t, u, error)
  {
    hide RipensIn, Named, RipeTransition;
  }

  /**
   * Presented again to the same engine, the observations are retained again: the second event names what
   * the first did and the sources that have ripened in between.  So status and named sources are the same
   * if and only if no source ripens into the event.
   */
  lemma RetryRetainsAgain(mode: Mode, cfg: Config, e: Engine, t: Tick, u: Tick)
    requires Configured(cfg, e) && Keyed(t) && Again(t, u)
    requires Fold(cfg, e, t, |t.observations|).Some?
    ensures Fold(cfg, e, u, |u.observations|).Some?
    ensures var a := Decide(mode, Fold(cfg, e, t, |t.observations|).value);
      var b := Decide(mode, Fold(cfg, e, u, |u.observations|).value);
      var error := a.event == Some(RetainedError);
      var more := NewlyNamed(mode, cfg, e, t, u, error);
      && b.changedIds == a.changedIds + more && b.event == EventFor(mode, b.changedIds, error)
      && (b.event == a.event && b.changedIds == a.changedIds <==> more == {})
      && (a.event.Some? ==> b.event.Some?)
      && (a.event in {Some(RetainedError), Some(RetainedChange)} ==> b.event == a.event)
  {
    FoldAgain(cfg, e, t, u, |t.observations|);
    FoldIsAdvanced(cfg, e, t, u);
    var p, q := Fold(cfg, e, t, |t.observations|).value, Fold(cfg, e, u, |u.observations|).value;
    var ripe := Ripe(cfg, e, t, u);
    RipeIsNoError(cfg, e, t, u);
    NewlyNamedIs(mode, cfg, e, t, u, Decide(mode, p).event == Some(RetainedError));
    hide Fold, Decide, RipensIn, Advanced, Ripe, NamedOf, NewlyNamed;
    DecideAdvanced(mode, p, q, ripe);
  }

  lemma RipeIsNoError(cfg: Config, e: Engine, t: Tick, u: Tick)
    requires Configured(cfg, e)
    ensures forall sid :: sid in Ripe(cfg, e, t, u) ==> !Ripe(cfg, e, t, u)[sid].Errored?
  {
    hide RipensIn;
  }

  // ---- the same frame again, from an engine whose candidates were discarded -------------------------------

  /** Errors enter at once; anything else needs a fresh candidate to be confirmed by one reading. */
  predicate Survives(cfg: Settings, tr: Transition) {
    tr.Errored? || (cfg.confirmations <= 1 && cfg.debounce <= 0.0)
  }

  predicate StateSeenBy(st: SourceState, now: real) {
    st.candidate.Some? ==> st.candidate.value.firstSeen <= now
  }

  /** Candidates were first seen no later than now. */
  predicate SeenBy(e: Engine, now: real) { forall sid :: sid in e.states ==> StateSeenBy(e.states[sid], now) }

  lemma LocalAfterDiscard(cfg: Settings, st: SourceState, obs: Observation, t: Tick, u: Tick, crop: Option<Bytes>)
    requires StateSeenBy(st, t.now)
    ensures var a, b := Local(cfg, st, obs, t.frame, t.now, crop), Local(cfg, Bare(st), obs, u.frame, u.now, crop);
      b.transition == if Survives(cfg, a.transition) then a.transition else Quiet
  {
  }

  lemma CropAgain(t: Tick, u: Tick, sid: SourceId)
    requires Again(t, u)
    ensures CropOf(u, sid) == CropOf(t, sid)
  {
  }

  lemma StepAfterDiscard(cfg: Config, e: Engine, t: Tick, u: Tick, sid: SourceId)
    requires Configured(cfg, e) && Keyed(t) && Again(t, u) && SeenBy(e, t.now)
    requires Fold(cfg, e, t, |t.observations|).Some? && Fold(cfg, Discarded(e), u, |u.observations|).Some?
    ensures var p := Fold(cfg, e, t, |t.observations|).value;
      var q := Fold(cfg, Discarded(e), u, |u.observations|).value;
      && (sid in p.steps <==> sid in q.steps) && (sid in p.steps ==> sid in cfg)
      && (sid in p.steps ==>
           var tr := p.steps[sid].transition;
           q.steps[sid].transition == if Survives(cfg[sid], tr) then tr else Quiet)
  {
    hide Fold, Local, Survives, Seen, CropOf, Keyed;
    var n := |t.observations|;
    KeyedAgain(t, u);
    StepOfTick(cfg, e, t, sid);
    StepOfTick(cfg, Discarded(e), u, sid);
    SeenAgain(t, u, n, sid);
    assert CropOf(u, sid) == CropOf(t, sid) by {
      CropAgain(t, u, sid);
    }
    if sid in e.states && Seen(t, n, sid).Some? {
      LocalAfterDiscard(cfg[sid], e.states[sid], Seen(t, n, sid).value, t, u, CropOf(t, sid));
    }
  }

  /** `q` makes those transitions of `p` that survive. */
  ghost predicate Thinned(cfg: Config, p: Progress, q: Progress) {
    && p.steps.Keys == q.steps.Keys && p.steps.Keys <= cfg.Keys
    && forall sid :: sid in p.steps ==>
         q.steps[sid].transition
         == if Survives(cfg[sid], p.steps[sid].transition) then p.steps[sid].transition else Quiet
  }

  lemma DecideThinned(mode: Mode, cfg: Config, p: Progress, q: Progress)
    requires Thinned(cfg, p, q)
    ensures var a, b := Decide(mode, p), Decide(mode, q);
      && a.changedIds <= p.steps.Keys
      && (forall sid :: sid in b.changedIds <==> sid in a.changedIds && Survives(cfg[sid], p.steps[sid].transition))
      && b.event == EventFor(mode, b.changedIds, a.event == Some(RetainedError))
      && (b.event.None? <==>
            mode != EveryTick && forall sid :: sid in a.changedIds ==> !Survives(cfg[sid], p.steps[sid].transition))
  {
    assert ErroredIn(q) == ErroredIn(p);
    DecidedNames(mode, p);
    DecidedNames(mode, q);
    QuietIsNotNamed(mode, HasError(mode, p));
    hide Decide, ErroredIn, Named;
    if HasError(mode, p) {
      var sid := ErrorIsNamed(mode, p);
    }
  }

  lemma FoldIsThinned(cfg: Config, e: Engine, t: Tick, u: Tick)
    requires Configured(cfg, e) && Keyed(t) && Again(t, u) && SeenBy(e, t.now)
    requires Fold(cfg, e, t, |t.observations|).Some? && Fold(cfg, Discarded(e), u, |u.observations|).Some?
    ensures Thinned(cfg, Fold(cfg, e, t, |t.observations|).value, Fold(cfg, Discarded(e), u, |u.observations|).value)
  {
    hide Fold, Discarded, Survives;
    var p, q := Fold(cfg, e, t, |t.observations|).value, Fold(cfg, Discarded(e), u, |u.observations|).value;
    forall sid
      ensures sid in p.steps <==> sid in q.steps
      ensures sid in p.steps ==> sid in cfg
      ensures sid in p.steps ==>
        var tr := p.steps[sid].transition;
        q.steps[sid].transition == if Survives(cfg[sid], tr) then tr else Quiet
    {
      StepAfterDiscard(cfg, e, t, u, sid);
    }
  }

  /**
   * After a pause has discarded the candidates, exactly those named transitions happen again that are error
   * entries or whose source needs one reading and no debounce; an event without any of them is lost, unless
   * every tick is retained.
   */
  lemma RetryAfterDiscard(mode: Mode, cfg: Config, e: Engine, t: Tick, u: Tick)
    requires Configured(cfg, e) && Keyed(t) && Again(t, u) && SeenBy(e, t.now)
    requires Fold(cfg, e, t, |t.observations|).Some? && Fold(cfg, Discarded(e), u, |u.observations|).Some?
    ensures var p := Fold(cfg, e, t, |t.observations|).value;
      var a, b := Decide(mode, p), Decide(mode, Fold(cfg, Discarded(e), u, |u.observations|).value);
      && a.changedIds <= p.steps.Keys && p.steps.Keys <= cfg.Keys
      && (forall sid :: sid in b.changedIds <==> sid in a.changedIds && Survives(cfg[sid], p.steps[sid].transition))
      && b.event == EventFor(mode, b.changedIds, a.event == Some(RetainedError))
      && (b.event.None? <==>
            mode != EveryTick && forall sid :: sid in a.changedIds ==> !Survives(cfg[sid], p.steps[sid].transition))
  {
    FoldIsThinned(cfg, e, t, u);
    hide Fold, Decide, Discarded, Survives;
    var p, q := Fold(cfg, e, t, |t.observations|).value, Fold(cfg, Discarded(e), u, |u.observations|).value;
    DecideThinned(mode, cfg, p, q);
  }

  lemma QuietIsNotNamed(mode: Mode, error: bool)
    ensures !Named(mode, error, Quiet)
  {
  }

  lemma ErrorIsNamed(mode: Mode, p: Progress) returns (sid: SourceId)
    requires HasError(mode, p)
    ensures sid in Decide(mode, p).changedIds && sid in p.steps && p.steps[sid].transition.Errored?
  {
    sid :| sid in ErroredIn(p);
  }

  // ---- when the buffer refuses the frame after a discard -------------------------------------------------

  /** The size of the crop that comes with the `i`-th observation, if that opens a candidate where none is pending. */
  function OpenedSize(cfg: Config, e: Engine, t: Tick, i: nat): nat
    requires Configured(cfg, e) && i < |t.observations|
  {
    var obs := t.observations[i];
    if obs.source in e.states && Opens(cfg[obs.source], Bare(e.states[obs.source]), obs) && obs.source in t.crops
    then |t.crops[obs.source]| else 0
  }

  /** A source that needs one reading and no debounce confirms at once and keeps no crop. */
  predicate ConfirmsAtOnce(cfg: Settings) { cfg.confirmations <= 1 && cfg.debounce <= 0.0 }

  function KeptBefore(cfg: Config, e: Engine, t: Tick, n: nat): nat
    requires Configured(cfg, e) && n <= |t.observations|
  {
    if n == 0 then 0
    else
      var sid := t.observations[n - 1].source;
      KeptBefore(cfg, e, t, n - 1)
      + (if sid in cfg && ConfirmsAtOnce(cfg[sid]) then 0 else OpenedSize(cfg, e, t, n - 1))
  }

  /** The crop is too large by itself, or together with those kept for the observations before it. */
  predicate TooLarge(cfg: Config, e: Engine, t: Tick, i: nat)
    requires Configured(cfg, e) && i < |t.observations|
  {
    || OpenedSize(cfg, e, t, i) > CROP_PNG_MAX_BYTES
    || KeptBefore(cfg, e, t, i) + OpenedSize(cfg, e, t, i) > AGGREGATE_CROP_MAX_BYTES
  }

  predicate SomeTooLarge(cfg: Config, e: Engine, t: Tick, n: nat)
    requires Configured(cfg, e) && n <= |t.observations|
  {
    exists i :: 0 <= i < n && TooLarge(cfg, e, t, i)
  }

  lemma BareKeeps(cfg: Settings, st: SourceState, obs: Observation, frame: string, now: real, crop: Option<Bytes>)
    requires st.candidate.None?
    ensures CropSize(Local(cfg, st, obs, frame, now, crop).state.candidate)
         == if Opens(cfg, st, obs) && crop.Some? && !ConfirmsAtOnce(cfg) then |crop.value| else 0
  {
  }

  /** One observation of a source without a candidate. */
  lemma BareObserve(cfg: Config, e: Engine, t: Tick, n: nat, p: Progress)
    requires Configured(cfg, e) && Configured(cfg, p.engine) && n < |t.observations|
    requires var sid := t.observations[n].source; sid in e.states ==> p.engine.states[sid] == Bare(e.states[sid])
    requires p.engine.bytes == KeptBefore(cfg, e, t, n) <= AGGREGATE_CROP_MAX_BYTES
    ensures var r := Observe(cfg, p, t.observations[n], t);
      && (r.None? <==> TooLarge(cfg, e, t, n))
      && (r.Some? ==> r.value.engine.bytes == KeptBefore(cfg, e, t, n + 1) <= AGGREGATE_CROP_MAX_BYTES)
  {
    hide Local, Opens;
    var obs := t.observations[n];
    var sid := obs.source;
    if sid in e.states {
      BareKeeps(cfg[sid], Bare(e.states[sid]), obs, t.frame, t.now, CropOf(t, sid));
    }
  }

  lemma {:induction false} OverflowExactly(cfg: Config, e: Engine, t: Tick, n: nat)
    requires Configured(cfg, e) && Keyed(t) && n <= |t.observations|
    ensures var r := Fold(cfg, Discarded(e), t, n);
      && (r.None? <==> SomeTooLarge(cfg, e, t, n))
      && (r.Some? ==> r.value.engine.bytes == KeptBefore(cfg, e, t, n) <= AGGREGATE_CROP_MAX_BYTES)
  {
    hide Observe, TooLarge, Keyed;
    if n > 0 {
      OverflowExactly(cfg, e, t, n - 1);
      var r := Fold(cfg, Discarded(e), t, n - 1);
      if r.Some? {
        NotYetTouched(cfg, Discarded(e), t, n - 1);
        BareObserve(cfg, e, t, n - 1, r.value);
      }
    }
  }

  // ---- candidates are never from the future -----------------------------------------------------------------

  lemma {:induction false} FoldSeenBy(cfg: Config, e: Engine, t: Tick, n: nat, now: real)
    requires Configured(cfg, e) && n <= |t.observations| && SeenBy(e, now) && t.now <= now && Fold(cfg, e, t, n).Some?
    ensures SeenBy(Fold(cfg, e, t, n).value.engine, now)
  {
    hide Observe, Local, StateSeenBy;
    if n > 0 {
      FoldSeenBy(cfg, e, t, n - 1, now);
      var p, obs := Fold(cfg, e, t, n - 1).value, t.observations[n - 1];
      ObserveTouchesOne(cfg, p, obs, t);
      if obs.source in p.engine.states {
        LocalSeenBy(cfg[obs.source], p.engine.states[obs.source], obs, t, CropOf(t, obs.source), now);
      }
    }
  }

  lemma LocalSeenBy(cfg: Settings, st: SourceState, obs: Observation, t: Tick, crop: Option<Bytes>, now: real)
    requires StateSeenBy(st, now) && t.now <= now
    ensures StateSeenBy(Local(cfg, st, obs, t.frame, t.now, crop).state, now)
  {
  }

  lemma DiscardSeenBy(e: Engine, now: real)
    ensures SeenBy(Discarded(e), now)
  {
  }

  lemma IngestSeenBy(cfg: Config, mode: Mode, s: Session, t: Tick, framePause: Option<PauseReason>, io: Io, now: real)
    requires Configured(cfg, s.engine) && SeenBy(s.engine, now) && t.now <= now
    ensures SeenBy(Ingest(cfg, mode, s, t, framePause, io).0.engine, now)
  {
    hide Fold, Decide, Discarded, Recorded, SeenBy, Appended;
    DiscardSeenBy(s.engine, now);
    if Fold(cfg, s.engine, t, |t.observations|).Some? {
      FoldSeenBy(cfg, s.engine, t, |t.observations|, now);
    }
  }

  lemma CaptureSeenBy(cfg: Config, mode: Mode, s: Session, t: Tick, framePause: Option<PauseReason>, io: Io, now: real)
    requires Configured(cfg, s.engine) && SeenBy(s.engine, now) && t.now <= now
    ensures SeenBy(AfterCapture(cfg, mode, s, t, framePause, io).engine, now)
  {
    hide Ingest, Discarded, SeenBy;
    IngestSeenBy(cfg, mode, s.(failures := 0), t, framePause, io, now);
    DiscardSeenBy(Ingest(cfg, mode, s.(failures := 0), t, framePause, io).0.engine, now);
  }

  lemma MarkSeenBy(e: Engine, failed: set<SourceId>, now: real)
    requires SeenBy(e, now)
    ensures SeenBy(MarkedFailed(e, failed), now)
  {
  }

  lemma JournalFailureSeenBy(mode: Mode, s: Session, io: Io, now: real)
    requires SeenBy(s.engine, now)
    ensures SeenBy(JournalFailure(mode, s, io).engine, now)
  {
    hide Discarded, MarkedFailed, NewlyFailed, SignatureOf, SeenBy, Appended;
    MarkSeenBy(s.engine, NewlyFailed(s.engine), now);
    DiscardSeenBy(s.engine, now);
  }

  lemma FailureSeenBy(mode: Mode, s: Session, io: Io, respawned: bool, now: real)
    ensures SeenBy(AfterWorkerFailure(mode, s, io, respawned).engine, now)
  {
    hide Discarded, JournalFailure, SeenBy;
    var s0 := s.(failures := s.failures + 1, engine := Discarded(s.engine));
    DiscardSeenBy(s.engine, now);
    JournalFailureSeenBy(mode, s0, io, now);
    DiscardSeenBy(JournalFailure(mode, s0, io).engine, now);
  }

  /**
   * Whatever run led to it, and with a clock that does not go back, a session holds no candidate first seen
   * after a frame captured now.
   */
  lemma {:induction false} CandidatesAreSeenBy(cfg: Config, mode: Mode, ids: seq<SourceId>, s: Session,
                                               steps: seq<Step>, now: real)
    requires Inv(cfg, mode, ids, s) && AllWellformed(steps) && SeenBy(s.engine, now)
    requires forall step :: step in steps && step.Captured? ==> step.tick.now <= now
    ensures SeenBy(Run(cfg, mode, ids, s, steps).engine, now)
    decreases |steps|
  {
    hide AfterCapture, AfterWorkerFailure, LedgerInv, Reflects, Balanced, Remembers, AllBacked, SeenBy;
    if steps != [] {
      NextKeepsInv(cfg, mode, ids, s, steps[0]);
      match steps[0] {
        case Captured(t, framePause, io) => CaptureSeenBy(cfg, mode, s, t, framePause, io, now);
        case WorkerDown(io, respawned) => FailureSeenBy(mode, s, io, respawned, now);
        case _ =>
      }
      CandidatesAreSeenBy(cfg, mode, ids, Next(cfg, mode, s, steps[0]), steps[1..], now);
    }
  }

  // ---- in a session ----------------------------------------------------------------------------------------

  function Wanted(cfg: Config, mode: Mode, e: Engine, t: Tick): Option<Decision>
    requires Configured(cfg, e)
  {
    var r := Fold(cfg, e, t, |t.observations|);
    if r.None? then None else Some(Decide(mode, r.value))
  }

  /** What capturing a frame on a working disk journals. */
  lemma FrameJournals(cfg: Config, mode: Mode, s: Session, u: Tick, io: Io)
    requires Configured(cfg, s.engine) && s.recording && s.journal.diskBytes < DISK_STOP_BYTES && io.fault == NoFault
    ensures var d := Wanted(cfg, mode, s.engine, u);
      Next(cfg, mode, s, Captured(u, None, io)).journal.events == s.journal.events +
        (if d.Some? && d.value.event.Some?
         then [EventOf(d.value, s.skipped).(seqNo := s.journal.eventSeq + 1)] else [])
  {
    hide Fold, Decide, AfterCapture;
    if Fold(cfg, s.engine, u, |u.observations|).None? {
      OverflowAppendsNothing(cfg, mode, s, u, io);
    } else if Decide(mode, Fold(cfg, s.engine, u, |u.observations|).value).event.None? {
      NoEventIsAppended(cfg, mode, s, u, io);
    } else {
      EventIsAppended(cfg, mode, s, u, io);
    }
  }

  /** The session after a frame whose append fails, and resuming or, where that is refused, starting again. */
  function Resumed(cfg: Config, mode: Mode, s: Session, t: Tick, framePause: Option<PauseReason>, io: Io): (r: Session)
    requires Configured(cfg, s.engine)
    ensures Configured(cfg, r.engine)
  {
    var paused := Next(cfg, mode, s, Captured(t, framePause, io));
    Next(cfg, mode, paused, if Resumable(paused.pause) then UserResumed(true) else StartedAgain)
  }

  /**
   * When the rollback was exact, the same frame captured again after resuming journals the event, with the
   * skip count kept: same status and sources if and only if nothing ripened into it in between.
   */
  lemma FailedEventIsRetainedOnRetry(cfg: Config, mode: Mode, ids: seq<SourceId>, s: Session, t: Tick, io: Io,
                                     u: Tick, io2: Io)
    requires Inv(cfg, mode, ids, s) && Keyed(t) && AppendFails(cfg, mode, s, t, None, io)
    requires Again(t, u) && io2.fault == NoFault
    requires Next(cfg, mode, s, Captured(t, None, io)).journal.diskBytes < DISK_STOP_BYTES
    ensures Wanted(cfg, mode, s.engine, t).Some?
    ensures var a := Wanted(cfg, mode, s.engine, t).value;
      var more := NewlyNamed(mode, cfg, s.engine, t, u, a.event == Some(RetainedError));
      var events := Next(cfg, mode, Resumed(cfg, mode, s, t, None, io), Captured(u, None, io2)).journal.events;
      && |events| == |s.journal.events| + 1 && s.journal.events <= events
      && var b := events[|s.journal.events|];
         b.seqNo == |events| && b.skipped == s.skipped
         && b.changedIds == a.changedIds + more
         && (Some(b.status) == a.event && b.changedIds == a.changedIds <==> more == {})
  {
    hide Fold, Decide, AfterCapture, Appended, Balanced, Remembers, AllBacked, Reflects, NothingPending, NewlyNamed;
    FailedAppendRollsBack(cfg, mode, ids, s, t, None, io);
    FailedAppendPauses(cfg, mode, s, t, io);
    RetryRetainsAgain(mode, cfg, s.engine, t, u);
    FrameJournals(cfg, mode, Resumed(cfg, mode, s, t, None, io), u, io2);
  }

  lemma StepsConfigured(mode: Mode, cfg: Config, e: Engine, t: Tick)
    requires Configured(cfg, e) && Keyed(t) && Fold(cfg, e, t, |t.observations|).Some?
    ensures var p := Fold(cfg, e, t, |t.observations|).value;
      Decide(mode, p).changedIds <= p.steps.Keys <= cfg.Keys
  {
    var p := Fold(cfg, e, t, |t.observations|).value;
    FoldIsPointwise(cfg, e, t, |t.observations|);
    DecidedNames(mode, p);
    hide Fold, Decide;
  }

  lemma FoldOfFailing(cfg: Config, mode: Mode, s: Session, t: Tick, framePause: Option<PauseReason>, io: Io)
    requires Configured(cfg, s.engine) && AppendFails(cfg, mode, s, t, framePause, io)
    ensures Fold(cfg, s.engine, t, |t.observations|).Some?
  {
    hide Fold;
  }

  /** Paused by the frame itself, the session goes on without candidates, and otherwise as it was. */
  lemma ResumedWithoutCandidates(cfg: Config, mode: Mode, ids: seq<SourceId>, s: Session, t: Tick, pause: PauseReason,
                                 io: Io)
    requires Inv(cfg, mode, ids, s) && Keyed(t) && AppendFails(cfg, mode, s, t, Some(pause), io)
    ensures var resumed := Resumed(cfg, mode, s, t, Some(pause), io);
      && resumed.recording && resumed.engine == Discarded(s.engine)
      && (resumed.engine == s.engine <==> NothingPending(s.engine))
      && resumed.journal == Next(cfg, mode, s, Captured(t, Some(pause), io)).journal
      && resumed.journal.events == s.journal.events && resumed.skipped == s.skipped
  {
    hide Fold, Decide, Discarded, AfterCapture, AppendFails, Balanced, Remembers, AllBacked, Reflects, LedgerInv,
         NothingPending;
    FailedAppendRollsBack(cfg, mode, ids, s, t, Some(pause), io);
    DiscardIsVisible(ids, s.engine);
  }

  /** What the same frame comes to on the engine without candidates. */
  lemma WantedAfterDiscard(cfg: Config, mode: Mode, e: Engine, t: Tick, u: Tick)
    requires Configured(cfg, e) && Keyed(t) && Again(t, u) && SeenBy(e, t.now)
    requires Fold(cfg, e, t, |t.observations|).Some?
    ensures var steps := Fold(cfg, e, t, |t.observations|).value.steps;
      var a := Wanted(cfg, mode, e, t).value.changedIds;
      var d := Wanted(cfg, mode, Discarded(e), u);
      && a <= steps.Keys && steps.Keys <= cfg.Keys
      && (d.None? || d.value.event.None?
          <==> SomeTooLarge(cfg, e, u, |u.observations|)
               || (mode != EveryTick && forall sid :: sid in a ==> !Survives(cfg[sid], steps[sid].transition)))
      && (d.Some? ==>
            forall sid :: sid in d.value.changedIds <==> sid in a && Survives(cfg[sid], steps[sid].transition))
  {
    hide Fold, Decide, Discarded, Survives, SeenBy, SomeTooLarge;
    KeyedAgain(t, u);
    OverflowExactly(cfg, e, u, |u.observations|);
    StepsConfigured(mode, cfg, e, t);
    if Wanted(cfg, mode, Discarded(e), u).Some? {
      RetryAfterDiscard(mode, cfg, e, t, u);
    }
  }

  /**
   * When the failing frame also pauses the session, the frame captured again journals exactly what survives:
   * error entries, and transitions of sources that need one reading and no debounce.  Without any of them,
   * and unless every tick is retained, nothing is journaled and the event is lost; so it is when the frame's
   * crops overflow the evidence buffer.
   */
  lemma RetryAfterPauseExactly(cfg: Config, mode: Mode, ids: seq<SourceId>, s: Session, t: Tick, pause: PauseReason,
                               io: Io, u: Tick, io2: Io)
    requires Inv(cfg, mode, ids, s) && Keyed(t) && SeenBy(s.engine, t.now)
    requires AppendFails(cfg, mode, s, t, Some(pause), io)
    requires Again(t, u) && io2.fault == NoFault
    requires Next(cfg, mode, s, Captured(t, Some(pause), io)).journal.diskBytes < DISK_STOP_BYTES
    ensures Wanted(cfg, mode, s.engine, t).Some?
    ensures var steps := Fold(cfg, s.engine, t, |t.observations|).value.steps;
      var a := Wanted(cfg, mode, s.engine, t).value;
      var resumed := Resumed(cfg, mode, s, t, Some(pause), io);
      var events := Next(cfg, mode, resumed, Captured(u, None, io2)).journal.events;
      && resumed.recording && resumed.engine == Discarded(s.engine)
      && (resumed.engine == s.engine <==> NothingPending(s.engine))
      && a.changedIds <= steps.Keys && steps.Keys <= cfg.Keys
      && (events == s.journal.events
          <==> SomeTooLarge(cfg, s.engine, u, |u.observations|)
               || (mode != EveryTick
                   && forall sid :: sid in a.changedIds ==> !Survives(cfg[sid], steps[sid].transition)))
      && (events != s.journal.events ==>
            |events| == |s.journal.events| + 1 && s.journal.events <= events
            && forall sid :: sid in events[|s.journal.events|].changedIds
                 <==> sid in a.changedIds && Survives(cfg[sid], steps[sid].transition))
  {
    hide Fold, Decide, Discarded, Next, Balanced, Remembers, AllBacked, LedgerInv, Reflects, NothingPending, Survives,
         SeenBy, SomeTooLarge;
    FoldOfFailing(cfg, mode, s, t, Some(pause), io);
    ResumedWithoutCandidates(cfg, mode, ids, s, t, pause, io);
    WantedAfterDiscard(cfg, mode, s.engine, t, u);
    FrameJournals(cfg, mode, Resumed(cfg, mode, s, t, Some(pause), io), u, io2);
  }

  // ---- it happens ----------------------------------------------------------------------------------------------

  /** A line that cannot be written on an otherwise working disk, and one that can. */
  const REFUSED := Io(0, 0, LineFault)
  const WORKING := Io(0, 0, NoFault)

  lemma LineIsRefused(cfg: Config, mode: Mode, s: Session, t: Tick, pause: Option<PauseReason>)
    requires Configured(cfg, s.engine) && s.recording && pause != Some(DisplayInvalidated)
    requires s.journal.diskBytes < DISK_STOP_BYTES
    requires Wanted(cfg, mode, s.engine, t).Some? && Wanted(cfg, mode, s.engine, t).value.event.Some?
    ensures AppendFails(cfg, mode, s, t, pause, REFUSED)
    ensures Next(cfg, mode, s, Captured(t, pause, REFUSED)).journal.diskBytes < DISK_STOP_BYTES
  {
    hide Fold, Decide, Discarded, Recorded;
  }

  lemma ChangeIsLost(cfg: Config, mode: Mode, ids: seq<SourceId>, s: Session, t: Tick, pause: PauseReason, u: Tick)
    requires Inv(cfg, mode, ids, s) && Keyed(t) && SeenBy(s.engine, t.now)
    requires Configured(cfg, s.engine)
    requires s.recording && s.journal.diskBytes < DISK_STOP_BYTES && !NothingPending(s.engine)
    requires pause != DisplayInvalidated && Again(t, u) && mode != EveryTick
    requires Wanted(cfg, mode, s.engine, t).Some? && Wanted(cfg, mode, s.engine, t).value.event.Some?
    requires var p := Fold(cfg, s.engine, t, |t.observations|).value;
      forall sid :: sid in Wanted(cfg, mode, s.engine, t).value.changedIds && sid in p.steps && sid in cfg ==>
        !Survives(cfg[sid], p.steps[sid].transition)
    ensures AppendFails(cfg, mode, s, t, Some(pause), REFUSED)
    ensures var resumed := Resumed(cfg, mode, s, t, Some(pause), REFUSED);
      resumed.recording && resumed.engine != s.engine
      && Next(cfg, mode, resumed, Captured(u, None, WORKING)).journal.events == s.journal.events
  {
    hide Fold, Decide, Inv, NothingPending, Next, Discarded, SeenBy, Survives, SomeTooLarge;
    LineIsRefused(cfg, mode, s, t, Some(pause));
    RetryAfterPauseExactly(cfg, mode, ids, s, t, pause, REFUSED, u, WORKING);
  }

  lemma MoreIsNamed(cfg: Config, mode: Mode, ids: seq<SourceId>, s: Session, t: Tick, u: Tick, sid: SourceId)
    requires Inv(cfg, mode, ids, s) && Keyed(t) && Configured(cfg, s.engine) && Again(t, u)
    requires s.recording && s.journal.events == [] && s.journal.diskBytes < DISK_STOP_BYTES
    requires Wanted(cfg, mode, s.engine, t).Some? && Wanted(cfg, mode, s.engine, t).value.event.Some?
    requires var error := Wanted(cfg, mode, s.engine, t).value.event == Some(RetainedError);
      sid in NewlyNamed(mode, cfg, s.engine, t, u, error)
    ensures AppendFails(cfg, mode, s, t, None, REFUSED)
    ensures var events := Next(cfg, mode, Resumed(cfg, mode, s, t, None, REFUSED), Captured(u, None, WORKING))
        .journal.events;
      |events| == 1 && sid in events[0].changedIds
  {
    hide Fold, Decide, Inv, Next, NewlyNamed;
    LineIsRefused(cfg, mode, s, t, None);
    FailedEventIsRetainedOnRetry(cfg, mode, ids, s, t, REFUSED, u, WORKING);
  }

  function Lone(x: string): Option<real> { None }

  function Needing(debounce: real): Config { map[1 := Settings(2, debounce, None, Lone)] }

  function Two(): Observation { Observation(1, OK, Some("2"), "number", "2") }

  function AlmostTwo(): SourceState {
    SourceState(true, Some("1"), "number", Some(OK), false, None, None, "number",
                Some(Candidate(Some("2"), "number", "f1", "2", None, 0.0, 1)))
  }

  /** Source 1 was read as 1 twice and is stable at it; one reading of 2 of the two needed has come in. */
  function HalfWay(): Session {
    var one := Two().(value := Some("1"), rawText := "1");
    Session(Engine(map[1 := AlmostTwo()], 0), Journal([], 0, 0), 0, 0, true, None, 0,
            map[1 := [Sample(one, -4.0), Sample(one, -2.0), Sample(Two(), 0.0)]])
  }

  function SeenTwoAt(now: real): Tick { Tick([Two()], "f2", now, map[]) }

  lemma HalfWayInv(debounce: real, mode: Mode)
    ensures var cfg, s := Needing(debounce), HalfWay();
      && Inv(cfg, mode, [1], s) && !NothingPending(s.engine) && SeenBy(s.engine, SeenTwoAt(1.0).now)
      && Configured(cfg, s.engine)
      && s.recording && s.journal.events == [] && s.journal.diskBytes < DISK_STOP_BYTES
  {
    var s := HalfWay();
    assert Repeats(s.seen[1], 1, Some("2"), "number");
    assert Held([1], s.engine.states) == 0;
    assert 1 in s.engine.states;
  }

  /** The effect of a single observation. */
  lemma OneReading(cfg: Config, mode: Mode, e: Engine, obs: Observation, t: Tick)
    requires Configured(cfg, e) && t.observations == [obs] && obs.source in cfg && t.crops == map[]
    ensures var l := Local(cfg[obs.source], e.states[obs.source], obs, t.frame, t.now, None);
      var d := Wanted(cfg, mode, e, t);
      && d.Some? && Fold(cfg, e, t, 1).value.steps == map[obs.source := l]
      && (l.transition == Changed ==> d.value.event == Some(RetainedChange) && d.value.changedIds == {obs.source})
      && (l.transition == Quiet ==> d.value.event == EventFor(mode, {}, false) && d.value.changedIds == {})
  {
    hide Local;
    assert Fold(cfg, e, t, 0) == Some(Progress(e, map[]));
    var p := Fold(cfg, e, t, 1).value;
    DecidedNames(mode, p);
    assert ErroredIn(p) == {} || p.steps[obs.source].transition.Errored?;
    var named := Decide(mode, p).changedIds;
    hide Decide, Fold;
    assert p.steps[obs.source].transition == Changed ==> named == {obs.source};
    assert p.steps[obs.source].transition == Quiet ==> named == {};
  }

  lemma FirstReading(debounce: real)
    requires debounce in {0.0, 1.5}
    ensures Local(Needing(debounce)[1], AlmostTwo(), Two(), "f2", 1.0, None).transition
         == if debounce == 0.0 then Changed else Quiet
    ensures Ripens(Needing(1.5)[1], AlmostTwo(), Two(), SeenTwoAt(1.0), SeenTwoAt(2.0))
    ensures RipeTransition(AlmostTwo()) == Changed && !Survives(Needing(0.0)[1], Changed)
  {
  }

  lemma HalfWayReads(debounce: real, mode: Mode)
    requires debounce == 0.0 || (debounce == 1.5 && mode == EveryTick)
    ensures var cfg, s, t := Needing(debounce), HalfWay(), SeenTwoAt(1.0);
      && Keyed(t) && Again(t, SeenTwoAt(2.0)) && Configured(cfg, s.engine)
      && Wanted(cfg, mode, s.engine, t).Some? && Wanted(cfg, mode, s.engine, t).value.event.Some?
      && var d, p := Wanted(cfg, mode, s.engine, t).value, Fold(cfg, s.engine, t, |t.observations|).value;
         && (debounce == 0.0 ==> d.event == Some(RetainedChange) && d.changedIds == {1})
         && (debounce == 1.5 ==> d.event == Some(RetainedDiagnostic) && d.changedIds == {})
         && (debounce == 0.0 ==>
              forall sid :: sid in d.changedIds && sid in p.steps && sid in cfg ==>
                !Survives(cfg[sid], p.steps[sid].transition))
  {
    FirstReading(debounce);
    OneReading(Needing(debounce), mode, HalfWay().engine, Two(), SeenTwoAt(1.0));
    hide Fold, Decide, Local, Survives;
  }

  /**
   * The rollback is not always exact.  A blank-frame streak pauses the session on a frame whose regions were
   * still read; its reading confirms a change, the journal refuses the event, and after resuming the same
   * reading retains nothing.
   */
  lemma LostConfirmation()
    ensures var cfg, s, t, u := Needing(0.0), HalfWay(), SeenTwoAt(1.0), SeenTwoAt(2.0);
      var pause := Some(BackendBlankStreak);
      && Inv(cfg, ChangedAndErrors, [1], s) && AppendFails(cfg, ChangedAndErrors, s, t, pause, REFUSED)
      && Wanted(cfg, ChangedAndErrors, s.engine, t).value.changedIds == {1}
      && var resumed := Resumed(cfg, ChangedAndErrors, s, t, pause, REFUSED);
         resumed.recording && resumed.engine != s.engine
         && Next(cfg, ChangedAndErrors, resumed, Captured(u, None, WORKING)).journal.events == []
  {
    hide *;
    var cfg, s, t, u := Needing(0.0), HalfWay(), SeenTwoAt(1.0), SeenTwoAt(2.0);
    HalfWayInv(0.0, ChangedAndErrors);
    HalfWayReads(0.0, ChangedAndErrors);
    ChangeIsLost(cfg, ChangedAndErrors, [1], s, t, BackendBlankStreak, u);
  }

  /** And an exact rollback need not repeat the event: here a debounce runs out before the retry. */
  lemma RetryCanNameMore()
    ensures var cfg, s, t, u := Needing(1.5), HalfWay(), SeenTwoAt(1.0), SeenTwoAt(2.0);
      && Inv(cfg, EveryTick, [1], s) && AppendFails(cfg, EveryTick, s, t, None, REFUSED)
      && Wanted(cfg, EveryTick, s.engine, t).value.changedIds == {}
      && var events := Next(cfg, EveryTick, Resumed(cfg, EveryTick, s, t, None, REFUSED), Captured(u, None, WORKING))
           .journal.events;
         |events| == 1 && 1 in events[0].changedIds
  {
    hide *;
    var cfg, s, t, u := Needing(1.5), HalfWay(), SeenTwoAt(1.0), SeenTwoAt(2.0);
    HalfWayInv(1.5, EveryTick);
    HalfWayReads(1.5, EveryTick);
    HalfWayRipens();
    MoreIsNamed(cfg, EveryTick, [1], s, t, u, 1);
  }

  lemma HalfWayRipens()
    ensures 1 in NewlyNamed(EveryTick, Needing(1.5), HalfWay().engine, SeenTwoAt(1.0), SeenTwoAt(2.0), false)
  {
    FirstReading(1.5);
    assert Seen(SeenTwoAt(1.0), 1, 1) == Some(Two());
  }
}
