/**
 * Which readings change a stable value, and which are held back, in terms of the readings, their numbers
 * and their times (src/screen2xyz_m2/stability.py).
 *
 * `StabilityLaws.ConfirmationIsEarned` says that whatever is committed was earned; here is the converse.
 */
module SettledValues {
  import opened Common
  import opened Stability
  import opened StabilityLaws
  import Recording
  import opened RetryLaws

  // ---- one reading ---------------------------------------------------------

  /** Two numbers less than the threshold apart. */
  predicate Near(cfg: Settings, a: Option<string>, b: Option<string>) {
    && cfg.threshold.Some? && a.Some? && b.Some?
    && cfg.number(a.value).Some? && cfg.number(b.value).Some?
    && var d := cfg.number(a.value).value - cfg.number(b.value).value;
       -cfg.threshold.value < d < cfg.threshold.value
  }

  /** A settled source repeats its stable reading, or moves by less than the threshold. */
  predicate Ignored(cfg: Settings, st: SourceState, obs: Observation) {
    && st.seeded && !st.errorActive
    && (Near(cfg, obs.value, st.value) || (obs.value == st.value && obs.kind == st.kind && st.status == Some(OK)))
  }

  /** The pending candidate is of the same reading. */
  predicate Continues(st: SourceState, obs: Observation) {
    match st.candidate
    case None => false
    case Some(c) => c.value == obs.value && c.kind == obs.kind
  }

  /** The run of equal readings that ends with this one. */
  function RunOf(st: SourceState, obs: Observation, frame: string, now: real, crop: Option<Bytes>): Candidate {
    if Continues(st, obs) then
      var c := st.candidate.value;
      Candidate(obs.value, obs.kind, c.frame, c.rawText, c.crop, c.firstSeen, c.count + 1)
    else Candidate(obs.value, obs.kind, frame, obs.rawText, crop, now, 1)
  }

  /** The run is long enough and old enough. */
  predicate Ripe(cfg: Settings, run: Candidate, now: real) {
    run.count >= cfg.confirmations && run.firstSeen + cfg.debounce <= now
  }

  /** Nothing but the candidate differs. */
  predicate Unsettled(before: SourceState, after: SourceState) {
    && after.seeded == before.seeded && after.value == before.value && after.kind == before.kind
    && after.status == before.status && after.errorActive == before.errorActive
    && after.lastError == before.lastError
    && after.preValue == before.preValue && after.preKind == before.preKind
  }

  /** What an OK reading does, whatever the source was before. */
  lemma OkReadingExactly(cfg: Settings, st: SourceState, obs: Observation, frame: string, now: real,
                         crop: Option<Bytes>)
    requires obs.status == OK
    ensures var s, run := Local(cfg, st, obs, frame, now, crop), RunOf(st, obs, frame, now, crop);
      if Ignored(cfg, st, obs) then
        Unsettled(st, s.state) && s.state.candidate.None? && s.transition == Quiet && s.verdict == Confirmed
      else if Ripe(cfg, run, now) then
        && s.state.seeded && s.state.value == obs.value && s.state.kind == obs.kind
        && s.state.status == Some(OK) && !s.state.errorActive && s.state.candidate.None?
        && (st.errorActive ==> s.state.lastError.None?)
        && s.transition == (if st.errorActive then Recovered(obs.value != st.preValue || obs.kind != st.preKind)
                            else if st.seeded && (obs.value != st.value || obs.kind != st.kind) then Changed
                            else Quiet)
        && s.verdict == (if cfg.confirmations == 1 then Immediate else Confirmed)
        && (s.transition != Quiet ==>
              s.evidence == Some(Evidence(run.frame, run.rawText, obs.value, obs.kind)) && s.saved == run.crop)
      else
        && Unsettled(st, s.state) && s.state.candidate == Some(run) && s.transition == Quiet
        && s.verdict == (if st.candidate.Some? && !Continues(st, obs) && cfg.confirmations > 1 then Rejected
                         else PendingConfirmation)
    ensures Local(cfg, st, obs, frame, now, crop).transition == Quiet ==>
      Local(cfg, st, obs, frame, now, crop).evidence.None? && Local(cfg, st, obs, frame, now, crop).saved.None?
  {
  }

  /** What any other reading does: two statuses are only displayed, all others are errors to be retained once. */
  lemma OtherReadingExactly(cfg: Settings, st: SourceState, obs: Observation, frame: string, now: real,
                            crop: Option<Bytes>)
    requires obs.status != OK
    ensures var s := Local(cfg, st, obs, frame, now, crop);
      && s.state.candidate.None? && s.verdict == Untouched
      && s.state.seeded == st.seeded && s.state.value == st.value && s.state.kind == st.kind
      && if obs.status == MissingSourceValue || obs.status == UnstableReading then
           Unsettled(st, s.state) && s.transition == Quiet && s.evidence.None? && s.saved.None?
         else
           && s.state.preValue == (if st.errorActive then st.preValue else st.value)
           && s.state.preKind == (if st.errorActive then st.preKind else st.kind)
           && if st.lastError == Some(obs.status) then
                && s.state.status == st.status && s.state.errorActive == st.errorActive
                && s.state.lastError == st.lastError
                && s.transition == Quiet && s.evidence.None? && s.saved.None?
              else
                && s.state.status == Some(obs.status) && s.state.errorActive
                && s.state.lastError == Some(obs.status)
                && s.transition == Errored && s.saved == crop
                && s.evidence == Some(Evidence(frame, obs.rawText, None, obs.kind))
  {
  }

  /** A source never read before: its first value is no event, and its first error is one. */
  lemma SeedingIsNoEvent(cfg: Settings, obs: Observation, frame: string, now: real, crop: Option<Bytes>)
    ensures var s := Local(cfg, Fresh(), obs, frame, now, crop);
      && (s.transition == Quiet <==> obs.status in {OK, MissingSourceValue, UnstableReading})
      && (s.state.seeded <==> obs.status == OK && cfg.confirmations <= 1 && cfg.debounce <= 0.0)
  {
    hide Local;
    if obs.status == OK {
      OkReadingExactly(cfg, Fresh(), obs, frame, now, crop);
    } else {
      OtherReadingExactly(cfg, Fresh(), obs, frame, now, crop);
    }
  }

  // ---- equal readings settle -----------------------------------------------

  /** The source shows this value, without an error. */
  predicate Shows(st: SourceState, value: Option<string>, kind: string) {
    st.seeded && !st.errorActive && st.value == value && st.kind == kind
  }

  /** The readings are held back: the source has a value, no error, and they move it by less than the threshold. */
  predicate HeldBack(cfg: Settings, st: SourceState, value: Option<string>) {
    st.seeded && !st.errorActive && Near(cfg, value, st.value)
  }

  /** At least `n` equal readings so far, the first not after `since`. */
  predicate Counted(st: SourceState, value: Option<string>, kind: string, n: nat, since: real) {
    match st.candidate
    case None => false
    case Some(c) => c.value == value && c.kind == kind && c.count >= n && c.firstSeen <= since
  }

  /** Where `n` equal readings, the first at `since` and the last at `now`, have taken the source from `st`. */
  predicate OnItsWay(cfg: Settings, st: SourceState, after: SourceState, value: Option<string>, kind: string,
                     n: nat, since: real, now: real)
  {
    if HeldBack(cfg, st, value) then Unsettled(st, after)
    else
      || Shows(after, value, kind)
      || (Unsettled(st, after) && Counted(after, value, kind, n, since)
          && (n < cfg.confirmations || now < since + cfg.debounce))
  }

  lemma FirstEqualReading(cfg: Settings, st: SourceState, obs: Observation, frame: string, now: real,
                          crop: Option<Bytes>)
    requires obs.status == OK && StateSeenBy(st, now)
    ensures OnItsWay(cfg, st, Local(cfg, st, obs, frame, now, crop).state, obs.value, obs.kind, 1, now, now)
  {
    hide Local;
    OkReadingExactly(cfg, st, obs, frame, now, crop);
  }

  lemma NextEqualReading(cfg: Settings, st: SourceState, mid: SourceState, obs: Observation, frame: string,
                         now: real, crop: Option<Bytes>, n: nat, since: real, earlier: real)
    requires obs.status == OK && since <= now
    requires OnItsWay(cfg, st, mid, obs.value, obs.kind, n, since, earlier)
    ensures OnItsWay(cfg, st, Local(cfg, mid, obs, frame, now, crop).state, obs.value, obs.kind, n + 1, since, now)
  {
    hide Local;
    OkReadingExactly(cfg, mid, obs, frame, now, crop);
  }

  // ---- over ticks ----------------------------------------------------------

  /** The engine after all ticks; None when the evidence buffer overflowed in one of them. */
  function AfterTicks(cfg: Config, e: Engine, ticks: seq<Tick>): (r: Option<Engine>)
    requires Configured(cfg, e)
    ensures r.Some? ==> Configured(cfg, r.value)
  {
    if ticks == [] then Some(e)
    else
      var last := ticks[|ticks| - 1];
      match AfterTicks(cfg, e, ticks[..|ticks| - 1])
      case None => None
      case Some(mid) =>
        var p := Fold(cfg, mid, last, |last.observations|);
        if p.None? then None else Some(p.value.engine)
  }

  /** The tick holds an OK reading of the source. */
  predicate Reads(t: Tick, sid: SourceId, value: Option<string>, kind: string) {
    exists i :: 0 <= i < |t.observations| && t.observations[i].source == sid
      && t.observations[i].status == OK && t.observations[i].value == value && t.observations[i].kind == kind
  }

  /** Every tick reads the same of the source, and the clock does not go back. */
  predicate AllRead(ticks: seq<Tick>, sid: SourceId, value: Option<string>, kind: string) {
    && (forall i :: 0 <= i < |ticks| ==> Keyed(ticks[i]) && Reads(ticks[i], sid, value, kind))
    && (forall i, j :: 0 <= i < j < |ticks| ==> ticks[i].now <= ticks[j].now)
  }

  lemma {:induction false} SeenAt(t: Tick, n: nat, i: nat)
    requires Keyed(t) && i < n <= |t.observations|
    ensures Seen(t, n, t.observations[i].source) == Some(t.observations[i])
  {
    if n - 1 != i {
      SeenAt(t, n - 1, i);
    }
  }

  lemma ReadIsSeen(t: Tick, sid: SourceId, value: Option<string>, kind: string)
    requires Keyed(t) && Reads(t, sid, value, kind)
    ensures var obs := Seen(t, |t.observations|, sid);
      obs.Some? && obs.value.status == OK && obs.value.value == value && obs.value.kind == kind
  {
    var i :| 0 <= i < |t.observations| && t.observations[i].source == sid
      && t.observations[i].status == OK && t.observations[i].value == value && t.observations[i].kind == kind;
    SeenAt(t, |t.observations|, i);
  }

  /** One tick, as far as this source is concerned. */
  lemma TickReads(cfg: Config, e: Engine, t: Tick, sid: SourceId, value: Option<string>, kind: string)
    requires Configured(cfg, e) && sid in e.states && Keyed(t) && Reads(t, sid, value, kind)
    requires Fold(cfg, e, t, |t.observations|).Some?
    ensures var p, obs := Fold(cfg, e, t, |t.observations|).value, Seen(t, |t.observations|, sid);
      && obs.Some? && obs.value.status == OK && obs.value.value == value && obs.value.kind == kind
      && sid in p.engine.states && sid in p.steps
      && p.steps[sid] == Local(cfg[sid], e.states[sid], obs.value, t.frame, t.now, CropOf(t, sid))
      && p.engine.states[sid] == p.steps[sid].state
  {
    hide Local, Fold, CropOf, Keyed, Seen, Reads;
    ReadIsSeen(t, sid, value, kind);
    StepOfTick(cfg, e, t, sid);
  }

  lemma AllReadBefore(ticks: seq<Tick>, sid: SourceId, value: Option<string>, kind: string)
    requires ticks != [] && AllRead(ticks, sid, value, kind)
    ensures AllRead(ticks[..|ticks| - 1], sid, value, kind)
    ensures Keyed(ticks[|ticks| - 1]) && Reads(ticks[|ticks| - 1], sid, value, kind)
    ensures ticks[0].now <= ticks[|ticks| - 1].now
  {
    hide Keyed, Reads;
  }

  lemma {:induction false} TicksOnTheirWay(cfg: Config, e: Engine, ticks: seq<Tick>, sid: SourceId,
                                           value: Option<string>, kind: string)
    requires Configured(cfg, e) && sid in e.states && ticks != [] && AllRead(ticks, sid, value, kind)
    requires StateSeenBy(e.states[sid], ticks[0].now) && AfterTicks(cfg, e, ticks).Some?
    ensures sid in AfterTicks(cfg, e, ticks).value.states
    ensures OnItsWay(cfg[sid], e.states[sid], AfterTicks(cfg, e, ticks).value.states[sid], value, kind,
                     |ticks|, ticks[0].now, ticks[|ticks| - 1].now)
    decreases |ticks|
  {
    hide Local, Fold, Keyed, Reads, AllRead, OnItsWay, StateSeenBy, Seen, CropOf;
    var n, init, t := |ticks|, ticks[..|ticks| - 1], ticks[|ticks| - 1];
    AllReadBefore(ticks, sid, value, kind);
    var mid := AfterTicks(cfg, e, init).value;
    TickReads(cfg, mid, t, sid, value, kind);
    var obs, crop := Seen(t, |t.observations|, sid).value, CropOf(t, sid);
    if n == 1 {
      FirstEqualReading(cfg[sid], e.states[sid], obs, t.frame, t.now, crop);
    } else {
      TicksOnTheirWay(cfg, e, init, sid, value, kind);
      NextEqualReading(cfg[sid], e.states[sid], mid.states[sid], obs, t.frame, t.now, crop,
                       n - 1, ticks[0].now, init[n - 2].now);
    }
  }

  /**
   * Enough equal OK readings that span the debounce make their value stable, from any state of the source: not
   * seeded, settled on another value, or in error. They do not if and only if the source has a value, no error,
   * and the readings are less than the threshold away from it; then its value stays as it was.
   */
  lemma EqualReadingsSettle(cfg: Config, e: Engine, ticks: seq<Tick>, sid: SourceId,
                            value: Option<string>, kind: string)
    requires Configured(cfg, e) && sid in e.states && ticks != [] && AllRead(ticks, sid, value, kind)
    requires StateSeenBy(e.states[sid], ticks[0].now) && AfterTicks(cfg, e, ticks).Some?
    requires |ticks| >= cfg[sid].confirmations && ticks[|ticks| - 1].now - ticks[0].now >= cfg[sid].debounce
    ensures sid in AfterTicks(cfg, e, ticks).value.states
    ensures var before, after := e.states[sid], AfterTicks(cfg, e, ticks).value.states[sid];
      if before.seeded && !before.errorActive && Near(cfg[sid], value, before.value)
      then Shows(after, before.value, before.kind)
      else Shows(after, value, kind)
  {
    TicksOnTheirWay(cfg, e, ticks, sid, value, kind);
    hide AfterTicks, AllRead;
  }

  // ---- and are retained ----------------------------------------------------

  lemma ChangeIsNamed(mode: Mode, p: Progress, sid: SourceId)
    requires sid in p.steps && p.steps[sid].transition.Changed?
    ensures Decide(mode, p).event in {Some(RetainedChange), Some(RetainedError)} && sid in Decide(mode, p).changedIds
    ensures Decide(mode, p).evidence == EvidenceIn(p) && Decide(mode, p).crops == CropsIn(p)
  {
    assert sid in ChangedIn(p);
  }

  /**
   * An OK reading of a settled source is retained as a change if and only if it differs from the stable reading,
   * is no number near it, and completes its run; the event then names the source, whatever the retention mode,
   * with the frame, text and crop of the run's first reading, and its signature shows the new value.
   */
  lemma ChangeIsRetainedExactly(mode: Mode, cfg: Config, e: Engine, t: Tick, i: nat)
    requires Configured(cfg, e) && Keyed(t) && Fold(cfg, e, t, |t.observations|).Some?
    requires i < |t.observations| && t.observations[i].source in e.states && t.observations[i].status == OK
    requires var st := e.states[t.observations[i].source]; st.seeded && !st.errorActive
    ensures var d, obs := Decide(mode, Fold(cfg, e, t, |t.observations|).value), t.observations[i];
      var sid := obs.source;
      var st, run := e.states[sid], RunOf(e.states[sid], obs, t.frame, t.now, CropOf(t, sid));
      && (sid in d.changedIds <==>
           && (obs.value != st.value || obs.kind != st.kind) && !Near(cfg[sid], obs.value, st.value)
           && Ripe(cfg[sid], run, t.now))
      && (sid in d.changedIds ==>
           && d.event in {Some(RetainedChange), Some(RetainedError)}
           && sid in d.evidence && d.evidence[sid] == Evidence(run.frame, run.rawText, obs.value, obs.kind)
           && (if run.crop.Some? then sid in d.crops && d.crops[sid] == run.crop.value else sid !in d.crops)
           && sid in d.signature && d.signature[sid] == (obs.value, obs.kind))
  {
    hide Local, Fold, CropOf, Keyed, Seen, Decide, ChangedIn;
    var obs := t.observations[i];
    var sid, p := obs.source, Fold(cfg, e, t, |t.observations|).value;
    SeenAt(t, |t.observations|, i);
    StepOfTick(cfg, e, t, sid);
    OkReadingExactly(cfg[sid], e.states[sid], obs, t.frame, t.now, CropOf(t, sid));
    if p.steps[sid].transition.Changed? {
      ChangeIsNamed(mode, p, sid);
    } else if sid in Decide(mode, p).changedIds {
      NamedIsNotQuiet(mode, p, sid);
    }
    Recording.DecidedSignature(mode, p);
  }

  // ---- why an event is retained, and what is kept of it --------------------

  predicate AnyMade(p: Progress, tr: Transition) { exists sid :: sid in p.steps && p.steps[sid].transition == tr }

  predicate SomeRecovered(p: Progress) { AnyMade(p, Recovered(true)) || AnyMade(p, Recovered(false)) }

  /** The reason codes, each at most once and an error transition first, and the kept evidence. */
  lemma ReasonsExactly(mode: Mode, p: Progress)
    ensures var d := Decide(mode, p);
      && (ErrorTransition in d.reasons <==> mode != ChangedOnly && AnyMade(p, Errored))
      && (ErrorTransition in d.reasons <==> d.event == Some(RetainedError))
      && (ErrorRecovered in d.reasons <==>
           mode != ChangedOnly && SomeRecovered(p) && ErrorTransition !in d.reasons)
      && (StableChange in d.reasons <==> AnyMade(p, Changed) || (mode == ChangedOnly && AnyMade(p, Recovered(true))))
      && (DiagnosticTick in d.reasons <==>
           mode == EveryTick && !AnyMade(p, Changed) && !AnyMade(p, Errored) && !SomeRecovered(p))
      && (forall i, j :: 0 <= i < j < |d.reasons| ==> d.reasons[i] != d.reasons[j])
      && (ErrorTransition in d.reasons ==> d.reasons[0] == ErrorTransition)
      && (d.event.None? <==> d.reasons == [])
      && (d.event.None? ==> d.evidence == map[] && d.crops == map[])
      && (d.event.Some? ==> forall sid ::
           && (sid in d.evidence <==> sid in p.steps && p.steps[sid].evidence.Some?)
           && (sid in d.evidence ==> d.evidence[sid] == p.steps[sid].evidence.value)
           && (sid in d.crops <==> sid in p.steps && p.steps[sid].saved.Some?)
           && (sid in d.crops ==> d.crops[sid] == p.steps[sid].saved.value))
  {
    TransitionSets(p);
    hide ChangedIn, ErroredIn, RecoveredIn, MovedIn, AnyMade;
  }

  lemma TransitionSets(p: Progress)
    ensures ChangedIn(p) == {} <==> !AnyMade(p, Changed)
    ensures ErroredIn(p) == {} <==> !AnyMade(p, Errored)
    ensures RecoveredIn(p) == {} <==> !SomeRecovered(p)
    ensures MovedIn(p) == {} <==> !AnyMade(p, Recovered(true))
  {
    assert forall sid :: sid in ChangedIn(p) <==> sid in p.steps && p.steps[sid].transition == Changed;
    assert forall sid :: sid in ErroredIn(p) <==> sid in p.steps && p.steps[sid].transition == Errored;
    assert forall sid :: sid in RecoveredIn(p) <==>
      sid in p.steps && p.steps[sid].transition in {Recovered(true), Recovered(false)};
    assert forall sid :: sid in MovedIn(p) <==> sid in p.steps && p.steps[sid].transition == Recovered(true);
  }

  // ---- when the evidence buffer refuses a crop -----------------------------

  /** A crop is refused above 8 MiB, or when it and what the other sources hold come to more than 64 MiB. */
  lemma RefusedExactly(ids: seq<SourceId>, cfg: Config, p: Progress, obs: Observation, t: Tick)
    requires Configured(cfg, p.engine) && Balanced(ids, p.engine) && obs.source in p.engine.states
    ensures var sid := obs.source;
      var st := p.engine.states[sid];
      Observe(cfg, p, obs, t).None? <==>
        && obs.status == OK && !Ignored(cfg[sid], st, obs) && !Continues(st, obs) && sid in t.crops
        && (|t.crops[sid]| > 8_388_608
            || Held(ids, p.engine.states[sid := Bare(st)]) + |t.crops[sid]| > 67_108_864)
  {
    hide Local, Held;
    HeldUpdate(ids, p.engine.states, obs.source, Bare(p.engine.states[obs.source]));
    NothingKept(p.engine.states[obs.source]);
  }

  lemma NothingKept(st: SourceState)
    ensures CropSize(Bare(st).candidate) == 0
  {
  }
}
