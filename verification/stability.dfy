/**
 * The stability engine (src/screen2xyz_m2/stability.py).
 *
 * `Local` is the effect of one observation on one source, `Fold` the effect of a
 * whole tick, `Decide` the retention precedence.  The class in engine.dfy is the
 * engine itself, updating its fields step by step; every method is proved equal
 * to these functions, and the lemmas speak about the functions.
 */
module Stability {
  import opened Common

  const CROP_PNG_MAX_BYTES := 8 * MIB
  const AGGREGATE_CROP_MAX_BYTES := 64 * MIB

  /** A source's name; only equality matters. */
  type SourceId = nat

  datatype ValueStatus =
    | OK | MissingSourceValue | UnstableReading
    | OcrFailure | NoNumber | AmbiguousMultipleNumbers | MalformedNumber | OutOfRange
    | InputTruncated | SourceNotVisible | TargetUnavailable | CaptureFailure
    | SuspectGlyphConfusion

  datatype Mode = ChangedAndErrors | ChangedOnly | EveryTick | ValuesOnly

  /** What the engine writes back as the observation's stability status. */
  datatype Verdict = Untouched | Immediate | Confirmed | PendingConfirmation | Rejected

  datatype Observation = Observation(
    source: SourceId, status: ValueStatus, value: Option<string>, kind: string, rawText: string)

  datatype Candidate = Candidate(
    value: Option<string>, kind: string, frame: string, rawText: string,
    crop: Option<Bytes>, firstSeen: real, count: nat)

  datatype SourceState = SourceState(
    seeded: bool, value: Option<string>, kind: string, status: Option<ValueStatus>,
    errorActive: bool, lastError: Option<ValueStatus>,
    preValue: Option<string>, preKind: string, candidate: Option<Candidate>)

  /** Per-source settings after overrides; `number` is Python's float(), None where it raises. */
  datatype Settings = Settings(
    confirmations: nat, debounce: real, threshold: Option<real>, number: string -> Option<real>)

  datatype Evidence = Evidence(frame: string, rawText: string, value: Option<string>, kind: string)

  /** What one observation did to its source, as far as retention is concerned. */
  datatype Transition = Quiet | Changed | Recovered(moved: bool) | Errored

  datatype LocalStep = LocalStep(
    state: SourceState, verdict: Verdict, transition: Transition,
    evidence: Option<Evidence>, saved: Option<Bytes>)

  function Fresh(): SourceState {
    SourceState(false, None, "number", None, false, None, None, "number", None)
  }

  predicate Retainable(s: ValueStatus) {
    s in {OcrFailure, NoNumber, AmbiguousMultipleNumbers, MalformedNumber, OutOfRange,
          InputTruncated, SourceNotVisible, TargetUnavailable, CaptureFailure,
          SuspectGlyphConfusion}
  }

  predicate BelowThreshold(cfg: Settings, old_: Option<string>, new_: Option<string>) {
    if cfg.threshold.None? || old_.None? || new_.None? then false
    else
      var a, b := cfg.number(new_.value), cfg.number(old_.value);
      a.Some? && b.Some? && Abs(a.value - b.value) < cfg.threshold.value
  }

  /** The state without its candidate. */
  function Bare(st: SourceState): SourceState { st.(candidate := None) }

  function CropSize(c: Option<Candidate>): nat {
    if c.Some? && c.value.crop.Some? then |c.value.crop.value| else 0
  }

  // ---- one observation on one source ------------------------------------

  /** An OK reading that merely repeats the stable value, or moves it by less than the threshold. */
  predicate Settled(cfg: Settings, st: SourceState, obs: Observation) {
    && !st.errorActive && st.seeded
    && ((st.value == obs.value && st.kind == obs.kind && st.status == Some(OK))
        || BelowThreshold(cfg, st.value, obs.value))
  }

  predicate Matches(st: SourceState, obs: Observation) {
    st.candidate.Some? && st.candidate.value.value == obs.value && st.candidate.value.kind == obs.kind
  }

  /** True when the observation makes the engine open a new candidate (and own its crop). */
  predicate Opens(cfg: Settings, st: SourceState, obs: Observation) {
    obs.status == OK && !Settled(cfg, st, obs) && !Matches(st, obs)
  }

  function Pending(st: SourceState, obs: Observation, frame: string, now: real, crop: Option<Bytes>): Candidate {
    if Matches(st, obs) then st.candidate.value.(count := st.candidate.value.count + 1)
    else Candidate(obs.value, obs.kind, frame, obs.rawText, crop, now, 1)
  }

  predicate IsConfirmed(cfg: Settings, c: Candidate, now: real) {
    c.count >= cfg.confirmations && now - c.firstSeen >= cfg.debounce
  }

  function Local(cfg: Settings, st: SourceState, obs: Observation, frame: string, now: real,
                 crop: Option<Bytes>): LocalStep
  {
    if obs.status == OK then
      if Settled(cfg, st, obs) then LocalStep(Bare(st), Confirmed, Quiet, None, None)
      else
        var c := Pending(st, obs, frame, now, crop);
        if Opens(cfg, st, obs) && st.candidate.Some? && cfg.confirmations > 1 then
          LocalStep(st.(candidate := Some(c)), Rejected, Quiet, None, None)
        else if !IsConfirmed(cfg, c, now) then
          LocalStep(st.(candidate := Some(c)), PendingConfirmation, Quiet, None, None)
        else
          Commit(cfg, st, c)
    else if Retainable(obs.status) then
      var st1 := st.(candidate := None,
                     preValue := if st.errorActive then st.preValue else st.value,
                     preKind := if st.errorActive then st.preKind else st.kind);
      if st.lastError == Some(obs.status) then LocalStep(st1, Untouched, Quiet, None, None)
      else
        LocalStep(st1.(status := Some(obs.status), errorActive := true, lastError := Some(obs.status)),
                  Untouched, Errored, Some(Evidence(frame, obs.rawText, None, obs.kind)), crop)
    else
      LocalStep(Bare(st), Untouched, Quiet, None, None)
  }

  function Commit(cfg: Settings, st: SourceState, c: Candidate): LocalStep {
    var verdict := if cfg.confirmations == 1 then Immediate else Confirmed;
    var st1 := st.(seeded := true, value := c.value, kind := c.kind, status := Some(OK), candidate := None);
    var ev := Some(Evidence(c.frame, c.rawText, c.value, c.kind));
    if st.errorActive then
      LocalStep(st1.(errorActive := false, lastError := None), verdict,
                Recovered(c.value != st.preValue || c.kind != st.preKind), ev, c.crop)
    else if st.seeded && (st.value != c.value || st.kind != c.kind) then
      LocalStep(st1, verdict, Changed, ev, c.crop)
    else
      LocalStep(st1, verdict, Quiet, None, None)
  }

  /** The evidence buffer refuses a crop that is too large by itself or in total. */
  predicate Overflows(cfg: Settings, st: SourceState, bytes: int, obs: Observation, crop: Option<Bytes>) {
    && Opens(cfg, st, obs) && crop.Some?
    && (|crop.value| > CROP_PNG_MAX_BYTES
        || bytes - CropSize(st.candidate) + |crop.value| > AGGREGATE_CROP_MAX_BYTES)
  }

  // ---- a whole tick ------------------------------------------------------

  datatype Engine = Engine(states: map<SourceId, SourceState>, bytes: int)

  type Config = map<SourceId, Settings>

  datatype Tick = Tick(observations: seq<Observation>, frame: string, now: real, crops: map<SourceId, Bytes>)

  /** The engine and, for every source observed so far in this tick, what happened to it. */
  datatype Progress = Progress(engine: Engine, steps: map<SourceId, LocalStep>)

  function ChangedIn(p: Progress): set<SourceId> {
    set sid | sid in p.steps && p.steps[sid].transition.Changed?
  }

  function ErroredIn(p: Progress): set<SourceId> {
    set sid | sid in p.steps && p.steps[sid].transition.Errored?
  }

  function RecoveredIn(p: Progress): set<SourceId> {
    set sid | sid in p.steps && p.steps[sid].transition.Recovered?
  }

  function MovedIn(p: Progress): set<SourceId> {
    set sid | sid in p.steps && p.steps[sid].transition == Recovered(true)
  }

  function EvidenceIn(p: Progress): map<SourceId, Evidence> {
    map sid | sid in p.steps && p.steps[sid].evidence.Some? :: p.steps[sid].evidence.value
  }

  function CropsIn(p: Progress): map<SourceId, Bytes> {
    map sid | sid in p.steps && p.steps[sid].saved.Some? :: p.steps[sid].saved.value
  }

  function CropOf(t: Tick, sid: SourceId): Option<Bytes> {
    if sid in t.crops then Some(t.crops[sid]) else None
  }

  /** An engine has settings for exactly the sources it keeps state for. */
  predicate Configured(cfg: Config, e: Engine) { cfg.Keys == e.states.Keys }

  /** One turn of the loop over the observations; None is a raised BufferError. */
  function Observe(cfg: Config, p: Progress, obs: Observation, t: Tick): (r: Option<Progress>)
    requires Configured(cfg, p.engine)
    ensures r.Some? ==> Configured(cfg, r.value.engine)
  {
    var sid := obs.source;
    if sid !in p.engine.states then Some(p)
    else
      var st, crop := p.engine.states[sid], CropOf(t, sid);
      if Overflows(cfg[sid], st, p.engine.bytes, obs, crop) then None
      else
        var s := Local(cfg[sid], st, obs, t.frame, t.now, crop);
        var bytes := p.engine.bytes - CropSize(st.candidate) + CropSize(s.state.candidate);
        Some(Progress(Engine(p.engine.states[sid := s.state], bytes), p.steps[sid := s]))
  }

  /** The first `n` turns of the loop. */
  function Fold(cfg: Config, e: Engine, t: Tick, n: nat): (r: Option<Progress>)
    requires Configured(cfg, e) && n <= |t.observations|
    ensures r.Some? ==> Configured(cfg, r.value.engine)
  {
    if n == 0 then Some(Progress(e, map[]))
    else
      var p := Fold(cfg, e, t, n - 1);
      if p.None? then None else Observe(cfg, p.value, t.observations[n - 1], t)
  }

  /** Observations arrive in a dictionary keyed by source. */
  predicate Keyed(t: Tick) {
    forall i, j :: 0 <= i < j < |t.observations| ==> t.observations[i].source != t.observations[j].source
  }

  // ---- the retention decision ---------------------------------------------

  datatype EventStatus = RetainedChange | RetainedError | RetainedDiagnostic
  datatype Reason = ErrorTransition | StableChange | ErrorRecovered | DiagnosticTick

  type Signature = map<SourceId, (Option<string>, string)>

  function SignatureOf(e: Engine): Signature {
    map sid | sid in e.states && e.states[sid].seeded :: (e.states[sid].value, e.states[sid].kind)
  }

  datatype Decision = Decision(
    event: Option<EventStatus>, changedIds: set<SourceId>, reasons: seq<Reason>,
    signature: Signature, evidence: map<SourceId, Evidence>, crops: map<SourceId, Bytes>)

  /** The closed precedence: error transitions, then changes, then diagnostics. */
  function Decide(mode: Mode, p: Progress): Decision {
    var changed, errored, recovered := ChangedIn(p), ErroredIn(p), RecoveredIn(p);
    var d := Decision(None, {}, [], SignatureOf(p.engine), EvidenceIn(p), CropsIn(p));
    var stable: seq<Reason> := if changed != {} then [StableChange] else [];
    if errored != {} && mode != ChangedOnly then
      d.(event := Some(RetainedError), changedIds := changed + errored, reasons := [ErrorTransition] + stable)
    else
      var back := if mode == ChangedOnly then MovedIn(p) else recovered;
      var reasons :=
        if recovered == {} then stable
        else if mode != ChangedOnly then stable + [ErrorRecovered]
        else if back != {} then [StableChange]
        else stable;
      if changed + back != {} then
        d.(event := Some(RetainedChange), changedIds := changed + back, reasons := reasons)
      else if mode == EveryTick then
        d.(event := Some(RetainedDiagnostic), reasons := [DiagnosticTick])
      else
        d.(evidence := map[], crops := map[])
  }

  function Discarded(e: Engine): (r: Engine)
    ensures r.states.Keys == e.states.Keys
  {
    Engine(map sid | sid in e.states :: Bare(e.states[sid]), 0)
  }

  /** The controller writes the error into the states directly, without going through a tick. */
  function MarkedFailed(e: Engine, failed: set<SourceId>): Engine {
    Engine(map sid | sid in e.states ::
             if sid in failed then e.states[sid].(status := Some(CaptureFailure), errorActive := true)
             else e.states[sid], e.bytes)
  }
}
