/**
 * What every tick of the stability engine guarantees.
 *
 * The sequential loop is first shown to act on each source independently
 * (`FoldIsPointwise`); the retention, evidence and confirmation guarantees are
 * then per-source facts lifted to a tick.
 */
module StabilityLaws {
  import opened Common
  import opened Stability

  // ---- the loop acts on every source independently ------------------------

  /** The observation of `sid` among the first `n`, if any. */
  function Seen(t: Tick, n: nat, sid: SourceId): Option<Observation>
    requires n <= |t.observations|
  {
    if n == 0 then None
    else if t.observations[n - 1].source == sid then Some(t.observations[n - 1])
    else Seen(t, n - 1, sid)
  }

  function StepOf(cfg: Config, e: Engine, t: Tick, sid: SourceId, obs: Observation): LocalStep
    requires Configured(cfg, e) && sid in e.states
  {
    Local(cfg[sid], e.states[sid], obs, t.frame, t.now, CropOf(t, sid))
  }

  ghost predicate Pointwise(cfg: Config, e: Engine, t: Tick, n: nat, p: Progress)
    requires Configured(cfg, e) && n <= |t.observations|
  {
    && p.engine.states.Keys == e.states.Keys
    && p.steps.Keys <= e.states.Keys
    && (forall sid :: sid in e.states ==> (sid in p.steps <==> Seen(t, n, sid).Some?))
    && (forall sid :: sid in p.steps ==> p.steps[sid] == StepOf(cfg, e, t, sid, Seen(t, n, sid).value))
    && (forall sid :: sid in e.states ==>
          p.engine.states[sid] == if sid in p.steps then p.steps[sid].state else e.states[sid])
  }

  lemma {:induction false} SeenBelow(t: Tick, n: nat, m: nat)
    requires Keyed(t) && n <= m < |t.observations|
    ensures Seen(t, n, t.observations[m].source) == None
  {
    if n > 0 {
      SeenBelow(t, n - 1, m);
    }
  }

  lemma ObserveTouchesOne(cfg: Config, p: Progress, obs: Observation, t: Tick)
    requires Configured(cfg, p.engine) && Observe(cfg, p, obs, t).Some?
    ensures var r := Observe(cfg, p, obs, t).value;
      if obs.source in p.engine.states then
        var s := Local(cfg[obs.source], p.engine.states[obs.source], obs, t.frame, t.now, CropOf(t, obs.source));
        r.steps == p.steps[obs.source := s] && r.engine.states == p.engine.states[obs.source := s.state]
      else r == p
  {
  }

  lemma SeenNext(t: Tick, n: nat, sid: SourceId)
    requires n < |t.observations|
    ensures Seen(t, n + 1, sid) == if t.observations[n].source == sid then Some(t.observations[n]) else Seen(t, n, sid)
  {
  }

  /** One more observation, of a source not seen so far. */
  lemma PointwiseNext(cfg: Config, e: Engine, t: Tick, n: nat, q: Progress, p: Progress)
    requires Configured(cfg, e) && n < |t.observations| && Pointwise(cfg, e, t, n, q)
    requires Seen(t, n, t.observations[n].source) == None
    requires Configured(cfg, q.engine) && Observe(cfg, q, t.observations[n], t) == Some(p)
    ensures Pointwise(cfg, e, t, n + 1, p)
  {
    hide Seen, Local, Observe, CropOf;
    ObserveTouchesOne(cfg, q, t.observations[n], t);
    forall sid
      ensures Seen(t, n + 1, sid)
           == if t.observations[n].source == sid then Some(t.observations[n]) else Seen(t, n, sid)
    {
      SeenNext(t, n, sid);
    }
  }

  lemma NothingSeen(cfg: Config, e: Engine, t: Tick)
    requires Configured(cfg, e)
    ensures Pointwise(cfg, e, t, 0, Progress(e, map[]))
  {
  }

  lemma {:induction false} FoldIsPointwise(cfg: Config, e: Engine, t: Tick, n: nat)
    requires Configured(cfg, e) && Keyed(t) && n <= |t.observations|
    requires Fold(cfg, e, t, n).Some?
    ensures Pointwise(cfg, e, t, n, Fold(cfg, e, t, n).value)
  {
    hide Local, Observe, CropOf, Keyed, Pointwise, Seen;
    if n == 0 {
      NothingSeen(cfg, e, t);
    } else {
      FoldIsPointwise(cfg, e, t, n - 1);
      SeenBelow(t, n - 1, n - 1);
      PointwiseNext(cfg, e, t, n - 1, Fold(cfg, e, t, n - 1).value, Fold(cfg, e, t, n).value);
    }
  }

  /** What a whole tick did to one source. */
  lemma StepOfTick(cfg: Config, e: Engine, t: Tick, sid: SourceId)
    requires Configured(cfg, e) && Keyed(t) && Fold(cfg, e, t, |t.observations|).Some?
    ensures var p, seen := Fold(cfg, e, t, |t.observations|).value, Seen(t, |t.observations|, sid);
      && (sid in p.steps <==> sid in e.states && seen.Some?)
      && (sid in p.steps ==> p.steps[sid] == StepOf(cfg, e, t, sid, seen.value))
      && (sid in e.states <==> sid in p.engine.states)
      && (sid in e.states ==>
           p.engine.states[sid] == if sid in p.steps then p.steps[sid].state else e.states[sid])
  {
    hide Local, Fold, CropOf, Keyed, Seen;
    FoldIsPointwise(cfg, e, t, |t.observations|);
  }

  /** A source not observed so far is as it was. */
  lemma NotYetTouched(cfg: Config, e: Engine, t: Tick, n: nat)
    requires Configured(cfg, e) && Keyed(t) && n < |t.observations| && Fold(cfg, e, t, n).Some?
    ensures var states, sid := Fold(cfg, e, t, n).value.engine.states, t.observations[n].source;
      (sid in states <==> sid in e.states) && (sid in e.states ==> states[sid] == e.states[sid])
  {
    hide Local, Fold, CropOf, Keyed;
    FoldIsPointwise(cfg, e, t, n);
    SeenBelow(t, n, n);
  }

  // ---- nothing changes silently -------------------------------------------

  /** In changed_only mode an error is not retained, so the value before it must be remembered. */
  predicate ErrorMemory(mode: Mode, st: SourceState) {
    mode == ChangedOnly && st.errorActive ==> st.preValue == st.value && st.preKind == st.kind
  }

  ghost predicate Remembers(mode: Mode, e: Engine) {
    forall sid :: sid in e.states ==> ErrorMemory(mode, e.states[sid])
  }

  predicate SameValue(before: SourceState, after: SourceState) {
    after.seeded && after.value == before.value && after.kind == before.kind
  }

  lemma LocalKeepsMemory(mode: Mode, cfg: Settings, st: SourceState, obs: Observation, t: Tick, crop: Option<Bytes>)
    requires ErrorMemory(mode, st)
    ensures ErrorMemory(mode, Local(cfg, st, obs, t.frame, t.now, crop).state)
  {
  }

  lemma NoEventMeansQuiet(mode: Mode, p: Progress, sid: SourceId)
    requires Decide(mode, p).event.None? && sid in p.steps
    ensures p.steps[sid].transition == Quiet
         || (mode == ChangedOnly && p.steps[sid].transition in {Errored, Recovered(false)})
  {
    assert sid !in ChangedIn(p) && sid !in MovedIn(p);
    assert mode != ChangedOnly ==> sid !in ErroredIn(p) && sid !in RecoveredIn(p);
  }

  lemma LocalNoSilentChange(mode: Mode, cfg: Settings, st: SourceState, obs: Observation, t: Tick, crop: Option<Bytes>)
    requires ErrorMemory(mode, st) && st.seeded
    requires var tr := Local(cfg, st, obs, t.frame, t.now, crop).transition;
      tr == Quiet || (mode == ChangedOnly && tr in {Errored, Recovered(false)})
    ensures SameValue(st, Local(cfg, st, obs, t.frame, t.now, crop).state)
  {
  }

  /** A tick that retains no event leaves the value and kind of every seeded source alone. */
  lemma NoSilentChange(mode: Mode, cfg: Config, e: Engine, t: Tick)
    requires Configured(cfg, e) && Keyed(t) && Remembers(mode, e)
    requires Fold(cfg, e, t, |t.observations|).Some?
    ensures var p := Fold(cfg, e, t, |t.observations|).value;
      && Remembers(mode, p.engine)
      && (Decide(mode, p).event.None? ==>
           forall sid :: sid in e.states && e.states[sid].seeded ==> SameValue(e.states[sid], p.engine.states[sid]))
  {
    var n := |t.observations|;
    var p := Fold(cfg, e, t, n).value;
    FoldIsPointwise(cfg, e, t, n);
    forall sid | sid in p.steps
      ensures ErrorMemory(mode, p.engine.states[sid])
      ensures Decide(mode, p).event.None? && e.states[sid].seeded ==> SameValue(e.states[sid], p.engine.states[sid])
    {
      var obs := Seen(t, n, sid).value;
      LocalKeepsMemory(mode, cfg[sid], e.states[sid], obs, t, CropOf(t, sid));
      if Decide(mode, p).event.None? && e.states[sid].seeded {
        NoEventMeansQuiet(mode, p, sid);
        LocalNoSilentChange(mode, cfg[sid], e.states[sid], obs, t, CropOf(t, sid));
      }
    }
  }

  /** What an event may name a source for. */
  predicate Transitioned(before: SourceState, obs: Observation, after: SourceState) {
    || (after.errorActive && after.status == after.lastError == Some(obs.status))
    || (obs.status == OK && after.status == Some(OK) && !after.errorActive && after.seeded
        && after.value == obs.value && after.kind == obs.kind
        && (before.errorActive || !SameValue(before, after)))
  }

  lemma LocalTransitioned(cfg: Settings, st: SourceState, obs: Observation, t: Tick, crop: Option<Bytes>)
    requires Local(cfg, st, obs, t.frame, t.now, crop).transition != Quiet
    ensures Transitioned(st, obs, Local(cfg, st, obs, t.frame, t.now, crop).state)
  {
  }

  lemma NamedIsNotQuiet(mode: Mode, p: Progress, sid: SourceId)
    requires sid in Decide(mode, p).changedIds
    ensures sid in p.steps && p.steps[sid].transition != Quiet
  {
    assert Decide(mode, p).changedIds <= ChangedIn(p) + ErroredIn(p) + RecoveredIn(p) + MovedIn(p);
  }

  /** Every source an event names was observed in this tick and really made a transition. */
  lemma EventsNameTransitions(mode: Mode, cfg: Config, e: Engine, t: Tick, sid: SourceId)
    requires Configured(cfg, e) && Keyed(t)
    requires Fold(cfg, e, t, |t.observations|).Some?
    requires sid in Decide(mode, Fold(cfg, e, t, |t.observations|).value).changedIds
    ensures sid in e.states && Seen(t, |t.observations|, sid).Some?
    ensures Transitioned(e.states[sid], Seen(t, |t.observations|, sid).value,
                         Fold(cfg, e, t, |t.observations|).value.engine.states[sid])
  {
    hide Fold, Decide, Local, Seen, CropOf, Keyed, Transitioned;
    NamedIsNotQuiet(mode, Fold(cfg, e, t, |t.observations|).value, sid);
    StepOfTick(cfg, e, t, sid);
    LocalTransitioned(cfg[sid], e.states[sid], Seen(t, |t.observations|, sid).value, t, CropOf(t, sid));
  }

  // ---- evidence accounting -------------------------------------------------

  ghost predicate Lists(ids: seq<SourceId>, states: map<SourceId, SourceState>) {
    && (forall i, j :: 0 <= i < j < |ids| ==> ids[i] != ids[j])
    && (forall sid :: sid in ids <==> sid in states)
  }

  /** The summed crop sizes of all pending candidates. */
  function Held(ids: seq<SourceId>, states: map<SourceId, SourceState>): nat
    requires forall sid :: sid in ids ==> sid in states
  {
    if ids == [] then 0 else CropSize(states[ids[0]].candidate) + Held(ids[1..], states)
  }

  ghost predicate Balanced(ids: seq<SourceId>, e: Engine) {
    Lists(ids, e.states) && e.bytes == Held(ids, e.states) && e.bytes <= AGGREGATE_CROP_MAX_BYTES
  }

  lemma {:induction false} HeldUpdate(ids: seq<SourceId>, states: map<SourceId, SourceState>, sid: SourceId,
                                      st: SourceState)
    requires forall i, j :: 0 <= i < j < |ids| ==> ids[i] != ids[j]
    requires forall s :: s in ids ==> s in states
    requires sid in states
    ensures Held(ids, states[sid := st]) == Held(ids, states)
            + (if sid in ids then CropSize(st.candidate) - CropSize(states[sid].candidate) else 0)
  {
    if ids != [] {
      assert forall s :: s in ids <==> s == ids[0] || s in ids[1..];
      HeldUpdate(ids[1..], states, sid, st);
    }
  }

  lemma {:induction false} HeldNothing(ids: seq<SourceId>, states: map<SourceId, SourceState>)
    requires forall s :: s in ids ==> s in states
    requires forall s :: s in states ==> states[s].candidate.None?
    ensures Held(ids, states) == 0
  {
    if ids != [] {
      HeldNothing(ids[1..], states);
    }
  }

  /** Replacing one source's state keeps the books balanced if the byte count moves with its crop. */
  lemma BalancedUpdate(ids: seq<SourceId>, e: Engine, sid: SourceId, st: SourceState)
    requires Balanced(ids, e) && sid in e.states
    requires e.bytes - CropSize(e.states[sid].candidate) + CropSize(st.candidate) <= AGGREGATE_CROP_MAX_BYTES
    ensures var bytes := e.bytes - CropSize(e.states[sid].candidate) + CropSize(st.candidate);
      Balanced(ids, Engine(e.states[sid := st], bytes))
  {
    HeldUpdate(ids, e.states, sid, st);
  }

  lemma ReleaseStaysBalanced(ids: seq<SourceId>, e: Engine, sid: SourceId)
    requires Balanced(ids, e) && sid in e.states
    ensures Balanced(ids, Engine(e.states[sid := Bare(e.states[sid])], e.bytes - CropSize(e.states[sid].candidate)))
  {
    BalancedUpdate(ids, e, sid, Bare(e.states[sid]));
  }

  lemma NothingHeld(ids: seq<SourceId>, e: Engine)
    requires Balanced(ids, e) && forall sid :: sid in e.states ==> e.states[sid].candidate.None?
    ensures e.bytes == 0
  {
    HeldNothing(ids, e.states);
  }

  lemma LocalCropSize(cfg: Settings, st: SourceState, bytes: int, obs: Observation, t: Tick, crop: Option<Bytes>)
    requires !Overflows(cfg, st, bytes, obs, crop) && bytes <= AGGREGATE_CROP_MAX_BYTES
    ensures bytes - CropSize(st.candidate) + CropSize(Local(cfg, st, obs, t.frame, t.now, crop).state.candidate)
            <= AGGREGATE_CROP_MAX_BYTES
  {
  }

  lemma {:induction false} FoldStaysBalanced(ids: seq<SourceId>, cfg: Config, e: Engine, t: Tick, n: nat)
    requires Configured(cfg, e) && Balanced(ids, e) && n <= |t.observations|
    requires Fold(cfg, e, t, n).Some?
    ensures Balanced(ids, Fold(cfg, e, t, n).value.engine)
  {
    if n > 0 {
      FoldStaysBalanced(ids, cfg, e, t, n - 1);
      var q := Fold(cfg, e, t, n - 1).value;
      var obs := t.observations[n - 1];
      var sid := obs.source;
      if sid in q.engine.states {
        var st, crop := q.engine.states[sid], CropOf(t, sid);
        LocalCropSize(cfg[sid], st, q.engine.bytes, obs, t, crop);
        BalancedUpdate(ids, q.engine, sid, Local(cfg[sid], st, obs, t.frame, t.now, crop).state);
      }
    }
  }

  lemma DiscardStaysBalanced(ids: seq<SourceId>, e: Engine)
    requires Balanced(ids, e)
    ensures Balanced(ids, Discarded(e))
  {
    HeldNothing(ids, Discarded(e).states);
  }

  // ---- confirmations are earned -------------------------------------------

  datatype Sample = Sample(obs: Observation, time: real)

  /** The last `n` samples are all OK readings of this value and kind. */
  ghost predicate Repeats(h: seq<Sample>, n: nat, value: Option<string>, kind: string) {
    n <= |h| && forall i :: |h| - n <= i < |h| ==>
      h[i].obs.status == OK && h[i].obs.value == value && h[i].obs.kind == kind
  }

  /** The candidate is exactly the run of equal readings that ends the source's history. */
  ghost predicate Backed(st: SourceState, h: seq<Sample>) {
    st.candidate.Some? ==>
      var c := st.candidate.value;
      1 <= c.count && Repeats(h, c.count, c.value, c.kind) && h[|h| - c.count].time == c.firstSeen
  }

  /** The history ends in enough equal readings of (value, kind), the first old enough. */
  ghost predicate Earned(cfg: Settings, h: seq<Sample>, value: Option<string>, kind: string) {
    exists n: nat :: 1 <= n && n >= cfg.confirmations && Repeats(h, n, value, kind)
      && h[|h| - 1].time - h[|h| - n].time >= cfg.debounce
  }

  /** A first value, another value, or a value again after an error. */
  predicate Settles(st: SourceState, after: SourceState) {
    after.seeded && (!st.seeded || !SameValue(st, after) || (st.errorActive && !after.errorActive))
  }

  /** The candidate after an OK reading is the run that ends with it. */
  lemma PendingIsRun(st: SourceState, h: seq<Sample>, obs: Observation, frame: string, now: real, crop: Option<Bytes>)
    requires Backed(st, h) && obs.status == OK
    ensures var h1, c := h + [Sample(obs, now)], Pending(st, obs, frame, now, crop);
      && 1 <= c.count && Repeats(h1, c.count, c.value, c.kind) && h1[|h1| - c.count].time == c.firstSeen
      && h1[|h1| - 1].time == now
  {
  }

  lemma ConfirmedIsEarned(cfg: Settings, h: seq<Sample>, c: Candidate, now: real)
    requires 1 <= c.count && Repeats(h, c.count, c.value, c.kind) && h[|h| - c.count].time == c.firstSeen
    requires h[|h| - 1].time == now && IsConfirmed(cfg, c, now)
    ensures Earned(cfg, h, c.value, c.kind)
  {
    hide Repeats;
  }

  lemma LocalIsEarned(cfg: Settings, st: SourceState, h: seq<Sample>, obs: Observation, frame: string, now: real,
                      crop: Option<Bytes>)
    requires Backed(st, h)
    ensures var after := Local(cfg, st, obs, frame, now, crop).state;
      && Backed(after, h + [Sample(obs, now)])
      && (Settles(st, after) ==> Earned(cfg, h + [Sample(obs, now)], after.value, after.kind))
  {
    hide Repeats, Earned, BelowThreshold;
    var h1 := h + [Sample(obs, now)];
    if obs.status == OK {
      var c := Pending(st, obs, frame, now, crop);
      PendingIsRun(st, h, obs, frame, now, crop);
      if IsConfirmed(cfg, c, now) {
        ConfirmedIsEarned(cfg, h1, c, now);
      }
    }
  }

  /** The history of each source after the tick. */
  function Recorded(seen: map<SourceId, seq<Sample>>, t: Tick, n: nat): map<SourceId, seq<Sample>>
    requires n <= |t.observations|
  {
    map sid | sid in seen ::
      match Seen(t, n, sid) case None => seen[sid] case Some(obs) => seen[sid] + [Sample(obs, t.now)]
  }

  ghost predicate AllBacked(e: Engine, seen: map<SourceId, seq<Sample>>) {
    seen.Keys == e.states.Keys && forall sid :: sid in e.states ==> Backed(e.states[sid], seen[sid])
  }

  /** Whenever a tick gives a source a stable value, a new one or its old one again after an error, that was earned. */
  lemma ConfirmationIsEarned(cfg: Config, e: Engine, t: Tick, seen: map<SourceId, seq<Sample>>)
    requires Configured(cfg, e) && Keyed(t) && AllBacked(e, seen)
    requires Fold(cfg, e, t, |t.observations|).Some?
    ensures var e1 := Fold(cfg, e, t, |t.observations|).value.engine;
      var seen1 := Recorded(seen, t, |t.observations|);
      && AllBacked(e1, seen1)
      && forall sid :: sid in e.states && Settles(e.states[sid], e1.states[sid])
           ==> Earned(cfg[sid], seen1[sid], e1.states[sid].value, e1.states[sid].kind)
  {
    var n := |t.observations|;
    FoldIsPointwise(cfg, e, t, n);
    forall sid | sid in e.states && Seen(t, n, sid).Some? {
      LocalIsEarned(cfg[sid], e.states[sid], seen[sid], Seen(t, n, sid).value, t.frame, t.now, CropOf(t, sid));
    }
  }

  // ---- presenting the same observations again -------------------------------

  /** The same observations and crops, captured again at a later moment. */
  predicate Again(t: Tick, u: Tick) {
    u.observations == t.observations && u.crops == t.crops && u.now >= t.now
  }

  lemma LocalAgain(cfg: Settings, st: SourceState, obs: Observation, t: Tick, u: Tick, crop: Option<Bytes>)
    requires Again(t, u)
    ensures var a, b := Local(cfg, st, obs, t.frame, t.now, crop), Local(cfg, st, obs, u.frame, u.now, crop);
      && (a.transition != Quiet ==> b.transition == a.transition)
      && (b.transition.Errored? ==> a.transition.Errored?)
      && CropSize(b.state.candidate) <= CropSize(a.state.candidate)
  {
  }

  lemma {:induction false} SeenAgain(t: Tick, u: Tick, n: nat, sid: SourceId)
    requires Again(t, u) && n <= |t.observations|
    ensures Seen(u, n, sid) == Seen(t, n, sid)
  {
    if n > 0 {
      SeenAgain(t, u, n - 1, sid);
    }
  }

  lemma ObserveAgain(cfg: Config, p: Progress, q: Progress, obs: Observation, t: Tick, u: Tick)
    requires Configured(cfg, p.engine) && Configured(cfg, q.engine) && Again(t, u)
    requires q.engine.bytes <= p.engine.bytes
    requires obs.source in p.engine.states ==> q.engine.states[obs.source] == p.engine.states[obs.source]
    requires Observe(cfg, p, obs, t).Some?
    ensures Observe(cfg, q, obs, u).Some?
    ensures Observe(cfg, q, obs, u).value.engine.bytes <= Observe(cfg, p, obs, t).value.engine.bytes
  {
    if obs.source in p.engine.states {
      LocalAgain(cfg[obs.source], p.engine.states[obs.source], obs, t, u, CropOf(t, obs.source));
      assert CropOf(u, obs.source) == CropOf(t, obs.source);
    }
  }

  lemma KeyedAgain(t: Tick, u: Tick)
    requires Keyed(t) && Again(t, u)
    ensures Keyed(u)
  {
  }

  lemma {:induction false} FoldAgain(cfg: Config, e: Engine, t: Tick, u: Tick, n: nat)
    requires Configured(cfg, e) && Keyed(t) && Again(t, u) && n <= |t.observations|
    requires Fold(cfg, e, t, n).Some?
    ensures Fold(cfg, e, u, n).Some?
    ensures Fold(cfg, e, u, n).value.engine.bytes <= Fold(cfg, e, t, n).value.engine.bytes
  {
    hide Observe, Local, Overflows, CropOf, Keyed;
    if n > 0 {
      FoldAgain(cfg, e, t, u, n - 1);
      KeyedAgain(t, u);
      NotYetTouched(cfg, e, t, n - 1);
      NotYetTouched(cfg, e, u, n - 1);
      var obs := t.observations[n - 1];
      ObserveAgain(cfg, Fold(cfg, e, t, n - 1).value, Fold(cfg, e, u, n - 1).value, obs, t, u);
    }
  }
}
