/**
 * The stability engine as the program runs it: an object whose per-source
 * states and evidence-byte count are updated in place, one observation at a
 * time.  Each method is proved to do what the functions of `Stability` say.
 */
module LiveEngine {
  import opened Common
  import opened Stability
  import opened StabilityLaws

  class StabilityEngine {
    const ids: seq<SourceId>
    const cfg: Config
    const mode: Mode
    var states: map<SourceId, SourceState>
    var bytes: int

    function Value(): Engine
      reads this
    {
      Engine(states, bytes)
    }

    ghost predicate Valid()
      reads this
    {
      Configured(cfg, Value()) && Balanced(ids, Value())
    }

    constructor (ids: seq<SourceId>, cfg: Config, mode: Mode)
      requires forall i, j :: 0 <= i < j < |ids| ==> ids[i] != ids[j]
      requires forall sid :: sid in ids <==> sid in cfg
      ensures Valid() && this.ids == ids && this.cfg == cfg && this.mode == mode
      ensures Value() == Engine(map sid | sid in cfg :: Fresh(), 0)
    {
      this.ids, this.cfg, this.mode := ids, cfg, mode;
      states, bytes := map sid | sid in cfg :: Fresh(), 0;
      new;
      HeldNothing(ids, states);
    }

    method ReleaseCandidate(sid: SourceId)
      requires sid in states
      modifies this
      ensures states == old(states)[sid := Bare(old(states)[sid])]
      ensures bytes == old(bytes) - CropSize(old(states)[sid].candidate)
    {
      var candidate := states[sid].candidate;
      if candidate.Some? && candidate.value.crop.Some? {
        bytes := bytes - |candidate.value.crop.value|;
      }
      states := states[sid := Bare(states[sid])];
    }

    /** False stands for the raised BufferError. */
    method OwnCrop(png: Option<Bytes>) returns (ok: bool)
      modifies `bytes
      ensures ok <==> png.None? || (|png.value| <= CROP_PNG_MAX_BYTES
                                    && old(bytes) + |png.value| <= AGGREGATE_CROP_MAX_BYTES)
      ensures bytes == if ok && png.Some? then old(bytes) + |png.value| else old(bytes)
    {
      if png.None? {
        return true;
      }
      if |png.value| > CROP_PNG_MAX_BYTES || bytes + |png.value| > AGGREGATE_CROP_MAX_BYTES {
        return false;
      }
      bytes := bytes + |png.value|;
      return true;
    }

    /** The body of the observation loop for a known source; None when the evidence buffer overflows. */
    method ObserveSource(obs: Observation, t: Tick) returns (s: Option<LocalStep>)
      requires obs.source in states && obs.source in cfg
      modifies this
      ensures states.Keys == old(states).Keys
      ensures s.None? <==> Overflows(cfg[obs.source], old(states)[obs.source], old(bytes), obs, CropOf(t, obs.source))
      ensures s.Some? ==>
        && s.value == Local(cfg[obs.source], old(states)[obs.source], obs, t.frame, t.now, CropOf(t, obs.source))
        && states == old(states)[obs.source := s.value.state]
        && bytes == old(bytes) - CropSize(old(states)[obs.source].candidate) + CropSize(s.value.state.candidate)
    {
      var sid, settings := obs.source, cfg[obs.source];
      var state := states[sid];
      if obs.status == OK {
        s := ObserveOk(sid, settings, obs, t);
      } else if Retainable(obs.status) {
        ReleaseCandidate(sid);
        if !state.errorActive {
          states := states[sid := states[sid].(preValue := state.value, preKind := state.kind)];
        }
        if state.lastError != Some(obs.status) {
          states := states[sid := states[sid].(status := Some(obs.status), errorActive := true,
                                               lastError := Some(obs.status))];
          s := Some(LocalStep(states[sid], Untouched, Errored,
                              Some(Evidence(t.frame, obs.rawText, None, obs.kind)), CropOf(t, sid)));
        } else {
          s := Some(LocalStep(states[sid], Untouched, Quiet, None, None));
        }
      } else {
        ReleaseCandidate(sid);
        s := Some(LocalStep(states[sid], Untouched, Quiet, None, None));
      }
    }

    method ObserveOk(sid: SourceId, settings: Settings, obs: Observation, t: Tick) returns (s: Option<LocalStep>)
      requires sid in states && obs.status == OK
      modifies this
      ensures states.Keys == old(states).Keys
      ensures s.None? <==> Overflows(settings, old(states)[sid], old(bytes), obs, CropOf(t, sid))
      ensures s.Some? ==>
        && s.value == Local(settings, old(states)[sid], obs, t.frame, t.now, CropOf(t, sid))
        && states == old(states)[sid := s.value.state]
        && bytes == old(bytes) - CropSize(old(states)[sid].candidate) + CropSize(s.value.state.candidate)
    {
      hide BelowThreshold, Commit;
      var state := states[sid];
      if Settled(settings, state, obs) {
        ReleaseCandidate(sid);
        return Some(LocalStep(states[sid], Confirmed, Quiet, None, None));
      }
      if Matches(state, obs) {
        var c := state.candidate.value;
        states := states[sid := state.(candidate := Some(c.(count := c.count + 1)))];
      } else {
        var replaced := state.candidate.Some? && settings.confirmations > 1;
        var owned := OpenCandidate(sid, obs, t);
        if !owned {
          return None;
        }
        if replaced {
          return Some(LocalStep(states[sid], Rejected, Quiet, None, None));
        }
      }
      if !IsConfirmed(settings, states[sid].candidate.value, t.now) {
        return Some(LocalStep(states[sid], PendingConfirmation, Quiet, None, None));
      }
      assert states[sid] == state.(candidate := Some(Pending(state, obs, t.frame, t.now, CropOf(t, sid))));
      CommitIgnoresCandidate(settings, state, states[sid].candidate.value);
      var committed := CommitCandidate(sid, settings);
      s := Some(committed);
    }

    /** Drops the old candidate, then owns the new one's crop; false when the buffer refuses it. */
    method OpenCandidate(sid: SourceId, obs: Observation, t: Tick) returns (ok: bool)
      requires sid in states
      modifies this
      ensures states.Keys == old(states).Keys
      ensures var crop, rest := CropOf(t, sid), old(bytes) - CropSize(old(states)[sid].candidate);
        && (ok <==> crop.None? || (|crop.value| <= CROP_PNG_MAX_BYTES
                                   && rest + |crop.value| <= AGGREGATE_CROP_MAX_BYTES))
        && (ok ==>
             && states == old(states)[sid := old(states)[sid].(
                  candidate := Some(Candidate(obs.value, obs.kind, t.frame, obs.rawText, crop, t.now, 1)))]
             && bytes == rest + (if crop.Some? then |crop.value| else 0))
    {
      ReleaseCandidate(sid);
      ok := OwnCrop(CropOf(t, sid));
      if ok {
        var first := Candidate(obs.value, obs.kind, t.frame, obs.rawText, CropOf(t, sid), t.now, 1);
        states := states[sid := states[sid].(candidate := Some(first))];
      }
    }

    /** A confirmed candidate becomes the stable state. */
    method CommitCandidate(sid: SourceId, settings: Settings) returns (s: LocalStep)
      requires sid in states && states[sid].candidate.Some?
      modifies this
      ensures s == Commit(settings, old(states)[sid], old(states)[sid].candidate.value)
      ensures s.state.candidate.None?
      ensures states == old(states)[sid := s.state]
      ensures bytes == old(bytes) - CropSize(old(states)[sid].candidate)
    {
      var state := states[sid];
      var c := state.candidate.value;
      var verdict := if settings.confirmations == 1 then Immediate else Confirmed;
      var evidence := Some(Evidence(c.frame, c.rawText, c.value, c.kind));
      states := states[sid := states[sid].(seeded := true, value := c.value, kind := c.kind, status := Some(OK))];
      var transition, saved, record := Quiet, None, None;
      if state.errorActive {
        states := states[sid := states[sid].(errorActive := false, lastError := None)];
        transition := Recovered(c.value != state.preValue || c.kind != state.preKind);
        saved, record := c.crop, evidence;
      } else if state.seeded && (state.value != c.value || state.kind != c.kind) {
        transition, saved, record := Changed, c.crop, evidence;
      }
      ReleaseCandidate(sid);
      s := LocalStep(states[sid], verdict, transition, record, saved);
    }

    /** process_tick; None is the BufferError, after which the caller restores its snapshot. */
    method ProcessTick(t: Tick) returns (d: Option<Decision>)
      requires Valid() && Keyed(t)
      modifies this
      ensures states.Keys == old(states).Keys
      ensures d.None? <==> Fold(cfg, old(Value()), t, |t.observations|).None?
      ensures d.Some? ==>
        && Value() == Fold(cfg, old(Value()), t, |t.observations|).value.engine
        && d.value == Decide(mode, Fold(cfg, old(Value()), t, |t.observations|).value)
        && Valid()
    {
      hide Local, Overflows, CropOf, CropSize, Decide, Balanced;
      ghost var e0 := Value();
      var steps: map<SourceId, LocalStep> := map[];
      var i := 0;
      while i < |t.observations|
        invariant 0 <= i <= |t.observations|
        invariant states.Keys == e0.states.Keys
        invariant Fold(cfg, e0, t, i) == Some(Progress(Value(), steps))
      {
        var obs := t.observations[i];
        if obs.source in states {
          var s := ObserveSource(obs, t);
          if s.None? {
            assert Fold(cfg, e0, t, i + 1).None?;
            FoldNoneStays(cfg, e0, t, i + 1, |t.observations|);
            return None;
          }
          steps := steps[obs.source := s.value];
        }
        i := i + 1;
      }
      FoldStaysBalanced(ids, cfg, e0, t, i);
      d := Some(Decide(mode, Progress(Value(), steps)));
    }

    method DiscardAllCandidates()
      requires Valid()
      modifies this
      ensures Valid() && Value() == Discarded(old(Value()))
    {
      AllListed(ids, Value());
      ReleasedIsDiscarded(ids, Value());
      DiscardStaysBalanced(ids, Value());
      ReleaseAll();
    }

    method ReleaseAll()
      requires forall k :: 0 <= k < |ids| ==> ids[k] in states
      modifies this
      ensures Value() == Released(old(Value()), ids, |ids|)
    {
      ghost var before := Value();
      var i := 0;
      while i < |ids|
        invariant 0 <= i <= |ids|
        invariant states.Keys == before.states.Keys && Value() == Released(before, ids, i)
      {
        ReleaseCandidate(ids[i]);
        i := i + 1;
      }
    }

    /** A dead worker: the controller reaches in and marks each source that has just failed. */
    method MarkFailed(failed: set<SourceId>)
      requires forall sid :: sid in ids <==> sid in states
      modifies this
      ensures Value() == MarkedFailed(old(Value()), failed)
    {
      ghost var before := states;
      var i := 0;
      while i < |ids|
        invariant 0 <= i <= |ids|
        invariant states.Keys == before.Keys && bytes == old(bytes)
        invariant forall sid :: sid in before && sid in failed && sid in ids[..i] ==>
          states[sid] == before[sid].(status := Some(CaptureFailure), errorActive := true)
        invariant forall sid :: sid in before && !(sid in failed && sid in ids[..i]) ==> states[sid] == before[sid]
      {
        var sid := ids[i];
        assert ids[..i + 1] == ids[..i] + [sid];
        if sid in failed {
          states := states[sid := states[sid].(status := Some(CaptureFailure), errorActive := true)];
        }
        i := i + 1;
      }
      assert ids[..i] == ids;
      assert states == MarkedFailed(Engine(before, bytes), failed).states;
    }

    /** The deep copy and its restoration: states are values here, so the copy is the value itself. */
    method RestoreState(snapshot: Engine)
      modifies this
      ensures Value() == snapshot
    {
      states, bytes := snapshot.states, snapshot.bytes;
    }
  }

  lemma CommitIgnoresCandidate(cfg: Settings, st: SourceState, c: Candidate)
    ensures Commit(cfg, st.(candidate := Some(c)), c) == Commit(cfg, st, c)
  {
  }

  /** Releasing the candidates of the first `n` sources one after the other. */
  ghost function Released(e: Engine, ids: seq<SourceId>, n: nat): (r: Engine)
    requires n <= |ids| && forall k :: 0 <= k < |ids| ==> ids[k] in e.states
    ensures r.states.Keys == e.states.Keys
  {
    if n == 0 then e
    else
      var r, sid := Released(e, ids, n - 1), ids[n - 1];
      Engine(r.states[sid := Bare(r.states[sid])], r.bytes - CropSize(r.states[sid].candidate))
  }

  lemma {:induction false} ReleasedState(e: Engine, ids: seq<SourceId>, n: nat, sid: SourceId)
    requires n <= |ids| && forall k :: 0 <= k < |ids| ==> ids[k] in e.states
    requires sid in e.states
    ensures Bare(Released(e, ids, n).states[sid]) == Bare(e.states[sid])
    ensures sid in ids[..n] ==> Released(e, ids, n).states[sid] == Bare(e.states[sid])
  {
    if n > 0 {
      ReleasedState(e, ids, n - 1, sid);
      assert ids[..n] == ids[..n - 1] + [ids[n - 1]];
    }
  }

  lemma {:induction false} ReleasedBalanced(e: Engine, ids: seq<SourceId>, n: nat)
    requires Balanced(ids, e) && n <= |ids| && forall k :: 0 <= k < |ids| ==> ids[k] in e.states
    ensures Balanced(ids, Released(e, ids, n))
  {
    hide Balanced, CropSize, Bare;
    if n > 0 {
      ReleasedBalanced(e, ids, n - 1);
      ReleaseStaysBalanced(ids, Released(e, ids, n - 1), ids[n - 1]);
    }
  }

  lemma ReleasedIsDiscarded(ids: seq<SourceId>, e: Engine)
    requires Balanced(ids, e) && forall k :: 0 <= k < |ids| ==> ids[k] in e.states
    ensures Released(e, ids, |ids|) == Discarded(e)
  {
    hide Balanced, Released, CropSize, Bare;
    AllListed(ids, e);
    var r := Released(e, ids, |ids|);
    forall sid | sid in e.states
      ensures r.states[sid] == Bare(e.states[sid]) && r.states[sid].candidate.None?
    {
      ReleasedState(e, ids, |ids|, sid);
      BareIsBare(e.states[sid]);
    }
    ReleasedBalanced(e, ids, |ids|);
    NothingHeld(ids, r);
    assert r.states == Discarded(e).states;
  }

  lemma BareIsBare(st: SourceState)
    ensures Bare(st).candidate.None?
  {
  }

  lemma AllListed(ids: seq<SourceId>, e: Engine)
    requires Balanced(ids, e)
    ensures forall k :: 0 <= k < |ids| ==> ids[k] in e.states
    ensures forall sid :: sid in e.states ==> sid in ids[..|ids|]
  {
  }

  lemma {:induction false} FoldNoneStays(cfg: Config, e: Engine, t: Tick, m: nat, n: nat)
    requires Configured(cfg, e) && m <= n <= |t.observations|
    requires Fold(cfg, e, t, m).None?
    ensures Fold(cfg, e, t, n).None?
  {
    if m < n {
      FoldNoneStays(cfg, e, t, m, n - 1);
    }
  }
}
