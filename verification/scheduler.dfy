/**
 * The tick scheduler (src/screen2xyz_m2/scheduler.py) and the skip counter it shares with the
 * ticks it starts (src/screen2xyz_m2/controller.py), as interleaved atomic steps.
 */
module Scheduler {
  import opened Common

  /** The loop thread: waiting, holding a number of missed deadlines, or reporting skips one by one. */
  datatype LoopState = Waiting | Counted(missed: nat) | Skipping(left: nat)

  /** A tick thread: working, holding a skip count it has read, or one it has written to the journal. */
  datatype TickState = Working | Peeked(count: nat) | Written(count: nat)

  datatype LockHolder = Free | Tick | Drainer

  datatype State = State(
    running: bool, stopped: bool, lock: LockHolder, loop: LoopState, ticks: seq<TickState>,
    pending: nat, skips: nat, dispatched: nat, consumed: nat, journal: seq<nat>)

  datatype Event =
    | CountMissed(missed: nat)           // the loop finds this many deadlines in the past
    | TryDispatch                        // it tries to take the lock without waiting
    | ReportSkip                         // one call of on_skip
    | Peek(tick: nat)                    // a tick reads the counter
    | Append(tick: nat, stored: bool)    // its event reaches the journal, or not
    | Consume(tick: nat)                 // it subtracts what it has written
    | Finish(tick: nat)                  // it ends and releases the lock
    | DrainAcquire | DrainRelease        // drain() and stop() take the lock for a moment
    | Pause | Resume | Stop

  function Init(): State { State(true, false, Free, Waiting, [], 0, 0, 0, 0, []) }

  predicate IsTick(s: State, i: nat) { i < |s.ticks| }

  function Max(a: int, b: int): int { if a >= b then a else b }

  /** Steps that are not possible change nothing. */
  function Step(s: State, e: Event): State {
    match e
    case CountMissed(m) =>
      if s.stopped || !s.loop.Waiting? || m == 0 then s
      else if s.running then s.(loop := Counted(m), consumed := s.consumed + m)
      else s
    case TryDispatch =>
      if !s.loop.Counted? || s.loop.missed == 0 then s
      else if s.lock.Free? then
        s.(lock := Tick, ticks := s.ticks + [Working], dispatched := s.dispatched + 1,
           loop := Skipping(s.loop.missed - 1))
      else s.(loop := Skipping(s.loop.missed))
    case ReportSkip =>
      if !s.loop.Skipping? then s
      else if s.loop.left == 0 then s.(loop := Waiting)
      else s.(loop := Skipping(s.loop.left - 1), pending := s.pending + 1, skips := s.skips + 1)
    case Peek(i) =>
      if !IsTick(s, i) || !s.ticks[i].Working? then s else s.(ticks := s.ticks[i := Peeked(s.pending)])
    case Append(i, stored) =>
      if !IsTick(s, i) || !s.ticks[i].Peeked? then s
      else if stored then
        s.(ticks := s.ticks[i := Written(s.ticks[i].count)], journal := s.journal + [s.ticks[i].count])
      else s.(ticks := s.ticks[i := Working])
    case Consume(i) =>
      if !IsTick(s, i) || !s.ticks[i].Written? then s
      else s.(ticks := s.ticks[i := Working], pending := Max(0, s.pending - s.ticks[i].count))
    case Finish(i) =>
      if !IsTick(s, i) || s.ticks[i].Written? then s
      else s.(ticks := s.ticks[..i] + s.ticks[i + 1..], lock := Free)
    case DrainAcquire => if s.lock.Free? then s.(lock := Drainer) else s
    case DrainRelease => if s.lock.Drainer? then s.(lock := Free) else s
    case Pause => s.(running := false)
    case Resume => s.(running := true)
    case Stop => s.(stopped := true, running := false)
  }

  function Run(s: State, events: seq<Event>): State
    decreases |events|
  {
    if events == [] then s else Run(Step(s, events[0]), events[1..])
  }

  function Sum(counts: seq<nat>): nat {
    if counts == [] then 0 else Sum(counts[..|counts| - 1]) + counts[|counts| - 1]
  }

  /** Deadlines the loop has counted but not yet dealt with. */
  function InHand(loop: LoopState): nat {
    match loop
    case Waiting => 0
    case Counted(m) => m
    case Skipping(n) => n
  }

  /** Skips already in the journal but not yet taken off the counter. */
  function Unconsumed(ticks: seq<TickState>): nat {
    if |ticks| == 1 && ticks[0].Written? then ticks[0].count else 0
  }

  predicate Inv(s: State) {
    // one tick at a time, and only while the lock says so
    && |s.ticks| == (if s.lock.Tick? then 1 else 0)
    // what a tick has read is still on the counter, so subtracting it never goes below zero
    && (forall i :: 0 <= i < |s.ticks| && !s.ticks[i].Working? ==> s.ticks[i].count <= s.pending)
    // skips are in the journal or on the counter
    && Sum(s.journal) + s.pending == s.skips + Unconsumed(s.ticks)
    // deadlines lead to a tick, to a skip, or are still in hand
    && s.dispatched + s.skips + InHand(s.loop) == s.consumed
    && (s.loop.Counted? ==> s.loop.missed > 0)
  }

  lemma SumSnoc(counts: seq<nat>, n: nat)
    ensures Sum(counts + [n]) == Sum(counts) + n
  {
  }

  lemma LoopKeepsInv(s: State, e: Event)
    requires Inv(s) && (e.CountMissed? || e.TryDispatch? || e.ReportSkip?)
    ensures Inv(Step(s, e))
  {
    hide Sum;
  }

  lemma OneTick(s: State, i: nat)
    requires Inv(s) && IsTick(s, i)
    ensures i == 0 && s.lock.Tick? && s.ticks == [s.ticks[0]]
  {
  }

  /** The invariant, for the one tick in flight. */
  predicate TickInv(s: State, t: TickState) {
    && (!t.Working? ==> t.count <= s.pending)
    && Sum(s.journal) + s.pending == s.skips + (if t.Written? then t.count else 0)
    && s.dispatched + s.skips + InHand(s.loop) == s.consumed && (s.loop.Counted? ==> s.loop.missed > 0)
  }

  lemma TickInvIs(s: State, t: TickState)
    requires s.ticks == [t] && s.lock.Tick?
    ensures Inv(s) <==> TickInv(s, t)
  {
  }

  lemma TickKeepsInv(s: State, e: Event)
    requires Inv(s) && (e.Peek? || e.Append? || e.Consume?) && IsTick(s, e.tick)
    ensures Inv(Step(s, e))
  {
    OneTick(s, e.tick);
    var t := s.ticks[0];
    TickInvIs(s, t);
    hide Inv, Sum, InHand;
    var r := Step(s, e);
    assert r.ticks == [r.ticks[0]] && r.lock.Tick?;
    if e.Append? && e.stored && t.Peeked? {
      SumSnoc(s.journal, t.count);
    }
    TickInvIs(r, r.ticks[0]);
  }

  lemma FinishKeepsInv(s: State, e: Event)
    requires Inv(s) && e.Finish? && IsTick(s, e.tick)
    ensures Inv(Step(s, e))
  {
  }

  lemma OtherKeepsInv(s: State, e: Event)
    requires Inv(s) && (e.DrainAcquire? || e.DrainRelease? || e.Pause? || e.Resume? || e.Stop?)
    ensures Inv(Step(s, e))
  {
  }

  lemma StepKeepsInv(s: State, e: Event)
    requires Inv(s)
    ensures Inv(Step(s, e))
  {
    if e.CountMissed? || e.TryDispatch? || e.ReportSkip? {
      LoopKeepsInv(s, e);
    } else if e.DrainAcquire? || e.DrainRelease? || e.Pause? || e.Resume? || e.Stop? {
      OtherKeepsInv(s, e);
    } else if IsTick(s, e.tick) {
      hide Inv;
      if e.Finish? {
        FinishKeepsInv(s, e);
      } else {
        TickKeepsInv(s, e);
      }
    }
  }

  lemma {:induction false} RunKeepsInv(s: State, events: seq<Event>)
    requires Inv(s)
    ensures Inv(Run(s, events))
    decreases |events|
  {
    hide Inv, Step;
    if events != [] {
      StepKeepsInv(s, events[0]);
      RunKeepsInv(Step(s, events[0]), events[1..]);
    }
  }

  lemma AlwaysInv(events: seq<Event>)
    ensures Inv(Run(Init(), events))
  {
    hide Run;
    RunKeepsInv(Init(), events);
  }

  /** At no point of any run are two ticks in flight. */
  lemma NeverTwoTicks(events: seq<Event>)
    ensures |Run(Init(), events).ticks| <= 1
  {
    hide Run, Sum;
    AlwaysInv(events);
  }

  /** Every counted deadline became a tick or a skip, once the loop is back to waiting. */
  lemma DeadlinesAreConserved(events: seq<Event>)
    ensures var s := Run(Init(), events);
      s.loop.Waiting? ==> s.dispatched + s.skips == s.consumed
  {
    hide Run, Sum;
    AlwaysInv(events);
  }

  /** No skip is lost or counted twice, failed appends and skips during an append included. */
  lemma SkipsAreConserved(events: seq<Event>)
    ensures var s := Run(Init(), events);
      (forall i :: 0 <= i < |s.ticks| ==> !s.ticks[i].Written?) ==> Sum(s.journal) + s.pending == s.skips
  {
    hide Run, Sum;
    AlwaysInv(events);
  }

  /** The floor at zero in the subtraction is never needed. */
  lemma ConsumingNeverClamps(events: seq<Event>, i: nat)
    ensures var s := Run(Init(), events);
      IsTick(s, i) && s.ticks[i].Written? ==> Step(s, Consume(i)).pending == s.pending - s.ticks[i].count
  {
    hide Run, Sum;
    AlwaysInv(events);
  }

  // ---- pausing, stopping and journaling ------------------------------------------------------------

  /** Nothing is counted, started or skipped from here to there. */
  predicate NoneFired(s: State, r: State) {
    r.dispatched == s.dispatched && r.skips == s.skips && r.consumed == s.consumed && r.loop.Waiting?
  }

  lemma {:induction false} QuietRun(s: State, events: seq<Event>)
    requires s.loop.Waiting? && (s.stopped || (!s.running && forall e :: e in events ==> e != Resume))
    ensures NoneFired(s, Run(s, events))
    decreases |events|
  {
    if events != [] {
      assert events[0] in events && forall e :: e in events[1..] ==> e in events;
      QuietRun(Step(s, events[0]), events[1..]);
    }
  }

  /** From a pause on nothing fires until it is resumed, whatever threads are still running. */
  lemma PausedFiresNothing(s: State, events: seq<Event>)
    requires s.loop.Waiting? && forall e :: e in events ==> e != Resume
    ensures NoneFired(s, Run(s, [Pause] + events))
  {
    assert ([Pause] + events)[1..] == events;
    QuietRun(Step(s, Pause), events);
  }

  /** From a stop on nothing fires any more, even if it is resumed. */
  lemma StoppedFiresNothing(s: State, events: seq<Event>)
    requires s.loop.Waiting?
    ensures NoneFired(s, Run(s, [Stop] + events))
  {
    assert ([Stop] + events)[1..] == events;
    QuietRun(Step(s, Stop), events);
  }

  /** A new scheduler fires at its first deadline, and a paused one again once it is resumed. */
  lemma ResumedFires(s: State, missed: nat)
    requires missed > 0 && s.loop.Waiting? && !s.stopped && s.lock.Free?
    ensures Run(s, [Resume, CountMissed(missed), TryDispatch]).dispatched == s.dispatched + 1
    ensures Run(Init(), [CountMissed(missed), TryDispatch]).dispatched == 1
  {
    var resumed := Step(s, Resume);
    var events := [CountMissed(missed), TryDispatch];
    assert ([Resume] + events)[1..] == events && events[1..] == [TryDispatch] && [TryDispatch][1..] == [];
    assert [Resume, CountMissed(missed), TryDispatch] == [Resume] + events;
    FiresOnce(resumed, missed);
    FiresOnce(Init(), missed);
  }

  lemma FiresOnce(s: State, missed: nat)
    requires missed > 0 && s.loop.Waiting? && !s.stopped && s.running && s.lock.Free?
    ensures Run(s, [CountMissed(missed), TryDispatch]).dispatched == s.dispatched + 1
  {
    var events := [CountMissed(missed), TryDispatch];
    var s1 := Step(s, CountMissed(missed));
    assert events[1..] == [TryDispatch] && [TryDispatch][1..] == [];
    assert Run(s, events) == Run(s1, [TryDispatch]) == Run(Step(s1, TryDispatch), []);
  }

  /**
   * A tick whose event is stored moves the whole counter into the journal, skips that are reported meanwhile
   * excepted; a tick whose event is not stored leaves both as they are.
   */
  lemma TickMovesTheCounter(s: State, late: nat)
    requires s.ticks == [Working] && s.loop == Skipping(late)
    ensures Run(s, [Peek(0), Append(0, false)]) == s
    ensures Run(s, [Peek(0)] + SkipsOf(late) + [Append(0, true), Consume(0)])
         == s.(loop := Waiting, journal := s.journal + [s.pending], pending := late, skips := s.skips + late)
  {
    hide Run, SkipsOf, Step;
    PeekedOnce(s);
    var s1, end := s.(ticks := [Peeked(s.pending)]), [Append(0, true), Consume(0)];
    RunOne(s, Peek(0), [Append(0, false)]);
    RunOne(s1, Append(0, false), []);
    assert [Peek(0), Append(0, false)] == [Peek(0)] + [Append(0, false)];
    assert [Append(0, false)] + [] == [Append(0, false)];
    assert [Peek(0)] + SkipsOf(late) + end == [Peek(0)] + (SkipsOf(late) + end);
    RunOne(s, Peek(0), SkipsOf(late) + end);
    RunBoth(s1, SkipsOf(late), end);
    SkipsRun(s1, late);
    StoredOnce(s1.(loop := Waiting, pending := s1.pending + late, skips := s1.skips + late), s.pending);
  }

  lemma PeekedOnce(s: State)
    requires s.ticks == [Working]
    ensures Step(s, Peek(0)) == s.(ticks := [Peeked(s.pending)])
    ensures Step(s.(ticks := [Peeked(s.pending)]), Append(0, false)) == s
  {
    assert [Working][0 := Peeked(s.pending)] == [Peeked(s.pending)];
    assert [Peeked(s.pending)][0 := Working] == [Working];
  }

  lemma StoredOnce(s: State, n: nat)
    requires s.ticks == [Peeked(n)] && n <= s.pending
    ensures Run(s, [Append(0, true), Consume(0)])
         == s.(ticks := [Working], journal := s.journal + [n], pending := s.pending - n)
  {
    hide Run;
    assert s.ticks[0 := TickState.Written(n)] == [TickState.Written(n)];
    var s1 := s.(ticks := [TickState.Written(n)], journal := s.journal + [n]);
    assert Step(s, Append(0, true)) == s1;
    assert s1.ticks[0 := Working] == [Working];
    assert Step(s1, Consume(0)) == s1.(ticks := [Working], pending := s.pending - n);
    assert [Append(0, true), Consume(0)] == [Append(0, true)] + [Consume(0)] && [Consume(0)] == [Consume(0)] + [];
    RunOne(s, Append(0, true), [Consume(0)]);
    RunOne(s1, Consume(0), []);
    RunOne(Step(s1, Consume(0)), Consume(0), []);
  }

  lemma RunOne(s: State, e: Event, rest: seq<Event>)
    ensures Run(s, [e] + rest) == Run(Step(s, e), rest)
    ensures Run(s, []) == s
  {
    assert ([e] + rest)[1..] == rest;
  }

  lemma {:induction false} RunBoth(s: State, a: seq<Event>, b: seq<Event>)
    ensures Run(s, a + b) == Run(Run(s, a), b)
    decreases |a|
  {
    if a == [] {
      assert a + b == b;
    } else {
      assert (a + b)[0] == a[0] && (a + b)[1..] == a[1..] + b;
      RunBoth(Step(s, a[0]), a[1..], b);
    }
  }

  // ---- the same loop with its clock ---------------------------------------------------------------

  /** The k-th deadline after the start. */
  function DeadlineAt(start: real, interval: real, k: nat): real { start + (k as real) * interval }

  lemma NextDeadline(start: real, interval: real, k: nat)
    ensures DeadlineAt(start, interval, k + 1) == DeadlineAt(start, interval, k) + interval
  {
  }

  /** Three kinds of step make one turn of the loop. */
  function SkipsOf(n: nat): seq<Event> { if n == 0 then [ReportSkip] else [ReportSkip] + SkipsOf(n - 1) }

  function TurnOf(s: State, missed: nat): seq<Event> {
    if missed == 0 then []
    else [CountMissed(missed), TryDispatch] + SkipsOf(if s.lock.Free? then missed - 1 else missed)
  }

  lemma {:induction false} SkipsRun(s: State, n: nat)
    requires s.loop == Skipping(n)
    ensures Run(s, SkipsOf(n)) == s.(loop := Waiting, pending := s.pending + n, skips := s.skips + n)
    decreases n
  {
    var next := Step(s, ReportSkip);
    assert SkipsOf(n)[0] == ReportSkip;
    if n > 0 {
      SkipsRun(next, n - 1);
      assert SkipsOf(n)[1..] == SkipsOf(n - 1);
    } else {
      assert SkipsOf(n)[1..] == [] && Run(next, []) == next;
    }
  }

  function AfterTurn(s: State, missed: nat): State {
    if missed == 0 || !s.running then s
    else
      var free := s.lock.Free?;
      var n := if free then missed - 1 else missed;
      s.(lock := if free then Tick else s.lock, ticks := if free then s.ticks + [Working] else s.ticks,
         dispatched := if free then s.dispatched + 1 else s.dispatched, consumed := s.consumed + missed,
         pending := s.pending + n, skips := s.skips + n)
  }

  /** An undisturbed turn of the loop is that run of atomic steps. */
  lemma TurnIsARun(s: State, missed: nat)
    requires s.loop.Waiting? && s.running && !s.stopped
    ensures Run(s, TurnOf(s, missed)) == AfterTurn(s, missed)
  {
    if missed > 0 {
      var n := if s.lock.Free? then missed - 1 else missed;
      var events := TurnOf(s, missed);
      var s1 := Step(s, CountMissed(missed));
      var s2 := Step(s1, TryDispatch);
      assert events[1..] == [TryDispatch] + SkipsOf(n) && events[1..][1..] == SkipsOf(n);
      assert Run(s, events) == Run(s1, events[1..]) == Run(s2, SkipsOf(n));
      SkipsRun(s2, n);
    } else {
      assert Run(s, []) == s;
    }
  }

  class TickScheduler {
    const interval: real
    const start: real
    var deadline: real
    var passed: nat        // deadlines counted so far, whether or not the loop was running
    var state: State

    ghost predicate Valid()
      reads this
    {
      interval > 0.0 && deadline == DeadlineAt(start, interval, passed + 1)
    }

    constructor (interval: real, now: real)
      requires interval > 0.0
      ensures Valid() && start == now && this.interval == interval && passed == 0 && state == Init()
    {
      this.interval, start, passed, state := interval, now, 0, Init();
      deadline := now + interval;
      new;
      NextDeadline(now, interval, 0);
    }

    /**
     * One turn of the loop.  `readings` are the clock values it sees: the first decides whether a
     * deadline has passed, the rest are read while it counts, up to the one that is behind its deadline.
     */
    method Turn(now: real, readings: seq<real>) returns (missed: nat)
      requires Valid() && state.loop.Waiting? && !state.stopped
      requires deadline <= now ==>
        && readings != [] && now <= readings[0]   // the clock is monotonic
        && readings[|readings| - 1] < DeadlineAt(start, interval, passed + |readings|)   // and counting ends
      modifies this
      ensures Valid() && passed == old(passed) + missed
      ensures deadline == DeadlineAt(start, interval, old(passed) + 1 + missed)
      ensures now < old(deadline) ==> missed == 0
      ensures now >= old(deadline) ==>
        && 1 <= missed < |readings|
        && (forall k :: 0 <= k < missed ==> readings[k] >= DeadlineAt(start, interval, old(passed) + 1 + k))
        && readings[missed] < deadline
      ensures state == AfterTurn(old(state), missed)
    {
      missed := 0;
      if now < deadline {
        return;
      }
      while deadline <= readings[missed]
        invariant missed == 0 ==> deadline <= readings[0]
        invariant missed < |readings| && Valid() && passed == old(passed) + missed && state == old(state)
        invariant forall k :: 0 <= k < missed ==> readings[k] >= DeadlineAt(start, interval, old(passed) + 1 + k)
        decreases |readings| - missed
      {
        NextDeadline(start, interval, passed + 1);
        deadline := deadline + interval;
        passed := passed + 1;
        missed := missed + 1;
      }
      if !state.running {
        return;
      }
      state := state.(consumed := state.consumed + missed);
      var skips := missed;
      if state.lock.Free? {
        state := state.(lock := Tick, ticks := state.ticks + [Working], dispatched := state.dispatched + 1);
        skips := missed - 1;
      }
      ghost var before := state;
      for k := 0 to skips
        invariant state == before.(pending := before.pending + k, skips := before.skips + k)
        invariant Valid() && passed == old(passed) + missed
      {
        state := state.(pending := state.pending + 1, skips := state.skips + 1);
      }
    }
  }
}
