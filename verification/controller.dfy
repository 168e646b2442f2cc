/**
 * The recording controller and its journal as objects updated in place.  Every
 * method is proved to take the session through the corresponding step of
 * `Recording.Next`, so the laws about runs hold of these methods.
 */
module Controller {
  import opened Common
  import opened Stability
  import opened StabilityLaws
  import opened LiveEngine
  import opened Recording
  import opened FramePauses

  class RunJournal {
    var eventSeq: nat
    var diskBytes: nat
    var liveEvents: seq<Event>

    function Value(): Journal
      reads this
    {
      Journal(liveEvents, eventSeq, diskBytes)
    }

    constructor ()
      ensures Value() == Journal([], 0, 0)
    {
      eventSeq, diskBytes, liveEvents := 0, 0, [];
    }

    /** Crops first, then the line; the number is committed only once the line is on disk. */
    method AppendEvent(event: Event, io: Io) returns (failure: Option<PauseReason>)
      modifies this
      ensures (Value(), failure) == Appended(old(Value()), event, io)
    {
      if diskBytes >= DISK_STOP_BYTES {
        return Some(DiskLimit);
      }
      var next := eventSeq + 1;
      diskBytes := diskBytes + io.cropBytes;
      if io.fault != NoFault {
        return Some(CropWriteFailure);
      }
      eventSeq := next;
      diskBytes := diskBytes + io.lineLength + 1;
      liveEvents := liveEvents + [event.(seqNo := next)];
      return None;
    }
  }

  class RecordingController {
    const engine: StabilityEngine
    const journal: RunJournal
    const watch: PauseWatch
    var skippedSinceLast: nat
    var skippedTicks: nat
    var recording: bool
    var pauseState: Option<PauseReason>
    var recordingFailures: nat
    ghost var seen: map<SourceId, seq<Sample>>

    ghost function View(): Session
      reads this, engine, journal
    {
      Session(engine.Value(), journal.Value(), skippedSinceLast, skippedTicks, recording, pauseState,
              recordingFailures, seen)
    }

    ghost predicate Valid()
      reads this, engine, journal
    {
      engine.Valid() && Inv(engine.cfg, engine.mode, engine.ids, View())
    }

    constructor (ids: seq<SourceId>, cfg: Config, mode: Mode)
      requires forall i, j :: 0 <= i < j < |ids| ==> ids[i] != ids[j]
      requires forall sid :: sid in ids <==> sid in cfg
      ensures Valid() && fresh(engine) && fresh(journal) && fresh(watch)
      ensures View() == Initial(cfg) && watch.Value() == NO_STREAKS
      ensures engine.cfg == cfg && engine.mode == mode && engine.ids == ids
    {
      engine := new StabilityEngine(ids, cfg, mode);
      journal := new RunJournal();
      watch := new PauseWatch();
      skippedSinceLast, skippedTicks, recordingFailures := 0, 0, 0;
      recording, pauseState := true, None;
      seen := map sid | sid in cfg :: [];
    }

    method NoteSkippedTick()
      requires Valid()
      modifies this
      ensures Valid() && View() == Next(engine.cfg, engine.mode, old(View()), TickSkipped)
    {
      skippedSinceLast := skippedSinceLast + 1;
      skippedTicks := skippedTicks + 1;
    }

    /** The pause button; `answered` is false when the worker fails to take the request. */
    method UserPause(answered: bool)
      requires Valid()
      modifies this
      ensures Valid() && View() == Next(engine.cfg, engine.mode, old(View()), UserPaused(answered))
    {
      hide EngineInv, LedgerInv, Reflects;
      NextKeepsInv(engine.cfg, engine.mode, engine.ids, View(), UserPaused(answered));
      if !recording {
        return;
      }
      if !answered {
        recordingFailures := recordingFailures + 1;
      }
      recording := false;
      pauseState := Some(UserRequest);
    }

    /** Refused while the pause asks for a new preview or target. */
    method UserResume(answered: bool)
      requires Valid()
      modifies this
      ensures Valid() && View() == Next(engine.cfg, engine.mode, old(View()), UserResumed(answered))
    {
      hide EngineInv, LedgerInv, Reflects;
      NextKeepsInv(engine.cfg, engine.mode, engine.ids, View(), UserResumed(answered));
      if recording || pauseState in {Some(DisplayInvalidated), Some(PauseTargetUnavailable)} {
        return;
      }
      if !answered {
        recordingFailures := recordingFailures + 1;
        return;
      }
      recording := true;
      pauseState := None;
    }

    /** Starting after a pause and a new preview: journal and engine are there already. */
    method StartRecording()
      requires Valid()
      modifies this
      ensures Valid() && View() == Next(engine.cfg, engine.mode, old(View()), StartedAgain)
    {
      hide EngineInv, LedgerInv, Reflects;
      NextKeepsInv(engine.cfg, engine.mode, engine.ids, View(), StartedAgain);
      if !recording {
        recording := true;
        pauseState := None;
      }
    }

    method ConsumeSkippedSinceLast(count: nat)
      modifies `skippedSinceLast
      ensures skippedSinceLast == Consumed(old(skippedSinceLast), count)
    {
      skippedSinceLast := if skippedSinceLast - count > 0 then skippedSinceLast - count else 0;
    }

    method EnterPause(pause: PauseReason)
      requires engine.Valid()
      modifies this, engine
      ensures engine.Valid() && View() == Recording.EnterPause(old(View()), pause)
    {
      recording := false;
      pauseState := Some(pause);
      engine.DiscardAllCandidates();
    }

    /** True when the event is durably journaled; otherwise a storage pause was entered. */
    method WriteEvent(event: Event, io: Io) returns (written: bool)
      requires engine.Valid() && event.skipped == skippedSinceLast
      modifies this, engine, journal
      ensures var (j, failure) := Appended(old(View()).journal, event, io);
        && (written <==> failure.None?)
        && engine.Valid()
        && View() == if written
             then old(View()).(journal := j, skipped := Consumed(event.skipped, event.skipped))
             else Recording.EnterPause(old(View()).(journal := j), failure.value)
    {
      var failure := journal.AppendEvent(event, io);
      if failure.Some? {
        EnterPause(failure.value);
        return false;
      }
      ConsumeSkippedSinceLast(event.skipped);
      return true;
    }

    /** The stability and journal part of _process_reply; returns the pause still to be entered. */
    method IngestFrame(t: Tick, framePause: Option<PauseReason>, io: Io) returns (pause: Option<PauseReason>)
      requires engine.Valid() && Keyed(t)
      modifies this, engine, journal
      ensures engine.Valid()
      ensures (View(), pause) == Ingest(engine.cfg, engine.mode, old(View()), t, framePause, io)
    {
      pause := framePause;
      if pause == Some(DisplayInvalidated) {
        engine.DiscardAllCandidates();
        return;
      }
      var snapshot := engine.Value();
      ghost var before := View();
      var decision := engine.ProcessTick(t);
      if decision.None? {
        engine.RestoreState(snapshot);
        return Some(EvidenceBufferLimit);
      }
      if decision.value.event.None? {
        seen := Recorded(seen, t, |t.observations|);
        return;
      }
      var written := WriteEvent(EventOf(decision.value, skippedSinceLast), io);
      if written {
        seen := Recorded(seen, t, |t.observations|);
      } else {
        engine.RestoreState(snapshot);
      }
    }

    /** The frame decides on a pause first; only then are its readings looked at. */
    method ProcessReply(frame: Frame, t: Tick, io: Io)
      requires Valid() && Keyed(t)
      modifies this, engine, journal, watch
      ensures Valid()
      ensures var (streaks, framePause) := Note(old(watch.Value()), frame);
        && View() == Next(engine.cfg, engine.mode, old(View()), Captured(t, framePause, io))
        && watch.Value() == if old(recording) then streaks else old(watch.Value())
    {
      ghost var framePause := Note(watch.Value(), frame).1;
      NextKeepsInv(engine.cfg, engine.mode, engine.ids, View(), Captured(t, framePause, io));
      if !recording {
        return;
      }
      recordingFailures := 0;
      var pause := watch.NoteFrame(frame);
      pause := IngestFrame(t, pause, io);
      if pause.None? && journal.diskBytes >= DISK_STOP_BYTES {
        pause := Some(DiskLimit);
      }
      if pause.Some? {
        EnterPause(pause.value);
      }
    }

    /** The error event for a dead worker, written past the stability engine. */
    method JournalFailureEvent(io: Io)
      requires engine.Valid()
      requires EngineInv(engine.cfg, engine.mode, engine.ids, engine.Value(), seen)
      modifies this, engine, journal
      ensures engine.Valid()
      ensures View() == JournalFailure(engine.mode, old(View()), io)
    {
      hide MarkedFailed, SignatureOf, Remembers, AllBacked, Discarded;
      var transitions := NewlyFailed(engine.Value());
      if transitions == {} || engine.mode == ChangedOnly {
        return;
      }
      var snapshot := engine.Value();
      MarkKeeps(engine.cfg, engine.mode, engine.ids, snapshot, seen, transitions);
      engine.MarkFailed(transitions);
      var signature := SignatureOf(engine.Value());
      var event := Event(0, RetainedError, transitions, [ErrorTransition], signature, skippedSinceLast);
      var failure := journal.AppendEvent(event, io);
      if failure.Some? {
        engine.RestoreState(snapshot);
        EnterPause(failure.value);
        return;
      }
      ConsumeSkippedSinceLast(event.skipped);
    }

    /** A worker request failed: every source is reported failed, then restart or pause. */
    method RecordingFailure(io: Io, respawned: bool)
      requires Valid()
      modifies this, engine, journal
      ensures Valid()
      ensures View() == Next(engine.cfg, engine.mode, old(View()), WorkerDown(io, respawned))
    {
      NextKeepsInv(engine.cfg, engine.mode, engine.ids, View(), WorkerDown(io, respawned));
      if !recording {
        return;
      }
      FailWorker(io, respawned);
    }

    method FailWorker(io: Io, respawned: bool)
      requires engine.Valid()
      requires EngineInv(engine.cfg, engine.mode, engine.ids, engine.Value(), seen)
      modifies this, engine, journal
      ensures engine.Valid()
      ensures View() == AfterWorkerFailure(engine.mode, old(View()), io, respawned)
    {
      hide Balanced, Remembers, AllBacked, Discarded, JournalFailure;
      recordingFailures := recordingFailures + 1;
      DiscardKeeps(engine.cfg, engine.mode, engine.ids, engine.Value(), seen);
      engine.DiscardAllCandidates();
      JournalFailureEvent(io);
      if recordingFailures >= FAILURE_STREAK_LIMIT {
        EnterPause(WorkerFailureStreak);
      } else if !respawned {
        recordingFailures := recordingFailures + 1;
        EnterPause(WorkerFailureStreak);
      }
    }
  }
}
