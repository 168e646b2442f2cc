/** The session's states and legal actions (src/screen2xyz_m2/statemachine.py). */
module SessionMachine {
  import opened Common

  datatype Phase = Idle | TargetSelected | RegionsConfigured | Armed | Recording | Paused | Stopping | Finalized

  datatype Action =
    | SelectTarget | EditSources | RegionSnapshot | SaveProfile | LoadProfile | Preview | ConfirmPreview
    | StartRecording | PauseRecording | ResumeRecording | Reconfigure | StopRecording | EmergencyStop | Export
    | RetryWorker | Close

  datatype Session = Session(phase: Phase, blocked: bool, confirmed: Option<nat>, revision: nat)

  /** The table of states in which each action is legal. */
  function LegalIn(a: Action): set<Phase> {
    match a
    case SelectTarget => {Idle, TargetSelected, RegionsConfigured, Armed, Paused, Finalized}
    case EditSources => {TargetSelected, RegionsConfigured, Armed}
    case RegionSnapshot => {TargetSelected, RegionsConfigured}
    case SaveProfile => {Idle, TargetSelected, RegionsConfigured, Armed, Finalized}
    case LoadProfile => {Idle, TargetSelected, RegionsConfigured, Armed, Finalized}
    case Preview => {RegionsConfigured}
    case ConfirmPreview => {RegionsConfigured}
    case StartRecording => {Armed}
    case PauseRecording => {Recording}
    case ResumeRecording => {Paused}
    case Reconfigure => {Armed, Paused}
    case StopRecording => {Armed, Recording, Paused}
    case EmergencyStop => {Armed, Recording, Paused}
    case Export => {Finalized}
    case RetryWorker => {TargetSelected, RegionsConfigured, Armed}
    case Close => {Idle, TargetSelected, RegionsConfigured, Armed, Recording, Paused, Stopping, Finalized}
  }

  predicate WorkerDependent(a: Action) { a in {RegionSnapshot, Preview, ConfirmPreview, StartRecording} }

  predicate Legal(s: Session, a: Action) {
    && s.phase in LegalIn(a)
    && !(s.blocked && WorkerDependent(a))
    && (a.RetryWorker? ==> s.blocked)
  }

  /** The methods that change the machine, and the controller's latch on the setup worker. */
  datatype Call =
    | CallSelectTarget | CallSourcesConfigured | CallConfirmPreview | CallStartRecording | CallPause | CallResume
    | CallReconfigure | CallStop | CallFinalized | SetBlocked(blocked: bool)

  function Bumped(s: Session, phase: Phase): Session {
    s.(phase := phase, revision := s.revision + 1, confirmed := None)
  }

  /** None stands for IllegalAction. */
  function Next(s: Session, c: Call): Option<Session> {
    match c
    case CallSelectTarget =>
      if !Legal(s, SelectTarget) then None
      else Some(Bumped(s, if s.phase in {Armed, Paused, Idle, Finalized} then TargetSelected else s.phase))
    case CallSourcesConfigured =>
      if !Legal(s, EditSources) then None
      else Some(Bumped(s, if s.phase in {Armed, TargetSelected} then RegionsConfigured else s.phase))
    case CallConfirmPreview =>
      if !Legal(s, ConfirmPreview) then None else Some(s.(confirmed := Some(s.revision), phase := Armed))
    case CallStartRecording =>
      if !Legal(s, StartRecording) || s.confirmed != Some(s.revision) then None else Some(s.(phase := Recording))
    case CallPause => if !Legal(s, PauseRecording) then None else Some(s.(phase := Paused))
    case CallResume => if !Legal(s, ResumeRecording) then None else Some(s.(phase := Recording))
    case CallReconfigure => if !Legal(s, Reconfigure) then None else Some(Bumped(s, RegionsConfigured))
    case CallStop =>
      if !Legal(s, StopRecording) then None
      else Some(s.(phase := if s.phase in {Recording, Paused} then Stopping else RegionsConfigured))
    case CallFinalized => if !s.phase.Stopping? then None else Some(s.(phase := Finalized))
    case SetBlocked(blocked) => Some(s.(blocked := blocked))
  }

  function After(s: Session, c: Call): Session { if Next(s, c).Some? then Next(s, c).value else s }

  function Run(s: Session, calls: seq<Call>): Session
    decreases |calls|
  {
    if calls == [] then s else Run(After(s, calls[0]), calls[1..])
  }

  const START := Session(Idle, false, None, 0)

  /** From a confirmed preview until the configuration is opened again. */
  predicate Confirmed(s: Session) {
    s.phase in {Armed, Recording, Paused, Stopping, Finalized} ==> s.confirmed == Some(s.revision)
  }

  lemma {:induction false} RunKeepsConfirmed(s: Session, calls: seq<Call>)
    requires Confirmed(s)
    ensures Confirmed(Run(s, calls))
    decreases |calls|
  {
    if calls != [] {
      RunKeepsConfirmed(After(s, calls[0]), calls[1..]);
    }
  }

  /** Whatever is recorded was previewed with the configuration in force. */
  lemma RecordingWasPreviewed(calls: seq<Call>)
    ensures var s := Run(START, calls);
      s.phase in {Armed, Recording, Paused, Stopping, Finalized} ==> s.confirmed == Some(s.revision)
  {
    RunKeepsConfirmed(START, calls);
  }

  /** So the check for a stale preview in start_recording never fires: legality decides alone. */
  lemma StalePreviewNeverMet(calls: seq<Call>)
    ensures var s := Run(START, calls); Next(s, CallStartRecording).Some? <==> Legal(s, StartRecording)
  {
    RunKeepsConfirmed(START, calls);
    hide Run;
  }

  predicate InSession(s: Session) { s.phase in {Recording, Paused, Stopping, Finalized} }

  /** One configuration holds from the start of a recording until the session is left. */
  lemma {:induction false} OneConfigurationPerRecording(s: Session, calls: seq<Call>)
    requires InSession(s)
    requires forall k :: 0 <= k <= |calls| ==> InSession(Run(s, calls[..k]))
    ensures Run(s, calls).revision == s.revision && Run(s, calls).confirmed == s.confirmed
    decreases |calls|
  {
    if calls != [] {
      var next := After(s, calls[0]);
      assert Run(s, calls[..1]) == next by {
        assert calls[..1][1..] == [];
      }
      forall k | 0 <= k <= |calls[1..]|
        ensures InSession(Run(next, calls[1..][..k]))
      {
        assert calls[..k + 1][0] == calls[0] && calls[..k + 1][1..] == calls[1..][..k];
        assert InSession(Run(s, calls[..k + 1]));
      }
      assert InSession(next);
      OneConfigurationPerRecording(next, calls[1..]);
    }
  }

  /** The calls that change the configuration. */
  predicate Changes(c: Call) { c in {CallSelectTarget, CallSourcesConfigured, CallReconfigure} }

  predicate Past(s: Session, revision: nat) {
    s.revision > revision && (s.confirmed.Some? ==> s.confirmed.value > revision)
  }

  lemma {:induction false} StaysPast(s: Session, calls: seq<Call>, revision: nat)
    requires Past(s, revision)
    ensures Past(Run(s, calls), revision)
    ensures CallConfirmPreview !in calls && s.phase in {Idle, TargetSelected, RegionsConfigured} ==>
      Run(s, calls).phase in {Idle, TargetSelected, RegionsConfigured}
    decreases |calls|
  {
    if calls != [] {
      assert calls[0] in calls && forall c :: c in calls[1..] ==> c in calls;
      StaysPast(After(s, calls[0]), calls[1..], revision);
    }
  }

  /**
   * A preview confirmed before a change of the configuration is never taken for a later one: whatever follows
   * the change, no revision up to the old one is current or confirmed again, and the session is armed or
   * recording again only after another confirmation.
   */
  lemma StaleConfirmationStaysStale(s: Session, change: Call, calls: seq<Call>)
    requires Changes(change) && Next(s, change).Some?
    ensures var later := Run(After(s, change), calls);
      && later.revision > s.revision
      && (later.confirmed.Some? ==> later.confirmed.value > s.revision)
      && (later.phase in {Armed, Recording, Paused, Stopping, Finalized} ==> CallConfirmPreview in calls)
  {
    hide Run;
    StaysPast(After(s, change), calls, s.revision);
  }

  // ---- state by state -----------------------------------------------------------------------------

  /** What each state offers, as the table of legal actions has it in its columns. */
  function Offered(phase: Phase): set<Action> {
    match phase
    case Idle => {SelectTarget, SaveProfile, LoadProfile, Close}
    case TargetSelected => {SelectTarget, EditSources, RegionSnapshot, SaveProfile, LoadProfile, RetryWorker, Close}
    case RegionsConfigured =>
      {SelectTarget, EditSources, RegionSnapshot, SaveProfile, LoadProfile, Preview, ConfirmPreview, RetryWorker, Close}
    case Armed =>
      {SelectTarget, EditSources, SaveProfile, LoadProfile, StartRecording, RetryWorker, Reconfigure, StopRecording,
       EmergencyStop, Close}
    case Recording => {PauseRecording, StopRecording, EmergencyStop, Close}
    case Paused => {SelectTarget, ResumeRecording, Reconfigure, StopRecording, EmergencyStop, Close}
    case Stopping => {Close}
    case Finalized => {SelectTarget, SaveProfile, LoadProfile, Export, Close}
  }

  /** A blocked worker takes four actions out of the table; only then is there something to retry. */
  lemma LegalByState(s: Session, a: Action)
    ensures Legal(s, a) <==>
      && a in Offered(s.phase)
      && (a == RegionSnapshot || a == Preview || a == ConfirmPreview || a == StartRecording ==> !s.blocked)
      && (a == RetryWorker ==> s.blocked)
  {
  }

  /** Where a call leads; a refused call changes nothing. */
  predicate Leads(s: Session, c: Call, r: Session) {
    match c
    case CallSelectTarget =>
      r == Session(if s.phase == RegionsConfigured then RegionsConfigured else TargetSelected, s.blocked, None,
                   s.revision + 1)
    case CallSourcesConfigured => r == Session(RegionsConfigured, s.blocked, None, s.revision + 1)
    case CallConfirmPreview => r == Session(Armed, s.blocked, Some(s.revision), s.revision)
    case CallStartRecording => r == Session(Recording, s.blocked, s.confirmed, s.revision)
    case CallPause => r == Session(Paused, s.blocked, s.confirmed, s.revision)
    case CallResume => r == Session(Recording, s.blocked, s.confirmed, s.revision)
    case CallReconfigure => r == Session(RegionsConfigured, s.blocked, None, s.revision + 1)
    case CallStop =>
      r == Session(if s.phase == Armed then RegionsConfigured else Stopping, s.blocked, s.confirmed, s.revision)
    case CallFinalized => r == Session(Finalized, s.blocked, s.confirmed, s.revision)
    case SetBlocked(blocked) => r == Session(s.phase, blocked, s.confirmed, s.revision)
  }

  predicate Open(s: Session, c: Call) {
    match c
    case CallSelectTarget => SelectTarget in Offered(s.phase)
    case CallSourcesConfigured => EditSources in Offered(s.phase)
    case CallConfirmPreview => ConfirmPreview in Offered(s.phase) && !s.blocked
    case CallStartRecording => StartRecording in Offered(s.phase) && !s.blocked && s.confirmed == Some(s.revision)
    case CallPause => PauseRecording in Offered(s.phase)
    case CallResume => ResumeRecording in Offered(s.phase)
    case CallReconfigure => Reconfigure in Offered(s.phase)
    case CallStop => StopRecording in Offered(s.phase)
    case CallFinalized => s.phase == Stopping
    case SetBlocked(_) => true
  }

  lemma CallsByState(s: Session, c: Call)
    ensures Next(s, c).Some? <==> Open(s, c)
    ensures if Open(s, c) then Leads(s, c, After(s, c)) else After(s, c) == s
  {
  }

  lemma Onward(s: Session, c: Call, rest: seq<Call>)
    ensures Run(s, [c] + rest) == Run(After(s, c), rest)
    ensures Run(s, []) == s
  {
    assert ([c] + rest)[1..] == rest;
  }

  lemma Called(s: Session, c: Call, r: Session, rest: seq<Call>)
    requires Open(s, c) && Leads(s, c, r)
    ensures Run(s, [c] + rest) == Run(r, rest)
  {
    hide Run, After, Open;
    CallsByState(s, c);
    Onward(s, c, rest);
  }

  /** The whole way: one configuration, previewed, recorded with a pause in it, stopped and finalized. */
  lemma WholeSession()
    ensures Run(START, [CallSelectTarget, CallSourcesConfigured, CallConfirmPreview] + Recorded())
         == Session(Finalized, false, Some(2), 2)
  {
    hide Run, Recorded;
    var selected, configured := Session(TargetSelected, false, None, 1), Session(RegionsConfigured, false, None, 2);
    var armed := Session(Armed, false, Some(2), 2);
    assert [CallSelectTarget, CallSourcesConfigured, CallConfirmPreview] + Recorded()
        == [CallSelectTarget] + ([CallSourcesConfigured] + ([CallConfirmPreview] + Recorded()));
    Called(START, CallSelectTarget, selected, [CallSourcesConfigured] + ([CallConfirmPreview] + Recorded()));
    Called(selected, CallSourcesConfigured, configured, [CallConfirmPreview] + Recorded());
    Called(configured, CallConfirmPreview, armed, Recorded());
    RecordedRun(armed);
  }

  function Recorded(): seq<Call> { [CallStartRecording, CallPause, CallResume, CallStop, CallFinalized] }

  lemma RecordedRun(s: Session)
    requires s == Session(Armed, false, Some(2), 2)
    ensures Run(s, Recorded()) == s.(phase := Finalized)
  {
    hide Run;
    var end := [CallFinalized] + [];
    assert Recorded() == [CallStartRecording] + ([CallPause] + ([CallResume] + ([CallStop] + end)));
    var recording := s.(phase := Recording);
    Called(s, CallStartRecording, recording, [CallPause] + ([CallResume] + ([CallStop] + end)));
    Called(recording, CallPause, s.(phase := Paused), [CallResume] + ([CallStop] + end));
    Called(s.(phase := Paused), CallResume, recording, [CallStop] + end);
    Called(recording, CallStop, s.(phase := Stopping), end);
    Called(s.(phase := Stopping), CallFinalized, s.(phase := Finalized), []);
    Onward(s.(phase := Finalized), CallFinalized, []);
  }

  class SessionStateMachine {
    var phase: Phase
    var setupWorkerBlocked: bool
    var previewConfirmedRevision: Option<nat>
    var configurationRevision: nat

    function Current(): Session
      reads this
    {
      Session(phase, setupWorkerBlocked, previewConfirmedRevision, configurationRevision)
    }

    constructor ()
      ensures Current() == START
    {
      phase, setupWorkerBlocked, previewConfirmedRevision, configurationRevision := Idle, false, None, 0;
    }

    method IsLegal(action: Action) returns (legal: bool)
      ensures legal == Legal(Current(), action)
    {
      if phase !in LegalIn(action) {
        return false;
      }
      if setupWorkerBlocked && WorkerDependent(action) {
        return false;
      }
      if action == RetryWorker && !setupWorkerBlocked {
        return false;
      }
      return true;
    }

    method BumpRevision()
      modifies this
      ensures Current() == Bumped(old(Current()), old(phase))
    {
      configurationRevision := configurationRevision + 1;
      previewConfirmedRevision := None;
    }

    method SelectTarget() returns (ok: bool)
      modifies this
      ensures ok == Next(old(Current()), CallSelectTarget).Some?
      ensures Current() == After(old(Current()), CallSelectTarget)
    {
      ok := IsLegal(Action.SelectTarget);
      if ok {
        if phase in {Armed, Paused} {
          phase := TargetSelected;
        } else if phase in {Idle, Finalized} {
          phase := TargetSelected;
        }
        BumpRevision();
      }
    }

    method SourcesConfigured() returns (ok: bool)
      modifies this
      ensures ok == Next(old(Current()), CallSourcesConfigured).Some?
      ensures Current() == After(old(Current()), CallSourcesConfigured)
    {
      ok := IsLegal(EditSources);
      if ok {
        if phase in {Armed, TargetSelected} {
          phase := RegionsConfigured;
        }
        BumpRevision();
      }
    }

    method ConfirmPreview() returns (ok: bool)
      modifies this
      ensures ok == Next(old(Current()), CallConfirmPreview).Some?
      ensures Current() == After(old(Current()), CallConfirmPreview)
    {
      ok := IsLegal(Action.ConfirmPreview);
      if ok {
        previewConfirmedRevision := Some(configurationRevision);
        phase := Armed;
      }
    }

    method StartRecording() returns (ok: bool)
      modifies this
      ensures ok == Next(old(Current()), CallStartRecording).Some?
      ensures Current() == After(old(Current()), CallStartRecording)
    {
      ok := IsLegal(Action.StartRecording);
      if ok && previewConfirmedRevision != Some(configurationRevision) {
        return false;
      }
      if ok {
        phase := Recording;
      }
    }

    method Pause() returns (ok: bool)
      modifies this
      ensures ok == Next(old(Current()), CallPause).Some? && Current() == After(old(Current()), CallPause)
    {
      ok := IsLegal(PauseRecording);
      if ok {
        phase := Paused;
      }
    }

    method Resume() returns (ok: bool)
      modifies this
      ensures ok == Next(old(Current()), CallResume).Some? && Current() == After(old(Current()), CallResume)
    {
      ok := IsLegal(ResumeRecording);
      if ok {
        phase := Recording;
      }
    }

    method ReconfigureSources() returns (ok: bool)
      modifies this
      ensures ok == Next(old(Current()), CallReconfigure).Some? && Current() == After(old(Current()), CallReconfigure)
    {
      ok := IsLegal(Reconfigure);
      if ok {
        phase := RegionsConfigured;
        BumpRevision();
      }
    }

    method Stop() returns (ok: bool)
      modifies this
      ensures ok == Next(old(Current()), CallStop).Some? && Current() == After(old(Current()), CallStop)
    {
      ok := IsLegal(StopRecording);
      if ok {
        phase := if phase in {Recording, Paused} then Stopping else RegionsConfigured;
      }
    }

    method Finalize() returns (ok: bool)
      modifies this
      ensures ok == Next(old(Current()), CallFinalized).Some? && Current() == After(old(Current()), CallFinalized)
    {
      ok := phase == Stopping;
      if ok {
        phase := Finalized;
      }
    }
  }
}
