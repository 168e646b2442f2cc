# Screen2XYZ: a verified model

Screen2XYZ reads numbers off a screen and points off a plan sheet, and keeps a record of both that can be
trusted later. This project models the parts of it where that trust is decided, in Dafny 4.11, and proves what
they promise. `dafny verify dfyconfig.toml` checks all of it.

Three groups of modules stand beside the program's own structure.

**Live recording** (`screen2xyz_m2`). `Stability` says what one reading does to one source, what a whole tick
does, and which event is retained; `LiveEngine.StabilityEngine` is the engine itself, updating its fields in
place. `SettledValues` proves which readings change a value and which are held back. `Recording` joins engine,
journal, skip counter and pause state into one state machine, `FramePauses` says which frames pause it,
`Controller` carries its steps out on objects, and `RecordingLaws`, `RetryLaws`, `WorkerFailures` and
`EarnedValues` prove what its runs keep and what a refused event or a dead worker comes to. `Scheduler`
interleaves the scheduler thread with the ticks it starts. `Framing` is the reader thread on the worker's output,
`JournalFile` the reader of a journal cut off or damaged anywhere, on top of `JsonText` and `Utf8`. `Coordinates`
and `Separators` are the two parsing rules that must refuse rather than guess, with `CoordinatesLaws` and
`CoordinatesGrammar` on what each text gives, and `SessionMachine` is the table of legal actions.

**Civil review** (`screen2xyz_civil`). `CivilActions` says what each estimator action does to a project,
`CivilWorkflow.Workflow` performs the actions in place, nested ones included, behind one undoable wrapper.
`CivilLaws` proves what every action keeps, `CivilEffects` what each one does to the rows, `CivilTimeline` what
undo, redo, failures and exports do over whole sessions. `CivilModel`, `PointIds` and `Transform` hold the
project, its snapshots, its fresh ids and its coordinates.

**Plane geometry and lists**. `Polygon`, `Segments` and `Interpolation` are the preliminary surface;
`SpatialIndex`, `ElevationWindow` and `Dedupe` are the index, the two-pointer window and the removal of
duplicate words; `Sorting` is stable sorting.

Python floats are reals, so rounding plays no part, and lengths are compared through their squares. Clocks,
files, the worker, OCR and JSON decoding are inputs. A loop or an object that changes in place is a method or a
class here, proved against a function; the guarantees are lemmas about that function.

Where the code does less than one might read into it, the exact condition is proved and listed below:

- A failed append puts the engine back exactly, unless the same tick also enters a pause (from the frame or a
  full disk) while candidates are pending (`RecordingLaws.FailedAppendRollsBack`). Of the refused event, the retry
  after such a pause repeats exactly the error entries and the transitions of sources that need one reading and no
  debounce; without any of them it is lost, unless every tick is retained, and so it is when a crop that comes
  again does not fit the buffer (`RetryLaws.RetryAfterPauseExactly`, with a case in `RetryLaws.LostConfirmation`).
- After an exact rollback the retry repeats the event, but it names further sources if and only if a debounce has
  run out for them in between (`RetryLaws.FailedEventIsRetainedOnRetry`, with a case in
  `RetryLaws.RetryCanNameMore`).
- The streaks that pause a recording are not reset when it is resumed, so one more such frame pauses it again
  (`FramePauses.StreakOutlivesPause`, with a case in `FramePauses.FifthAndSixthPause`).
- Undo, redo and rollback are exact as long as no point is moved to a negative pixel, which `edit_point`
  accepts on a page without a crop and loading refuses (`CivilTimeline.LoadableUnlessOffPage`,
  `CivilTimeline.FailedActionRollsBack`, `CivilTimeline.OffPageMoveIsLost`).
- An export of selected points clears the stale mark although other approved points were not written, if and only
  if the selection leaves one of them out (`CivilTimeline.PartialExportLooksFresh`, with a case in
  `CivilTimeline.PartialExportHappens`).
- A misread degree sign is never taken for another value in a full reading with one or two minute digits. With
  k >= 3 of them it is, if and only if the digits stand together, the hemisphere is given, the degrees D are not
  zero, D * 10^(k-2) with the same minutes and seconds is still on the axis, and not at the same time the minutes
  are below 10 and D * 10^(k-1) on the axis too (`CoordinatesLaws.MisreadSignWrongExactly`, with a case in
  `CoordinatesLaws.LongMinutesGoWrong`). For degrees alone it is, exactly when whole, non-zero degrees times ten
  stay on the axis (`CoordinatesLaws.DegreesOnlyWrongExactly`, with a case in
  `CoordinatesLaws.MisreadDegreesGoWrong`).
- `CrossTransversally` and the crossing test differ exactly at endpoints within 1e-10 of each other
  (`Segments.IntersectMeansCrossing`).
- The check for a stale preview in `start_recording` can never fire (`SessionMachine.StalePreviewNeverMet`),
  and neither can the check that new point numbers are distinct (`CivilLaws.NumbersAreDistinct`), nor the floor
  at zero of the skip counter (`Scheduler.ConsumingNeverClamps`).

## Model

| member | source | states |
|---|---|---|
| StabilityLaws.FoldIsPointwise | src/screen2xyz_m2/stability.py:135-232 | the sequential loop over a tick acts on each observed source alone, from its state before the tick, and leaves the others untouched |
| StabilityLaws.NoSilentChange | src/screen2xyz_m2/stability.py:187-291 | in every retention mode a tick without an event leaves value and kind of every seeded source unchanged, and the remembered value before an error survives |
| StabilityLaws.EventsNameTransitions | src/screen2xyz_m2/stability.py:234-291 | every source an event names was observed in that tick and really entered an error, recovered or changed value |
| StabilityLaws.FoldStaysBalanced | src/screen2xyz_m2/stability.py:295-315 | the evidence byte count is the summed size of the pending candidates' crops and at most 64 MiB, after any part of a tick |
| StabilityLaws.ConfirmationIsEarned | src/screen2xyz_m2/stability.py:135-217 | a new stable value, and the return from an error to any value, was the last OK reading at least `confirmations` times in a row, the first at least `debounce` old |
| SettledValues.EqualReadingsSettle | src/screen2xyz_m2/stability.py:82-90 | the converse: from any state, enough equal OK readings spanning the debounce make their value stable, unless the source has a value, no error, and both are numbers less than the threshold apart; then its value stays |
| SettledValues.ChangeIsRetainedExactly | src/screen2xyz_m2/stability.py:135-217 | an OK reading of a settled source is named in the event if and only if it differs, is no number within the threshold, and completes its run; evidence and crop are those of the run's first reading |
| SettledValues.OkReadingExactly | src/screen2xyz_m2/stability.py:135-217 | what an OK reading does to any source, by run length, age and distance from the stable number |
| SettledValues.OtherReadingExactly | src/screen2xyz_m2/stability.py:219-256 | what a reading that is not OK does: two statuses change nothing, any other enters an error once |
| SettledValues.SeedingIsNoEvent | src/screen2xyz_m2/stability.py:187-217 | the first value of a source is no event, its first error is one |
| SettledValues.ReasonsExactly | src/screen2xyz_m2/stability.py:258-291 | each reason code appears if and only if its transition was made and the mode retains it, and evidence is kept exactly with an event |
| SettledValues.RefusedExactly | src/screen2xyz_m2/stability.py:295-311 | a crop is refused if and only if it is larger than 8 MiB or does not fit 64 MiB beside what the other sources hold |
| RetryLaws.RetryRetainsAgain | src/screen2xyz_m2/stability.py:118-291 | the same observations presented again name what they named before and the sources that have ripened into the event since; status and named sources are equal if and only if there are none |
| RetryLaws.RetryAfterDiscard | src/screen2xyz_m2/stability.py:187-315 | with the candidates discarded in between, exactly the named transitions that need no candidate of several readings or a debounce happen again |
| LiveEngine.StabilityEngine.ProcessTick | src/screen2xyz_m2/stability.py:118-291 | the in-place loop ends in the engine and the decision that fold and retention precedence prescribe, or reports the buffer overflow |
| LiveEngine.StabilityEngine.ObserveSource | src/screen2xyz_m2/stability.py:135-232 | one observation changes one source's state and the byte count as specified, and overflows exactly when the crop does not fit |
| LiveEngine.StabilityEngine.OwnCrop | src/screen2xyz_m2/stability.py:295-303 | a crop is owned exactly when it is at most 8 MiB and the total stays within 64 MiB |
| LiveEngine.StabilityEngine.ReleaseCandidate | src/screen2xyz_m2/stability.py:305-311 | the candidate goes and its crop's size with it |
| LiveEngine.StabilityEngine.DiscardAllCandidates | src/screen2xyz_m2/stability.py:313-315 | all candidates go, nothing else changes, and no evidence bytes remain |
| LiveEngine.StabilityEngine.RestoreState | src/screen2xyz_m2/stability.py:102-116 | the engine is the snapshot again |
| Recording.NextKeepsInv | src/screen2xyz_m2/controller.py:583-718 | every step of a session keeps the whole invariant, and a step that journals nothing moves no seeded source |
| RecordingLaws.EveryRunIsConsistent | src/screen2xyz_m2/journal.py:106-172 | after any run event numbers are 1..n, the last journaled signature is still true, skips are journaled or pending, and evidence bytes balance |
| RecordingLaws.JournalOnlyGrows | src/screen2xyz_m2/journal.py:147-169 | no run rewrites or drops a journaled event |
| RecordingLaws.QuietRunMovesNothing | src/screen2xyz_m2/controller.py:503-519 | a whole run that journals nothing leaves every seeded value as it was, direct error writes included |
| RecordingLaws.FailedAppendRollsBack | src/screen2xyz_m2/controller.py:693-718 | a failed append journals nothing, consumes no skip and leaves the engine exactly as before if and only if no further pause follows in the tick or nothing was pending |
| RecordingLaws.ResumedExactly | src/screen2xyz_m2/controller.py:930-955 | which pauses the operator can resume from, and what resuming leaves alone |
| RecordingLaws.PausedByHand | src/screen2xyz_m2/controller.py:915-928 | pausing by hand keeps candidates, journal and skips |
| RecordingLaws.SessionStarts | src/screen2xyz_m2/controller.py:351-370 | a session starts recording, with nothing journaled, skipped or failed |
| WorkerFailures.WorkerFailureExactly | src/screen2xyz_m2/controller.py:448-549 | a failed request discards all candidates, reports exactly the sources not reported yet in one event, counts, and goes on if and only if a new worker started, it was no third failure and the journal took the event |
| WorkerFailures.ThirdFailurePauses | src/screen2xyz_m2/controller.py:463-478 | from any state, three failures in a row leave no recording |
| WorkerFailures.AppendExactly | src/screen2xyz_m2/journal.py:106-172 | an append is refused from 500 MiB on or by a fault, and which bytes count in each case |
| WorkerFailures.DiskStaysBounded | src/screen2xyz_m2/journal.py:114-115 | no run fills more than 500 MiB and the bytes of one more event |
| WorkerFailures.FullDiskStops | src/screen2xyz_m2/controller.py:720-745 | a captured frame leaves no recording on a full disk |
| RetryLaws.FailedEventIsRetainedOnRetry | src/screen2xyz_m2/controller.py:693-718 | after an exact rollback the same frame journals the event with its skip count; it is the same event if and only if nothing ripened into it in between |
| RetryLaws.RetryAfterPauseExactly | src/screen2xyz_m2/controller.py:693-718 | when the failing tick also pauses, for whatever reason, the retry after resuming or starting again journals exactly the surviving transitions, and nothing if and only if none survives in a mode other than every-tick or a crop does not fit |
| RetryLaws.OverflowExactly | src/screen2xyz_m2/stability.py:295-303 | without pending candidates the buffer refuses a frame if and only if a crop that opens a candidate is too large by itself or with those kept before it |
| RetryLaws.CandidatesAreSeenBy | src/screen2xyz_m2/stability.py:187-232 | after any run with a clock that does not go back, no candidate was first seen later than now |
| RetryLaws.LostConfirmation | src/screen2xyz_m2/controller.py:632-638 | a blank-frame streak on a frame that is still read: a session in which the confirmed change is lost that way |
| RetryLaws.RetryCanNameMore | src/screen2xyz_m2/stability.py:196-217 | a session in which a debounce runs out before the retry, which then names more |
| FramePauses.PausesExactly | src/screen2xyz_m2/controller.py:603-678 | over any history of frames, which pause a frame calls for: each streak in terms of the frames since the last that ends it |
| FramePauses.CountersCountStreaks | src/screen2xyz_m2/controller.py:603-678 | the four counters are the lengths of those streaks, whatever pauses lie in between |
| FramePauses.StreakOutlivesPause | src/screen2xyz_m2/controller.py:608-612 | after a streak has paused the recording, one more such frame pauses it again |
| FramePauses.FifthAndSixthPause | src/screen2xyz_m2/controller.py:608-612 | a concrete history: four minimized frames do not pause, the fifth does, and the next one again |
| FramePauses.VisibleMeans | src/screen2xyz_m2/targets.py:107-126 | a window counts as visible if and only if each of its pixels lies on the screen |
| FramePauses.PauseWatch.NoteFrame | src/screen2xyz_m2/controller.py:603-678 | the in-place checks and counter updates give the specified counters and pause |
| EarnedValues.EveryStableValueWasEarned | src/screen2xyz_m2/stability.py:135-217 | over any run with failures and rollbacks, every stable value was earned by readings the session took in |
| Controller.RunJournal.AppendEvent | src/screen2xyz_m2/journal.py:106-172 | the number is committed with the line, not before; a refused append leaves events and number alone |
| Controller.RecordingController.ProcessReply | src/screen2xyz_m2/controller.py:583-718 | snapshot, process, append and roll back carry out one step of the session, with the pause the frame and the streaks call for |
| Controller.RecordingController.JournalFailureEvent | src/screen2xyz_m2/controller.py:498-549 | a dead worker marks each newly failed source, journals it, and rolls back if the journal refuses |
| Controller.RecordingController.RecordingFailure | src/screen2xyz_m2/controller.py:448-478 | a failed request discards candidates, journals the failure and restarts or pauses |
| Controller.RecordingController.EnterPause | src/screen2xyz_m2/controller.py:880-889 | a pause stops recording and discards every candidate |
| Controller.RecordingController.UserPause | src/screen2xyz_m2/controller.py:915-928 | the pause button stops recording and keeps the candidates; an unanswered request counts as a failure |
| Controller.RecordingController.UserResume | src/screen2xyz_m2/controller.py:930-955 | refused where the pause needs a new preview or target; otherwise recording goes on, or the failure is counted |
| Controller.RecordingController.StartRecording | src/screen2xyz_m2/controller.py:351-370 | starting after any pause goes on with the same journal and engine |
| Scheduler.StepKeepsInv | src/screen2xyz_m2/scheduler.py:82-112 | every atomic step of loop, ticks and drain keeps: one tick at a time, skips journaled or pending, deadlines accounted for |
| Scheduler.NeverTwoTicks | src/screen2xyz_m2/scheduler.py:104-112 | in no interleaving are two ticks in flight |
| Scheduler.DeadlinesAreConserved | src/screen2xyz_m2/scheduler.py:88-112 | ticks plus skips are the deadlines counted while running |
| Scheduler.SkipsAreConserved | src/screen2xyz_m2/controller.py:891-913 | journaled skip counts plus the pending counter are all skips, for every interleaving and every failed append |
| Scheduler.ConsumingNeverClamps | src/screen2xyz_m2/controller.py:908-913 | the subtraction never reaches below zero, so its floor is never needed |
| Scheduler.TickMovesTheCounter | src/screen2xyz_m2/controller.py:891-913 | a stored event moves the whole counter into the journal except the skips reported meanwhile; an event that is not stored moves nothing |
| Scheduler.PausedFiresNothing | src/screen2xyz_m2/scheduler.py:35-39 | from a pause on nothing is counted, started or skipped until it is resumed, in any interleaving |
| Scheduler.StoppedFiresNothing | src/screen2xyz_m2/scheduler.py:67-86 | from a stop on nothing fires any more, resumed or not |
| Scheduler.ResumedFires | src/screen2xyz_m2/scheduler.py:29-39 | a new or resumed scheduler starts a tick at its next passed deadline |
| Scheduler.TurnIsARun | src/screen2xyz_m2/scheduler.py:88-112 | one undisturbed turn of the loop is a run of those atomic steps |
| Scheduler.TickScheduler.Turn | src/screen2xyz_m2/scheduler.py:88-112 | deadlines stay on start + k * interval, exactly the passed ones are counted, and they become one tick and skips, or skips alone |
| SessionMachine.RecordingWasPreviewed | src/screen2xyz_m2/statemachine.py:68-97 | from arming to finalizing, the configuration in force is the one whose preview was confirmed |
| SessionMachine.StalePreviewNeverMet | src/screen2xyz_m2/statemachine.py:93-97 | starting succeeds exactly when it is legal; the stale-preview error is unreachable |
| SessionMachine.OneConfigurationPerRecording | src/screen2xyz_m2/statemachine.py:99-120 | one configuration revision holds from recording to finalized |
| SessionMachine.StaleConfirmationStaysStale | src/screen2xyz_m2/statemachine.py:64-97 | after a change of the configuration no revision up to the old one is ever current or confirmed again, and nothing is armed or recorded without another confirmation |
| SessionMachine.LegalByState | docs/ux/M2_LIVE_USER_FLOW_AND_WIREFRAMES.md:179-195 | the table of legal actions agrees with its columns: what each state offers, with a blocked worker and without |
| SessionMachine.CallsByState | src/screen2xyz_m2/statemachine.py:68-120 | when each call succeeds, state by state, and the whole state after it; a refused call changes nothing |
| SessionMachine.WholeSession | src/screen2xyz_m2/statemachine.py:68-120 | the whole way from a target to a finalized recording is open |
| SessionMachine.SessionStateMachine.StartRecording | src/screen2xyz_m2/statemachine.py:93-97 | the transition or the refusal of the specification |
| SessionMachine.SessionStateMachine.SelectTarget | src/screen2xyz_m2/statemachine.py:72-78 | the transition, a new revision and no confirmed preview |
| Framing.StdoutReader.ReadStdout | src/screen2xyz_m2/worker.py:188-230 | for every way of cutting the stream into chunks the queue and the complaints are those of the whole stream, and the buffer never exceeds the cap plus one chunk |
| Framing.FramingRoundTrip | src/screen2xyz_m2/worker.py:188-230 | written lines come back as their messages, in order, then the end marker |
| Framing.BadLineStopsTheStream | src/screen2xyz_m2/worker.py:200-226 | an over-long or malformed line ends the stream after the messages before it |
| JournalFile.ReadJournal | src/screen2xyz_m2/journal.py:319-355 | the loop over lines computes the specified events, warnings or error |
| JournalFile.TruncatedJournal | src/screen2xyz_m2/journal.py:319-355 | cut anywhere, and with either line ending, a journal reads without error as exactly the events whose lines survive, with the partial-line warning exactly when bytes of a further line remain |
| JournalFile.ReadWholeLinesAndTail | src/screen2xyz_m2/journal.py:330-355 | what reading gives for whole lines followed by any unterminated rest |
| JournalFile.BadLineIsNamed | src/screen2xyz_m2/journal.py:337-353 | a damaged or misnumbered line with a newline behind it is an error with its line number, whatever follows |
| JournalFile.FaithfulCodecExists | src/screen2xyz_m2/journal.py:147-150 | what is asked of an encoder and decoder can be met |
| JsonText.DumpedObject | src/screen2xyz_m2/journal.py:147-150 | an encoded object holds no newline and none of its proper prefixes is closed |
| JsonText.KnownEscapes | src/screen2xyz_m2/journal.py:147-150 | each escaped character, byte for byte |
| JsonText.KnownText | src/screen2xyz_m2/journal.py:147-150 | an object with a list of the three literals, byte for byte |
| Utf8.DecodeEncode | src/screen2xyz_m2/parsing.py:47-64 | decoding undoes encoding |
| Utf8.KnownCharacters | src/screen2xyz_m2/parsing.py:47-64 | a character of each length, encoded byte for byte |
| Utf8.BoundRaw | src/screen2xyz_m2/parsing.py:47-64 | the kept text is the longest prefix of whole characters within the bound, with the truth about truncation and size |
| Coordinates.RecoverCorruptedDegrees | src/screen2xyz_m2/parsing.py:385-441 | the loop over the zeros recovers a value exactly when one split is possible |
| CoordinatesGrammar.EveryText | src/screen2xyz_m2/parsing.py:337-382 | every text, white space around it or not: blank, one of the written forms, which gives its worth, a digit run for a misread sign, or malformed, so leftover content is never read |
| CoordinatesGrammar.SpaceMeans | src/screen2xyz_m2/parsing.py:315-321 | white space is that of ASCII |
| CoordinatesLaws.CleanFormIsRead | src/screen2xyz_m2/parsing.py:315-374 | every reading in every layout parses to its true value, or is flagged when it is no place on the globe |
| CoordinatesLaws.ValueInSeconds | src/screen2xyz_m2/parsing.py:359-441 | in every layout, clean or recovered, 3600 times an accepted value is 3600 D + 60 M + S, negated exactly with '-' or a hemisphere in S or W |
| CoordinatesLaws.AmountMeans | src/screen2xyz_m2/parsing.py:315-335 | D, M and S are the numbers that their digits and their decimal point write |
| CoordinatesLaws.NorthernReading | src/screen2xyz_m2/parsing.py:359-441 | 49 degrees 30 minutes north is 49.5, clean and with the sign misread |
| CoordinatesLaws.SouthernReading | src/screen2xyz_m2/parsing.py:359-374 | a southern reading with seconds comes out negative, to the tenth of a second |
| CoordinatesLaws.CleanWithoutSecondsIsRead | src/screen2xyz_m2/parsing.py:315-374 | the same for degrees and minutes |
| CoordinatesLaws.CleanDegreesAreRead | src/screen2xyz_m2/parsing.py:315-374 | the same for degrees alone |
| CoordinatesLaws.PlainDegreesAreRead | src/screen2xyz_m2/parsing.py:315-374 | the same for a plain number without any mark |
| CoordinatesLaws.MisreadSignRightOrRefused | src/screen2xyz_m2/parsing.py:347-441 | with the degree sign read as 0, a reading gives its true value exactly when it is recoverable, and otherwise no value |
| CoordinatesLaws.MisreadWithoutSeconds | src/screen2xyz_m2/parsing.py:315-382 | degrees and minutes with a misread sign are always malformed |
| CoordinatesLaws.DegreesOnlyMisread | src/screen2xyz_m2/parsing.py:352-374 | what becomes of degrees alone with a misread sign, in every layout |
| CoordinatesLaws.DegreesOnlyWrongExactly | src/screen2xyz_m2/parsing.py:352-374 | a wrong value comes out if and only if whole, non-zero degrees times ten stay on the axis |
| CoordinatesLaws.MisreadDegreesGoWrong | src/screen2xyz_m2/parsing.py:352-374 | twelve degrees come out as a hundred and twenty |
| CoordinatesLaws.AcceptedIsOnTheAxis | src/screen2xyz_m2/parsing.py:359-374 | whatever the text, an accepted value lies within 90 or 180 degrees, by its hemisphere |
| CoordinatesLaws.MisreadLongMinutes | src/screen2xyz_m2/parsing.py:385-441 | the exact outcome for three minute digits or more: all but the last two are read into the degrees, or the reading is refused |
| CoordinatesLaws.MisreadSignWrongExactly | src/screen2xyz_m2/parsing.py:385-441 | in any layout a place on the globe with its degree sign read as 0 comes out as another place if and only if the digits stand together, the hemisphere is given, and the lengthened degrees are not zero, stay on the axis and have no second reading |
| CoordinatesLaws.LongMinutesGoWrong | src/screen2xyz_m2/parsing.py:418-434 | a concrete reading for which that happens |
| Separators.AutoRefusesExactly | src/screen2xyz_m2/parsing.py:116-141 | automatic mode refuses a readable token exactly when it is one to three digits, a mark and three digits |
| Separators.GroupsAreRead | src/screen2xyz_m2/parsing.py:116-141 | groups of three digits in any number are read as one number in the modes that know the mark |
| Separators.PlainIsRead | src/screen2xyz_m2/parsing.py:116-141 | a number without groups keeps its digits, with a point for its mark |
| Separators.SignIsKept | src/screen2xyz_m2/parsing.py:116-141 | a token with a sign is read if and only if it is without, to the same digits behind the sign |
| Transform.PixelRoundTrip | src/screen2xyz_civil/transform.py:108-147 | to_pixel undoes to_local |
| Transform.LocalRoundTrip | src/screen2xyz_civil/transform.py:108-147 | to_local undoes to_pixel |
| Transform.DistancesScale | src/screen2xyz_civil/transform.py:108-124 | local distances are page distances times the scale |
| Transform.KnownDistanceReproduced | src/screen2xyz_civil/transform.py:64-105 | on the calibrated page the scale points lie the known distance apart |
| Transform.EastPointsEast | src/screen2xyz_civil/transform.py:27-34 | the origin lands on its coordinates and the East reference due east of it |
| Transform.OrientationKept | src/screen2xyz_civil/transform.py:108-124 | for any three pixels the cross product on the ground is minus the squared scale times the one on the page, so nothing is mirrored |
| Transform.QuarterTurnPointsNorth | src/screen2xyz_civil/transform.py:26-34 | the East reference turned counter-clockwise by a quarter lies due north, as far as it lies east |
| Transform.SurveyRefusedExactly | src/screen2xyz_civil/transform.py:15-105 | a survey is refused if and only if a distance in it is not positive or its check is incomplete |
| Transform.CheckMeasures | src/screen2xyz_civil/transform.py:36-57 | the scale check holds the second distance as measured at the new scale and its error in per cent |
| PointIds.NextPointId | src/screen2xyz_civil/workflow.py:1042-1048 | the loop finds the largest number in use |
| PointIds.NextIdIsFresh | src/screen2xyz_civil/workflow.py:1042-1048 | the next id is well formed and no point has it, however ids are written |
| PointIds.NextIdIsOneMore | src/screen2xyz_civil/workflow.py:1042-1048 | its number is one more than the largest number written in any id |
| CivilModel.LoadingRefusedExactly | src/screen2xyz_civil/models.py:453-545 | a saved project is refused if and only if its range is empty, its crop or a calibration is impossible, a point lies off the page or is misnamed, or an id is there twice |
| CivilModel.ApprovedMembers | src/screen2xyz_civil/exports.py:54-65 | exactly the approved, terrain-typed, located points are exported |
| CivilModel.ApprovedIgnoresOrder | src/screen2xyz_civil/exports.py:54-65 | the exported list does not depend on the order of the cart |
| CivilEffects.ExportedExactly | src/screen2xyz_civil/exports.py:54-65 | the exported rows in terms of status, kind and coordinates |
| CivilEffects.ExportedInOrder | src/screen2xyz_civil/exports.py:54-65 | they are listed by number, those without one by id, in dictionary order, and equal numbers by id |
| CivilLaws.ActionKeeps | src/screen2xyz_civil/workflow.py:118-932 | every action that succeeds, nested ones included, keeps coordinates, approvals, revisions, unique ids and export freshness |
| CivilLaws.CalibrateKeeps | src/screen2xyz_civil/workflow.py:155-209 | a calibration recomputes every point and continues the revision count |
| CivilLaws.SortingIsHarmless | src/screen2xyz_civil/workflow.py:915-932 | sorting the cart orders it by the key, keeps the same points and the same exported list |
| CivilLaws.SinglePointEffects | src/screen2xyz_civil/workflow.py:648-792 | approve, reject, mark and edit change the one named row, to the status they promise |
| CivilEffects.DeleteEffect | src/screen2xyz_civil/workflow.py:812-836 | a successful deletion takes out that one row; every other row is unchanged and in its old order |
| CivilEffects.EditEffect | src/screen2xyz_civil/workflow.py:648-739 | an edit goes through exactly when allowed and sets each of the eight fields of its row to what was given, or leaves it |
| CivilEffects.AddManualEffect | src/screen2xyz_civil/workflow.py:243-301 | an added point is the last row, with the given fields and local coordinates; the other rows stay |
| CivilEffects.AddCandidateEffect | src/screen2xyz_civil/workflow.py:511-535 | a candidate is added with its own fields, or refused for its id or its values |
| CivilEffects.IngestEffect | src/screen2xyz_civil/workflow.py:537-624 | the usable candidates inside the crop follow the old rows, in the order they were found |
| CivilEffects.ApproveEffect | src/screen2xyz_civil/workflow.py:742-766 | what approving a point needs and what it changes |
| CivilEffects.RejectEffect | src/screen2xyz_civil/workflow.py:768-783 | what rejecting a point changes |
| CivilEffects.MarkEffect | src/screen2xyz_civil/workflow.py:785-792 | what marking a point for review changes |
| CivilEffects.MergeEffect | src/screen2xyz_civil/workflow.py:794-810 | merging rejects the one point and leaves the other, exactly when both lie close together |
| CivilEffects.BulkDescribeEffect | src/screen2xyz_civil/workflow.py:850-867 | exactly the listed points get the description, unless one of them cannot |
| CivilEffects.RenumberEffect | src/screen2xyz_civil/workflow.py:869-913 | each listed point gets the number of its last mention, prefix and padding included; nothing else changes |
| CivilEffects.SortEffect | src/screen2xyz_civil/workflow.py:915-932 | the sorted cart is a rearrangement, in the order of the key spelled out by names and values |
| CivilEffects.CalibrateEffect | src/screen2xyz_civil/workflow.py:155-209 | every point keeps its pixel and gets the coordinates of the new calibration |
| CivilEffects.VerifyScaleEffect | src/screen2xyz_civil/workflow.py:212-241 | a new scale check replaces the old one, exactly with a calibration and a positive distance |
| CivilEffects.SetCropEffect | src/screen2xyz_civil/workflow.py:118-128 | a crop is refused exactly where it leaves a page of known size |
| CivilEffects.SetRangeEffect | src/screen2xyz_civil/workflow.py:130-153 | a plausible range is refused exactly when it is empty |
| CivilEffects.UnknownIdRefused | src/screen2xyz_civil/workflow.py:648-848 | no action on a point succeeds for an id that is not there |
| CivilLaws.BulkApprovalExactly | src/screen2xyz_civil/workflow.py:838-848 | bulk approval goes through exactly when every listed point can be approved on its own |
| CivilLaws.BulkApprovalEffect | src/screen2xyz_civil/workflow.py:838-848 | afterwards exactly the listed points have changed and all of them are approved |
| CivilEffects.BulkApproveEffect | src/screen2xyz_civil/workflow.py:838-848 | the same in terms of single approvals |
| CivilLaws.NumbersAreDistinct | src/screen2xyz_civil/workflow.py:892-901 | new point numbers never collide with each other |
| CivilTimeline.ExportHandoff | src/screen2xyz_civil/exports.py:99-134 | history and stale mark change together on success and not at all on failure |
| CivilTimeline.ExportExactly | src/screen2xyz_civil/exports.py:99-182 | when an export is made, and that its rows are exactly the selected exportable points in the order of the approved list |
| CivilTimeline.RunKeepsInv | src/screen2xyz_civil/workflow.py:74-96 | after any run of actions, undos, redos and exports the project and every snapshot on both stacks are coherent and fresh |
| CivilTimeline.SessionIsCoherent | src/screen2xyz_civil/workflow.py:155-209 | the coherence of every reachable project, spelled out from a new project on |
| CivilTimeline.ExportsStayFresh | src/screen2xyz_civil/exports.py:307-319 | unless exports are marked stale, the approved points are those of the latest export in the history |
| CivilTimeline.PartialExportLooksFresh | src/screen2xyz_civil/exports.py:159-182 | an export of a selection clears the mark, yet shows the whole list only if every approved point was selected |
| CivilTimeline.PartialExportHappens | src/screen2xyz_civil/exports.py:159-182 | two approved points, one selected: the export is fresh and shows one |
| CivilTimeline.StepMovesCursor | src/screen2xyz_civil/workflow.py:934-965 | the two stacks behave as one timeline with a cursor: commit, abandon, back, forth |
| CivilTimeline.RunMovesCursor | src/screen2xyz_civil/workflow.py:934-965 | the same over whole runs: the workflow refines the cursor machine |
| CivilTimeline.UndoRedoIsIdentity | src/screen2xyz_civil/workflow.py:934-953 | undo;redo and redo;undo change nothing but the log and the time stamp |
| CivilTimeline.UndosReverseActions | src/screen2xyz_civil/workflow.py:74-96 | k undos reverse k successful actions, whatever failed in between, and k redos bring them back |
| CivilTimeline.FailedActionRollsBack | src/screen2xyz_civil/workflow.py:87-92 | a failed action empties redo and leaves project and undo stack exactly as before if and only if the project can be loaded |
| CivilTimeline.LoadableUnlessOffPage | src/screen2xyz_civil/models.py:220-240 | a successful action leaves a loadable project if and only if it moves no point to a negative pixel |
| CivilTimeline.OffPageMoveIsLost | src/screen2xyz_civil/workflow.py:944-953 | undoing and redoing such a move loses it |
| CivilTimeline.OffPageMoveHappens | src/screen2xyz_civil/workflow.py:682-691 | a concrete project and move for which that happens |
| CivilWorkflow.Workflow.Perform | src/screen2xyz_civil/workflow.py:74-96 | the wrapper takes one snapshot for the outermost action and none for nested ones, and rolls back on failure |
| CivilWorkflow.Workflow.Undo | src/screen2xyz_civil/workflow.py:934-942 | one step back, or the error with the stacks already changed |
| CivilWorkflow.Workflow.Redo | src/screen2xyz_civil/workflow.py:944-953 | one step forth, or the error with the stacks already changed |
| CivilWorkflow.Workflow.Body | src/screen2xyz_civil/workflow.py:118-932 | each action changes the project in place as specified and leaves the stacks and the depth alone |
| CivilWorkflow.Workflow.ApplyCalibration | src/screen2xyz_civil/workflow.py:155-209 | the loop over the points recomputes each of them |
| CivilWorkflow.Workflow.EditPoint | src/screen2xyz_civil/workflow.py:648-739 | the fields change one after the other, and a refusal leaves the earlier changes to be rolled back |
| CivilWorkflow.Workflow.BulkApprove | src/screen2xyz_civil/workflow.py:838-848 | nested approvals, stopped by the first that raises |
| CivilWorkflow.Workflow.IngestTextCandidates | src/screen2xyz_civil/workflow.py:537-624 | each usable candidate inside the crop is added under a fresh id |
| Polygon.PointInPolygon | src/screen2xyz_civil/surface.py:315-333 | the loop over the edges computes the parity of the crossings |
| Polygon.RotationInvariant | src/screen2xyz_civil/surface.py:315-333 | the answer does not depend on where the vertex list starts |
| Polygon.ReversalInvariant | src/screen2xyz_civil/detection.py:477-493 | nor on the direction in which it is listed |
| Polygon.ChordSplitsInterior | src/screen2xyz_civil/surface.py:315-333 | cutting along a chord: inside the whole is inside exactly one of the parts |
| Polygon.OutsideTheBox | src/screen2xyz_civil/surface.py:315-333 | nothing beyond the bounding box is inside |
| Polygon.TriangleInsideIsOrientation | src/screen2xyz_civil/surface.py:315-333 | for triangles parity is the orientation test |
| Polygon.InExclusionZone | src/screen2xyz_civil/detection.py:472-474 | true exactly when some zone contains the center |
| Segments.IntersectMeansCrossing | src/screen2xyz_civil/surface.py:379-393 | the test succeeds exactly on a transversal interior crossing without near-shared endpoints |
| Segments.SamePointMeans | src/screen2xyz_civil/surface.py:392-393 | points count as one within 1e-10 in each direction |
| Segments.CrossingIsUnique | src/screen2xyz_civil/surface.py:379-389 | such segments cross in one point only |
| Segments.FilterTriangles | src/screen2xyz_civil/surface.py:102-132 | the loop keeps exactly the triangles that pass all four filters, in order |
| Segments.KeptExactly | src/screen2xyz_civil/surface.py:102-132 | a triangle is kept if and only if its centroid lies inside the boundary and outside every exclusion and its sides cross no boundary, exclusion, no-cross line or breakline, crossings spelled out |
| Interpolation.SurfaceElevationAt | src/screen2xyz_civil/surface.py:416-447 | the loop returns the elevation of the first enabled triangle around the point |
| Interpolation.TriangleTestExactly | src/screen2xyz_civil/surface.py:396-413 | the test in turns alone: more than the flat area, and the three turns agree in sign up to the tolerance, whichever way round the corners are listed |
| Interpolation.MixturesAreCovered | src/screen2xyz_civil/surface.py:416-447 | every convex combination of the corners of an enabled facet of more than the flat area gets an elevation, and unless an earlier facet covers it, the same combination of the corners' elevations |
| Interpolation.ElevationIsCovered | src/screen2xyz_civil/surface.py:416-447 | an elevation comes only from an enabled facet whose turns agree at the point |
| Interpolation.ParityIsPositiveWeights | src/screen2xyz_civil/surface.py:396-413 | off the side lines, ray casting and barycentric weights agree on the inside of a triangle |
| Interpolation.PlaneExact | src/screen2xyz_civil/surface.py:416-447 | on a planar surface every elevation returned is the plane's, whichever triangle is hit |
| Interpolation.SharedSideAgrees | src/screen2xyz_civil/surface.py:430-446 | on a common side, wherever each triangle lists it and in either direction, both triangles give the same elevation |
| Interpolation.ElevationInRange | src/screen2xyz_civil/surface.py:416-447 | the result leaves its triangle's range by at most 2e-10 of the range |
| Interpolation.CoverageIsExact | src/screen2xyz_civil/surface.py:416-447 | there is no elevation exactly where no enabled triangle covers the point |
| Interpolation.CutFillPreview | src/screen2xyz_civil/surface.py:175-196 | counts, mean, minimum and maximum are those of the samples, and the errors are exact |
| Interpolation.CountsPartition | src/screen2xyz_civil/surface.py:189-192 | every sample is counted, and none twice unless it is non-zero and within the zero tolerance |
| Interpolation.PreviewCounts | src/screen2xyz_civil/surface.py:175-196 | fill counts the design vertices above the existing surface, cut those below it, zero those on it |
| Interpolation.MeanBetween | src/screen2xyz_civil/surface.py:189-195 | the mean lies between minimum and maximum |
| Interpolation.ParallelPlanes | src/screen2xyz_civil/surface.py:175-196 | planes a height k apart give minimum, mean and maximum k |
| SpatialIndex.CandidateIndex.constructor | src/screen2xyz_civil/assisted_capture.py:99-115 | every bucket holds exactly the candidates of its cell, sorted by id |
| SpatialIndex.CandidateIndex.Search | src/screen2xyz_civil/assisted_capture.py:124-148 | for every point, radius and limit, ids unique or not, the result is the first part of a ranking of all hits, each as often as given, by distance and id |
| SpatialIndex.NearestIsBruteForce | src/screen2xyz_civil/assisted_capture.py:124-148 | with unique ids that is the brute-force result and no other |
| SpatialIndex.AnswerMeans | src/screen2xyz_civil/assisted_capture.py:124-148 | in squared distances: only candidates of the disc, rim included, as many as the limit admits, in order, and none missing that is nearer |
| SpatialIndex.HitCell | src/screen2xyz_civil/assisted_capture.py:130-141 | a hit lies at most ceil(radius / size) cells away in both directions |
| ElevationWindow.DominantCenter | src/screen2xyz_civil/assisted_capture.py:464-496 | the center is the middle value, or halfway between the two middle ones, of a largest close collection of in-range values, the lowest on ties, and is missing exactly below three values |
| ElevationWindow.InRangeCounts | src/screen2xyz_civil/assisted_capture.py:464-477 | the values that take part are those that are numbers in the range, each as often as it was read |
| ElevationWindow.CloseMeans | src/screen2xyz_civil/assisted_capture.py:478-489 | close means within 20 of each other |
| ElevationWindow.DensestIsUnique | src/screen2xyz_civil/assisted_capture.py:478-489 | there is only one such collection, so the center is determined by the values |
| ElevationWindow.MedianInside | src/screen2xyz_civil/assisted_capture.py:492-496 | the median lies inside the window |
| ElevationWindow.LargestWindow | src/screen2xyz_civil/assisted_capture.py:478-489 | the two-pointer scan finds the best window |
| ElevationWindow.BestIsDensest | src/screen2xyz_civil/assisted_capture.py:478-489 | the best window beats every close sub-collection, contiguous or not |
| Dedupe.DedupeResult | src/screen2xyz_civil/ocr.py:290-324 | the two sorts and the greedy loop compute the specified result |
| Dedupe.KeptIsMaximalIndependent | src/screen2xyz_civil/ocr.py:290-324 | kept words are pairwise no duplicates, and each dropped one duplicates a kept word of at least its confidence |
| Dedupe.DuplicateMeans | src/screen2xyz_civil/ocr.py:306-338 | duplicates have the same folded text and at least 45 hundredths of the smaller box in common |
| Dedupe.RanksMeans | src/screen2xyz_civil/ocr.py:290-305 | the word of higher confidence is kept, then the upper one, then the left one |
| Dedupe.KeptInReadingOrder | src/screen2xyz_civil/ocr.py:314-324 | the result is in reading order |
| Dedupe.OverlapSymmetric | src/screen2xyz_civil/ocr.py:327-338 | the overlap ratio does not depend on the order of the boxes |
| Dedupe.OverlapMeans | src/screen2xyz_civil/ocr.py:327-338 | the ratio times the smaller area is the common area, and zero for boxes that are apart or empty |
| Dedupe.DedupeIsIdempotent | src/screen2xyz_civil/ocr.py:290-324 | a second pass changes nothing |

## Left out

- CivilTimeline.ExportsStayFresh: speaks of the list the approved points gave at the export, not of the rows written, which a selection can make fewer.
- CivilActions: all clock readings during one action are taken to be equal, and texts arrive stripped.
- CivilWorkflow: points are values inside the project, so two references to one point object are not modelled; the caller's candidate object, which the program also updates, stays as it was.
- CivilLaws.ActionKeeps: holds of the actions modelled, which are those listed for the next member.
- CivilWorkflow.Workflow.Body: assisted capture, elevation lines, boundaries, exclusions, breaklines, no-cross lines, disabled triangles and the choice of an alternative association are not among its actions; each is a further field update behind the same undoable wrapper.
- CivilWorkflow.Workflow.IngestTextCandidates: the classification of a candidate and the exclusion zones arrive as one flag, whether it is usable.
- The page label, OCR evidence and confidences of a point.
- The quality gate of an export, its writers and the rename: one flag each for success.
- The Delaunay triangulation, slopes and edge lengths of a surface; its triangles are an input.
- Retention: the age of a cached reading is an input.
- The set of sources and their settings stay as they are for the whole run, also where the operator starts it again.
- Scheduler.TickScheduler.Turn: a clock that runs ahead of every next deadline, with which the counting would not end, is left out.
- What the capture worker reports about frame and regions is an input; a frame that failed is not tied to failed readings of its regions.
- Event records carry status, named sources, reasons, signature and skip count; observations, hashes, CSV rows, checkpoints and error logs are not modelled, and named sources are sets rather than sorted lists.
- Source ids are numbers; Python's per-source state objects are values in a map, so the deep copy of a snapshot is the value itself.
- Storage failures after bytes of a line have reached the file: a torn line or a repeated number could follow, so failures happen before.
- The byte count of the journal counts characters of the line plus one, as the program does, not bytes.
- A JSON `null` from the worker reaches the queue as the end marker; read errors on the stream count as its end.
- JSON decoding is a parameter that must undo the encoder, allow a carriage return behind a text and accept only closed texts, as sections 2 and 7 of RFC 8259 require; that a journal line decodes to an object is part of it.
- White space and digits are the ASCII ones; Python also accepts others from Unicode.
- Coordinates: values are reals and the six-decimal text is a function of the value, so a negative zero is zero.
- Number and text parsing beyond the decimal and grouping marks of one token, and the automatic choice of a data type.
- The session machine covers the calls that change it; the controller's use of the worker around them is not modelled.
- Several schedulers on one controller after an emergency stop: one scheduler with one lock is modelled.
- User interface, PowerShell worker, OCR engines, PDF reading, file-system details and report text.
