/**
 * Which pause, if any, a captured frame calls for (`_process_reply` in src/screen2xyz_m2/controller.py):
 * some at once, some only at the end of a streak.  Four counters are kept from frame to frame; nothing
 * else ever touches them, not even a pause or a resume.
 */
module FramePauses {
  import opened Common
  import opened Recording

  const PAUSE_MINIMIZED_TICKS := 5
  const PAUSE_BLANK_FRAME_TICKS := 5

  datatype CaptureStatus = FrameOk | TargetUnavailable | TargetMinimized | Failed

  datatype Rect = Rect(x: int, y: int, w: int, h: int)

  /**
   * What the reply says about the frame.  `resized`: the client size or the DPI is not the recorded one;
   * `blank`: near uniform content of an existing window; `window`: the client rectangle, when the backend
   * copies from the screen and the origin is reported.
   */
  datatype Frame = Frame(status: CaptureStatus, resized: bool, blank: bool, window: Option<Rect>, screen: Rect)

  /** window_visibility: no pixel of the window lies beyond an edge of the virtual screen. */
  predicate FullyVisible(w: Rect, screen: Rect) {
    && w.x >= screen.x && w.y >= screen.y
    && w.x + w.w <= screen.x + screen.w && w.y + w.h <= screen.y + screen.h
  }

  datatype Streaks = Streaks(minimized: nat, blank: nat, offscreen: nat, failed: nat)

  const NO_STREAKS := Streaks(0, 0, 0, 0)

  /** A frame that was captured. */
  function NoteCaptured(s: Streaks, f: Frame): (Streaks, Option<PauseReason>) {
    var blank := if f.blank then s.blank + 1 else 0;
    var s1 := s.(minimized := 0, blank := blank, failed := 0);
    if f.resized then (s1, Some(DisplayInvalidated))
    else if f.blank && blank >= PAUSE_BLANK_FRAME_TICKS then (s1, Some(BackendBlankStreak))
    else if f.window.None? then (s1, None)
    else
      var offscreen := if FullyVisible(f.window.value, f.screen) then 0 else s.offscreen + 1;
      (s1.(offscreen := offscreen), if offscreen >= PAUSE_BLANK_FRAME_TICKS then Some(DisplayInvalidated) else None)
  }

  function Note(s: Streaks, f: Frame): (Streaks, Option<PauseReason>) {
    match f.status
    case TargetUnavailable => (s, Some(PauseTargetUnavailable))
    case TargetMinimized =>
      var n := s.minimized + 1;
      (s.(minimized := n), if n >= PAUSE_MINIMIZED_TICKS then Some(TargetMinimizedStreak) else None)
    case FrameOk => NoteCaptured(s, f)
    case Failed =>
      var n := s.failed + 1;
      (s.(minimized := 0, failed := n), if n >= PAUSE_BLANK_FRAME_TICKS then Some(BackendBlankStreak) else None)
  }

  /** The counters after all frames of a controller's life. */
  function Watched(frames: seq<Frame>): Streaks
    decreases |frames|
  {
    if frames == [] then NO_STREAKS else Note(Watched(frames[..|frames| - 1]), frames[|frames| - 1]).0
  }

  class PauseWatch {
    var minimizedStreak: nat
    var blankStreak: nat
    var offscreenStreak: nat
    var captureFailStreak: nat

    function Value(): Streaks
      reads this
    {
      Streaks(minimizedStreak, blankStreak, offscreenStreak, captureFailStreak)
    }

    constructor ()
      ensures Value() == NO_STREAKS
    {
      minimizedStreak, blankStreak, offscreenStreak, captureFailStreak := 0, 0, 0, 0;
    }

    method NoteFrame(f: Frame) returns (pause: Option<PauseReason>)
      modifies this
      ensures (Value(), pause) == Note(old(Value()), f)
    {
      pause := None;
      if f.status == TargetUnavailable {
        pause := Some(PauseTargetUnavailable);
      } else if f.status == TargetMinimized {
        minimizedStreak := minimizedStreak + 1;
        if minimizedStreak >= PAUSE_MINIMIZED_TICKS {
          pause := Some(TargetMinimizedStreak);
        }
      } else {
        minimizedStreak := 0;
      }
      if f.status == FrameOk {
        if f.resized {
          pause := Some(DisplayInvalidated);
        }
        if f.blank {
          blankStreak := blankStreak + 1;
          if blankStreak >= PAUSE_BLANK_FRAME_TICKS && pause.None? {
            pause := Some(BackendBlankStreak);
          }
        } else {
          blankStreak := 0;
        }
        captureFailStreak := 0;
        if pause.None? && f.window.Some? {
          if !FullyVisible(f.window.value, f.screen) {
            offscreenStreak := offscreenStreak + 1;
            if offscreenStreak >= PAUSE_BLANK_FRAME_TICKS {
              pause := Some(DisplayInvalidated);
            }
          } else {
            offscreenStreak := 0;
          }
        }
      } else if f.status !in {TargetUnavailable, TargetMinimized} {
        captureFailStreak := captureFailStreak + 1;
        if captureFailStreak >= PAUSE_BLANK_FRAME_TICKS && pause.None? {
          pause := Some(BackendBlankStreak);
        }
      }
    }
  }

  // ---- what the counters count ------------------------------------------------------------------------

  predicate IsMinimized(f: Frame) { f.status.TargetMinimized? }

  predicate EndsMinimized(f: Frame) { f.status.FrameOk? || f.status.Failed? }

  predicate IsBlank(f: Frame) { f.status.FrameOk? && f.blank }

  predicate EndsBlank(f: Frame) { f.status.FrameOk? && !f.blank }

  predicate IsFailed(f: Frame) { f.status.Failed? }

  predicate EndsFailed(f: Frame) { f.status.FrameOk? }

  /** A frame, and whether it paused the recording as a blank one, in which case its position is not looked at. */
  datatype Look = Look(frame: Frame, blankPause: bool) {
    predicate Located() { frame.status.FrameOk? && !frame.resized && !blankPause && frame.window.Some? }
  }

  /** What the last of these frames calls for. */
  function PauseAt(frames: seq<Frame>): Option<PauseReason>
    requires frames != []
  {
    Note(Watched(frames[..|frames| - 1]), frames[|frames| - 1]).1
  }

  function Looks(frames: seq<Frame>): (r: seq<Look>)
    ensures |r| == |frames|
    decreases |frames|
  {
    if frames == [] then []
    else Looks(frames[..|frames| - 1]) + [Look(frames[|frames| - 1], PauseAt(frames) == Some(BackendBlankStreak))]
  }

  predicate IsOffscreen(l: Look) { l.Located() && !FullyVisible(l.frame.window.value, l.frame.screen) }

  predicate EndsOffscreen(l: Look) { l.Located() && FullyVisible(l.frame.window.value, l.frame.screen) }

  function Count<T>(s: seq<T>, p: T -> bool): nat {
    if s == [] then 0 else (if p(s[0]) then 1 else 0) + Count(s[1..], p)
  }

  /** `n` elements with `p` since the last one, if any, that ends the streak. */
  ghost predicate Streak<T>(s: seq<T>, p: T -> bool, ends: T -> bool, n: nat) {
    exists i: nat :: StreakFrom(s, p, ends, n, i)
  }

  ghost predicate StreakFrom<T>(s: seq<T>, p: T -> bool, ends: T -> bool, n: nat, i: nat) {
    && i <= |s| && (i == 0 || ends(s[i - 1])) && (forall k :: i <= k < |s| ==> !ends(s[k]))
    && n == Count(s[i..], p)
  }

  lemma {:induction false} CountSnoc<T>(s: seq<T>, x: T, p: T -> bool)
    ensures Count(s + [x], p) == Count(s, p) + (if p(x) then 1 else 0)
  {
    if s == [] {
      assert s + [x] == [x];
    } else {
      assert (s + [x])[1..] == s[1..] + [x];
      CountSnoc(s[1..], x, p);
    }
  }

  /** One more element ends the streak, lengthens it or leaves it. */
  lemma StreakSnoc<T>(s: seq<T>, x: T, p: T -> bool, ends: T -> bool, n: nat)
    requires Streak(s, p, ends, n)
    ensures Streak(s + [x], p, ends, if ends(x) then 0 else if p(x) then n + 1 else n)
  {
    var i: nat :| StreakFrom(s, p, ends, n, i);
    var longer := s + [x];
    if ends(x) {
      assert longer[|longer|..] == [];
      assert StreakFrom(longer, p, ends, 0, |longer|);
    } else {
      assert longer[i..] == s[i..] + [x];
      CountSnoc(s[i..], x, p);
      assert StreakFrom(longer, p, ends, if p(x) then n + 1 else n, i);
    }
  }

  lemma NothingYet<T>(p: T -> bool, ends: T -> bool)
    ensures Streak([], p, ends, 0)
  {
    assert StreakFrom([], p, ends, 0, 0);
  }

  lemma StreakIsUnique<T>(s: seq<T>, p: T -> bool, ends: T -> bool, m: nat, n: nat)
    requires Streak(s, p, ends, m) && Streak(s, p, ends, n)
    ensures m == n
  {
    var i: nat :| StreakFrom(s, p, ends, m, i);
    var j: nat :| StreakFrom(s, p, ends, n, j);
  }

  /** The four counters, over any history of frames, whatever pauses and resumes lie in between. */
  lemma {:induction false} CountersCountStreaks(frames: seq<Frame>)
    ensures Streak(frames, IsMinimized, EndsMinimized, Watched(frames).minimized)
    ensures Streak(frames, IsBlank, EndsBlank, Watched(frames).blank)
    ensures Streak(frames, IsFailed, EndsFailed, Watched(frames).failed)
    ensures Streak(Looks(frames), IsOffscreen, EndsOffscreen, Watched(frames).offscreen)
    decreases |frames|
  {
    hide Streak;
    if frames == [] {
      NothingYet(IsMinimized, EndsMinimized);
      NothingYet(IsBlank, EndsBlank);
      NothingYet(IsFailed, EndsFailed);
      NothingYet(IsOffscreen, EndsOffscreen);
    } else {
      var front, f := frames[..|frames| - 1], frames[|frames| - 1];
      assert frames == front + [f];
      var s := Watched(front);
      CountersCountStreaks(front);
      StreakSnoc(front, f, IsMinimized, EndsMinimized, s.minimized);
      StreakSnoc(front, f, IsBlank, EndsBlank, s.blank);
      StreakSnoc(front, f, IsFailed, EndsFailed, s.failed);
      var look := Look(f, PauseAt(frames) == Some(BackendBlankStreak));
      StreakSnoc(Looks(front), look, IsOffscreen, EndsOffscreen, s.offscreen);
    }
  }

  /** At least `limit` elements with `p`, the last one among them, since the last that ends the streak. */
  ghost predicate StreakReaches<T>(s: seq<T>, p: T -> bool, ends: T -> bool, limit: nat) {
    s != [] && p(s[|s| - 1]) && exists n: nat :: n >= limit && Streak(s, p, ends, n)
  }

  lemma ReachesAt<T>(s: seq<T>, p: T -> bool, ends: T -> bool, n: nat, limit: nat)
    requires s != [] && Streak(s, p, ends, n)
    ensures StreakReaches(s, p, ends, limit) <==> p(s[|s| - 1]) && n >= limit
  {
    hide Streak;
    forall m: nat | Streak(s, p, ends, m)
      ensures m == n
    {
      StreakIsUnique(s, p, ends, m, n);
    }
  }

  /**
   * When a frame pauses the recording, over any history: an unavailable target and a changed size at once; a
   * minimized target and a failed capture with their fifth frame, counted since another outcome; a blank
   * capture with the fifth in a row, whatever failed in between; a window partly off the screen with the
   * fifth since it was last seen whole.
   */
  lemma PausesExactly(frames: seq<Frame>)
    requires frames != []
    ensures var pause, last := PauseAt(frames), frames[|frames| - 1];
      && (pause == Some(PauseTargetUnavailable) <==> last.status.TargetUnavailable?)
      && (pause == Some(TargetMinimizedStreak)
          <==> StreakReaches(frames, IsMinimized, EndsMinimized, PAUSE_MINIMIZED_TICKS))
      && (pause == Some(BackendBlankStreak)
          <==> StreakReaches(frames, IsFailed, EndsFailed, PAUSE_BLANK_FRAME_TICKS)
               || (!last.resized && StreakReaches(frames, IsBlank, EndsBlank, PAUSE_BLANK_FRAME_TICKS)))
      && (pause == Some(DisplayInvalidated)
          <==> (last.status.FrameOk? && last.resized)
               || StreakReaches(Looks(frames), IsOffscreen, EndsOffscreen, PAUSE_BLANK_FRAME_TICKS))
  {
    CountersCountStreaks(frames);
    hide Streak;
    var s := Watched(frames);
    ReachesAt(frames, IsMinimized, EndsMinimized, s.minimized, PAUSE_MINIMIZED_TICKS);
    ReachesAt(frames, IsBlank, EndsBlank, s.blank, PAUSE_BLANK_FRAME_TICKS);
    ReachesAt(frames, IsFailed, EndsFailed, s.failed, PAUSE_BLANK_FRAME_TICKS);
    ReachesAt(Looks(frames), IsOffscreen, EndsOffscreen, s.offscreen, PAUSE_BLANK_FRAME_TICKS);
    hide StreakReaches;
  }

  /** Resuming does not start a streak afresh: one more minimized or failed frame pauses again. */
  lemma StreakOutlivesPause(frames: seq<Frame>, f: Frame)
    requires frames != [] && PauseAt(frames) in {Some(TargetMinimizedStreak), Some(BackendBlankStreak)}
    requires f.status == frames[|frames| - 1].status && (f.status.FrameOk? ==> f.blank && !f.resized)
    ensures PauseAt(frames + [f]) == PauseAt(frames)
  {
    assert (frames + [f])[..|frames|] == frames;
  }

  function Minimized(n: nat): seq<Frame> {
    if n == 0 then []
    else Minimized(n - 1) + [Frame(TargetMinimized, false, false, None, Rect(0, 0, 1920, 1080))]
  }

  lemma {:induction false} MinimizedStreak(n: nat)
    ensures |Minimized(n)| == n && Watched(Minimized(n)) == NO_STREAKS.(minimized := n)
  {
    if n > 0 {
      MinimizedStreak(n - 1);
      assert Minimized(n)[..n - 1] == Minimized(n - 1);
    }
  }

  lemma MinimizedPauses(n: nat)
    requires n > 0
    ensures |Minimized(n)| == n
    ensures PauseAt(Minimized(n)) == if n >= PAUSE_MINIMIZED_TICKS then Some(TargetMinimizedStreak) else None
  {
    MinimizedStreak(n - 1);
    MinimizedStreak(n);
    assert Minimized(n)[..n - 1] == Minimized(n - 1);
    hide Watched;
  }

  /** It happens: the fifth minimized frame pauses the recording, and so does the first one after it is resumed. */
  lemma FifthAndSixthPause()
    ensures Minimized(4) != [] && Minimized(5) != [] && Minimized(6) != []
    ensures PauseAt(Minimized(4)) == None
    ensures PauseAt(Minimized(5)) == PauseAt(Minimized(6)) == Some(TargetMinimizedStreak)
  {
    hide Minimized, PauseAt;
    MinimizedPauses(4);
    MinimizedPauses(5);
    MinimizedPauses(6);
  }

  /** A window with any area is fully visible exactly if each of its pixels lies on the screen. */
  lemma VisibleMeans(w: Rect, screen: Rect)
    requires w.w > 0 && w.h > 0
    ensures FullyVisible(w, screen) <==> forall x, y :: Holds(w, x, y) ==> Holds(screen, x, y)
  {
    if forall x, y :: Holds(w, x, y) ==> Holds(screen, x, y) {
      assert Holds(w, w.x, w.y) && Holds(w, w.x + w.w - 1, w.y + w.h - 1);
    }
  }

  predicate Holds(r: Rect, x: int, y: int) { r.x <= x < r.x + r.w && r.y <= y < r.y + r.h }
}
