/**
 Downloading a release a second time: what happens to the directory it already has when the commit is
 watched from the inside, or killed there.
 */
module Recommits {
  import opened Common
  import opened SlotModel
  import opened SlotRuns
  import opened SlotTheorems
  import opened CrashLoops

  const ON_TRIAL := FRESH.(current := Some(X), trial := true, bootAttempts := 1, appliedToReport := "X")
  const ROLLED_BACK := FRESH.(appliedToReport := "X")

  /** Install a release, run it, roll back by hand, and install it again in the same process. */
  const AGAIN_EVENTS := [
    Launch(RT), Begin("X"), Assemble(DIR), Commit, Call(Promote),
    Launch(RT), Call(Rollback), Begin("X"), Assemble(DIR), Commit]

  const AGAIN_TRACE := [
    System(Image(Missing, NoTmp, NO_MARKS, NOTHING, NOTHING), RT, false, None, false, None),
    Running(FRESH, NOTHING, NOTHING, None, false, None),
    Running(FRESH, NOTHING, NOTHING, Some(X), false, None),
    Running(FRESH, NOTHING, X_THERE, Some(X), false, None),
    Running(STAGED, X_THERE, NOTHING, None, true, None),
    Running(PENDING, X_THERE, NOTHING, None, false, None),
    Running(ON_TRIAL, X_THERE, NOTHING, None, false, Some("X")),
    Running(ROLLED_BACK, X_THERE, NOTHING, None, false, Some("X")),
    Running(ROLLED_BACK, X_THERE, NOTHING, Some(X), false, Some("X")),
    Running(ROLLED_BACK, X_THERE, X_THERE, Some(X), false, Some("X")),
    Running(ROLLED_BACK.(staged := Some(X)), X_THERE, NOTHING, None, true, Some("X"))]

  lemma AgainDownload(n: nat)
    requires n in {1, 2, 3, 7, 8, 9}
    ensures StepAt(OneRelease(), AGAIN_TRACE, AGAIN_EVENTS, n)
  {
    assert SafeBundleId("X");
    assert NOTHING["X" := DIR] == X_THERE && X_THERE["X" := DIR] == X_THERE && X_THERE - {"X"} == NOTHING;
  }

  lemma AgainCall(n: nat)
    requires n in {4, 6}
    ensures StepAt(OneRelease(), AGAIN_TRACE, AGAIN_EVENTS, n)
  {
  }

  lemma FirstOfAll()
    ensures StepAt(OneRelease(), AGAIN_TRACE, AGAIN_EVENTS, 0)
  {
    assert Restrict(NOTHING, Keep(FRESH)) == NOTHING;
  }

  lemma InstalledRuns()
    ensures StepAt(OneRelease(), AGAIN_TRACE, AGAIN_EVENTS, 5)
  {
    assert "X" in Keep(PENDING) && Restrict(X_THERE, Keep(PENDING)) == X_THERE && Restrict(NOTHING, Keep(PENDING)) == NOTHING;
  }

  /** A reachable commit during which the running bundle is not on disk. */
  lemma RunningBundleCanDisappear() returns (left: Image)
    ensures Run(OneRelease(), AGAIN_TRACE, AGAIN_EVENTS)
    ensures AGAIN_TRACE[9].alive && AGAIN_TRACE[9].running == Some("X")
    ensures Inside(AGAIN_TRACE[9], AGAIN_EVENTS[9], left) && "X" !in left.bundles
  {
    forall n | 0 <= n < |AGAIN_EVENTS| ensures StepAt(OneRelease(), AGAIN_TRACE, AGAIN_EVENTS, n) {
      if n == 0 {
        FirstOfAll();
      } else if n == 5 {
        InstalledRuns();
      } else if n == 4 || n == 6 {
        AgainCall(n);
      } else {
        AgainDownload(n);
      }
    }
    left := ReplacedIsGone(AGAIN_TRACE[9], AGAIN_EVENTS[9]);
  }

  // ---- killed in the window ----------------------------------------------

  /** The state that is pending X and downloads it again, with the old directory already deleted. */
  function Deleted(): Image {
    STALE_TRACE[7].disk.(bundles := NOTHING)
  }

  lemma DeletedIsInTheWindow()
    ensures CanCommit(OneRelease(), STALE_TRACE[7])
    ensures CommitMid(STALE_TRACE[7].disk, X, Deleted()) && InWindow(STALE_TRACE[7], Deleted())
  {
    assert X_THERE["X" := DIR] == X_THERE;
    assert Shrunk(X_THERE, NOTHING, "X");
    assert "X" in X_THERE && "X" !in NOTHING;
  }

  const BLAMED := FRESH.(disabledBundles := ["X"], failedToReport := "X", appliedToReport := "X")

  /** The same run up to the second commit, which is killed with the old directory deleted; then three launches. */
  const LOST_TAIL := [CommitKilled(Deleted()), Launch(RT), Launch(RT), Launch(RT)]

  const LOST_ENDS := [
    System(Deleted(), RT, false, None, false, None),
    Running(ON_TRIAL, NOTHING, X_THERE, None, false, None),
    Running(ON_TRIAL.(bootAttempts := 2), NOTHING, X_THERE, None, false, None),
    Running(BLAMED, NOTHING, X_THERE, None, false, None)]

  function LostEvents(): seq<Event> {
    STALE_EVENTS[..7] + LOST_TAIL
  }

  function LostTrace(): seq<System> {
    STALE_TRACE[..8] + LOST_ENDS
  }

  lemma KilledInTheWindow()
    ensures Next(OneRelease(), STALE_TRACE[7], CommitKilled(Deleted())) == LOST_ENDS[0]
  {
  }

  lemma SweptOfX(s: State)
    requires Keep(s) == {"X"}
    ensures Restrict(NOTHING, Keep(s)) == NOTHING && Restrict(X_THERE, Keep(s)) == X_THERE
  {
    assert "X" in Keep(s);
  }

  lemma LaunchedWithoutItsFiles()
    ensures Next(OneRelease(), LOST_ENDS[0], Launch(RT)) == LOST_ENDS[1]
  {
    SweptOfX(PENDING);
  }

  lemma LaunchedAgain()
    ensures Next(OneRelease(), LOST_ENDS[1], Launch(RT)) == LOST_ENDS[2]
  {
    SweptOfX(ON_TRIAL);
  }

  lemma BlamedForIt()
    ensures Next(OneRelease(), LOST_ENDS[2], Launch(RT)) == LOST_ENDS[3]
  {
    SweptOfX(ON_TRIAL.(bootAttempts := 2));
    assert Disable([], "X") == ["X"];
  }

  lemma LostStep(n: nat)
    requires n < |LostEvents()| && Run(OneRelease(), STALE_TRACE, STALE_EVENTS)
    ensures StepAt(OneRelease(), LostTrace(), LostEvents(), n)
  {
    if n < 7 {
      assert StepAt(OneRelease(), STALE_TRACE, STALE_EVENTS, n);
      assert LostTrace()[n] == STALE_TRACE[n] && LostTrace()[n + 1] == STALE_TRACE[n + 1] && LostEvents()[n] == STALE_EVENTS[n];
    } else {
      assert LostTrace()[n] == if n == 7 then STALE_TRACE[7] else LOST_ENDS[n - 8];
      assert LostTrace()[n + 1] == LOST_ENDS[n - 7] && LostEvents()[n] == LOST_TAIL[n - 7];
      if n == 7 {
        DeletedIsInTheWindow();
        KilledInTheWindow();
      } else if n == 8 {
        LaunchedWithoutItsFiles();
      } else if n == 9 {
        LaunchedAgain();
      } else {
        BlamedForIt();
      }
    }
  }

  /**
   A kill inside a commit, in a reachable state, loses the pending bundle: the next launch puts it on trial
   and boots the embedded bundle because its file is gone, and the third one disables it. It never ran.
   */
  lemma KillInTheWindowLosesTheBundle()
    ensures Run(OneRelease(), LostTrace(), LostEvents())
    ensures Disturbs(LostTrace()[7], LostEvents()[7])
    ensures OnTrial(StateAt(LostTrace(), 9), X) && "X" in StateAt(LostTrace(), 11).disabledBundles
    ensures forall n | 0 <= n < |LostTrace()| :: LostTrace()[n].running == None
  {
    StaleRun();
    DeletedIsInTheWindow();
    forall n | 0 <= n < |LostEvents()| ensures StepAt(OneRelease(), LostTrace(), LostEvents(), n) {
      LostStep(n);
    }
    NothingRan();
  }

  lemma NothingRan()
    ensures |LostTrace()| == 12 && forall n | 0 <= n < 12 :: LostTrace()[n].running == None
  {
    assert forall n | 0 <= n < 8 :: STALE_TRACE[n].running == None;
    assert forall n | 0 <= n < 4 :: LOST_ENDS[n].running == None;
  }
}
