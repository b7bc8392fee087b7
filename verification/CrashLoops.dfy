/** Crash loops end on the embedded bundle, exactly when the breaker watches the bundle that crashes. */
module CrashLoops {
  import opened Common
  import opened SlotModel
  import opened SlotRuns
  import opened SlotTheorems

  /** A bundle is waiting or on trial, or nothing but the embedded bundle is left. */
  predicate Looping(s: State) {
    s.pending.Some? || s.trial || s.current.None?
  }

  /** Launches left before the embedded bundle: attempts of this trial, then two for the fallback. */
  function Measure(s: State): nat
    requires Counted(s)
  {
    var fallback := if s.lastKnownGood.Some? then MAX_BOOT_ATTEMPTS else 0;
    if s.pending.Some? then MAX_BOOT_ATTEMPTS + 1 + fallback
    else if s.trial then MAX_BOOT_ATTEMPTS + 1 - s.bootAttempts + fallback
    else 0
  }

  /** Nothing that ends a trial or excuses a launch. */
  predicate Quiet(e: Event, marks: Marks) {
    match e
    case Launch(_) => !Forgiven(marks)
    case LaunchKilled(_, _) => !Forgiven(marks)
    case Call(op) => !op.Promote? && !op.MarkHealthy? && !op.Rollback? && !op.UserReload?
    case CallKilled(op, _) => !op.Promote? && !op.MarkHealthy? && !op.Rollback? && !op.UserReload?
    case _ => true
  }

  lemma QuietStep(e: Event, s: State, marks: Marks, t: State)
    requires Step(e, s, marks, t) && Quiet(e, marks)
    requires Looping(s) && !s.userReload
    ensures Looping(t) && !t.userReload && Measure(t) <= Measure(s)
    ensures e.Launch? && Measure(s) > 0 ==> Measure(t) < Measure(s)
  {
  }

  /** Completed launches among events `m` to `n`. */
  function Launches(events: seq<Event>, m: nat, n: nat): nat
    requires m <= n <= |events|
  {
    if m == n then 0 else Launches(events, m, n - 1) + if events[n - 1].Launch? then 1 else 0
  }

  ghost predicate QuietBetween(trace: seq<System>, events: seq<Event>, m: nat, n: nat)
    requires m <= n <= |events| && |trace| == |events| + 1
  {
    forall k | m <= k < n :: Quiet(events[k], trace[k].disk.marks)
  }

  lemma {:induction false} MeasureFalls(trace: seq<System>, events: seq<Event>, m: nat, n: nat)
    requires History(trace, events) && m <= n <= |events| && QuietBetween(trace, events, m, n)
    requires Looping(StateAt(trace, m)) && !StateAt(trace, m).userReload && Counted(StateAt(trace, m))
    ensures Looping(StateAt(trace, n)) && !StateAt(trace, n).userReload && Counted(StateAt(trace, n))
    ensures Measure(StateAt(trace, n)) == 0
         || Measure(StateAt(trace, n)) + Launches(events, m, n) <= Measure(StateAt(trace, m))
    decreases n
  {
    if m < n {
      MeasureFalls(trace, events, m, n - 1);
      assert MovedAt(trace, events, n - 1);
      QuietStep(events[n - 1], StateAt(trace, n - 1), trace[n - 1].disk.marks, StateAt(trace, n));
    }
  }

  /**
   From any reachable state with a bundle pending or on trial, with no user reload, no `markHealthy`,
   no promotion, no rollback and no refunded launch, the fifth launch and every later one boot the
   embedded bundle: whatever else happens in between, downloads, kills and binary changes included.
   */
  lemma CrashLoopEndsOnEmbedded(w: World, trace: seq<System>, events: seq<Event>, m: nat, n: nat)
    requires Run(w, trace, events) && m <= n < |events| && QuietBetween(trace, events, m, n + 1)
    requires Looping(StateAt(trace, m)) && !StateAt(trace, m).userReload
    requires events[n].Launch? && Launches(events, m, n) >= 4
    ensures trace[n + 1].running.None?
    ensures StateAt(trace, n + 1).current.None? && StateAt(trace, n + 1).pending.None?
  {
    RunIsHistory(w, trace, events);
    EveryRunIsGood(w, trace, events, m);
    MeasureFalls(trace, events, m, n + 1);
    LaunchBootsNoOtherBundle(w, trace, events, n);
  }

  /** The other side: a bundle that was marked healthy is never reverted, however often it crashes. */
  lemma {:induction false} HealthyBundleIsNeverReverted(trace: seq<System>, events: seq<Event>, m: nat, n: nat, slot: Slot)
    requires History(trace, events) && m <= n <= |events| && QuietBetween(trace, events, m, n)
    requires !Looping(StateAt(trace, m)) && StateAt(trace, m).current == Some(slot)
    requires forall k | m <= k < n && IsLaunch(events[k]) :: Compatible(events[k].bin, slot)
    ensures !Looping(StateAt(trace, n)) && StateAt(trace, n).current == Some(slot)
    decreases n
  {
    if m < n {
      HealthyBundleIsNeverReverted(trace, events, m, n - 1, slot);
      assert MovedAt(trace, events, n - 1);
      HealthyStep(events[n - 1], StateAt(trace, n - 1), trace[n - 1].disk.marks, StateAt(trace, n));
    }
  }

  lemma HealthyStep(e: Event, s: State, marks: Marks, t: State)
    requires Step(e, s, marks, t) && Quiet(e, marks) && !Looping(s)
    requires IsLaunch(e) ==> Compatible(e.bin, s.current.value)
    ensures !Looping(t) && t.current == s.current
  {
  }

  // ---- promotion at the wrong moment -------------------------------------

  const RT := Binary("rt", 1)
  const FILES: map<string, string> := map[BUNDLE_FILE := "h"]
  const DIR: Dir := map[BUNDLE_FILE := [1]]
  const X := Slot("X", 1, "rt", Some(1), "h", FILES)
  const NOTHING: map<string, Dir> := map[]
  const X_THERE: map<string, Dir> := map["X" := DIR]

  /** One release with one file: enough for it to be staged a second time while it is pending. */
  ghost function OneRelease(): World {
    World((b: Bytes) => "h", (id: string) => Release(1, "rt", "h", FILES))
  }

  function Running(s: State, bundles: map<string, Dir>, staging: map<string, Dir>,
                   download: Option<Slot>, armed: bool, running: Option<string>): System
  {
    System(Image(Stored(STATE_SCHEMA, s), NoTmp, NO_MARKS, bundles, staging), RT, true, download, armed, running)
  }

  const STAGED := FRESH.(staged := Some(X))
  const PENDING := FRESH.(pending := Some(X))
  const TRIED := FRESH.(staged := Some(X), current := Some(X), trial := true, appliedToReport := "X")
  const DISABLED := FRESH.(staged := Some(X), disabledBundles := ["X"], failedToReport := "X", appliedToReport := "X")

  const STALE_EVENTS := [
    Launch(RT), Begin("X"), Assemble(DIR), Commit, Call(Promote),
    Begin("X"), Assemble(DIR), Commit, Launch(RT), Launch(RT), Launch(RT)]

  const STALE_TRACE := [
    System(Image(Missing, NoTmp, NO_MARKS, NOTHING, NOTHING), RT, false, None, false, None),
    Running(FRESH, NOTHING, NOTHING, None, false, None),
    Running(FRESH, NOTHING, NOTHING, Some(X), false, None),
    Running(FRESH, NOTHING, X_THERE, Some(X), false, None),
    Running(STAGED, X_THERE, NOTHING, None, true, None),
    Running(PENDING, X_THERE, NOTHING, None, false, None),
    Running(PENDING, X_THERE, NOTHING, Some(X), false, None),
    Running(PENDING, X_THERE, X_THERE, Some(X), false, None),
    Running(PENDING.(staged := Some(X)), X_THERE, NOTHING, None, true, None),
    Running(TRIED.(bootAttempts := 1), X_THERE, NOTHING, None, false, Some("X")),
    Running(TRIED.(bootAttempts := 2), X_THERE, NOTHING, None, false, Some("X")),
    Running(DISABLED, X_THERE, NOTHING, None, false, None)]

  lemma StaleDownload(n: nat)
    requires n in {1, 2, 3}
    ensures StepAt(OneRelease(), STALE_TRACE, STALE_EVENTS, n)
  {
    assert SafeBundleId("X");
    assert NOTHING["X" := DIR] == X_THERE && X_THERE - {"X"} == NOTHING;
  }

  lemma SecondDownload(n: nat)
    requires n in {5, 6, 7}
    ensures StepAt(OneRelease(), STALE_TRACE, STALE_EVENTS, n)
  {
    assert SafeBundleId("X");
    assert NOTHING["X" := DIR] == X_THERE && X_THERE["X" := DIR] == X_THERE && X_THERE - {"X"} == NOTHING;
  }

  lemma FirstLaunch()
    ensures StepAt(OneRelease(), STALE_TRACE, STALE_EVENTS, 0)
  {
    assert Restrict(NOTHING, Keep(FRESH)) == NOTHING;
  }

  lemma PendingIsTried()
    ensures StepAt(OneRelease(), STALE_TRACE, STALE_EVENTS, 8)
  {
    KeepsX(PENDING.(staged := Some(X)));
  }

  lemma TriedAgain()
    ensures StepAt(OneRelease(), STALE_TRACE, STALE_EVENTS, 9)
  {
    KeepsX(TRIED.(bootAttempts := 1));
  }

  lemma BreakerTrips()
    ensures StepAt(OneRelease(), STALE_TRACE, STALE_EVENTS, 10)
  {
    KeepsX(TRIED.(bootAttempts := 2));
    assert Disable([], "X") == ["X"];
  }

  lemma KeepsX(s: State)
    requires s.staged == Some(X)
    ensures Restrict(X_THERE, Keep(s)) == X_THERE && Restrict(NOTHING, Keep(s)) == NOTHING
  {
    assert "X" in Keep(s);
  }

  lemma NothingIsKilled()
    ensures Undisturbed(STALE_TRACE, STALE_EVENTS, |STALE_EVENTS|)
  {
    assert forall k | 0 <= k < |STALE_EVENTS| :: !STALE_EVENTS[k].CommitKilled?;
  }

  lemma StaleRun()
    ensures Run(OneRelease(), STALE_TRACE, STALE_EVENTS)
  {
    forall n | 0 <= n < |STALE_EVENTS| ensures StepAt(OneRelease(), STALE_TRACE, STALE_EVENTS, n) {
      if n == 0 {
        FirstLaunch();
      } else if n == 10 {
        BreakerTrips();
      } else if n == 9 {
        TriedAgain();
      } else if n == 8 {
        PendingIsTried();
      } else if n > 4 {
        SecondDownload(n);
      } else if n != 4 {
        StaleDownload(n);
      }
    }
  }

  /**
   A reachable state in which what is staged is already disabled: the process that staged it again
   died before promoting it, and the breaker tripped meanwhile. Promoting it now, as `applyUpdate`
   does without looking, makes the next launch run it.
   */
  lemma StaleStagedBundleIsReachable()
    ensures Run(OneRelease(), STALE_TRACE, STALE_EVENTS)
    ensures var sys := STALE_TRACE[|STALE_EVENTS|];
            && sys.alive && "X" in Load(sys.disk.file).disabledBundles
            && Booted(RT, Apply(Promote, sys.disk)) == Some("X")
  {
    StaleRun();
    EveryRunIsGood(OneRelease(), STALE_TRACE, STALE_EVENTS, |STALE_EVENTS|);
    NothingIsKilled();
    UndisturbedRunsAreWhole(OneRelease(), STALE_TRACE, STALE_EVENTS, |STALE_EVENTS|);
    PromotionBootsTheStaged(OneRelease(), STALE_TRACE[|STALE_EVENTS|]);
  }
}
