/** What the crash-loop breaker and a rollback go back to: the bundle that was last marked healthy and still stands. */
module Fallbacks {
  import opened Common
  import opened SlotModel
  import opened SlotRuns
  import opened SlotTheorems

  /** The running bundle was marked healthy: the call returned, or it was killed after its save. */
  predicate MarksHealthy(e: Event, s: State, t: State) {
    && s.current.Some?
    && (e == Call(Op.MarkHealthy) || (e.CallKilled? && e.op.MarkHealthy? && t != s))
  }

  /** A launch disabled a bundle. */
  predicate Trips(e: Event, s: State, t: State) {
    IsLaunch(e) && t.disabledBundles != s.disabledBundles
  }

  /** A launch of a binary that cannot load the slot took note of it. */
  predicate Drops(e: Event, s: State, t: State, slot: Slot) {
    IsLaunch(e) && !Compatible(e.bin, slot) && t != s
  }

  /** Event `k` neither marked another bundle healthy, nor used the slot up, nor dropped it. */
  ghost predicate LeavesStanding(trace: seq<System>, events: seq<Event>, k: nat, slot: Slot)
    requires k < |events| && |trace| == |events| + 1
  {
    var e, s, t := events[k], StateAt(trace, k), StateAt(trace, k + 1);
    !MarksHealthy(e, s, t) && !Trips(e, s, t) && !Drops(e, s, t, slot)
  }

  /** At point `n` the slot is the last one that was marked healthy, in event `m`, and it still stands. */
  ghost predicate StandsSince(trace: seq<System>, events: seq<Event>, m: nat, n: nat, slot: Slot)
    requires n <= |events| && |trace| == |events| + 1
  {
    && m < n && MarksHealthy(events[m], StateAt(trace, m), StateAt(trace, m + 1)) && StateAt(trace, m).current == Some(slot)
    && forall k | m < k < n :: LeavesStanding(trace, events, k, slot)
  }

  ghost predicate Stands(trace: seq<System>, events: seq<Event>, n: nat, slot: Slot)
    requires n <= |events| && |trace| == |events| + 1
  {
    exists m: nat :: StandsSince(trace, events, m, n, slot)
  }

  // ---- one event ---------------------------------------------------------

  /** In a good state the breaker shows: what it disables was not disabled before. */
  lemma LaunchDecidesFallback(w: World, bin: Binary, found: Binary, s: State, marks: Marks, slot: Slot)
    requires StateGood(w, bin, s) && WholeOrEmpty(found, s)
    ensures var t := DecidedState(found, s, marks);
            t.lastKnownGood == Some(slot) <==>
              s.lastKnownGood == Some(slot) && t.disabledBundles == s.disabledBundles && (Compatible(found, slot) || t == s)
  {
  }

  lemma DroppingMovesFallback(w: World, bin: Binary, found: Binary, s: State, slot: Slot)
    requires StateGood(w, bin, s) && WholeOrEmpty(found, s)
    ensures var t := Dropped(found, s);
            && t.disabledBundles == s.disabledBundles
            && (t.lastKnownGood == Some(slot) <==> s.lastKnownGood == Some(slot) && (Compatible(found, slot) || t == s))
  {
  }

  lemma CallMovesFallback(e: Event, s: State, marks: Marks, t: State, slot: Slot)
    requires Step(e, s, marks, t) && !IsLaunch(e)
    ensures t.lastKnownGood == Some(slot) <==>
              if MarksHealthy(e, s, t) then s.current == Some(slot) else s.lastKnownGood == Some(slot)
  {
  }

  lemma LaunchMovesFallback(w: World, bin: Binary, e: Event, s: State, marks: Marks, t: State, slot: Slot)
    requires Step(e, s, marks, t) && StateGood(w, bin, s) && IsLaunch(e)
    ensures t.lastKnownGood == Some(slot) <==> s.lastKnownGood == Some(slot) && !Trips(e, s, t) && !Drops(e, s, t, slot)
  {
    LaunchDecidesFallback(w, bin, e.bin, s, marks, slot);
    DroppingMovesFallback(w, bin, e.bin, s, slot);
  }

  lemma FallbackMoves(w: World, bin: Binary, e: Event, s: State, marks: Marks, t: State, slot: Slot)
    requires Step(e, s, marks, t) && StateGood(w, bin, s)
    ensures t.lastKnownGood == Some(slot) <==>
              if MarksHealthy(e, s, t) then s.current == Some(slot)
              else s.lastKnownGood == Some(slot) && !Trips(e, s, t) && !Drops(e, s, t, slot)
  {
    if IsLaunch(e) {
      LaunchMovesFallback(w, bin, e, s, marks, t, slot);
    } else {
      CallMovesFallback(e, s, marks, t, slot);
    }
  }

  lemma StandingGoesOn(trace: seq<System>, events: seq<Event>, n: nat, slot: Slot)
    requires n < |events| && |trace| == |events| + 1
    ensures var e, s, t := events[n], StateAt(trace, n), StateAt(trace, n + 1);
            Stands(trace, events, n + 1, slot) <==>
              if MarksHealthy(e, s, t) then s.current == Some(slot)
              else Stands(trace, events, n, slot) && LeavesStanding(trace, events, n, slot)
  {
    var e, s, t := events[n], StateAt(trace, n), StateAt(trace, n + 1);
    if Stands(trace, events, n + 1, slot) {
      var m: nat :| StandsSince(trace, events, m, n + 1, slot);
      if m < n {
        assert LeavesStanding(trace, events, n, slot);
        assert StandsSince(trace, events, m, n, slot);
      }
    }
    if MarksHealthy(e, s, t) && s.current == Some(slot) {
      assert StandsSince(trace, events, n, n + 1, slot);
    }
    if !MarksHealthy(e, s, t) && Stands(trace, events, n, slot) && LeavesStanding(trace, events, n, slot) {
      var m: nat :| StandsSince(trace, events, m, n, slot);
      assert StandsSince(trace, events, m, n + 1, slot);
    }
  }

  /** In every run the last-known-good slot is the one last marked healthy that still stands, whatever is killed. */
  lemma {:induction false} LastKnownGoodStands(w: World, trace: seq<System>, events: seq<Event>, n: nat, slot: Slot)
    requires Run(w, trace, events) && n <= |events|
    ensures StateAt(trace, n).lastKnownGood == Some(slot) <==> Stands(trace, events, n, slot)
  {
    if n > 0 {
      LastKnownGoodStands(w, trace, events, n - 1, slot);
      StandingGoesOn(trace, events, n - 1, slot);
      FallbackAt(w, trace, events, n - 1, slot);
    }
  }

  lemma FallbackAt(w: World, trace: seq<System>, events: seq<Event>, n: nat, slot: Slot)
    requires Run(w, trace, events) && n < |events|
    ensures var e, s, t := events[n], StateAt(trace, n), StateAt(trace, n + 1);
            t.lastKnownGood == Some(slot) <==>
              if MarksHealthy(e, s, t) then s.current == Some(slot)
              else s.lastKnownGood == Some(slot) && LeavesStanding(trace, events, n, slot)
  {
    RunIsHistory(w, trace, events);
    EveryRunIsGood(w, trace, events, n);
    assert MovedAt(trace, events, n);
    FallbackMoves(w, trace[n].bin, events[n], StateAt(trace, n), trace[n].disk.marks, StateAt(trace, n + 1), slot);
  }

  // ---- the breaker -------------------------------------------------------

  lemma TrippingMoves(e: Event, s: State, marks: Marks, t: State)
    requires Step(e, s, marks, t) && Trips(e, s, t)
    ensures t.current == s.lastKnownGood && t.lastKnownGood.None? && t.pending.None?
    ensures if t.current.Some? then t.trial && t.bootAttempts == 1 else !t.trial && t.bootAttempts == 0
  {
  }

  /**
   A launch that disables a bundle goes back to exactly the bundle that was last marked healthy and still
   stands, puts it on trial with one attempt, and has nothing else to go back to; with none, to the embedded one.
   */
  lemma BreakerFallsBackExactly(w: World, trace: seq<System>, events: seq<Event>, n: nat)
    requires Run(w, trace, events) && n < |events| && Trips(events[n], StateAt(trace, n), StateAt(trace, n + 1))
    ensures var t := StateAt(trace, n + 1);
            && (forall slot :: t.current == Some(slot) <==> Stands(trace, events, n, slot))
            && (if t.current.Some? then t.trial && t.bootAttempts == 1 else !t.trial && t.bootAttempts == 0)
            && t.lastKnownGood.None? && t.pending.None?
  {
    RunIsHistory(w, trace, events);
    assert MovedAt(trace, events, n);
    TrippingMoves(events[n], StateAt(trace, n), trace[n].disk.marks, StateAt(trace, n + 1));
    forall slot: Slot ensures StateAt(trace, n + 1).current == Some(slot) <==> Stands(trace, events, n, slot) {
      LastKnownGoodStands(w, trace, events, n, slot);
    }
  }

  /** And that bundle is what runs, with every signed byte; the embedded one runs if and only if there is none. */
  lemma BreakerBootsExactly(w: World, trace: seq<System>, events: seq<Event>, n: nat)
    requires Run(w, trace, events) && n < |events| && Undisturbed(trace, events, n)
    requires events[n].Launch? && Trips(events[n], StateAt(trace, n), StateAt(trace, n + 1))
    ensures forall slot | Stands(trace, events, n, slot) ::
              trace[n + 1].running == Some(slot.bundleId) && OnDisk(w, trace[n + 1].disk.bundles, slot.bundleId)
    ensures trace[n + 1].running.None? <==> forall slot :: !Stands(trace, events, n, slot)
  {
    BreakerFallsBackExactly(w, trace, events, n);
    LaunchBootsWhatTheStateNames(w, trace, events, n);
    LaunchLeavesItWhole(w, trace, events, n);
    var t := StateAt(trace, n + 1);
    if t.current.Some? {
      assert Stands(trace, events, n, t.current.value);
    }
    forall slot | Stands(trace, events, n, slot)
      ensures trace[n + 1].running == Some(slot.bundleId) && OnDisk(w, trace[n + 1].disk.bundles, slot.bundleId)
    {
      assert t.current == Some(slot);
    }
  }

  lemma LaunchLeavesItWhole(w: World, trace: seq<System>, events: seq<Event>, n: nat)
    requires Run(w, trace, events) && n < |events| && events[n].Launch? && Undisturbed(trace, events, n)
    ensures trace[n + 1].running.Some? ==> OnDisk(w, trace[n + 1].disk.bundles, trace[n + 1].running.value)
  {
    EveryRunIsGood(w, trace, events, n);
    UndisturbedRunsAreWhole(w, trace, events, n);
    assert StepAt(w, trace, events, n);
    LaunchKeepsWhole(w, trace[n], events[n].bin);
    assert trace[n + 1].running.Some? ==> trace[n + 1].running.value in Needed(trace[n + 1]);
  }

  // ---- rolling back by hand ----------------------------------------------

  /** So does a rollback, at once and without a trial; what was pending is given up. */
  lemma RollbackFallsBackExactly(w: World, trace: seq<System>, events: seq<Event>, n: nat)
    requires Run(w, trace, events) && n < |events| && events[n] == Call(Op.Rollback)
    ensures var t := StateAt(trace, n + 1);
            && (forall slot :: t.current == Some(slot) <==> Stands(trace, events, n, slot))
            && t.lastKnownGood == t.current && t.pending.None? && !t.trial && t.bootAttempts == 0
  {
    RunIsHistory(w, trace, events);
    assert MovedAt(trace, events, n);
    forall slot: Slot ensures StateAt(trace, n + 1).current == Some(slot) <==> Stands(trace, events, n, slot) {
      LastKnownGoodStands(w, trace, events, n, slot);
    }
  }

  /** Marking a bundle healthy takes it off trial, so that only a rollback or another update moves it. */
  lemma HealthyIsOffTrial(w: World, trace: seq<System>, events: seq<Event>, n: nat)
    requires Run(w, trace, events) && n < |events| && events[n] == Call(Op.MarkHealthy) && StateAt(trace, n).current.Some?
    ensures var s, t := StateAt(trace, n), StateAt(trace, n + 1);
            t.current == s.current == t.lastKnownGood && !t.trial && t.bootAttempts == 0 && t.pending == s.pending && t.staged == s.staged
  {
    RunIsHistory(w, trace, events);
    assert MovedAt(trace, events, n);
  }
}
