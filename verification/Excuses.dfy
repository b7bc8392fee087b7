/** What keeps a launch from counting as a crash, and that what a launch did is reported until it is read. */
module Excuses {
  import opened Common
  import opened SlotModel
  import opened SlotRuns
  import opened SlotTheorems

  // ---- leaving the app ---------------------------------------------------

  predicate TouchesMarks(op: Op) {
    op.Beacon? || op.Pause? || op.ClearPause?
  }

  /** No launch, and no write of the marks that was cut off. */
  predicate KeepsMarks(e: Event) {
    !IsLaunch(e) && (e.CallKilled? ==> !TouchesMarks(e.op))
  }

  lemma CallMovesMarks(op: Op, i: Image)
    ensures var after := Apply(op, i).marks;
            && after.beacon == (i.marks.beacon || op.Beacon?)
            && after.paused == (if op.ClearPause? then false else i.marks.paused || op.Pause?)
  {
  }

  lemma KilledCallKeepsMarks(op: Op, i: Image, left: Image)
    requires ApplyMid(op, i, left) && !TouchesMarks(op)
    ensures left.marks == i.marks
  {
  }

  lemma CommitKeepsMarks(i: Image, slot: Slot, left: Image)
    requires CommitMid(i, slot, left)
    ensures left.marks == i.marks == Committed(i, slot).marks
  {
  }

  /** What any other event leaves of the marks. */
  lemma MarksMove(w: World, sys: System, e: Event)
    requires Enabled(w, sys, e) && KeepsMarks(e)
    ensures var before, after := sys.disk.marks, Next(w, sys, e).disk.marks;
            && after.beacon == (before.beacon || e == Call(Beacon))
            && after.paused == (if e == Call(ClearPause) then false else before.paused || e == Call(Pause))
  {
    match e
    case Call(op) => CallMovesMarks(op, sys.disk);
    case CallKilled(op, left) => KilledCallKeepsMarks(op, sys.disk, left);
    case Commit => CommitKeepsMarks(sys.disk, sys.download.value, sys.disk);
    case CommitKilled(left) => CommitKeepsMarks(sys.disk, sys.download.value, left);
    case _ =>
  }

  /** Since some point the bundle reached its runtime, and then the app was left and not entered again. */
  ghost predicate LeftInOrder(events: seq<Event>, i: nat, j: nat, n: nat)
    requires n <= |events|
  {
    && i < n && events[i] == Call(Beacon) && j < n && events[j] == Call(Pause)
    && (forall k | i < k < n || j < k < n :: KeepsMarks(events[k]))
    && forall k | j < k < n :: events[k] != Call(ClearPause)
  }

  lemma {:induction false} BeaconStays(w: World, trace: seq<System>, events: seq<Event>, i: nat, n: nat)
    requires Run(w, trace, events) && i < n <= |events| && events[i] == Call(Beacon)
    requires forall k | i < k < n :: KeepsMarks(events[k])
    ensures trace[n].disk.marks.beacon
  {
    if i < n - 1 {
      BeaconStays(w, trace, events, i, n - 1);
    }
    assert StepAt(w, trace, events, n - 1);
    MarksMove(w, trace[n - 1], events[n - 1]);
  }

  lemma {:induction false} PauseStays(w: World, trace: seq<System>, events: seq<Event>, j: nat, n: nat)
    requires Run(w, trace, events) && j < n <= |events| && events[j] == Call(Pause)
    requires forall k | j < k < n :: KeepsMarks(events[k]) && events[k] != Call(ClearPause)
    ensures trace[n].disk.marks.paused
  {
    if j < n - 1 {
      PauseStays(w, trace, events, j, n - 1);
    }
    assert StepAt(w, trace, events, n - 1);
    MarksMove(w, trace[n - 1], events[n - 1]);
  }

  /** The bundle that was on trial is on trial still, and no attempt was spent on it beyond the first. */
  predicate CostsNothing(s: State, t: State) {
    && t.disabledBundles == s.disabledBundles && t.current == s.current && t.lastKnownGood == s.lastKnownGood && t.trial
    && t.bootAttempts <= if s.bootAttempts > 0 then s.bootAttempts else 1
  }

  /** A launch after the user has left the app, even on the last attempt, costs the bundle nothing. */
  lemma LeavingCostsNothing(w: World, trace: seq<System>, events: seq<Event>, i: nat, j: nat, n: nat, slot: Slot)
    requires Run(w, trace, events) && n < |events| && LeftInOrder(events, i, j, n)
    requires events[n].Launch? && Compatible(events[n].bin, slot)
    requires OnTrial(StateAt(trace, n), slot) && StateAt(trace, n).pending.None?
    ensures CostsNothing(StateAt(trace, n), StateAt(trace, n + 1))
  {
    RunIsHistory(w, trace, events);
    assert MovedAt(trace, events, n);
    BeaconStays(w, trace, events, i, n);
    PauseStays(w, trace, events, j, n);
  }

  // ---- no excuse without them --------------------------------------------

  /** The mark was written, or its write was cut off. */
  predicate Notes(e: Event, op: Op) {
    e == Call(op) || (e.CallKilled? && e.op == op)
  }

  lemma MarkAppears(w: World, sys: System, e: Event)
    requires Enabled(w, sys, e)
    ensures var before, after := sys.disk.marks, Next(w, sys, e).disk.marks;
            && (after.beacon ==> (before.beacon && !e.Launch?) || Notes(e, Beacon))
            && (after.paused ==> (before.paused && !e.Launch? && e != Call(ClearPause)) || Notes(e, Pause))
  {
    match e
    case Call(op) => CallMovesMarks(op, sys.disk);
    case CallKilled(op, left) => KilledCallAddsItsMark(op, sys.disk, left);
    case Commit => CommitKeepsMarks(sys.disk, sys.download.value, sys.disk);
    case CommitKilled(left) => CommitKeepsMarks(sys.disk, sys.download.value, left);
    case Launch(bin) => LaunchClearsMarks(bin, sys.disk);
    case LaunchKilled(bin, left) => KilledLaunchAddsNoMark(bin, sys.disk, left);
    case _ =>
  }

  lemma LaunchClearsMarks(bin: Binary, i: Image)
    ensures Launched(bin, i).marks == NO_MARKS
  {
  }

  lemma KilledLaunchAddsNoMark(bin: Binary, i: Image, left: Image)
    requires LaunchMid(bin, i, left)
    ensures left.marks == i.marks || left.marks == NO_MARKS
  {
  }

  lemma KilledCallAddsItsMark(op: Op, i: Image, left: Image)
    requires ApplyMid(op, i, left)
    ensures left.marks.beacon ==> i.marks.beacon || op.Beacon?
    ensures left.marks.paused ==> i.marks.paused || op.Pause?
  {
    CallMovesMarks(op, i);
  }

  /** A beacon that a launch finds was sent since the launch before. */
  lemma {:induction false} BeaconWasSent(w: World, trace: seq<System>, events: seq<Event>, m: nat, n: nat) returns (i: nat)
    requires Run(w, trace, events) && m < n <= |events| && events[m].Launch? && trace[n].disk.marks.beacon
    ensures m < i < n && Notes(events[i], Beacon)
  {
    i := n - 1;
    assert StepAt(w, trace, events, i);
    MarkAppears(w, trace[i], events[i]);
    if !Notes(events[i], Beacon) {
      i := BeaconWasSent(w, trace, events, m, n - 1);
    }
  }

  /** And a pause was noted since then, and not taken back. */
  lemma {:induction false} PauseWasNoted(w: World, trace: seq<System>, events: seq<Event>, m: nat, n: nat) returns (j: nat)
    requires Run(w, trace, events) && m < n <= |events| && events[m].Launch? && trace[n].disk.marks.paused
    ensures m < j < n && Notes(events[j], Pause) && forall k | j < k < n :: events[k] != Call(ClearPause)
  {
    j := n - 1;
    assert StepAt(w, trace, events, j);
    MarkAppears(w, trace[j], events[j]);
    if !Notes(events[j], Pause) {
      j := PauseWasNoted(w, trace, events, m, n - 1);
    }
  }

  /** A process that never reached its runtime, or was never left, leaves no excuse: the next launch counts. */
  lemma CrashCosts(w: World, trace: seq<System>, events: seq<Event>, m: nat, n: nat, slot: Slot)
    requires Run(w, trace, events) && m < n < |events| && events[m].Launch?
    requires events[n].Launch? && Compatible(events[n].bin, slot)
    requires OnTrial(StateAt(trace, n), slot) && StateAt(trace, n).pending.None? && !StateAt(trace, n).userReload
    requires (forall k | m < k < n :: !Notes(events[k], Beacon)) || (forall k | m < k < n :: !Notes(events[k], Pause))
    ensures var s, t := StateAt(trace, n), StateAt(trace, n + 1);
            if s.bootAttempts == MAX_BOOT_ATTEMPTS then slot.bundleId in t.disabledBundles
            else t.bootAttempts == s.bootAttempts + 1 && OnTrial(t, slot)
  {
    if trace[n].disk.marks.beacon && trace[n].disk.marks.paused {
      var i := BeaconWasSent(w, trace, events, m, n);
      var j := PauseWasNoted(w, trace, events, m, n);
    }
    UnexcusedLaunchCosts(w, trace, events, n, slot);
  }

  // ---- asking for a reload -----------------------------------------------

  lemma {:induction false} ReloadStays(w: World, trace: seq<System>, events: seq<Event>, i: nat, n: nat)
    requires Run(w, trace, events) && i < n <= |events| && events[i] == Call(UserReload)
    requires forall k | i < k < n :: !IsLaunch(events[k])
    ensures StateAt(trace, n).userReload
  {
    if i < n - 1 {
      ReloadStays(w, trace, events, i, n - 1);
    }
    RunIsHistory(w, trace, events);
    assert MovedAt(trace, events, n - 1);
  }

  /** A launch the user asked for spends no attempt, and the one after it has to be asked for again. */
  lemma AskingCostsNothing(w: World, trace: seq<System>, events: seq<Event>, i: nat, n: nat, slot: Slot)
    requires Run(w, trace, events) && i < n < |events| && events[i] == Call(UserReload)
    requires forall k | i < k < n :: !IsLaunch(events[k])
    requires events[n].Launch? && Compatible(events[n].bin, slot)
    requires OnTrial(StateAt(trace, n), slot) && StateAt(trace, n).pending.None?
    ensures StateAt(trace, n).bootAttempts < MAX_BOOT_ATTEMPTS ==> CostsNothing(StateAt(trace, n), StateAt(trace, n + 1))
    ensures !StateAt(trace, n + 1).userReload
  {
    RunIsHistory(w, trace, events);
    assert MovedAt(trace, events, n);
    ReloadStays(w, trace, events, i, n);
  }

  /** And a launch that nothing excuses spends one. */
  lemma UnexcusedLaunchCosts(w: World, trace: seq<System>, events: seq<Event>, n: nat, slot: Slot)
    requires Run(w, trace, events) && n < |events| && events[n].Launch? && Compatible(events[n].bin, slot)
    requires OnTrial(StateAt(trace, n), slot) && StateAt(trace, n).pending.None? && !StateAt(trace, n).userReload
    requires !trace[n].disk.marks.beacon || !trace[n].disk.marks.paused
    ensures var s, t := StateAt(trace, n), StateAt(trace, n + 1);
            if s.bootAttempts == MAX_BOOT_ATTEMPTS then slot.bundleId in t.disabledBundles
            else t.bootAttempts == s.bootAttempts + 1 && OnTrial(t, slot)
  {
    RunIsHistory(w, trace, events);
    EveryRunIsGood(w, trace, events, n);
    assert MovedAt(trace, events, n);
  }

  // ---- reports -----------------------------------------------------------

  /** Nobody read this report, and no launch had another one to make. */
  ghost predicate NotReported(op: Op, trace: seq<System>, events: seq<Event>, k: nat)
    requires k < |events| && |trace| == |events| + 1
  {
    && events[k] != Call(op) && (events[k].CallKilled? ==> events[k].op != op)
    && !CausedAt(op, trace, events, k, Report(op, StateAt(trace, k + 1)))
  }

  lemma CauseReports(w: World, bin: Binary, e: Event, s: State, marks: Marks, t: State, op: Op, id: string)
    requires Step(e, s, marks, t) && StateGood(w, bin, s) && (op.TakeFailed? || op.TakeApplied?)
    requires Causes(op, e, s, t, id)
    ensures Report(op, t) == id
  {
  }

  lemma FailureWaits(w: World, bin: Binary, e: Event, s: State, marks: Marks, t: State)
    requires Step(e, s, marks, t) && StateGood(w, bin, s) && IsLaunch(e) && t.failedToReport != s.failedToReport
    ensures Causes(TakeFailed, e, s, t, t.failedToReport)
  {
  }

  lemma ApplicationWaits(w: World, bin: Binary, e: Event, s: State, marks: Marks, t: State)
    requires Step(e, s, marks, t) && StateGood(w, bin, s) && IsLaunch(e) && t.appliedToReport != s.appliedToReport
    ensures Causes(TakeApplied, e, s, t, t.appliedToReport)
  {
  }

  lemma CallsLeaveReports(e: Event, s: State, marks: Marks, t: State, op: Op)
    requires Step(e, s, marks, t) && !IsLaunch(e) && (op.TakeFailed? || op.TakeApplied?)
    requires e != Call(op) && (e.CallKilled? ==> e.op != op)
    ensures Report(op, t) == Report(op, s)
  {
  }

  lemma ReportWaits(w: World, bin: Binary, e: Event, s: State, marks: Marks, t: State, op: Op)
    requires Step(e, s, marks, t) && StateGood(w, bin, s) && (op.TakeFailed? || op.TakeApplied?)
    requires e != Call(op) && (e.CallKilled? ==> e.op != op) && !Causes(op, e, s, t, Report(op, t))
    ensures Report(op, t) == Report(op, s)
  {
    if !IsLaunch(e) {
      CallsLeaveReports(e, s, marks, t, op);
    } else if op.TakeFailed? && t.failedToReport != s.failedToReport {
      FailureWaits(w, bin, e, s, marks, t);
    } else if op.TakeApplied? && t.appliedToReport != s.appliedToReport {
      ApplicationWaits(w, bin, e, s, marks, t);
    }
  }

  /** What a launch disabled or applied is what the next read returns, however long that takes. */
  lemma {:induction false} CauseIsReported(w: World, trace: seq<System>, events: seq<Event>, m: nat, n: nat, op: Op, id: string)
    requires Run(w, trace, events) && m < n <= |events| && (op.TakeFailed? || op.TakeApplied?)
    requires CausedAt(op, trace, events, m, id) && forall k | m < k < n :: NotReported(op, trace, events, k)
    ensures Report(op, StateAt(trace, n)) == id
  {
    RunIsHistory(w, trace, events);
    EveryRunIsGood(w, trace, events, n - 1);
    assert MovedAt(trace, events, n - 1);
    var e, s, t := events[n - 1], StateAt(trace, n - 1), StateAt(trace, n);
    if m < n - 1 {
      CauseIsReported(w, trace, events, m, n - 1, op, id);
      assert NotReported(op, trace, events, n - 1);
      ReportWaits(w, trace[n - 1].bin, e, s, trace[n - 1].disk.marks, t, op);
    } else {
      CauseReports(w, trace[m].bin, e, s, trace[m].disk.marks, t, op, id);
    }
  }
}
