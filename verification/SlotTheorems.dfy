/** What the invariants of `SlotRuns` mean for users of a device, over whole runs. */
module SlotTheorems {
  import opened Common
  import opened SlotModel
  import opened SlotRuns

  ghost function StateAt(trace: seq<System>, n: nat): State
    requires n < |trace|
  {
    Load(trace[n].disk.file)
  }

  /** A run seen as the states a reader would load and the marks each launch would find. */
  ghost predicate History(trace: seq<System>, events: seq<Event>) {
    && |trace| == |events| + 1
    && StateAt(trace, 0) == FRESH
    && forall n | 0 <= n < |events| :: MovedAt(trace, events, n)
  }

  ghost predicate MovedAt(trace: seq<System>, events: seq<Event>, n: nat)
    requires n < |events| && |trace| == |events| + 1
  {
    Step(events[n], StateAt(trace, n), trace[n].disk.marks, StateAt(trace, n + 1))
  }

  predicate Step(e: Event, s: State, marks: Marks, t: State) {
    Moves(e, s, marks, t) && Counted(s) && Counted(t) && (IsLaunch(e) ==> WholeOrEmpty(e.bin, s))
  }

  predicate IsLaunch(e: Event) {
    e.Launch? || e.LaunchKilled?
  }

  lemma RunIsHistory(w: World, trace: seq<System>, events: seq<Event>)
    requires Run(w, trace, events)
    ensures History(trace, events)
  {
    forall n | 0 <= n < |events| ensures MovedAt(trace, events, n) {
      EveryRunIsGood(w, trace, events, n);
      assert StepAt(w, trace, events, n);
      GoodStep(w, trace[n], events[n]);
    }
  }

  lemma GoodStep(w: World, sys: System, e: Event)
    requires Good(w, sys) && Enabled(w, sys, e)
    ensures Step(e, Load(sys.disk.file), sys.disk.marks, Load(Next(w, sys, e).disk.file))
  {
    StateMoves(w, sys, e);
    StepKeepsGood(w, sys, e);
    if IsLaunch(e) {
      GoodIsWholeOrEmpty(w, sys, e.bin);
    }
  }

  // ---- what runs ---------------------------------------------------------

  /** A launch boots the bundle it records as current, or the embedded one; and no disabled bundle. */
  lemma LaunchBootsNoOtherBundle(w: World, trace: seq<System>, events: seq<Event>, n: nat)
    requires Run(w, trace, events) && n < |events| && events[n].Launch?
    ensures var s := StateAt(trace, n + 1); var running := trace[n + 1].running;
            running.Some? ==>
              && s.current.Some? && running == Some(s.current.value.bundleId)
              && Compatible(events[n].bin, s.current.value) && running.value !in s.disabledBundles
  {
    EveryRunIsGood(w, trace, events, n);
    assert StepAt(w, trace, events, n);
    LaunchKeepsGood(w, trace[n], events[n].bin);
  }

  /**
   A launch never falls back because a file is missing: it boots the bundle the saved state names,
   with the signed bytes, and boots the embedded bundle only when the state names none.
   */
  lemma LaunchBootsWhatTheStateNames(w: World, trace: seq<System>, events: seq<Event>, n: nat)
    requires Run(w, trace, events) && n < |events| && events[n].Launch? && Undisturbed(trace, events, n)
    ensures var s := StateAt(trace, n + 1); var running := trace[n + 1].running;
            && running == (if s.current.Some? then Some(s.current.value.bundleId) else None)
            && (running.Some? ==>
                  && Compatible(events[n].bin, s.current.value)
                  && running.value in trace[n + 1].disk.bundles
                  && var dir := trace[n + 1].disk.bundles[running.value];
                     var files := w.catalog(running.value).files;
                     BUNDLE_FILE in dir && BUNDLE_FILE in files && w.hash(dir[BUNDLE_FILE]) == files[BUNDLE_FILE])
  {
    EveryRunIsGood(w, trace, events, n);
    UndisturbedRunsAreWhole(w, trace, events, n);
    assert StepAt(w, trace, events, n);
    LaunchKeepsGood(w, trace[n], events[n].bin);
    LaunchKeepsWhole(w, trace[n], events[n].bin);
    var s := StateAt(trace, n + 1);
    assert s.current.Some? ==> s.current.value.bundleId in Needed(trace[n + 1]);
  }

  /** Between events the bundle a process runs is on disk, with every promised file. */
  lemma RunningBundleIsOnDisk(w: World, trace: seq<System>, events: seq<Event>, n: nat)
    requires Run(w, trace, events) && n < |trace| && trace[n].running.Some? && Undisturbed(trace, events, n)
    ensures OnDisk(w, trace[n].disk.bundles, trace[n].running.value)
  {
    UndisturbedRunsAreWhole(w, trace, events, n);
  }

  /** The images a live process passes through during an event; a launch begins after it has ended. */
  ghost predicate Inside(sys: System, e: Event, left: Image) {
    match e
    case Commit => sys.download.Some? && CommitMid(sys.disk, sys.download.value, left)
    case CommitKilled(_) => sys.download.Some? && CommitMid(sys.disk, sys.download.value, left)
    case Call(op) => ApplyMid(op, sys.disk, left)
    case CallKilled(op, _) => ApplyMid(op, sys.disk, left)
    case Assemble(_) => left == sys.disk.(staging := left.staging)
    case _ => left == sys.disk
  }

  /** A commit that goes through, of the bundle this process is running. */
  predicate ReplacesRunning(sys: System, e: Event) {
    && (e.Commit? || e.CommitKilled?)
    && sys.download.Some? && sys.running == Some(sys.download.value.bundleId)
    && Complete(StagingOf(sys.disk, sys.download.value.bundleId), sys.download.value.files)
  }

  lemma OtherBundlesStay(w: World, sys: System, e: Event, left: Image, id: string)
    requires Inside(sys, e, left) && OnDisk(w, sys.disk.bundles, id)
    requires sys.running == Some(id) && !ReplacesRunning(sys, e)
    ensures OnDisk(w, left.bundles, id)
  {
    match e
    case Call(op) =>
      ApplyMidIsOldOrNew(op, sys.disk, left);
      CallIsCalled(op, sys.disk);
    case CallKilled(op, _) =>
      ApplyMidIsOldOrNew(op, sys.disk, left);
      CallIsCalled(op, sys.disk);
    case _ =>
  }

  /** Just before the rename, the directory of a commit's own id is gone. */
  lemma ReplacedIsGone(sys: System, e: Event) returns (left: Image)
    requires ReplacesRunning(sys, e)
    ensures Inside(sys, e, left) && sys.running.value !in left.bundles
  {
    var id := sys.download.value.bundleId;
    left := Prepared(sys.disk, id).(bundles := sys.disk.bundles - {id});
    assert Shrunk(sys.disk.bundles, left.bundles, id);
  }

  /**
   At every moment of every event the bundle a process runs is whole on disk, if and only if the event is
   not a commit of that very bundle.
   */
  lemma RunningBundleStaysExactly(w: World, trace: seq<System>, events: seq<Event>, n: nat)
    requires Run(w, trace, events) && n < |events| && trace[n].running.Some? && Undisturbed(trace, events, n)
    ensures (forall left | Inside(trace[n], events[n], left) :: OnDisk(w, left.bundles, trace[n].running.value))
       <==> !ReplacesRunning(trace[n], events[n])
  {
    RunningBundleIsOnDisk(w, trace, events, n);
    if ReplacesRunning(trace[n], events[n]) {
      var left := ReplacedIsGone(trace[n], events[n]);
    } else {
      forall left | Inside(trace[n], events[n], left) ensures OnDisk(w, left.bundles, trace[n].running.value) {
        OtherBundlesStay(w, trace[n], events[n], left, trace[n].running.value);
      }
    }
  }

  lemma {:induction false} DisabledStaysDisabled(trace: seq<System>, events: seq<Event>, m: nat, n: nat, id: string)
    requires History(trace, events) && m <= n < |trace| && id in StateAt(trace, m).disabledBundles
    ensures id in StateAt(trace, n).disabledBundles
    decreases n
  {
    if m < n {
      DisabledStaysDisabled(trace, events, m, n - 1, id);
      assert MovedAt(trace, events, n - 1);
      DisabledGrows(events[n - 1], StateAt(trace, n - 1), trace[n - 1].disk.marks, StateAt(trace, n), id);
    }
  }

  lemma DisabledGrows(e: Event, s: State, marks: Marks, t: State, id: string)
    requires Step(e, s, marks, t) && id in s.disabledBundles
    ensures id in t.disabledBundles
  {
  }

  /** Once the breaker has disabled a bundle, no later process ever runs it. */
  lemma DisabledNeverRunsAgain(w: World, trace: seq<System>, events: seq<Event>, m: nat, n: nat, id: string)
    requires Run(w, trace, events) && m <= n < |trace| && id in StateAt(trace, m).disabledBundles
    ensures trace[n].running != Some(id)
    ensures var s := StateAt(trace, n);
            s.current.Some? ==> s.current.value.bundleId != id
  {
    RunIsHistory(w, trace, events);
    DisabledStaysDisabled(trace, events, m, n, id);
    EveryRunIsGood(w, trace, events, n);
  }

  /** Versions never go down on their own: last-known-good <= current < pending, everywhere. */
  lemma VersionsStayOrdered(w: World, trace: seq<System>, events: seq<Event>, n: nat)
    requires Run(w, trace, events) && n < |trace|
    ensures var s := StateAt(trace, n);
            && (s.lastKnownGood.Some? ==> s.current.Some? && s.lastKnownGood.value.version <= s.current.value.version)
            && (s.pending.Some? ==> s.pending.value.version > CurrentVersion(s))
            && (trace[n].alive ==> Dropped(trace[n].bin, s) == s)
  {
    EveryRunIsGood(w, trace, events, n);
  }

  // ---- the sweep ---------------------------------------------------------

  /** A launch keeps exactly the directories the found state names and this binary can load. */
  lemma SweepIsExact(bin: Binary, i: Image)
    ensures Launched(bin, i).bundles == Restrict(i.bundles, Keep(Considered(bin, i)))
    ensures Launched(bin, i).staging == Restrict(i.staging, Keep(Considered(bin, i)))
    ensures Keep(Considered(bin, i)) <= Keep(Load(i.file))
  {
  }

  lemma AtMostFourDirectories(bin: Binary, i: Image)
    ensures |Launched(bin, i).bundles| <= 4
  {
    SweepIsExact(bin, i);
    SetsOfFour(Considered(bin, i));
    SubsetIsSmaller(Launched(bin, i).bundles.Keys, Keep(Considered(bin, i)));
  }

  lemma SetsOfFour(s: State)
    ensures |Keep(s)| <= 4
  {
    UnionIsSmaller(IdOf(s.current), IdOf(s.lastKnownGood));
    UnionIsSmaller(IdOf(s.current) + IdOf(s.lastKnownGood), IdOf(s.pending));
    UnionIsSmaller(IdOf(s.current) + IdOf(s.lastKnownGood) + IdOf(s.pending), IdOf(s.staged));
  }

  lemma UnionIsSmaller(a: set<string>, b: set<string>)
    requires |b| <= 1
    ensures |a + b| <= |a| + 1
  {
    assert |a + b| == |a| + |b - a| by {
      assert a + b == a + (b - a);
    }
    SubsetIsSmaller(b - a, b);
  }

  lemma SubsetIsSmaller(a: set<string>, b: set<string>)
    requires a <= b
    ensures |a| <= |b|
  {
    assert b == a + (b - a);
  }

  /**
   Whatever a launch decides, even when it demotes the bundle that was current, that bundle's
   directory is still there afterwards, with every promised file.
   */
  lemma DemotedBundleOutlivesTheLaunch(w: World, trace: seq<System>, events: seq<Event>, n: nat)
    requires Run(w, trace, events) && n < |events| && events[n].Launch? && Undisturbed(trace, events, n)
    requires var s := StateAt(trace, n); s.current.Some? && Compatible(events[n].bin, s.current.value)
    ensures OnDisk(w, trace[n + 1].disk.bundles, StateAt(trace, n).current.value.bundleId)
  {
    EveryRunIsGood(w, trace, events, n);
    UndisturbedRunsAreWhole(w, trace, events, n);
    assert StepAt(w, trace, events, n);
    DropIsAllOrNothing(w, trace[n].bin, events[n].bin, StateAt(trace, n));
    assert StateAt(trace, n).current.value.bundleId in Needed(trace[n]);
    SweepIsExact(events[n].bin, trace[n].disk);
  }

  /**
   A killed commit either recorded its bundle as staged or left the saved state as it was; then the next
   launch removes what it renamed, unless a slot that this binary can load names it.
   */
  lemma OrphanIsSwept(w: World, sys: System, left: Image, bin: Binary)
    requires Enabled(w, sys, CommitKilled(left))
    ensures Load(left.file) == Load(sys.disk.file).(staged := sys.download) || Load(left.file) == Load(sys.disk.file)
    ensures var id := sys.download.value.bundleId; var named := id in Keep(Considered(bin, left));
            && (id in Launched(bin, left).bundles <==> id in left.bundles && named)
            && (id in Launched(bin, left).staging <==> id in left.staging && named)
            && (Load(left.file) == Load(sys.disk.file) && id !in Keep(Load(sys.disk.file)) ==> !named)
  {
    CommitMidIsOldOrNew(sys.disk, sys.download.value, left);
    SweepIsExact(bin, left);
  }

  // ---- the crash-loop breaker --------------------------------------------

  predicate OnTrial(s: State, slot: Slot) {
    s.trial && s.current == Some(slot)
  }

  /** The launch saw marks that do not show a user leaving a bundle that had reached its runtime. */
  predicate Unforgiven(e: Event, marks: Marks) {
    IsLaunch(e) && !Forgiven(marks)
  }

  /** And nobody had asked for it. */
  predicate Unexcused(e: Event, s: State, marks: Marks) {
    Unforgiven(e, marks) && !s.userReload
  }

  /** An attempt count of two was there before, or an unexcused launch of the same trial made it. */
  lemma SecondAttempt(e: Event, s: State, marks: Marks, t: State, slot: Slot)
    requires Step(e, s, marks, t)
    requires OnTrial(t, slot) && t.bootAttempts == MAX_BOOT_ATTEMPTS
    ensures OnTrial(s, slot) && (s.bootAttempts == MAX_BOOT_ATTEMPTS || Unexcused(e, s, marks))
  {
  }

  /** From launch `m` to point `n` one trial of `slot`, and nothing excused launch `m`. */
  ghost predicate ChargedSince(trace: seq<System>, events: seq<Event>, m: nat, n: nat, slot: Slot)
    requires m < |events| && n < |trace| == |events| + 1
  {
    Unexcused(events[m], StateAt(trace, m), trace[m].disk.marks) && forall k | m <= k <= n :: OnTrial(StateAt(trace, k), slot)
  }

  lemma {:induction false} SecondAttemptHasACause(trace: seq<System>, events: seq<Event>, n: nat, slot: Slot) returns (m: nat)
    requires History(trace, events) && n < |trace|
    requires OnTrial(StateAt(trace, n), slot) && StateAt(trace, n).bootAttempts == MAX_BOOT_ATTEMPTS
    ensures m < n && ChargedSince(trace, events, m, n, slot)
  {
    m := n - 1;
    assert MovedAt(trace, events, m);
    SecondAttempt(events[m], StateAt(trace, m), trace[m].disk.marks, StateAt(trace, n), slot);
    if !Unexcused(events[m], StateAt(trace, m), trace[m].disk.marks) {
      m := SecondAttemptHasACause(trace, events, m, slot);
    }
  }

  /** Exactly when a launch disables something. */
  lemma BreakerTripsExactly(w: World, sys: System, bin: Binary, id: string)
    requires Good(w, sys)
    ensures var s := Load(sys.disk.file); var next := Load(Launched(bin, sys.disk).file);
            id in next.disabledBundles && id !in s.disabledBundles <==>
              && s.pending.None? && s.trial && s.current.value.bundleId == id && Compatible(bin, s.current.value)
              && s.bootAttempts == MAX_BOOT_ATTEMPTS && !Forgiven(sys.disk.marks)
  {
    DropIsAllOrNothing(w, sys.bin, bin, Load(sys.disk.file));
  }

  /**
   A bundle is disabled only after two launches of one trial, both of which found that the process before them
   had not left both marks, and the first of which nobody had asked for.
   */
  lemma BreakerNeedsTwoUnforgivenEnds(w: World, trace: seq<System>, events: seq<Event>, n: nat, id: string)
    requires Run(w, trace, events) && n < |events|
    requires id in StateAt(trace, n + 1).disabledBundles && id !in StateAt(trace, n).disabledBundles
    ensures Unforgiven(events[n], trace[n].disk.marks)
    ensures exists m, slot: Slot | 0 <= m < n :: slot.bundleId == id && ChargedSince(trace, events, m, n, slot)
  {
    RunIsHistory(w, trace, events);
    assert MovedAt(trace, events, n);
    DisablingStep(events[n], StateAt(trace, n), trace[n].disk.marks, StateAt(trace, n + 1), id);
    var slot := StateAt(trace, n).current.value;
    var m := SecondAttemptHasACause(trace, events, n, slot);
  }

  lemma DisablingStep(e: Event, s: State, marks: Marks, t: State, id: string)
    requires Step(e, s, marks, t)
    requires id in t.disabledBundles && id !in s.disabledBundles
    ensures Unforgiven(e, marks) && s.bootAttempts == MAX_BOOT_ATTEMPTS
    ensures s.current.Some? && s.current.value.bundleId == id && OnTrial(s, s.current.value)
  {
  }

  // ---- one-shot reports --------------------------------------------------

  /** The field an operation reads and clears. */
  function Report(op: Op, s: State): string {
    if op.TakeFailed? then s.failedToReport else s.appliedToReport
  }

  /** The launch that has something to report: it disabled `id`, or it applied `id`. */
  predicate Causes(op: Op, e: Event, s: State, t: State, id: string) {
    && IsLaunch(e)
    && if op.TakeFailed? then s.trial && s.current.Some? && s.current.value.bundleId == id && id in t.disabledBundles
       else s.pending.Some? && s.pending.value.bundleId == id && t.current == s.pending && t.trial
  }

  ghost predicate CausedAt(op: Op, trace: seq<System>, events: seq<Event>, m: nat, id: string)
    requires m < |events| && |trace| == |events| + 1
  {
    Causes(op, events[m], StateAt(trace, m), StateAt(trace, m + 1), id)
  }

  lemma LaunchReportStep(e: Event, s: State, marks: Marks, t: State, op: Op)
    requires Step(e, s, marks, t) && IsLaunch(e)
    requires op.TakeFailed? || op.TakeApplied?
    requires Report(op, t) != ""
    ensures Report(op, t) == Report(op, s) || Causes(op, e, s, t, Report(op, t))
  {
  }

  lemma ReportStep(e: Event, s: State, marks: Marks, t: State, op: Op)
    requires Step(e, s, marks, t)
    requires op.TakeFailed? || op.TakeApplied?
    requires Report(op, t) != ""
    ensures (Report(op, t) == Report(op, s) && e != Call(op)) || Causes(op, e, s, t, Report(op, t))
  {
    if IsLaunch(e) {
      LaunchReportStep(e, s, marks, t, op);
    }
  }

  /** Every unread report was caused by one launch and has not been read since. */
  lemma {:induction false} ReportHasACause(trace: seq<System>, events: seq<Event>, n: nat, op: Op) returns (m: nat)
    requires History(trace, events) && n < |trace|
    requires op.TakeFailed? || op.TakeApplied?
    requires Report(op, StateAt(trace, n)) != ""
    ensures m < n && CausedAt(op, trace, events, m, Report(op, StateAt(trace, n)))
    ensures forall k | m < k < n :: events[k] != Call(op)
  {
    m := n - 1;
    assert MovedAt(trace, events, m);
    ReportStep(events[m], StateAt(trace, m), trace[m].disk.marks, StateAt(trace, n), op);
    if !CausedAt(op, trace, events, m, Report(op, StateAt(trace, n))) {
      m := ReportHasACause(trace, events, m, op);
    }
  }

  /** Two reads that return something have a launch between them that caused the second. */
  lemma ReportedOncePerCause(w: World, trace: seq<System>, events: seq<Event>, first: nat, second: nat, op: Op)
    requires Run(w, trace, events) && first < second < |events|
    requires op.TakeFailed? || op.TakeApplied?
    requires events[first] == Call(op) && events[second] == Call(op) && Report(op, StateAt(trace, second)) != ""
    ensures exists m | first < m < second :: CausedAt(op, trace, events, m, Report(op, StateAt(trace, second)))
  {
    RunIsHistory(w, trace, events);
    var m := ReportHasACause(trace, events, second, op);
  }

  // ---- promotion ---------------------------------------------------------

  /** Promotion keeps the state good exactly when the staged bundle is newer and not disabled. */
  lemma PromotionKeepsGoodExactly(w: World, sys: System)
    requires Good(w, sys) && Load(sys.disk.file).staged.Some?
    ensures var i := Apply(Promote, sys.disk);
            StateGood(w, sys.bin, Load(i.file)) <==> Promotable(Load(sys.disk.file), Load(sys.disk.file).staged.value)
  {
    CallIsCalled(Promote, sys.disk);
    if Promotable(Load(sys.disk.file), Load(sys.disk.file).staged.value) {
      PromotedIsGood(w, sys.bin, Load(sys.disk.file));
    }
  }

  /** The bundle is disabled, or its release is not newer than what is current. */
  predicate Stale(w: World, s: State, id: string) {
    id in s.disabledBundles || w.catalog(id).version <= CurrentVersion(s)
  }

  /**
   After a promotion the next launch boots what was staged; it boots a disabled or not newer bundle if and
   only if the promotion should have refused it.
   */
  lemma PromotionIsSafeExactly(w: World, sys: System)
    requires Good(w, sys) && Whole(w, sys) && Load(sys.disk.file).staged.Some?
    ensures var s := Load(sys.disk.file); var booted := Booted(sys.bin, Apply(Promote, sys.disk));
            && booted == Some(s.staged.value.bundleId)
            && (Stale(w, s, booted.value) <==> !Promotable(s, s.staged.value))
  {
    PromotionBootsTheStaged(w, sys);
  }

  lemma PromotionBootsTheStaged(w: World, sys: System)
    requires Good(w, sys) && Whole(w, sys) && Load(sys.disk.file).staged.Some?
    ensures Booted(sys.bin, Apply(Promote, sys.disk)) == Some(Load(sys.disk.file).staged.value.bundleId)
  {
    CallIsCalled(Promote, sys.disk);
    var i := Apply(Promote, sys.disk);
    assert Dropped(sys.bin, Load(i.file)) == Load(i.file);
    SweepIsExact(sys.bin, i);
    assert Load(sys.disk.file).staged.value.bundleId in Needed(sys);
  }
}
