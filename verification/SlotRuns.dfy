/**
 Whole runs of the device: launches, downloads, the calls of a running process, and kills at any
 point of any of them. One invariant, of the saved state, holds in every reachable state; another, of
 the disk, in every run without a kill in one window of a commit. The theorems after them are what they
 say about disk contents, versions and disabled bundles.
 */
module SlotRuns {
  import opened Common
  import opened SlotModel

  /** What the signed manifest of a bundle id promises. */
  datatype Release = Release(version: int, runtimeVersion: string, bundleSha256: string, files: map<string, string>)

  /** The file hash, and the one release each bundle id stands for. */
  datatype World = World(hash: Bytes -> string, catalog: string -> Release)

  datatype System = System(
    disk: Image,
    /** the binary of the last launch that finished dropping what it could not load. */
    bin: Binary,
    alive: bool,
    /** the download in flight: its gates have passed, its commit has not run. */
    download: Option<Slot>,
    /** whether this process itself committed what is staged. */
    armed: bool,
    /** the bundle this process booted; none is the embedded bundle. */
    running: Option<string>)

  datatype Event =
    | Launch(bin: Binary)
    | LaunchKilled(bin: Binary, left: Image)
    | Begin(bundleId: string)
    | Assemble(dir: Dir)
    | Commit
    | CommitKilled(left: Image)
    | Call(op: Op)
    | CallKilled(op: Op, left: Image)

  function SlotOf(w: World, id: string, bin: Binary): Slot {
    var r := w.catalog(id);
    Slot(id, r.version, r.runtimeVersion, Some(bin.nativeBuild), r.bundleSha256, r.files)
  }

  predicate SafeChar(c: char) {
    'A' <= c <= 'Z' || 'a' <= c <= 'z' || '0' <= c <= '9'
  }

  predicate SafeBundleId(id: string) {
    && 1 <= |id| <= 128
    && SafeChar(id[0])
    && forall n | 0 <= n < |id| :: SafeChar(id[n]) || id[n] in "._+-"
  }

  /** The gates a manifest passes before a download starts. */
  predicate Gate(s: State, bin: Binary, slot: Slot) {
    && slot.runtimeVersion == bin.runtimeVersion
    && slot.version > CurrentVersion(s)
    && SafeBundleId(slot.bundleId)
    && slot.bundleId !in s.disabledBundles
  }

  /** Whatever is in the directory under a promised path has the promised hash. */
  ghost predicate Verified(w: World, dir: Dir, files: map<string, string>) {
    forall p | p in files && p in dir :: w.hash(dir[p]) == files[p]
  }

  ghost predicate Enabled(w: World, sys: System, e: Event) {
    match e
    case Launch(_) => true
    case LaunchKilled(bin, left) => LaunchMid(bin, sys.disk, left)
    case Begin(id) => sys.alive && sys.download.None? && BUNDLE_FILE in w.catalog(id).files
    case Assemble(_) => sys.alive && sys.download.Some?
    case Commit => CanCommit(w, sys)
    case CommitKilled(left) =>
      CanCommit(w, sys) && CommitMid(sys.disk, sys.download.value, left)
    case Call(op) => CanCall(sys, op)
    case CallKilled(op, left) => CanCall(sys, op) && ApplyMid(op, sys.disk, left)
  }

  /** The assembly loop has run: every file it left under a promised path was verified. */
  ghost predicate CanCommit(w: World, sys: System) {
    && sys.alive && sys.download.Some?
    && Verified(w, StagingOf(sys.disk, sys.download.value.bundleId), sys.download.value.files)
  }

  /**
   A commit is replacing a directory that the saved state names: its first file is deleted, and the new
   directory has not taken its name.
   */
  ghost predicate InWindow(sys: System, left: Image)
    requires sys.download.Some?
  {
    var id := sys.download.value.bundleId;
    && id in Keep(Load(sys.disk.file))
    && left.bundles != sys.disk.bundles && left.bundles != Renamed(sys.disk, id).bundles
  }

  /** The kill that can leave a slot without its directory. */
  ghost predicate Disturbs(sys: System, e: Event) {
    e.CommitKilled? && sys.download.Some? && InWindow(sys, e.left)
  }

  /** No kill before `n` fell into that window. */
  ghost predicate Undisturbed(trace: seq<System>, events: seq<Event>, n: nat)
    requires n <= |events| <= |trace|
  {
    forall k | 0 <= k < n :: !Disturbs(trace[k], events[k])
  }

  /** A promotion follows a commit of the same process, or finds nothing staged. */
  ghost predicate CanCall(sys: System, op: Op) {
    sys.alive && (op.Promote? ==> sys.armed || Load(sys.disk.file).staged.None?)
  }

  ghost function Dead(sys: System, left: Image, bin: Binary): System {
    System(left, bin, false, None, false, None)
  }

  ghost function Next(w: World, sys: System, e: Event): System {
    match e
    case Launch(bin) => System(Launched(bin, sys.disk), bin, true, None, false, Booted(bin, sys.disk))
    case LaunchKilled(bin, left) =>
      // Until the drop is saved, the slots on disk still belong to the previous binary.
      Dead(sys, left, if Load(left.file) == Load(sys.disk.file) && AnyIncompatible(bin, Load(left.file)) then sys.bin else bin)
    case Begin(id) =>
      var slot := SlotOf(w, id, sys.bin);
      if Gate(Load(sys.disk.file), sys.bin, slot) then sys.(download := Some(slot)) else sys
    case Assemble(dir) =>
      if sys.download.None? then sys
      else sys.(disk := sys.disk.(staging := sys.disk.staging[sys.download.value.bundleId := dir]))
    case Commit =>
      if sys.download.None? then sys
      else
        var slot := sys.download.value;
        sys.(disk := Committed(sys.disk, slot), download := None,
             armed := sys.armed || Complete(StagingOf(sys.disk, slot.bundleId), slot.files))
    case CommitKilled(left) => Dead(sys, left, sys.bin)
    case Call(op) => sys.(disk := Apply(op, sys.disk), armed := sys.armed && !op.Promote?)
    case CallKilled(op, left) => Dead(sys, left, sys.bin)
  }

  /** A new install, or one whose state file is missing, unreadable or of another schema. */
  ghost predicate Initial(sys: System) {
    && Load(sys.disk.file) == FRESH
    && !sys.alive && sys.download.None? && !sys.armed && sys.running.None?
  }

  ghost predicate Run(w: World, trace: seq<System>, events: seq<Event>) {
    && |trace| == |events| + 1
    && Initial(trace[0])
    && forall n | 0 <= n < |events| :: StepAt(w, trace, events, n)
  }

  ghost predicate StepAt(w: World, trace: seq<System>, events: seq<Event>, n: nat)
    requires n < |events| && |trace| == |events| + 1
  {
    Enabled(w, trace[n], events[n]) && trace[n + 1] == Next(w, trace[n], events[n])
  }

  // ---- how the saved state moves -----------------------------------------

  /** The state after an operation, as a reader finds it. */
  function Called(op: Op, s: State): State {
    match op
    case Promote => if s.staged.Some? then Promoted(s) else s
    case MarkHealthy => if s.current.Some? then Healthy(s) else s
    case Rollback => RolledBack(s)
    case UserReload => s.(userReload := true)
    case TakeFailed => s.(failedToReport := "")
    case TakeApplied => s.(appliedToReport := "")
    case _ => s
  }

  lemma CallIsCalled(op: Op, i: Image)
    ensures Load(Apply(op, i).file) == Called(op, Load(i.file)) && Apply(op, i).bundles == i.bundles
  {
  }

  /** What an event does to the state a reader loads. */
  predicate Moves(e: Event, s: State, marks: Marks, t: State) {
    match e
    case Launch(bin) => t == DecidedState(bin, s, marks)
    case LaunchKilled(bin, _) => t == s || t == Dropped(bin, s) || t == DecidedState(bin, s, marks)
    case Commit => t == s.(staged := t.staged)
    case CommitKilled(_) => t == s.(staged := t.staged)
    case Call(op) => t == Called(op, s)
    case CallKilled(op, _) => t == s || t == Called(op, s)
    case _ => t == s
  }

  function DecidedState(bin: Binary, s: State, marks: Marks): State {
    Decide(Dropped(bin, s).(userReload := false), s.userReload, Forgiven(marks)).0
  }

  lemma StateMoves(w: World, sys: System, e: Event)
    requires Enabled(w, sys, e)
    ensures Moves(e, Load(sys.disk.file), sys.disk.marks, Load(Next(w, sys, e).disk.file))
  {
    match e
    case LaunchKilled(bin, left) => LaunchMidIsOldOrNew(bin, sys.disk, left);
    case CommitKilled(left) => CommitMidIsOldOrNew(sys.disk, sys.download.value, left);
    case Call(op) => CallIsCalled(op, sys.disk);
    case CallKilled(op, left) =>
      CallIsCalled(op, sys.disk);
      ApplyMidIsOldOrNew(op, sys.disk, left);
    case _ =>
  }

  // ---- the invariant: the saved state ------------------------------------

  /** The slot is what its bundle id stands for, was stamped by `bin`, and is loadable by it. */
  ghost predicate Genuine(w: World, bin: Binary, slot: Slot) {
    && slot == SlotOf(w, slot.bundleId, bin)
    && slot.bundleId != "" && slot.version > 0
    && Compatible(bin, slot)
    && BUNDLE_FILE in slot.files
  }

  ghost predicate SlotGood(w: World, bin: Binary, o: Option<Slot>) {
    o.Some? ==> Genuine(w, bin, o.value)
  }

  predicate NotDisabled(s: State, o: Option<Slot>) {
    o.Some? ==> o.value.bundleId !in s.disabledBundles
  }

  ghost predicate SlotsGood(w: World, bin: Binary, s: State) {
    SlotGood(w, bin, s.current) && SlotGood(w, bin, s.lastKnownGood) && SlotGood(w, bin, s.pending) && SlotGood(w, bin, s.staged)
  }

  /** Versions increase from last-known-good through current to pending. */
  predicate Ordered(s: State) {
    && (s.lastKnownGood.Some? ==> s.current.Some? && s.lastKnownGood.value.version <= s.current.value.version)
    && (s.lastKnownGood.Some? && s.trial ==> s.lastKnownGood.value.version < s.current.value.version)
    && (s.pending.Some? ==> CurrentVersion(s) < s.pending.value.version)
  }

  predicate NoneDisabled(s: State) {
    NotDisabled(s, s.current) && NotDisabled(s, s.lastKnownGood) && NotDisabled(s, s.pending)
  }

  predicate Counted(s: State) {
    0 <= s.bootAttempts <= MAX_BOOT_ATTEMPTS && (s.trial ==> s.current.Some?)
  }

  ghost predicate StateGood(w: World, bin: Binary, s: State) {
    SlotsGood(w, bin, s) && Ordered(s) && NoneDisabled(s) && Counted(s)
  }

  /** A slot that may become `pending` now. */
  predicate Promotable(s: State, slot: Slot) {
    slot.version > CurrentVersion(s) && slot.bundleId !in s.disabledBundles
  }

  /** What a running process relies on. */
  ghost predicate Session(w: World, sys: System, s: State) {
    && (sys.download.Some? ==> sys.alive && Genuine(w, sys.bin, sys.download.value) && Promotable(s, sys.download.value))
    && (sys.armed ==> sys.alive && (s.staged.Some? ==> Promotable(s, s.staged.value)))
    && (sys.running.Some? ==> sys.alive && sys.running.value !in s.disabledBundles)
  }

  ghost predicate Good(w: World, sys: System) {
    StateGood(w, sys.bin, Load(sys.disk.file)) && Session(w, sys, Load(sys.disk.file))
  }

  // ---- the invariant: the disk -------------------------------------------

  /** Every promised file is there, not empty, with the promised hash. */
  ghost predicate DirHolds(w: World, dir: Dir, files: map<string, string>) {
    forall p | p in files :: p in dir && |dir[p]| > 0 && w.hash(dir[p]) == files[p]
  }

  ghost predicate OnDisk(w: World, bundles: map<string, Dir>, id: string) {
    id in bundles && DirHolds(w, bundles[id], w.catalog(id).files)
  }

  ghost predicate NamedOnDisk(w: World, bundles: map<string, Dir>, named: set<string>) {
    forall id | id in named :: OnDisk(w, bundles, id)
  }

  /** The bundles that the saved state names, and the one that runs. */
  ghost function Needed(sys: System): set<string> {
    Keep(Load(sys.disk.file)) + if sys.running.Some? then {sys.running.value} else {}
  }

  ghost predicate Whole(w: World, sys: System) {
    NamedOnDisk(w, sys.disk.bundles, Needed(sys))
  }

  // ---- launch ------------------------------------------------------------

  /** All the slots were stamped by one binary, so another binary drops all of them. */
  lemma DropIsAllOrNothing(w: World, old_: Binary, bin: Binary, s: State)
    requires StateGood(w, old_, s)
    ensures Dropped(bin, s) == s || (Dropped(bin, s).current.None? && Dropped(bin, s).lastKnownGood.None?
                                     && Dropped(bin, s).pending.None? && Dropped(bin, s).staged.None?)
    ensures StateGood(w, bin, Dropped(bin, s))
    ensures Dropped(bin, s).disabledBundles == s.disabledBundles
    ensures !AnyIncompatible(bin, s) ==> StateGood(w, bin, s)
  {
  }

  /** Slots a launch can load, or none: seen from the state alone. */
  predicate WholeOrEmpty(bin: Binary, s: State) {
    || Dropped(bin, s) == s
    || (&& Dropped(bin, s).current.None? && Dropped(bin, s).pending.None?
        && Dropped(bin, s).lastKnownGood.None? && !Dropped(bin, s).trial)
  }

  lemma GoodIsWholeOrEmpty(w: World, sys: System, bin: Binary)
    requires Good(w, sys)
    ensures WholeOrEmpty(bin, Load(sys.disk.file))
  {
    DropIsAllOrNothing(w, sys.bin, bin, Load(sys.disk.file));
  }

  lemma ApplyingKeepsGood(w: World, bin: Binary, s: State)
    requires StateGood(w, bin, s) && s.pending.Some?
    ensures StateGood(w, bin, Decide(s, false, false).0)
  {
  }

  lemma RevertingKeepsGood(w: World, bin: Binary, s: State, disabled: seq<string>, failed: string)
    requires StateGood(w, bin, s) && s.pending.None? && s.trial
    requires forall id | id in disabled :: id in s.disabledBundles || id == s.current.value.bundleId
    ensures StateGood(w, bin,
              s.(disabledBundles := disabled, failedToReport := failed, current := s.lastKnownGood, lastKnownGood := None,
                 trial := s.lastKnownGood.Some?, bootAttempts := if s.lastKnownGood.Some? then 1 else 0))
  {
  }

  lemma DecideKeepsGood(w: World, bin: Binary, s: State, userReload: bool, forgiven: bool)
    requires StateGood(w, bin, s)
    ensures var (next, boot) := Decide(s, userReload, forgiven);
            && StateGood(w, bin, next)
            && boot == next.current && next.pending.None? && Keep(next) <= Keep(s)
            && forall id | id in s.disabledBundles :: id in next.disabledBundles
  {
    if s.pending.Some? {
      ApplyingKeepsGood(w, bin, s);
    } else if s.trial {
      RevertingKeepsGood(w, bin, s, Disable(s.disabledBundles, s.current.value.bundleId), s.current.value.bundleId);
    }
  }

  /** The launch saves the decision taken over what it kept. */
  lemma LaunchKeepsState(w: World, found: Binary, bin: Binary, i: Image)
    requires StateGood(w, found, Load(i.file))
    ensures var s := Load(Launched(bin, i).file);
            && StateGood(w, bin, s)
            && LaunchDecision(bin, i).1 == s.current && Keep(s) <= Keep(Considered(bin, i)) <= Keep(Load(i.file))
            && forall id | id in Load(i.file).disabledBundles :: id in s.disabledBundles
  {
    DropIsAllOrNothing(w, found, bin, Load(i.file));
    DecideKeepsGood(w, bin, Considered(bin, i), Load(i.file).userReload, Forgiven(i.marks));
  }

  /** What a launch boots is what it records as current, or the embedded bundle. */
  lemma LaunchKeepsGood(w: World, sys: System, bin: Binary)
    requires Good(w, sys)
    ensures Good(w, Next(w, sys, Launch(bin)))
    ensures var s := Load(Launched(bin, sys.disk).file); var booted := Booted(bin, sys.disk);
            booted.Some? ==> s.current.Some? && booted == Some(s.current.value.bundleId)
  {
    LaunchKeepsState(w, sys.bin, bin, sys.disk);
  }

  lemma SweepKeepsNamed(w: World, before: map<string, Dir>, after: map<string, Dir>, keep: set<string>, named: set<string>)
    requires SweepMid(before, after, keep) && NamedOnDisk(w, before, named) && keep <= named
    ensures NamedOnDisk(w, after, keep)
  {
    forall id | id in keep ensures OnDisk(w, after, id) {
      assert OnDisk(w, before, id);
    }
  }

  lemma FewerOnDisk(w: World, bundles: map<string, Dir>, named: set<string>, fewer: set<string>)
    requires NamedOnDisk(w, bundles, named) && fewer <= named
    ensures NamedOnDisk(w, bundles, fewer)
  {
  }

  /** Whatever bundles were named on disk are there afterwards, if they are still named. */
  lemma LaunchKeepsDirectories(w: World, found: Binary, bin: Binary, i: Image)
    requires StateGood(w, found, Load(i.file)) && NamedOnDisk(w, i.bundles, Keep(Load(i.file)))
    ensures NamedOnDisk(w, Launched(bin, i).bundles, Keep(Load(Launched(bin, i).file)))
  {
    LaunchKeepsState(w, found, bin, i);
    LaunchSweeps(bin, i);
    SweepKeepsNamed(w, i.bundles, Launched(bin, i).bundles, Keep(Considered(bin, i)), Keep(Load(i.file)));
    FewerOnDisk(w, Launched(bin, i).bundles, Keep(Considered(bin, i)), Keep(Load(Launched(bin, i).file)));
  }

  /** With everything on disk a launch boots exactly what it records as current. */
  lemma LaunchKeepsWhole(w: World, sys: System, bin: Binary)
    requires Good(w, sys) && Whole(w, sys)
    ensures Whole(w, Next(w, sys, Launch(bin)))
    ensures var s := Load(Launched(bin, sys.disk).file);
            Booted(bin, sys.disk) == if s.current.Some? then Some(s.current.value.bundleId) else None
  {
    LaunchKeepsState(w, sys.bin, bin, sys.disk);
    LaunchKeepsDirectories(w, sys.bin, bin, sys.disk);
    var s := Load(Launched(bin, sys.disk).file);
    if s.current.Some? {
      assert s.current.value.bundleId in Keep(s);
      assert OnDisk(w, Launched(bin, sys.disk).bundles, s.current.value.bundleId);
    }
  }

  lemma KilledLaunchKeepsGood(w: World, sys: System, bin: Binary, left: Image)
    requires Good(w, sys) && LaunchMid(bin, sys.disk, left)
    ensures Good(w, Next(w, sys, LaunchKilled(bin, left)))
  {
    LaunchMidIsOldOrNew(bin, sys.disk, left);
    DropIsAllOrNothing(w, sys.bin, bin, Load(sys.disk.file));
    LaunchKeepsState(w, sys.bin, bin, sys.disk);
  }

  lemma DroppingNamesNoMore(bin: Binary, s: State)
    ensures Keep(Dropped(bin, s)) <= Keep(s)
  {
  }

  lemma KilledLaunchKeepsWhole(w: World, sys: System, bin: Binary, left: Image)
    requires Good(w, sys) && Whole(w, sys) && LaunchMid(bin, sys.disk, left)
    ensures Whole(w, Next(w, sys, LaunchKilled(bin, left)))
  {
    var i := sys.disk;
    LaunchMidIsOldOrNew(bin, i, left);
    if left == Launched(bin, i) {
      LaunchKeepsDirectories(w, sys.bin, bin, i);
    } else if Load(left.file) != Load(i.file) || left.bundles != i.bundles {
      var keep, named := Keep(Dropped(bin, Load(i.file))), Keep(Load(i.file));
      DroppingNamesNoMore(bin, Load(i.file));
      SweepKeepsNamed(w, i.bundles, left.bundles, keep, named);
    }
  }

  // ---- downloads ---------------------------------------------------------

  lemma BundlesChangeAt(w: World, before: map<string, Dir>, after: map<string, Dir>, named: set<string>, id: string)
    requires NamedOnDisk(w, before, named) && SameExcept(before, after, id)
    ensures NamedOnDisk(w, after, named) <==> (id in named ==> OnDisk(w, after, id))
  {
    if id in named ==> OnDisk(w, after, id) {
      forall other | other in named ensures OnDisk(w, after, other) {
        assert OnDisk(w, before, other);
      }
    }
  }

  lemma CommitKeepsState(w: World, sys: System)
    requires Good(w, sys) && CanCommit(w, sys)
    ensures StateGood(w, sys.bin, Load(Committed(sys.disk, sys.download.value).file))
  {
  }

  lemma CommitKeepsGood(w: World, sys: System)
    requires Good(w, sys) && CanCommit(w, sys)
    ensures Good(w, Next(w, sys, Commit))
  {
    CommitKeepsState(w, sys);
  }

  lemma RenamedIsWhole(w: World, sys: System)
    requires Good(w, sys) && CanCommit(w, sys)
    requires Complete(StagingOf(sys.disk, sys.download.value.bundleId), sys.download.value.files)
    ensures OnDisk(w, Renamed(sys.disk, sys.download.value.bundleId).bundles, sys.download.value.bundleId)
  {
  }

  lemma RenamingKeepsNamed(w: World, sys: System, named: set<string>)
    requires Good(w, sys) && CanCommit(w, sys)
    requires Complete(StagingOf(sys.disk, sys.download.value.bundleId), sys.download.value.files)
    requires NamedOnDisk(w, sys.disk.bundles, named)
    ensures NamedOnDisk(w, Renamed(sys.disk, sys.download.value.bundleId).bundles, named + {sys.download.value.bundleId})
  {
    RenamedIsWhole(w, sys);
    var id := sys.download.value.bundleId;
    forall other | other in named && other != id ensures OnDisk(w, Renamed(sys.disk, id).bundles, other) {
      assert OnDisk(w, sys.disk.bundles, other);
    }
  }

  /** A finished commit puts its own directory there, or changes nothing. */
  lemma CommitKeepsWhole(w: World, sys: System)
    requires Good(w, sys) && Whole(w, sys) && CanCommit(w, sys)
    ensures Whole(w, Next(w, sys, Commit))
  {
    if Complete(StagingOf(sys.disk, sys.download.value.bundleId), sys.download.value.files) {
      RenamingKeepsNamed(w, sys, Needed(sys));
      CommitNeedsOneMore(w, sys);
      FewerOnDisk(w, Next(w, sys, Commit).disk.bundles, Needed(sys) + {sys.download.value.bundleId}, Needed(Next(w, sys, Commit)));
    }
  }

  lemma CommitNeedsOneMore(w: World, sys: System)
    requires sys.download.Some?
    ensures Needed(Next(w, sys, Commit)) <= Needed(sys) + {sys.download.value.bundleId}
  {
  }

  lemma KilledCommitKeepsGood(w: World, sys: System, left: Image)
    requires Good(w, sys) && Enabled(w, sys, CommitKilled(left))
    ensures Good(w, Next(w, sys, CommitKilled(left)))
  {
    CommitMidIsOldOrNew(sys.disk, sys.download.value, left);
    CommitKeepsState(w, sys);
  }

  /** The finished commit has its own directory whole, or it changed nothing. */
  lemma CommitIsWhole(w: World, sys: System)
    requires Good(w, sys) && Whole(w, sys) && CanCommit(w, sys) && sys.download.value.bundleId in Keep(Load(sys.disk.file))
    ensures OnDisk(w, Committed(sys.disk, sys.download.value).bundles, sys.download.value.bundleId)
  {
    assert OnDisk(w, sys.disk.bundles, sys.download.value.bundleId);
    if Complete(StagingOf(sys.disk, sys.download.value.bundleId), sys.download.value.files) {
      RenamedIsWhole(w, sys);
    }
  }

  /** A commit killed anywhere leaves everything named on disk exactly when the directory of its id, if named, is whole. */
  lemma KilledCommitIsSafeExactly(w: World, sys: System, left: Image)
    requires Good(w, sys) && Whole(w, sys) && CanCommit(w, sys) && CommitMid(sys.disk, sys.download.value, left)
    ensures Whole(w, Dead(sys, left, sys.bin)) <==>
              (sys.download.value.bundleId in Keep(Load(sys.disk.file)) ==> OnDisk(w, left.bundles, sys.download.value.bundleId))
  {
    var id := sys.download.value.bundleId;
    CommitMidIsOldOrNew(sys.disk, sys.download.value, left);
    if left == Committed(sys.disk, sys.download.value) {
      CommitKeepsWhole(w, sys);
      assert Needed(Dead(sys, left, sys.bin)) <= Needed(Next(w, sys, Commit));
      if id in Keep(Load(sys.disk.file)) {
        CommitIsWhole(w, sys);
      }
    } else {
      BundlesChangeAt(w, sys.disk.bundles, left.bundles, Keep(Load(sys.disk.file)), id);
    }
  }

  lemma IncompleteChangesNoBundle(sys: System, left: Image)
    requires sys.download.Some? && CommitMid(sys.disk, sys.download.value, left)
    requires !Complete(StagingOf(sys.disk, sys.download.value.bundleId), sys.download.value.files)
    ensures left.bundles == sys.disk.bundles
  {
  }

  lemma OutsideTheWindowIsWhole(w: World, sys: System, left: Image)
    requires Good(w, sys) && Whole(w, sys) && Enabled(w, sys, CommitKilled(left)) && !InWindow(sys, left)
    ensures Whole(w, Dead(sys, left, sys.bin))
  {
    var id := sys.download.value.bundleId;
    if id in Keep(Load(sys.disk.file)) {
      assert OnDisk(w, sys.disk.bundles, id);
      if Complete(StagingOf(sys.disk, id), sys.download.value.files) {
        RenamedIsWhole(w, sys);
      } else {
        IncompleteChangesNoBundle(sys, left);
      }
    }
    KilledCommitIsSafeExactly(w, sys, left);
  }

  // ---- calls -------------------------------------------------------------

  lemma SessionSurvives(w: World, sys: System, s: State, next: State)
    requires Session(w, sys, s)
    requires CurrentVersion(next) <= CurrentVersion(s) && next.disabledBundles == s.disabledBundles
    requires next.staged == s.staged || next.staged.None?
    ensures Session(w, sys, next)
  {
  }

  lemma PromotedIsGood(w: World, bin: Binary, s: State)
    requires StateGood(w, bin, s) && s.staged.Some? && Promotable(s, s.staged.value)
    ensures StateGood(w, bin, Promoted(s))
  {
  }

  lemma HealthyIsGood(w: World, bin: Binary, s: State)
    requires StateGood(w, bin, s) && s.current.Some?
    ensures StateGood(w, bin, Healthy(s)) && CurrentVersion(Healthy(s)) == CurrentVersion(s)
  {
  }

  lemma RolledBackIsGood(w: World, bin: Binary, s: State)
    requires StateGood(w, bin, s)
    ensures StateGood(w, bin, RolledBack(s)) && CurrentVersion(RolledBack(s)) <= CurrentVersion(s)
  {
  }

  lemma CalledIsGood(w: World, bin: Binary, s: State, op: Op)
    requires StateGood(w, bin, s)
    requires op.Promote? && s.staged.Some? ==> Promotable(s, s.staged.value)
    ensures StateGood(w, bin, Called(op, s))
    ensures CurrentVersion(Called(op, s)) <= CurrentVersion(s) && Called(op, s).disabledBundles == s.disabledBundles
    ensures Called(op, s).staged == s.staged || Called(op, s).staged.None?
  {
    if op.Promote? && s.staged.Some? {
      PromotedIsGood(w, bin, s);
    } else if op.MarkHealthy? && s.current.Some? {
      HealthyIsGood(w, bin, s);
    } else if op.Rollback? {
      RolledBackIsGood(w, bin, s);
    }
  }

  lemma CallNamesNoMore(op: Op, s: State)
    ensures Keep(Called(op, s)) <= Keep(s)
  {
  }

  lemma CallKeepsGood(w: World, sys: System, op: Op)
    requires Good(w, sys) && CanCall(sys, op)
    ensures Good(w, Next(w, sys, Call(op)))
  {
    var s := Load(sys.disk.file);
    CallIsCalled(op, sys.disk);
    CalledIsGood(w, sys.bin, s, op);
    SessionSurvives(w, sys, s, Called(op, s));
  }

  lemma KilledCallKeepsGood(w: World, sys: System, op: Op, left: Image)
    requires Good(w, sys) && CanCall(sys, op) && ApplyMid(op, sys.disk, left)
    ensures Good(w, Next(w, sys, CallKilled(op, left)))
  {
    ApplyMidIsOldOrNew(op, sys.disk, left);
    CallIsCalled(op, sys.disk);
    CalledIsGood(w, sys.bin, Load(sys.disk.file), op);
  }

  /** Calls, finished or killed, touch no bundle and name no other one. */
  lemma CallKeepsWhole(w: World, sys: System, op: Op)
    requires Whole(w, sys)
    ensures Whole(w, Next(w, sys, Call(op)))
  {
    CallIsCalled(op, sys.disk);
    CallNamesNoMore(op, Load(sys.disk.file));
  }

  lemma KilledCallNamesNoMore(op: Op, i: Image, left: Image)
    requires ApplyMid(op, i, left)
    ensures left.bundles == i.bundles && Keep(Load(left.file)) <= Keep(Load(i.file))
  {
    ApplyMidIsOldOrNew(op, i, left);
    if left == Apply(op, i) {
      CallIsCalled(op, i);
      CallNamesNoMore(op, Load(i.file));
    }
  }

  lemma KilledCallKeepsWhole(w: World, sys: System, op: Op, left: Image)
    requires Whole(w, sys) && ApplyMid(op, sys.disk, left)
    ensures Whole(w, Next(w, sys, CallKilled(op, left)))
  {
    KilledCallNamesNoMore(op, sys.disk, left);
    LessIsWhole(w, sys, left);
  }

  /** A kill that leaves the bundles alone and the state naming no more of them leaves them whole. */
  lemma LessIsWhole(w: World, sys: System, left: Image)
    requires Whole(w, sys) && left.bundles == sys.disk.bundles && Keep(Load(left.file)) <= Keep(Load(sys.disk.file))
    ensures Whole(w, Dead(sys, left, sys.bin))
  {
    FewerOnDisk(w, left.bundles, Needed(sys), Needed(Dead(sys, left, sys.bin)));
  }

  // ---- every run ---------------------------------------------------------

  lemma StepKeepsGood(w: World, sys: System, e: Event)
    requires Good(w, sys) && Enabled(w, sys, e)
    ensures Good(w, Next(w, sys, e))
  {
    match e
    case Launch(bin) => LaunchKeepsGood(w, sys, bin);
    case LaunchKilled(bin, left) => KilledLaunchKeepsGood(w, sys, bin, left);
    case Begin(_) =>
    case Assemble(_) =>
    case Commit => CommitKeepsGood(w, sys);
    case CommitKilled(left) => KilledCommitKeepsGood(w, sys, left);
    case Call(op) => CallKeepsGood(w, sys, op);
    case CallKilled(op, left) => KilledCallKeepsGood(w, sys, op, left);
  }

  lemma StepKeepsWhole(w: World, sys: System, e: Event)
    requires Good(w, sys) && Whole(w, sys) && Enabled(w, sys, e) && !Disturbs(sys, e)
    ensures Whole(w, Next(w, sys, e))
  {
    match e
    case Launch(bin) => LaunchKeepsWhole(w, sys, bin);
    case LaunchKilled(bin, left) => KilledLaunchKeepsWhole(w, sys, bin, left);
    case Begin(_) =>
    case Assemble(_) =>
    case Commit => CommitKeepsWhole(w, sys);
    case CommitKilled(left) => OutsideTheWindowIsWhole(w, sys, left);
    case Call(op) => CallKeepsWhole(w, sys, op);
    case CallKilled(op, left) => KilledCallKeepsWhole(w, sys, op, left);
  }

  /** The saved state is good in every reachable state, whatever was killed on the way. */
  lemma {:induction false} EveryRunIsGood(w: World, trace: seq<System>, events: seq<Event>, n: nat)
    requires Run(w, trace, events) && n < |trace|
    ensures Good(w, trace[n])
  {
    if n > 0 {
      EveryRunIsGood(w, trace, events, n - 1);
      assert StepAt(w, trace, events, n - 1);
      StepKeepsGood(w, trace[n - 1], events[n - 1]);
    }
  }

  lemma EventKeepsWhole(w: World, trace: seq<System>, events: seq<Event>, n: nat, m: nat)
    requires Run(w, trace, events) && n < m <= |events| && Undisturbed(trace, events, m)
    requires Whole(w, trace[n])
    ensures Whole(w, trace[n + 1])
  {
    EveryRunIsGood(w, trace, events, n);
    assert StepAt(w, trace, events, n);
    StepKeepsWhole(w, trace[n], events[n]);
  }

  lemma InitialIsWhole(w: World, sys: System)
    requires Initial(sys)
    ensures Whole(w, sys)
  {
  }

  lemma {:induction false} WholeUntil(w: World, trace: seq<System>, events: seq<Event>, n: nat, m: nat)
    requires Run(w, trace, events) && n <= m < |trace| && Undisturbed(trace, events, m)
    ensures Whole(w, trace[n])
  {
    if n == 0 {
      InitialIsWhole(w, trace[0]);
    } else {
      WholeUntil(w, trace, events, n - 1, m);
      EventKeepsWhole(w, trace, events, n - 1, m);
    }
  }

  /** And what it names is on disk, unless a kill fell into the window of a commit. */
  lemma UndisturbedRunsAreWhole(w: World, trace: seq<System>, events: seq<Event>, n: nat)
    requires Run(w, trace, events) && n < |trace| && Undisturbed(trace, events, n)
    ensures Whole(w, trace[n])
  {
    WholeUntil(w, trace, events, n, n);
  }
}
