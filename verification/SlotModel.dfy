/**
 The on-device slot machine as functions of what is on disk: `state.json`, `launch.json`, and the
 `bundles` and `staging` directories. `SlotStore` proves the store's methods against these
 functions; `SlotRuns` and `CrashLoops` prove what they mean over whole runs.
 */
module SlotModel {
  import opened Common

  const MAX_BOOT_ATTEMPTS := 2
  const STATE_SCHEMA := 2
  const BUNDLE_FILE := "index.android.bundle"

  /** The binary an app process runs: what a stored slot has to match to be loadable. */
  datatype Binary = Binary(runtimeVersion: string, nativeBuild: int)

  /** One slot of the saved state. `files` maps each path to the hash of its plaintext. */
  datatype Slot = Slot(
    bundleId: string,
    version: int,
    runtimeVersion: string,
    nativeBuild: Option<int>,
    bundleSha256: string,
    files: map<string, string>)

  datatype State = State(
    current: Option<Slot>,
    lastKnownGood: Option<Slot>,
    staged: Option<Slot>,
    pending: Option<Slot>,
    trial: bool,
    bootAttempts: int,
    userReload: bool,
    disabledBundles: seq<string>,
    failedToReport: string,
    appliedToReport: string)

  const FRESH := State(None, None, None, None, false, 0, false, [], "", "")

  /** `state.json` as a reader finds it. */
  datatype StateFile = Missing | Corrupt | Stored(schema: int, state: State)

  /** `state.json.tmp`: written in place, so a kill can leave it torn. */
  datatype TmpFile = NoTmp | Torn | Written(state: State)

  /** `launch.json`. An unreadable file reads as no marks. */
  datatype Marks = Marks(beacon: bool, paused: bool)

  const NO_MARKS := Marks(false, false)

  /** A directory: relative path to contents. */
  type Dir = map<string, Bytes>

  /** Everything the store keeps on disk. */
  datatype Image = Image(
    file: StateFile,
    tmp: TmpFile,
    marks: Marks,
    bundles: map<string, Dir>,
    staging: map<string, Dir>)

  // ---- reading and writing the state file --------------------------------

  function Load(f: StateFile): State {
    if f.Stored? && f.schema == STATE_SCHEMA then f.state else FRESH
  }

  /** A corrupt file is deleted when it is read. */
  function Read(i: Image): Image {
    if i.file.Corrupt? then i.(file := Missing) else i
  }

  function Save(i: Image, s: State): Image {
    i.(file := Stored(STATE_SCHEMA, s), tmp := NoTmp)
  }

  function CurrentVersion(s: State): int {
    if s.current.Some? then s.current.value.version else 0
  }

  // ---- operations of a running process -----------------------------------

  datatype Op = Promote | MarkHealthy | Rollback | UserReload | TakeFailed | TakeApplied | Beacon | Pause | ClearPause

  function Promoted(s: State): State {
    s.(pending := s.staged, staged := None)
  }

  function Healthy(s: State): State {
    s.(lastKnownGood := s.current, trial := false, bootAttempts := 0)
  }

  function RolledBack(s: State): State {
    s.(current := s.lastKnownGood, trial := false, bootAttempts := 0, pending := None)
  }

  /** What one operation leaves on disk when it runs to the end. */
  function Apply(op: Op, i: Image): Image {
    var r := Read(i);
    var s := Load(i.file);
    match op
    case Promote => if s.staged.Some? then Save(r, Promoted(s)) else r
    case MarkHealthy => if s.current.Some? then Save(r, Healthy(s)) else r
    case Rollback => Save(r, RolledBack(s))
    case UserReload => Save(r, s.(userReload := true))
    case TakeFailed => if s.failedToReport != "" then Save(r, s.(failedToReport := "")) else r
    case TakeApplied => if s.appliedToReport != "" then Save(r, s.(appliedToReport := "")) else r
    case Beacon => i.(marks := i.marks.(beacon := true))
    case Pause => i.(marks := i.marks.(paused := true))
    case ClearPause => i.(marks := i.marks.(paused := false))
  }

  // ---- committing a download ---------------------------------------------

  function StagingOf(i: Image, id: string): Dir {
    if id in i.staging then i.staging[id] else map[]
  }

  /** The staged directory holds every promised file, none of them empty. */
  predicate Complete(dir: Dir, files: map<string, string>) {
    forall p | p in files :: p in dir && |dir[p]| > 0
  }

  function Committed(i: Image, slot: Slot): Image {
    if Complete(StagingOf(i, slot.bundleId), slot.files) then
      Save(Read(Renamed(i, slot.bundleId)), Load(i.file).(staged := Some(slot)))
    else
      i.(staging := i.staging - {slot.bundleId})
  }

  lemma CommitPublishes(i: Image, slot: Slot)
    requires Complete(StagingOf(i, slot.bundleId), slot.files)
    ensures Committed(i, slot).bundles == i.bundles[slot.bundleId := StagingOf(i, slot.bundleId)]
    ensures Load(Committed(i, slot).file) == Load(i.file).(staged := Some(slot))
  {
  }

  // ---- launch ------------------------------------------------------------

  predicate Compatible(bin: Binary, s: Slot) {
    && s.runtimeVersion == bin.runtimeVersion
    && s.nativeBuild == Some(bin.nativeBuild)
  }

  function KeepCompatible(bin: Binary, o: Option<Slot>): Option<Slot> {
    if o.Some? && !Compatible(bin, o.value) then None else o
  }

  predicate AnyIncompatible(bin: Binary, s: State) {
    || KeepCompatible(bin, s.pending) != s.pending
    || KeepCompatible(bin, s.staged) != s.staged
    || KeepCompatible(bin, s.current) != s.current
    || KeepCompatible(bin, s.lastKnownGood) != s.lastKnownGood
  }

  function Dropped(bin: Binary, s: State): State {
    if AnyIncompatible(bin, s) then
      s.(pending := KeepCompatible(bin, s.pending), staged := KeepCompatible(bin, s.staged),
         current := KeepCompatible(bin, s.current), lastKnownGood := KeepCompatible(bin, s.lastKnownGood),
         trial := false, bootAttempts := 0)
    else s
  }

  function IdOf(o: Option<Slot>): set<string> {
    if o.Some? && o.value.bundleId != "" then {o.value.bundleId} else {}
  }

  /** The directories a sweep must leave alone. */
  function Keep(s: State): set<string> {
    IdOf(s.current) + IdOf(s.lastKnownGood) + IdOf(s.pending) + IdOf(s.staged)
  }

  function Restrict(m: map<string, Dir>, keep: set<string>): map<string, Dir> {
    map id | id in m && id in keep :: m[id]
  }

  function Swept(i: Image, s: State): Image {
    i.(bundles := Restrict(i.bundles, Keep(s)), staging := Restrict(i.staging, Keep(s)))
  }

  predicate Forgiven(m: Marks) {
    m.beacon && m.paused
  }

  /** The launch decision: the state to save, and the slot to boot, or none for the embedded bundle. */
  function Decide(s: State, userReload: bool, forgiven: bool): (State, Option<Slot>) {
    if s.pending.Some? then
      (s.(current := s.pending, pending := None, trial := true, bootAttempts := 1,
          appliedToReport := s.pending.value.bundleId),
       s.pending)
    else if s.current.None? then
      (s, None)
    else if s.trial then
      var attempts := if forgiven && s.bootAttempts > 0 then s.bootAttempts - 1 else s.bootAttempts;
      if attempts >= MAX_BOOT_ATTEMPTS then
        (s.(disabledBundles := Disable(s.disabledBundles, s.current.value.bundleId),
            failedToReport := s.current.value.bundleId,
            current := s.lastKnownGood, lastKnownGood := None,
            trial := s.lastKnownGood.Some?, bootAttempts := if s.lastKnownGood.Some? then 1 else 0),
         s.lastKnownGood)
      else
        (s.(bootAttempts := if userReload then attempts else attempts + 1), s.current)
    else
      (s, s.current)
  }

  function Disable(disabled: seq<string>, id: string): seq<string> {
    if id != "" && id !in disabled then disabled + [id] else disabled
  }

  /** The bundle id whose file is loaded, or none when there is no such file. */
  function BundlePath(i: Image, slot: Option<Slot>): Option<string> {
    if slot.Some? && slot.value.bundleId != "" && slot.value.bundleId in i.bundles
       && BUNDLE_FILE in i.bundles[slot.value.bundleId]
    then Some(slot.value.bundleId)
    else None
  }

  /** What launch finds after the incompatible slots are gone and the reload marker is consumed. */
  function Considered(bin: Binary, i: Image): State {
    Dropped(bin, Load(i.file)).(userReload := false)
  }

  function AfterDrop(bin: Binary, i: Image): Image {
    var s := Load(i.file);
    if AnyIncompatible(bin, s) then Save(Read(i), Dropped(bin, s)) else Read(i)
  }

  function LaunchDecision(bin: Binary, i: Image): (State, Option<Slot>) {
    Decide(Considered(bin, i), Load(i.file).userReload, Forgiven(i.marks))
  }

  function Launched(bin: Binary, i: Image): Image {
    Save(Swept(AfterDrop(bin, i).(marks := NO_MARKS), Considered(bin, i)), LaunchDecision(bin, i).0)
  }

  /** The bundle id the launch hands to the runtime; none is the embedded bundle. */
  function Booted(bin: Binary, i: Image): Option<string> {
    BundlePath(Launched(bin, i), LaunchDecision(bin, i).1)
  }

  // ---- what a kill inside an operation can leave -------------------------

  /** A kill before the state file is renamed over: only the temporary file differs. */
  ghost predicate SameButTmp(i: Image, left: Image) {
    left == i.(tmp := left.tmp)
  }

  ghost predicate ApplyMid(op: Op, i: Image, left: Image) {
    || SameButTmp(i, left)
    || SameButTmp(Read(i), left)
    || left == Apply(op, i)
    || ((op.Beacon? || op.Pause? || op.ClearPause?) && left == i.(marks := NO_MARKS))
  }

  /** `after` differs from `before` at `id` only. */
  ghost predicate SameExcept(before: map<string, Dir>, after: map<string, Dir>, id: string) {
    forall other | other != id :: (other in before <==> other in after) && (other in before ==> after[other] == before[other])
  }

  /** The staged directory has been renamed to its final name. */
  function Renamed(i: Image, id: string): Image {
    i.(bundles := i.bundles[id := StagingOf(i, id)], staging := i.staging - {id})
  }

  /** Some of the files of `whole`, unchanged. */
  predicate SubDir(part: Dir, whole: Dir) {
    forall p | p in part :: p in whole && part[p] == whole[p]
  }

  /** The directory `id` has lost files, or is gone; nothing else has changed. */
  ghost predicate Shrunk(before: map<string, Dir>, after: map<string, Dir>, id: string) {
    SameExcept(before, after, id) && (id in after ==> id in before && SubDir(after[id], before[id]))
  }

  /** The staging directory is there, empty if it was missing. */
  function Prepared(i: Image, id: string): Image {
    i.(staging := i.staging[id := StagingOf(i, id)])
  }

  ghost predicate CommitMid(i: Image, slot: Slot, left: Image) {
    var id := slot.bundleId;
    || left == i
    || left == Committed(i, slot)
    || (if Complete(StagingOf(i, id), slot.files) then
          // The old directory of that id is being deleted.
          || (left == Prepared(i, id).(bundles := left.bundles) && Shrunk(i.bundles, left.bundles, id))
          // Renamed into place; the state file is still the old one.
          || SameButTmp(Renamed(i, id), left)
          || SameButTmp(Read(Renamed(i, id)), left)
        else
          // The staged files are being dropped.
          left == Prepared(i, id).(staging := left.staging) && Shrunk(Prepared(i, id).staging, left.staging, id))
  }

  /** Nothing in `keep` has been touched, and nothing has appeared. */
  ghost predicate SweepMid(before: map<string, Dir>, after: map<string, Dir>, keep: set<string>) {
    && after.Keys <= before.Keys
    && forall id | id in before && id in keep :: id in after && after[id] == before[id]
  }

  lemma RestrictIsSweep(dirs: map<string, Dir>, keep: set<string>)
    ensures SweepMid(dirs, Restrict(dirs, keep), keep)
  {
  }

  lemma LaunchSweeps(bin: Binary, i: Image)
    ensures Launched(bin, i).bundles == Restrict(i.bundles, Keep(Considered(bin, i)))
    ensures SweepMid(i.bundles, Launched(bin, i).bundles, Keep(Considered(bin, i)))
  {
    RestrictIsSweep(i.bundles, Keep(Considered(bin, i)));
  }

  ghost predicate LaunchMid(bin: Binary, i: Image, left: Image) {
    var dropped := AfterDrop(bin, i);
    || SameButTmp(i, left)
    || SameButTmp(Read(i), left)
    || (&& left == dropped.(marks := left.marks, bundles := left.bundles, staging := left.staging, tmp := left.tmp)
        && (left.marks == i.marks || left.marks == NO_MARKS)
        && SweepMid(i.bundles, left.bundles, Keep(Considered(bin, i)))
        && SweepMid(i.staging, left.staging, Keep(Considered(bin, i))))
    || left == Launched(bin, i)
  }

  // ---- what a reader finds after a kill ----------------------------------

  lemma ApplyMidIsOldOrNew(op: Op, i: Image, left: Image)
    requires ApplyMid(op, i, left)
    ensures left == Apply(op, i) || (Load(left.file) == Load(i.file) && left.bundles == i.bundles)
  {
  }

  /** Until the state file is renamed over, only directories of the committed id change. */
  lemma CommitMidIsOldOrNew(i: Image, slot: Slot, left: Image)
    requires CommitMid(i, slot, left)
    ensures left == Committed(i, slot) || (Load(left.file) == Load(i.file) && SameExcept(i.bundles, left.bundles, slot.bundleId))
  {
    var at := Renamed(i, slot.bundleId);
    if SameButTmp(at, left) || SameButTmp(Read(at), left) {
      RenamingChangesNoState(i, slot.bundleId, left);
    }
  }

  lemma RenamingChangesNoState(i: Image, id: string, left: Image)
    requires SameButTmp(Renamed(i, id), left) || SameButTmp(Read(Renamed(i, id)), left)
    ensures Load(left.file) == Load(i.file) && SameExcept(i.bundles, left.bundles, id)
  {
  }

  lemma LaunchMidIsOldOrNew(bin: Binary, i: Image, left: Image)
    requires LaunchMid(bin, i, left)
    ensures || left == Launched(bin, i)
            || (Load(left.file) == Load(i.file) && left.bundles == i.bundles)
            || (&& Load(left.file) == Dropped(bin, Load(i.file))
                && SweepMid(i.bundles, left.bundles, Keep(Dropped(bin, Load(i.file)))))
  {
  }
}
