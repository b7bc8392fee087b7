/**
 The slot store itself: every method loads the saved state, updates it step by step and saves it,
 and every single write to the disk is recorded, so the contracts can speak about a kill between
 any two of them.
 */
module SlotStore {
  import opened Common
  import opened SlotModel

  datatype CommitResult = Ok | MissingFiles(missing: set<string>)

  /** The two directories whose entries are directories of files. */
  datatype Root = Bundles | Staging

  /** The four slot keys, in the order the store walks them when it drops incompatible slots. */
  datatype Key = Pending | Staged | Current | LastKnownGood

  const KEYS := [Pending, Staged, Current, LastKnownGood]

  function Get(s: State, k: Key): Option<Slot> {
    match k
    case Pending => s.pending
    case Staged => s.staged
    case Current => s.current
    case LastKnownGood => s.lastKnownGood
  }

  function Put(s: State, k: Key, o: Option<Slot>): State {
    match k
    case Pending => s.(pending := o)
    case Staged => s.(staged := o)
    case Current => s.(current := o)
    case LastKnownGood => s.(lastKnownGood := o)
  }

  function At(i: Image, root: Root): map<string, Dir> {
    if root.Bundles? then i.bundles else i.staging
  }

  function WithRoot(i: Image, root: Root, dirs: map<string, Dir>): Image {
    if root.Bundles? then i.(bundles := dirs) else i.(staging := dirs)
  }

  /** Every slot the saved state names is complete on disk. */
  ghost predicate SlotsComplete(i: Image) {
    var s := Load(i.file);
    && SlotComplete(i, s.current)
    && SlotComplete(i, s.lastKnownGood)
    && SlotComplete(i, s.pending)
    && SlotComplete(i, s.staged)
  }

  ghost predicate SlotComplete(i: Image, o: Option<Slot>) {
    o.Some? ==> o.value.bundleId in i.bundles && Complete(i.bundles[o.value.bundleId], o.value.files)
  }

  /** Every named slot has a name and promises at least one file. */
  ghost predicate SlotsPromise(s: State) {
    && SlotPromises(s.current)
    && SlotPromises(s.lastKnownGood)
    && SlotPromises(s.pending)
    && SlotPromises(s.staged)
  }

  ghost predicate SlotPromises(o: Option<Slot>) {
    o.Some? ==> o.value.bundleId != "" && o.value.files != map[]
  }

  class DashOtaStore {
    var file: StateFile
    var tmp: TmpFile
    var marks: Marks
    var bundles: map<string, Dir>
    var staging: map<string, Dir>
    /** What was on disk after each write, oldest first: a kill leaves one of these. */
    ghost var log: seq<Image>

    constructor (found: Image)
      ensures Disk() == found && log == []
    {
      file, tmp, marks, bundles, staging := found.file, found.tmp, found.marks, found.bundles, found.staging;
      log := [];
    }

    ghost function Disk(): Image
      reads this
    {
      Image(file, tmp, marks, bundles, staging)
    }

    ghost method Record()
      modifies this`log
      ensures log == old(log) + [Disk()]
    {
      log := log + [Disk()];
    }

    // ---- state.json ------------------------------------------------------

    method LoadState() returns (s: State)
      modifies this`file, this`log
      ensures s == Load(old(file)) && Disk() == Read(old(Disk()))
      ensures s == if old(file).Stored? && old(file).schema == 2 then old(file).state else FRESH
      ensures log == if old(file).Corrupt? then old(log) + [Disk()] else old(log)
    {
      if file.Corrupt? {
        file := Missing;
        Record();
        return FRESH;
      }
      if file.Stored? && file.schema == STATE_SCHEMA {
        return file.state;
      }
      return FRESH;
    }

    /** Write the temporary file, then rename it over the old state. */
    method SaveState(s: State)
      modifies this`file, this`tmp, this`log
      ensures Disk() == Save(old(Disk()), s)
      ensures log == old(log) + [old(Disk()).(tmp := Torn), old(Disk()).(tmp := Written(s)), Disk()]
    {
      tmp := Torn;
      Record();
      tmp := Written(s);
      Record();
      file, tmp := Stored(STATE_SCHEMA, s), NoTmp;
      Record();
    }

    // ---- operations of a running process ---------------------------------

    method PromoteStagedToPending() returns (promoted: bool)
      modifies this`file, this`tmp, this`log
      ensures promoted == Load(old(file)).staged.Some?
      ensures Load(file) == if promoted then Load(old(file)).(pending := Load(old(file)).staged, staged := None) else Load(old(file))
      ensures Disk() == Apply(Promote, old(Disk()))
      ensures old(log) <= log
      ensures forall n | |old(log)| <= n < |log| :: ApplyMid(Promote, old(Disk()), log[n])
    {
      var state := LoadState();
      if state.staged.None? {
        return false;
      }
      state := state.(pending := state.staged);
      state := state.(staged := None);
      SaveState(state);
      return true;
    }

    method MarkHealthy()
      modifies this`file, this`tmp, this`log
      ensures Disk() == Apply(Op.MarkHealthy, old(Disk()))
      ensures var was := Load(old(file));
              Load(file) == if was.current.Some? then was.(lastKnownGood := was.current, trial := false, bootAttempts := 0) else was
      ensures old(log) <= log
      ensures forall n | |old(log)| <= n < |log| :: ApplyMid(Op.MarkHealthy, old(Disk()), log[n])
    {
      var state := LoadState();
      if state.current.None? {
        return;
      }
      state := state.(lastKnownGood := state.current);
      state := state.(trial := false);
      state := state.(bootAttempts := 0);
      SaveState(state);
    }

    method Rollback()
      modifies this`file, this`tmp, this`log
      ensures Disk() == Apply(Op.Rollback, old(Disk()))
      ensures var was := Load(old(file));
              Load(file) == was.(current := was.lastKnownGood, pending := None, trial := false, bootAttempts := 0)
      ensures old(log) <= log
      ensures forall n | |old(log)| <= n < |log| :: ApplyMid(Op.Rollback, old(Disk()), log[n])
    {
      var state := LoadState();
      state := state.(current := state.lastKnownGood);
      state := state.(trial := false);
      state := state.(bootAttempts := 0);
      state := state.(pending := None);
      SaveState(state);
    }

    method MarkUserReload()
      modifies this`file, this`tmp, this`log
      ensures Disk() == Apply(UserReload, old(Disk())) && Load(file) == Load(old(file)).(userReload := true)
      ensures old(log) <= log
      ensures forall n | |old(log)| <= n < |log| :: ApplyMid(UserReload, old(Disk()), log[n])
    {
      var state := LoadState();
      SaveState(state.(userReload := true));
    }

    method ConsumeFailedReport() returns (failed: string)
      modifies this`file, this`tmp, this`log
      ensures failed == Load(old(file)).failedToReport && Load(file) == Load(old(file)).(failedToReport := "")
      ensures Disk() == Apply(TakeFailed, old(Disk()))
      ensures old(log) <= log
      ensures forall n | |old(log)| <= n < |log| :: ApplyMid(TakeFailed, old(Disk()), log[n])
    {
      var state := LoadState();
      failed := state.failedToReport;
      if failed != "" {
        SaveState(state.(failedToReport := ""));
      }
    }

    method ConsumeAppliedReport() returns (applied: string)
      modifies this`file, this`tmp, this`log
      ensures applied == Load(old(file)).appliedToReport && Load(file) == Load(old(file)).(appliedToReport := "")
      ensures Disk() == Apply(TakeApplied, old(Disk()))
      ensures old(log) <= log
      ensures forall n | |old(log)| <= n < |log| :: ApplyMid(TakeApplied, old(Disk()), log[n])
    {
      var state := LoadState();
      applied := state.appliedToReport;
      if applied != "" {
        SaveState(state.(appliedToReport := ""));
      }
    }

    // ---- launch.json -----------------------------------------------------

    /** Rewrite the marks in place; until the write is complete the file is unreadable. */
    method WriteMarks(m: Marks)
      modifies this`marks, this`log
      ensures Disk() == old(Disk()).(marks := m)
      ensures log == old(log) + [old(Disk()).(marks := NO_MARKS), Disk()]
    {
      marks := NO_MARKS;
      Record();
      marks := m;
      Record();
    }

    method MarkBeacon()
      modifies this`marks, this`log
      ensures Disk() == Apply(Beacon, old(Disk()))
      ensures old(log) <= log
      ensures forall n | |old(log)| <= n < |log| :: ApplyMid(Beacon, old(Disk()), log[n])
    {
      if marks.beacon {
        return;
      }
      WriteMarks(marks.(beacon := true));
    }

    method MarkPaused()
      modifies this`marks, this`log
      ensures Disk() == Apply(Pause, old(Disk()))
      ensures old(log) <= log
      ensures forall n | |old(log)| <= n < |log| :: ApplyMid(Pause, old(Disk()), log[n])
    {
      if marks.paused {
        return;
      }
      WriteMarks(marks.(paused := true));
    }

    method ClearPaused()
      modifies this`marks, this`log
      ensures Disk() == Apply(ClearPause, old(Disk()))
      ensures old(log) <= log
      ensures forall n | |old(log)| <= n < |log| :: ApplyMid(ClearPause, old(Disk()), log[n])
    {
      if !marks.paused {
        return;
      }
      WriteMarks(marks.(paused := false));
    }

    /** What the last process recorded about itself; this one starts with a clean file. */
    method ConsumeLaunchMarks() returns (m: Marks)
      modifies this`marks, this`log
      ensures m == old(marks) && Disk() == old(Disk()).(marks := NO_MARKS)
      ensures log == old(log) + [Disk()]
    {
      m := marks;
      marks := NO_MARKS;
      Record();
    }

    // ---- directories -----------------------------------------------------

    method Write(root: Root, dirs: map<string, Dir>)
      modifies this`bundles, this`staging, this`log
      ensures Disk() == WithRoot(old(Disk()), root, dirs)
      ensures log == old(log) + [Disk()]
    {
      if root.Bundles? {
        bundles := dirs;
      } else {
        staging := dirs;
      }
      Record();
    }

    method List(root: Root) returns (dirs: map<string, Dir>)
      ensures dirs == At(Disk(), root)
    {
      return if root.Bundles? then bundles else staging;
    }

    /** Delete the files of a directory one at a time, in any order, and then the directory. */
    method DeleteRecursively(root: Root, name: string)
      requires name in At(Disk(), root)
      modifies this`bundles, this`staging, this`log
      ensures Disk() == WithRoot(old(Disk()), root, At(old(Disk()), root) - {name})
      ensures old(log) < log && log[|log| - 1] == Disk()
      ensures forall n | |old(log)| <= n < |log| :: Deleting(old(Disk()), root, name, log[n])
    {
      var dirs := List(root);
      ghost var before := Disk();
      while dirs[name].Keys != {}
        invariant name in dirs && Shrunk(At(before, root), dirs, name) && Disk() == WithRoot(before, root, dirs)
        invariant old(log) <= log
        invariant forall n | |old(log)| <= n < |log| :: Deleting(before, root, name, log[n])
        decreases |dirs[name].Keys|
      {
        var path :| path in dirs[name];
        OneFileLess(At(before, root), dirs, name, path);
        dirs := dirs[name := dirs[name] - {path}];
        Write(root, dirs);
      }
      dirs := dirs - {name};
      DirectoryGone(before, root, name, Disk());
      Write(root, dirs);
    }

    /** Sweep one root: delete every directory whose name is not in `keep`. */
    method Sweep(root: Root, keep: set<string>)
      modifies this`bundles, this`staging, this`log
      ensures Disk() == WithRoot(old(Disk()), root, Restrict(At(old(Disk()), root), keep))
      ensures old(log) <= log
      ensures forall n | |old(log)| <= n < |log| :: SweepingOne(old(Disk()), root, keep, log[n])
    {
      var listing := List(root);
      ghost var before := Disk();
      var names := listing.Keys;
      while names != {}
        invariant names <= listing.Keys && SweepingOne(before, root, keep, Disk())
        invariant forall id | id in At(Disk(), root) :: id in names || id in keep
        invariant forall id | id in names :: id in At(Disk(), root)
        invariant old(log) <= log
        invariant forall n | |old(log)| <= n < |log| :: SweepingOne(before, root, keep, log[n])
        decreases |names|
      {
        var name :| name in names;
        names := names - {name};
        if name !in keep {
          ghost var reached, start := Disk(), |log|;
          DeleteRecursively(root, name);
          forall n | start <= n < |log| ensures SweepingOne(before, root, keep, log[n]) {
            DeletingIsSweeping(before, keep, reached, root, name, log[n]);
          }
        }
      }
      SweptIsRestricted(before, root, keep, Disk());
    }

    method Gc(s: State)
      modifies this`bundles, this`staging, this`log
      ensures Disk() == Swept(old(Disk()), s)
      ensures old(log) <= log
      ensures forall n | |old(log)| <= n < |log| :: Sweeping(old(Disk()), Keep(s), log[n])
    {
      var keep := Keep(s);
      Sweep(Bundles, keep);
      Sweep(Staging, keep);
    }

    // ---- commit ----------------------------------------------------------

    method StagingDir(bundleId: string) returns (dir: Dir)
      modifies this`staging, this`log
      ensures dir == StagingOf(old(Disk()), bundleId)
      ensures Disk() == old(Disk()).(staging := old(staging)[bundleId := dir])
      ensures log == old(log) || log == old(log) + [Disk()]
    {
      if bundleId !in staging {
        staging := staging[bundleId := map[]];
        Record();
      }
      assert staging == old(staging)[bundleId := staging[bundleId]];
      return staging[bundleId];
    }

    /** Delete the old directory of that id, if there is one, and rename the staged one to its name. */
    method MoveIntoPlace(bundleId: string)
      requires bundleId in staging
      modifies this`bundles, this`staging, this`log
      ensures Disk() == Renamed(old(Disk()), bundleId)
      ensures old(log) < log && log[|log| - 1] == Disk()
      ensures forall n | |old(log)| <= n < |log| - 1 :: Deleting(old(Disk()), Bundles, bundleId, log[n])
      ensures bundleId in old(bundles) ==> |log| >= |old(log)| + 2 && bundleId !in log[|log| - 2].bundles
    {
      if bundleId in bundles {
        DeleteRecursively(Bundles, bundleId);
      }
      bundles, staging := bundles[bundleId := staging[bundleId]], staging - {bundleId};
      Record();
      assert bundles == old(bundles)[bundleId := old(staging)[bundleId]];
    }

    method CommitStaged(bin: Binary, bundleId: string, version: int, runtimeVersion: string,
                        bundleSha256: string, files: map<string, string>)
      returns (r: CommitResult)
      modifies this`file, this`tmp, this`bundles, this`staging, this`log
      ensures r.Ok? <==> Complete(StagingOf(old(Disk()), bundleId), files)
      ensures Disk() == Committed(old(Disk()), Slot(bundleId, version, runtimeVersion, Some(bin.nativeBuild), bundleSha256, files))
      ensures old(log) <= log
      ensures forall n | |old(log)| <= n < |log| ::
                CommitMid(old(Disk()), Slot(bundleId, version, runtimeVersion, Some(bin.nativeBuild), bundleSha256, files), log[n])
      // Crash consistency, exactly: a kill anywhere leaves every named slot complete if and only if
      // no slot names the bundle being committed.
      ensures r.Ok? && SlotsComplete(old(Disk())) && SlotsPromise(Load(old(file))) ==>
                ((forall n | |old(log)| <= n < |log| :: SlotsComplete(log[n])) <==> bundleId !in Keep(Load(old(file))))
    {
      ghost var before := Disk();
      var slot := Slot(bundleId, version, runtimeVersion, Some(bin.nativeBuild), bundleSha256, files);
      var dir := StagingDir(bundleId);

      var missing := set path | path in files && (path !in dir || |dir[path]| == 0);
      if missing != {} {
        ghost var prepared, start := Disk(), |log|;
        DeleteRecursively(Staging, bundleId);
        forall n | start <= n < |log| ensures CommitMid(before, slot, log[n]) {
          DroppingIsCommitMid(before, prepared, slot, log[n]);
        }
        return MissingFiles(missing);
      }
      assert Complete(dir, files) by {
        forall path | path in files ensures path in dir && |dir[path]| > 0 { assert path !in missing; }
      }
      ghost var lost := Publish(slot, before);
      if SlotsComplete(before) && SlotsPromise(Load(before.file)) {
        CommitCrashSafety(before, slot, log, |old(log)|, lost);
      }
      r := Ok;
    }

    /** Move the complete staged directory into place and record it as `staged`. */
    method Publish(slot: Slot, ghost found: Image) returns (ghost lost: int)
      requires Disk() == Prepared(found, slot.bundleId)
      requires Complete(StagingOf(found, slot.bundleId), slot.files)
      modifies this`file, this`tmp, this`bundles, this`staging, this`log
      ensures Disk() == Committed(found, slot)
      ensures old(log) <= log
      ensures forall n | |old(log)| <= n < |log| :: CommitMid(found, slot, log[n])
      ensures slot.bundleId in found.bundles ==>
                |old(log)| <= lost < |log| && log[lost].file == found.file && slot.bundleId !in log[lost].bundles
    {
      ghost var prepared, start := Disk(), |log|;
      MoveIntoPlace(slot.bundleId);
      ghost var renamed := |log|;
      lost := renamed - 2;
      assert staging == found.staging - {slot.bundleId};
      forall n | start <= n < renamed - 1 ensures CommitMid(found, slot, log[n]) {
        DeletingIsCommitMid(found, prepared, slot, log[n]);
      }

      var state := LoadState();
      state := state.(staged := Some(slot));
      SaveState(state);
      forall n | renamed - 1 <= n < |log| ensures CommitMid(found, slot, log[n]) {
        SavingIsCommitMid(found, slot, log[n]);
      }
    }

    // ---- launch ----------------------------------------------------------

    method DropIncompatibleSlots(bin: Binary, found: State) returns (state: State)
      modifies this`file, this`tmp, this`log
      ensures state == Dropped(bin, found)
      ensures Disk() == if AnyIncompatible(bin, found) then Save(old(Disk()), state) else old(Disk())
      ensures old(log) <= log
      ensures forall n | |old(log)| <= n < |log| :: SameButTmp(old(Disk()), log[n]) || log[n] == Disk()
    {
      state := found;
      var dropped := false;
      for n := 0 to |KEYS|
        invariant forall m | 0 <= m < |KEYS| ::
                    Get(state, KEYS[m]) == if m < n then KeepCompatible(bin, Get(found, KEYS[m])) else Get(found, KEYS[m])
        invariant state == found.(pending := state.pending, staged := state.staged,
                                  current := state.current, lastKnownGood := state.lastKnownGood)
        invariant dropped <==> exists m | 0 <= m < n :: KeepCompatible(bin, Get(found, KEYS[m])) != Get(found, KEYS[m])
      {
        var slot := Get(state, KEYS[n]);
        if slot.Some? && !Compatible(bin, slot.value) {
          state := Put(state, KEYS[n], None);
          dropped := true;
        }
      }
      assert KEYS[0] == Pending && KEYS[1] == Staged && KEYS[2] == Current && KEYS[3] == LastKnownGood;
      if dropped {
        state := state.(trial := false);
        state := state.(bootAttempts := 0);
        SaveState(state);
      }
    }

    /** Everything a launch does before it decides: drop, consume the markers, sweep. */
    method PrepareLaunch(bin: Binary) returns (state: State, userReload: bool, forgiven: bool)
      modifies this
      ensures state == Considered(bin, old(Disk()))
      ensures userReload == Load(old(file)).userReload && forgiven == Forgiven(old(marks))
      ensures Disk() == Swept(AfterDrop(bin, old(Disk())).(marks := NO_MARKS), state)
      ensures old(log) <= log
      ensures forall n | |old(log)| <= n < |log| :: LaunchMid(bin, old(Disk()), log[n])
    {
      ghost var before := Disk();
      state := LoadCompatible(bin);

      userReload := state.userReload;
      if userReload {
        state := state.(userReload := false);
      }
      ghost var start := |log|;
      forgiven := ConsumeAndSweep(state);
      forall n | start <= n < |log| ensures LaunchMid(bin, before, log[n]) {
        SweepingIsLaunchMid(bin, before, log[n]);
      }
    }

    /** The saved state, without the slots that this binary cannot load. */
    method LoadCompatible(bin: Binary) returns (state: State)
      modifies this`file, this`tmp, this`log
      ensures state == Dropped(bin, Load(old(file))) && Disk() == AfterDrop(bin, old(Disk()))
      ensures old(log) <= log
      ensures forall n | |old(log)| <= n < |log| :: LaunchMid(bin, old(Disk()), log[n])
    {
      ghost var before := Disk();
      state := LoadState();
      state := DropIncompatibleSlots(bin, state);
      forall n | |old(log)| <= n < |log| ensures LaunchMid(bin, before, log[n]) {
        DroppingIsLaunchMid(bin, before, log[n]);
      }
    }

    /** Read the marks of the last process and start afresh, then sweep. */
    method ConsumeAndSweep(state: State) returns (forgiven: bool)
      modifies this`marks, this`bundles, this`staging, this`log
      ensures forgiven == Forgiven(old(marks))
      ensures Disk() == Swept(old(Disk()).(marks := NO_MARKS), state)
      ensures old(log) <= log
      ensures forall n | |old(log)| <= n < |log| :: Sweeping(old(Disk()).(marks := NO_MARKS), Keep(state), log[n])
    {
      var previous := ConsumeLaunchMarks();
      forgiven := previous.beacon && previous.paused;
      Gc(state);
    }

    method ResolveBundleAtLaunch(bin: Binary) returns (boot: Option<string>)
      modifies this
      ensures Disk() == Launched(bin, old(Disk())) && boot == Booted(bin, old(Disk()))
      ensures old(log) <= log
      ensures forall n | |old(log)| <= n < |log| :: LaunchMid(bin, old(Disk()), log[n])
    {
      ghost var before := Disk();
      var state, userReload, forgiven := PrepareLaunch(bin);
      RestrictIsSweep(before.bundles, Keep(state));
      RestrictIsSweep(before.staging, Keep(state));
      var next, slot := ChooseBundle(state, userReload, forgiven);
      SaveState(next);
      boot := PathOf(slot);
    }

    /** Apply the pending bundle, trip the crash-loop breaker, charge an attempt, or carry on. */
    method ChooseBundle(found: State, userReload: bool, forgiven: bool) returns (state: State, slot: Option<Slot>)
      ensures (state, slot) == Decide(found, userReload, forgiven)
    {
      state := found;
      if state.pending.Some? {
        var pending := state.pending;
        state := state.(current := pending);
        state := state.(pending := None);
        state := state.(trial := true);
        state := state.(bootAttempts := 1);
        state := state.(appliedToReport := pending.value.bundleId);
        return state, pending;
      }
      if state.current.None? {
        return state, None;
      }
      var current := state.current;
      if state.trial {
        var attempts := state.bootAttempts;
        if forgiven && attempts > 0 {
          attempts := attempts - 1;
        }
        if attempts >= MAX_BOOT_ATTEMPTS {
          var failedId := current.value.bundleId;
          var disabled := state.disabledBundles;
          if failedId != "" && failedId !in disabled {
            disabled := disabled + [failedId];
          }
          state := state.(disabledBundles := disabled);
          state := state.(failedToReport := failedId);
          var lkg := state.lastKnownGood;
          state := state.(current := lkg);
          state := state.(lastKnownGood := None);
          state := state.(trial := lkg.Some?);
          state := state.(bootAttempts := if lkg.Some? then 1 else 0);
          return state, lkg;
        }
        if !userReload {
          attempts := attempts + 1;
        }
        state := state.(bootAttempts := attempts);
      }
      return state, current;
    }

    method PathOf(slot: Option<Slot>) returns (path: Option<string>)
      ensures path == BundlePath(Disk(), slot)
    {
      if slot.None? || slot.value.bundleId == "" {
        return None;
      }
      var id := slot.value.bundleId;
      return if id in bundles && BUNDLE_FILE in bundles[id] then Some(id) else None;
    }

    // ---- reuse -----------------------------------------------------------

    /** Plaintext hash to contents, for every file of the two slots a sweep is sure to keep. */
    method HaveFiles() returns (have: map<string, Bytes>)
      modifies this`file, this`log
      ensures Disk() == Read(old(Disk()))
      ensures var s := Load(file);
              && (forall sha :: sha in have <==> Holds(Disk(), s.current, sha) || Holds(Disk(), s.lastKnownGood, sha))
              && (forall sha | sha in have ::
                    HoldsContents(Disk(), s.current, sha, have[sha]) || HoldsContents(Disk(), s.lastKnownGood, sha, have[sha]))
    {
      var state := LoadState();
      have := AddSlot(state.current, map[]);
      have := AddSlot(state.lastKnownGood, have);
    }

    method AddSlot(slot: Option<Slot>, found: map<string, Bytes>) returns (have: map<string, Bytes>)
      ensures forall sha :: sha in have <==> sha in found || Holds(Disk(), slot, sha)
      ensures forall sha | sha in have ::
                (sha in found && have[sha] == found[sha]) || HoldsContents(Disk(), slot, sha, have[sha])
    {
      if slot.None? || slot.value.bundleId == "" || slot.value.bundleId !in bundles {
        return found;
      }
      have := AddFiles(bundles[slot.value.bundleId], slot.value.files, found);
    }
  }

  method AddFiles(dir: Dir, files: map<string, string>, found: map<string, Bytes>) returns (have: map<string, Bytes>)
    ensures forall sha :: sha in have <==> sha in found || exists path :: Lists(dir, files, path, sha)
    ensures forall sha | sha in have ::
              || (sha in found && have[sha] == found[sha])
              || (exists path :: Lists(dir, files, path, sha) && have[sha] == dir[path])
  {
    have := found;
    var paths := files.Keys;
    while paths != {}
      invariant paths <= files.Keys
      invariant forall sha :: sha in have <==> sha in found || exists path | path !in paths :: Lists(dir, files, path, sha)
      invariant forall sha | sha in have ::
                  || (sha in found && have[sha] == found[sha])
                  || (exists path :: Lists(dir, files, path, sha) && have[sha] == dir[path])
      decreases |paths|
    {
      var path :| path in paths;
      paths := paths - {path};
      var sha := files[path];
      if sha != "" && path in dir && sha !in have {
        assert Lists(dir, files, path, sha);
        have := have[sha := dir[path]];
      }
    }
  }

  /** `path` is promised with hash `sha` and is there. */
  predicate Lists(dir: Dir, files: map<string, string>, path: string, sha: string) {
    path in files && files[path] == sha && sha != "" && path in dir
  }

  ghost predicate HoldsContents(i: Image, slot: Option<Slot>, sha: string, contents: Bytes) {
    && slot.Some? && slot.value.bundleId != "" && slot.value.bundleId in i.bundles
    && var dir := i.bundles[slot.value.bundleId];
       exists path :: Lists(dir, slot.value.files, path, sha) && dir[path] == contents
  }

  ghost predicate Holds(i: Image, slot: Option<Slot>, sha: string) {
    && slot.Some? && slot.value.bundleId != "" && slot.value.bundleId in i.bundles
    && exists path :: Lists(i.bundles[slot.value.bundleId], slot.value.files, path, sha)
  }

  /** The directory `name` has lost files, or is gone; nothing else has changed. */
  ghost predicate Deleting(before: Image, root: Root, name: string, left: Image) {
    && left == WithRoot(before, root, At(left, root))
    && Shrunk(At(before, root), At(left, root), name)
  }

  lemma DirectoryGone(before: Image, root: Root, name: string, reached: Image)
    requires Deleting(before, root, name, reached)
    ensures var dirs := At(reached, root) - {name};
            dirs == At(before, root) - {name} && Deleting(before, root, name, WithRoot(before, root, dirs))
  {
  }

  /** Part of one root has been swept, and nothing else has changed. */
  ghost predicate SweepingOne(before: Image, root: Root, keep: set<string>, left: Image) {
    left == WithRoot(before, root, At(left, root)) && SweepMid(At(before, root), At(left, root), keep)
  }

  lemma DeletingIsSweeping(before: Image, keep: set<string>, reached: Image, root: Root, name: string, left: Image)
    requires SweepingOne(before, root, keep, reached) && name !in keep
    requires Deleting(reached, root, name, left)
    ensures SweepingOne(before, root, keep, left)
  {
    var listed := At(before, root);
    forall id | id in listed && id in keep ensures id in At(left, root) && At(left, root)[id] == listed[id] {
    }
  }

  lemma SweptIsRestricted(before: Image, root: Root, keep: set<string>, left: Image)
    requires SweepingOne(before, root, keep, left) && forall id | id in At(left, root) :: id in keep
    ensures left == WithRoot(before, root, Restrict(At(before, root), keep))
  {
    assert At(left, root) == Restrict(At(before, root), keep);
  }

  /** Part of both directories has been swept, and nothing else has changed. */
  ghost predicate Sweeping(before: Image, keep: set<string>, left: Image) {
    && left == before.(bundles := left.bundles, staging := left.staging)
    && SweepMid(before.bundles, left.bundles, keep) && SweepMid(before.staging, left.staging, keep)
  }

  lemma SweepingIsLaunchMid(bin: Binary, i: Image, left: Image)
    requires Sweeping(AfterDrop(bin, i).(marks := NO_MARKS), Keep(Considered(bin, i)), left)
    ensures LaunchMid(bin, i, left)
  {
  }

  /** Reading the state, and saving it without the slots that are dropped. */
  lemma DroppingIsLaunchMid(bin: Binary, i: Image, left: Image)
    requires SameButTmp(i, left) || SameButTmp(Read(i), left) || left == AfterDrop(bin, i)
    ensures LaunchMid(bin, i, left)
  {
  }

  lemma OneFileLess(before: map<string, Dir>, dirs: map<string, Dir>, name: string, path: string)
    requires name in dirs && path in dirs[name] && Shrunk(before, dirs, name)
    ensures var fewer := dirs[name := dirs[name] - {path}];
            Shrunk(before, fewer, name) && |fewer[name].Keys| < |dirs[name].Keys|
  {
    assert (dirs[name] - {path}).Keys == dirs[name].Keys - {path};
  }

  lemma CommitMidIsSafe(i: Image, slot: Slot, left: Image)
    requires SlotsComplete(i) && SlotsPromise(Load(i.file))
    requires slot.bundleId !in Keep(Load(i.file))
    requires CommitMid(i, slot, left)
    ensures SlotsComplete(left)
  {
    CommitMidIsOldOrNew(i, slot, left);
  }

  lemma DeletingIsCommitMid(before: Image, prepared: Image, slot: Slot, left: Image)
    requires prepared == Prepared(before, slot.bundleId)
    requires Complete(StagingOf(before, slot.bundleId), slot.files)
    requires Deleting(prepared, Bundles, slot.bundleId, left)
    ensures CommitMid(before, slot, left)
  {
  }

  lemma DroppingIsCommitMid(before: Image, prepared: Image, slot: Slot, left: Image)
    requires prepared == Prepared(before, slot.bundleId) && !Complete(StagingOf(before, slot.bundleId), slot.files)
    requires Deleting(prepared, Staging, slot.bundleId, left)
    ensures CommitMid(before, slot, left)
  {
  }

  /** What saving a state on top of `at` adds to the log. */
  lemma SavingIsCommitMid(before: Image, slot: Slot, left: Image)
    requires Complete(StagingOf(before, slot.bundleId), slot.files)
    requires var at := Renamed(before, slot.bundleId);
             SameButTmp(at, left) || SameButTmp(Read(at), left) || left == Committed(before, slot)
    ensures CommitMid(before, slot, left)
  {
  }

  /** The kills between `from` and the end of the log are all safe exactly when no slot names the id. */
  lemma CommitCrashSafety(before: Image, slot: Slot, log: seq<Image>, from: nat, lost: int)
    requires SlotsComplete(before) && SlotsPromise(Load(before.file))
    requires forall n | from <= n < |log| :: CommitMid(before, slot, log[n])
    requires slot.bundleId in before.bundles ==>
               from <= lost < |log| && log[lost].file == before.file && slot.bundleId !in log[lost].bundles
    ensures (forall n | from <= n < |log| :: SlotsComplete(log[n])) <==> slot.bundleId !in Keep(Load(before.file))
  {
    if slot.bundleId !in Keep(Load(before.file)) {
      forall n | from <= n < |log| ensures SlotsComplete(log[n]) {
        CommitMidIsSafe(before, slot, log[n]);
      }
    } else {
      NamedSlotIsThere(before, slot.bundleId);
      NamedSlotIsLost(before, slot.bundleId, log[lost]);
    }
  }

  lemma NamedSlotIsThere(i: Image, id: string)
    requires SlotsComplete(i) && id in Keep(Load(i.file))
    ensures id in i.bundles
  {
  }

  lemma NamedSlotIsLost(i: Image, id: string, left: Image)
    requires id in Keep(Load(i.file))
    requires left.file == i.file && id !in left.bundles
    ensures !SlotsComplete(left)
  {
  }

  /** The bundle is resolved once per process, however often the host asks for it. */
  class BundleLoader {
    const store: DashOtaStore
    var resolved: Option<string>
    var resolvedOnce: bool
    /** The image the process started from, once it has been resolved. */
    ghost var found: Image

    constructor (store: DashOtaStore)
      ensures this.store == store && !resolvedOnce
    {
      this.store := store;
      resolvedOnce := false;
      resolved := None;
      found := Image(Missing, NoTmp, NO_MARKS, map[], map[]);
    }

    /** The first read runs the launch; every later one returns its answer and touches nothing. */
    method GetBundleFile(bin: Binary) returns (path: Option<string>)
      modifies this, store
      ensures resolvedOnce && path == resolved
      ensures old(resolvedOnce) ==> resolved == old(resolved) && unchanged(store) && found == old(found)
      ensures !old(resolvedOnce) ==>
                found == old(store.Disk()) && store.Disk() == Launched(bin, found) && path == Booted(bin, found)
    {
      if !resolvedOnce {
        found := store.Disk();
        resolved := store.ResolveBundleAtLaunch(bin);
        resolvedOnce := true;
      }
      path := resolved;
    }
  }
}
