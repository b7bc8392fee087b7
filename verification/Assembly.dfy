/**
 Downloading a release onto the device: the gates, the loop that assembles every file of the manifest
 by resuming, reusing or downloading, and the commit. The server may answer anything, and anything
 may have been left on the disk by earlier attempts.
 */
module Assembly {
  import opened Common
  import opened SlotModel
  import opened SlotStore
  import SlotRuns
  import Paths
  import opened Transfer

  datatype BlobInfo = BlobInfo(sha256: string, size: int, zstd: bool, ivB64: string, tagB64: string)

  datatype Entry = Entry(path: string, isBundle: bool, sha256: string, size: int, blob: BlobInfo)

  datatype Manifest = Manifest(
    schema: int,
    appId: string,
    runtimeVersion: string,
    channel: string,
    platform: string,
    minNativeBuild: Option<int>,
    bundleVersion: int,
    bundleId: string,
    contentKey: Option<string>,
    files: seq<Entry>)

  /** What is built into the installed binary. */
  datatype App = App(packageName: string, channel: string, bin: Binary)

  /** Hashing, decryption (key, blob, associated data, bytes) and bounded decompression. */
  datatype Codec = Codec(
    hash: Bytes -> string,
    decrypt: (string, BlobInfo, string, Bytes) -> Option<Bytes>,
    decompress: (Bytes, int) -> Option<Bytes>)

  datatype Refusal =
    | SigInvalid | AppMismatch | RuntimeMismatch | ChannelMismatch | PlatformMismatch | NativeTooOld
    | Downgrade | BadManifest | BundleDisabled | PathInvalid
    | FileHashMismatch | BlobHashMismatch | DecryptFailed | DecompressFailed | Network | IncompleteSlot

  datatype Staging = StagedSlot(slot: Slot) | Refused(code: Refusal)

  // ---- gates -------------------------------------------------------------

  predicate GoodEntry(e: Entry) {
    Paths.AndroidAccepts(e.path) && IsSha256Hex(e.sha256) && IsSha256Hex(e.blob.sha256)
  }

  /** Every gate is passed: nothing the signed manifest says forbids installing it here and now. */
  ghost predicate Passes(app: App, s: State, signatureOk: bool, m: Manifest) {
    && signatureOk && m.schema == 2
    && m.appId == app.packageName && m.channel == app.channel && m.platform == "android"
    && (m.minNativeBuild.Some? ==> app.bin.nativeBuild >= m.minNativeBuild.value)
    && SlotRuns.Gate(s, app.bin, SlotFor(app, m))
    && forall e | e in m.files :: GoodEntry(e)
  }

  /** The gate a refusal names is one that fails. */
  ghost predicate Explains(app: App, s: State, signatureOk: bool, m: Manifest, code: Refusal) {
    match code
    case SigInvalid => !signatureOk || m.schema != 2
    case AppMismatch => m.appId != app.packageName
    case RuntimeMismatch => m.runtimeVersion != app.bin.runtimeVersion
    case ChannelMismatch => m.channel != app.channel
    case PlatformMismatch => m.platform != "android"
    case NativeTooOld => m.minNativeBuild.Some? && app.bin.nativeBuild < m.minNativeBuild.value
    case Downgrade => m.bundleVersion <= CurrentVersion(s)
    case BundleDisabled => m.bundleId in s.disabledBundles
    case PathInvalid => exists e | e in m.files :: !Paths.AndroidAccepts(e.path)
    case BadManifest => !SlotRuns.SafeBundleId(m.bundleId) || exists e | e in m.files :: !GoodEntry(e)
    case _ => false
  }

  function SlotFor(app: App, m: Manifest): Slot {
    Slot(m.bundleId, m.bundleVersion, m.runtimeVersion, Some(app.bin.nativeBuild), BundleSha(m.files, |m.files|), FileMap(m.files, |m.files|))
  }

  /** Path to plaintext hash over the first `n` entries; a later entry for a path replaces an earlier one. */
  function FileMap(files: seq<Entry>, n: nat): map<string, string>
    requires n <= |files|
  {
    if n == 0 then map[] else FileMap(files, n - 1)[files[n - 1].path := files[n - 1].sha256]
  }

  function BundleSha(files: seq<Entry>, n: nat): string
    requires n <= |files|
  {
    if n == 0 then "" else if files[n - 1].isBundle then files[n - 1].sha256 else BundleSha(files, n - 1)
  }

  /** No entry between `i` and `n` is for the same path. */
  predicate IsLast(files: seq<Entry>, i: nat, n: nat)
    requires i < n <= |files|
  {
    forall j | i < j < n :: files[j].path != files[i].path
  }

  predicate DistinctPaths(files: seq<Entry>) {
    DistinctBy((e: Entry) => e.path, files)
  }

  lemma {:induction false} LastEntryIsMapped(files: seq<Entry>, i: nat, n: nat)
    requires i < n <= |files| && IsLast(files, i, n)
    ensures files[i].path in FileMap(files, n) && FileMap(files, n)[files[i].path] == files[i].sha256
  {
    if i < n - 1 {
      LastEntryIsMapped(files, i, n - 1);
    }
  }

  lemma {:induction false} LastEntryFor(files: seq<Entry>, n: nat, path: string) returns (i: nat)
    requires n <= |files| && path in FileMap(files, n)
    ensures i < n && IsLast(files, i, n) && files[i].path == path
  {
    i := n - 1;
    if files[i].path != path {
      i := LastEntryFor(files, n - 1, path);
    }
  }

  // ---- one entry ---------------------------------------------------------

  /** What the contents of an entry have to be like. */
  type Check = (Entry, Bytes) -> bool

  /** The signed hash and the signed size. */
  function Signed(hash: Bytes -> string): Check {
    (e: Entry, contents: Bytes) => hash(contents) == e.sha256 && |contents| == e.size
  }

  /** The directory holds the file of this entry, and it is right. */
  predicate HasFile(right: Check, e: Entry, dir: Dir) {
    e.path in dir && right(e, dir[e.path])
  }

  function PartName(path: string): string {
    path + ".part"
  }

  /** Only this entry's file, and its temporary file, can have changed; and the temporary one can only be gone. */
  ghost predicate OthersKept(before: Dir, after: Dir, path: string, tmp: string) {
    && (forall p | p in after && p != path :: p in before && after[p] == before[p])
    && (forall p | p in before && p != path && p != tmp :: p in after)
  }

  /** Of the first `n` entries, every one that is still the last for its path is right, if it is there. */
  ghost predicate Assembled(right: Check, files: seq<Entry>, n: nat, dir: Dir)
    requires n <= |files|
  {
    forall i | 0 <= i < n && IsLast(files, i, n) && files[i].path in dir :: HasFile(right, files[i], dir)
  }

  lemma AssembledGrows(right: Check, files: seq<Entry>, n: nat, before: Dir, after: Dir, tmp: string)
    requires n < |files| && Assembled(right, files, n, before)
    requires OthersKept(before, after, files[n].path, tmp) && HasFile(right, files[n], after)
    ensures Assembled(right, files, n + 1, after)
  {
    forall i | 0 <= i < n + 1 && IsLast(files, i, n + 1) && files[i].path in after ensures HasFile(right, files[i], after) {
      if i < n {
        assert files[n].path != files[i].path;
        assert IsLast(files, i, n);
      }
    }
  }

  /** What was assembled is what the commit may publish: each promised path, if there, has its hash. */
  lemma AssembledIsVerified(w: SlotRuns.World, files: seq<Entry>, dir: Dir)
    requires Assembled(Signed(w.hash), files, |files|, dir)
    ensures SlotRuns.Verified(w, dir, FileMap(files, |files|))
  {
    var n := |files|;
    forall p | p in FileMap(files, n) && p in dir ensures w.hash(dir[p]) == FileMap(files, n)[p] {
      var i := LastEntryFor(files, n, p);
      LastEntryIsMapped(files, i, n);
      assert HasFile(Signed(w.hash), files[i], dir);
    }
  }

  /** When no two entries share a path, "the last entry for its path" is every entry. */
  lemma DistinctPathsAreAllLast(files: seq<Entry>)
    requires DistinctPaths(files)
    ensures forall i | 0 <= i < |files| :: IsLast(files, i, |files|)
  {
  }

  /** Every entry's file is there and right: each one when paths are distinct, else the last one for its path. */
  ghost predicate EveryFile(right: Check, files: seq<Entry>, dir: Dir) {
    && (forall i | 0 <= i < |files| && IsLast(files, i, |files|) :: HasFile(right, files[i], dir))
    && (DistinctPaths(files) ==> forall i | 0 <= i < |files| :: HasFile(right, files[i], dir))
  }

  lemma CompleteMeansEveryFile(right: Check, files: seq<Entry>, dir: Dir)
    requires Assembled(right, files, |files|, dir) && Complete(dir, FileMap(files, |files|))
    ensures EveryFile(right, files, dir)
  {
    if DistinctPaths(files) {
      DistinctPathsAreAllLast(files);
    }
    forall i | 0 <= i < |files| && IsLast(files, i, |files|) ensures HasFile(right, files[i], dir) {
      LastEntryIsMapped(files, i, |files|);
    }
  }

  // ---- what a blob opens to, and what goes wrong -------------------------

  /** The file behind the stored bytes of an entry: decrypted and unpacked, if it can be. */
  function Opened(codec: Codec, e: Entry, key: Option<string>, stored: Bytes): Option<Bytes> {
    var sealed := if key.Some? then codec.decrypt(key.value, e.blob, e.sha256, stored) else Some(stored);
    if sealed.None? then None
    else if e.blob.zstd then codec.decompress(sealed.value, e.size) else sealed
  }

  /** The signed blob of the entry, which opens to the signed file. */
  predicate IsBlobOf(codec: Codec, e: Entry, key: Option<string>, blob: Bytes) {
    && |blob| == e.blob.size && codec.hash(blob) == e.blob.sha256
    && var contents := Opened(codec, e, key, blob);
       contents.Some? && Signed(codec.hash)(e, contents.value)
  }

  /** Whatever an earlier attempt left, the server completes it to the signed blob. */
  ghost predicate Obtainable(codec: Codec, e: Entry, key: Option<string>, part: Option<Bytes>, server: Option<string> -> Response) {
    exists blob :: blob != [] && IsBlobOf(codec, e, key, blob) && IsUsable(part, blob) && DeliversAll(blob, server)
  }

  /** What makes a download of the entry's blob fail: the transfer, the bytes received, the key, or the frame. */
  predicate BlobFails(codec: Codec, e: Entry, key: Option<string>, file: Option<Bytes>, outcome: Outcome, code: Refusal) {
    match code
    case Network => outcome.Failed? || file.None?
    case BlobHashMismatch => file.Some? && codec.hash(file.value) != e.blob.sha256
    case DecryptFailed => file.Some? && codec.hash(file.value) == e.blob.sha256 && key.Some? && codec.decrypt(key.value, e.blob, e.sha256, file.value).None?
    case DecompressFailed => file.Some? && codec.hash(file.value) == e.blob.sha256 && e.blob.zstd && Opened(codec, e, key, file.value).None?
    case _ => false
  }

  /** And what makes the entry fail: that, or a file with another hash or size, reused or received. */
  predicate EntryFails(codec: Codec, e: Entry, key: Option<string>, reused: Option<Bytes>, file: Option<Bytes>, outcome: Outcome, code: Refusal) {
    if code.FileHashMismatch? then
      var contents := if reused.Some? then reused else if file.Some? then Opened(codec, e, key, file.value) else None;
      contents.Some? && !Signed(codec.hash)(e, contents.value)
    else
      reused.None? && BlobFails(codec, e, key, file, outcome, code)
  }

  /** The entry fails for that reason, after what the server answered. */
  predicate Fails(codec: Codec, e: Entry, key: Option<string>, have: map<string, Bytes>, parts: map<string, Bytes>,
                  server: Option<string> -> Response, code: Refusal)
  {
    var (file, outcome) := Downloaded(FindIn(parts, PartOf(e)), e.blob.size, server);
    EntryFails(codec, e, key, FindIn(have, e.sha256), file, outcome, code)
  }

  function PartOf(e: Entry): string {
    e.blob.sha256 + ".part"
  }

  function DecOf(e: Entry): string {
    e.blob.sha256 + ".dec"
  }

  lemma PartIsNotDec(e: Entry, f: Entry)
    ensures PartOf(e) != DecOf(f)
  {
    assert PartOf(e)[|PartOf(e)| - 1] == 't' && DecOf(f)[|DecOf(f)| - 1] == 'c';
  }

  function FindIn(files: map<string, Bytes>, name: string): Option<Bytes> {
    if name in files then Some(files[name]) else None
  }

  /** Only the temporary files of this entry have changed; and after a success its part file can only be gone. */
  ghost predicate PartsKept(before: map<string, Bytes>, after: map<string, Bytes>, e: Entry, done: bool) {
    && (forall name | name != PartOf(e) && name != DecOf(e) :: FindIn(after, name) == FindIn(before, name))
    && (done ==> FindIn(after, PartOf(e)) in {None, FindIn(before, PartOf(e))})
  }

  lemma OnlyOneChanged(before: map<string, Bytes>, after: map<string, Bytes>, name: string)
    requires after - {name} == before - {name}
    ensures forall other | other != name :: FindIn(after, other) == FindIn(before, other)
  {
    forall other | other != name ensures FindIn(after, other) == FindIn(before, other) {
      assert other in after <==> other in after - {name};
      assert other in before <==> other in before - {name};
    }
  }

  /** The blob that the n-th entry needs can be had, or its file is on the device and right. */
  ghost predicate CanGet(codec: Codec, e: Entry, key: Option<string>, have: map<string, Bytes>, parts: map<string, Bytes>, server: Option<string> -> Response) {
    if e.sha256 in have then Signed(codec.hash)(e, have[e.sha256])
    else Obtainable(codec, e, key, FindIn(parts, PartOf(e)), server)
  }

  ghost predicate CanGetFrom(codec: Codec, m: Manifest, n: nat, have: map<string, Bytes>, parts: map<string, Bytes>, server: Server)
    requires n <= |m.files|
  {
    forall i | n <= i < |m.files| :: CanGet(codec, m.files[i], m.contentKey, have, parts, server(i, m.files[i].blob.sha256))
  }

  lemma StillObtainable(codec: Codec, e: Entry, key: Option<string>, have: map<string, Bytes>, before: map<string, Bytes>,
                        after: map<string, Bytes>, done: Entry, server: Option<string> -> Response)
    requires CanGet(codec, e, key, have, before, server) && PartsKept(before, after, done, true)
    ensures CanGet(codec, e, key, have, after, server)
  {
    PartIsNotDec(e, done);
    if e.sha256 !in have {
      var blob :| blob != [] && IsBlobOf(codec, e, key, blob) && IsUsable(FindIn(before, PartOf(e)), blob) && DeliversAll(blob, server);
      assert FindIn(after, PartOf(e)) in {None, FindIn(before, PartOf(e))};
      assert IsUsable(FindIn(after, PartOf(e)), blob);
    }
  }

  lemma OthersStillObtainable(codec: Codec, m: Manifest, n: nat, have: map<string, Bytes>, before: map<string, Bytes>, after: map<string, Bytes>, server: Server)
    requires n < |m.files| && PartsKept(before, after, m.files[n], true)
    ensures CanGetFrom(codec, m, n, have, before, server) ==> CanGetFrom(codec, m, n + 1, have, after, server)
  {
    forall i | n + 1 <= i < |m.files| && CanGetFrom(codec, m, n, have, before, server)
      ensures CanGet(codec, m.files[i], m.contentKey, have, after, server(i, m.files[i].blob.sha256)) {
      StillObtainable(codec, m.files[i], m.contentKey, have, before, after, m.files[n], server(i, m.files[i].blob.sha256));
    }
  }

  lemma ObtainableIsFetched(codec: Codec, e: Entry, key: Option<string>, part: Option<Bytes>, server: Option<string> -> Response)
    ensures Obtainable(codec, e, key, part, server) ==>
              var (file, outcome) := Downloaded(part, e.blob.size, server);
              outcome.Done? && file.Some? && IsBlobOf(codec, e, key, file.value)
  {
    if Obtainable(codec, e, key, part, server) {
      var blob :| blob != [] && IsBlobOf(codec, e, key, blob) && IsUsable(part, blob) && DeliversAll(blob, server);
      WholeAnswerFinishes(part, blob, server);
    }
  }

  // ---- nothing is lost on the way ----------------------------------------

  /** No entry has the name of a later one's temporary file. */
  predicate IsClear(files: seq<Entry>) {
    forall i, j | 0 <= i < j < |files| :: files[i].path != PartName(files[j].path)
  }

  predicate AllThere(files: seq<Entry>, n: nat, dir: Dir)
    requires n <= |files|
  {
    forall i | 0 <= i < n :: files[i].path in dir
  }

  lemma OneMoreThere(files: seq<Entry>, n: nat, before: Dir, after: Dir)
    requires n < |files| && IsClear(files) && AllThere(files, n, before)
    requires OthersKept(before, after, files[n].path, PartName(files[n].path)) && files[n].path in after
    ensures AllThere(files, n + 1, after)
  {
  }

  /** The first `n` entries are assembled, and none of them is lost if no name is in the way. */
  ghost predicate Progress(right: Check, files: seq<Entry>, n: nat, dir: Dir)
    requires n <= |files|
  {
    Assembled(right, files, n, dir) && (IsClear(files) ==> AllThere(files, n, dir))
  }

  lemma ProgressGrows(right: Check, files: seq<Entry>, n: nat, before: Dir, after: Dir)
    requires n < |files| && Progress(right, files, n, before)
    requires OthersKept(before, after, files[n].path, PartName(files[n].path)) && HasFile(right, files[n], after)
    ensures Progress(right, files, n + 1, after)
  {
    AssembledGrows(right, files, n, before, after, PartName(files[n].path));
    if IsClear(files) {
      OneMoreThere(files, n, before, after);
    }
  }

  /** And what the loop has noted so far is right. */
  ghost predicate Reached(right: Check, files: seq<Entry>, n: nat, dir: Dir, listed: map<string, string>, bundleSha: string)
    requires n <= |files|
  {
    Progress(right, files, n, dir) && listed == FileMap(files, n) && bundleSha == BundleSha(files, n)
  }

  lemma NextIsReached(right: Check, files: seq<Entry>, n: nat, before: Dir, after: Dir, listed: map<string, string>, bundleSha: string)
    requires n < |files| && Reached(right, files, n, before, listed, bundleSha)
    requires OthersKept(before, after, files[n].path, PartName(files[n].path)) && HasFile(right, files[n], after)
    ensures Reached(right, files, n + 1, after, listed[files[n].path := files[n].sha256], if files[n].isBundle then files[n].sha256 else bundleSha)
  {
    ProgressGrows(right, files, n, before, after);
  }

  lemma {:induction false} PathsAreThere(files: seq<Entry>, n: nat, dir: Dir)
    requires n <= |files| && AllThere(files, n, dir)
    ensures forall p | p in FileMap(files, n) :: p in dir
  {
    if n > 0 {
      PathsAreThere(files, n - 1, dir);
    }
  }

  /** When every file is there and none was signed to be empty, the commit misses nothing. */
  lemma AllThereIsComplete(hash: Bytes -> string, files: seq<Entry>, dir: Dir)
    requires AllThere(files, |files|, dir) && Assembled(Signed(hash), files, |files|, dir)
    requires forall e | e in files :: e.size > 0
    ensures Complete(dir, FileMap(files, |files|))
  {
    PathsAreThere(files, |files|, dir);
    forall p | p in FileMap(files, |files|) ensures p in dir && |dir[p]| > 0 {
      var i := LastEntryFor(files, |files|, p);
      assert HasFile(Signed(hash), files[i], dir);
    }
  }

  /** Every file of the manifest that a slot offers for reuse has its signed hash and size. */
  ghost predicate RightToReuse(hash: Bytes -> string, i: Image, files: seq<Entry>) {
    var s := Load(i.file);
    forall e, contents | e in files && (HoldsContents(i, s.current, e.sha256, contents) || HoldsContents(i, s.lastKnownGood, e.sha256, contents)) ::
      Signed(hash)(e, contents)
  }

  /** Files that no slot has can be had from the server, whatever earlier attempts left of them. */
  ghost predicate ServerHasTheRest(codec: Codec, i: Image, m: Manifest, parts: map<string, Bytes>, server: Server) {
    var s := Load(i.file);
    forall n | 0 <= n < |m.files| ::
      var e := m.files[n];
      Holds(i, s.current, e.sha256) || Holds(i, s.lastKnownGood, e.sha256)
      || Obtainable(codec, e, m.contentKey, FindIn(parts, PartOf(e)), server(n, e.blob.sha256))
  }

  /** All that a download has to find to succeed. */
  ghost predicate NothingIsMissing(codec: Codec, i: Image, m: Manifest, parts: map<string, Bytes>, server: Server) {
    && RightToReuse(codec.hash, i, m.files) && ServerHasTheRest(codec, i, m, parts, server)
    && NoneIsInTheWay(m.files)
  }

  /** What the commit needs of the manifest: clear names, and no file that is signed to be empty. */
  predicate NoneIsInTheWay(files: seq<Entry>) {
    IsClear(files) && forall e | e in files :: e.size > 0
  }

  lemma CommitSettles(i: Image, slot: Slot)
    ensures var after := Committed(i, slot);
            if Complete(StagingOf(i, slot.bundleId), slot.files) then
              && after.bundles == i.bundles[slot.bundleId := StagingOf(i, slot.bundleId)]
              && Load(after.file) == Load(i.file).(staged := Some(slot))
            else after.bundles == i.bundles && after.file == i.file
    ensures Committed(i, slot).staging == i.staging - {slot.bundleId} && Committed(i, slot).marks == i.marks
  {
  }

  /** Every promised file is there, not empty, and right. */
  ghost predicate IsInstalled(hash: Bytes -> string, files: seq<Entry>, dir: Dir) {
    EveryFile(Signed(hash), files, dir) && Complete(dir, FileMap(files, |files|))
  }

  ghost predicate Reusable(before: Image, have: map<string, Bytes>) {
    var s := Load(before.file);
    && (forall sha :: sha in have <==> Holds(before, s.current, sha) || Holds(before, s.lastKnownGood, sha))
    && (forall sha | sha in have :: HoldsContents(before, s.current, sha, have[sha]) || HoldsContents(before, s.lastKnownGood, sha, have[sha]))
  }

  lemma EverythingCanBeHad(codec: Codec, i: Image, m: Manifest, have: map<string, Bytes>, parts: map<string, Bytes>, server: Server)
    requires NothingIsMissing(codec, i, m, parts, server) && Reusable(i, have)
    ensures CanGetFrom(codec, m, 0, have, parts, server)
  {
    forall n | 0 <= n < |m.files| ensures CanGet(codec, m.files[n], m.contentKey, have, parts, server(n, m.files[n].blob.sha256)) {
      assert m.files[n] in m.files;
    }
  }

  ghost predicate SomeEntryFails(codec: Codec, m: Manifest, have: map<string, Bytes>, code: Refusal) {
    !code.IncompleteSlot? && exists n, file, outcome | 0 <= n < |m.files| ::
      EntryFails(codec, m.files[n], m.contentKey, FindIn(have, m.files[n].sha256), file, outcome, code)
  }

  lemma EntryIsBlamed(codec: Codec, m: Manifest, n: nat, have: map<string, Bytes>, parts: map<string, Bytes>, server: Option<string> -> Response, code: Refusal)
    requires n < |m.files| && Fails(codec, m.files[n], m.contentKey, have, parts, server, code)
    ensures SomeEntryFails(codec, m, have, code)
  {
    var e := m.files[n];
    var (file, outcome) := Downloaded(FindIn(parts, PartOf(e)), e.blob.size, server);
    assert EntryFails(codec, e, m.contentKey, FindIn(have, e.sha256), file, outcome, code);
  }

  lemma FailureIsFound(codec: Codec, i: Image, m: Manifest, have: map<string, Bytes>, code: Refusal)
    requires Reusable(i, have) && if code.IncompleteSlot? then !NoneIsInTheWay(m.files) else SomeEntryFails(codec, m, have, code)
    ensures DownloadFails(codec, i, m, code)
  {
    if !code.IncompleteSlot? {
      var n, file, outcome :| 0 <= n < |m.files|
        && EntryFails(codec, m.files[n], m.contentKey, FindIn(have, m.files[n].sha256), file, outcome, code);
      assert FailsAt(codec, i, m, n, FindIn(have, m.files[n].sha256), file, outcome, code);
    }
  }

  lemma ReusableAsBefore(before: Image, i: Image, have: map<string, Bytes>)
    requires i.bundles == before.bundles && Load(i.file) == Load(before.file) && Reusable(i, have)
    ensures Reusable(before, have)
  {
    var s := Load(i.file);
    assert forall slot, sha :: Holds(i, slot, sha) <==> Holds(before, slot, sha);
    assert forall slot, sha, contents :: HoldsContents(i, slot, sha, contents) <==> HoldsContents(before, slot, sha, contents);
  }

  /** Some entry fails as the code says, a reused file coming from a slot; or the commit misses a file. */
  ghost predicate DownloadFails(codec: Codec, i: Image, m: Manifest, code: Refusal) {
    if code.IncompleteSlot? then !NoneIsInTheWay(m.files)
    else exists n, reused, file, outcome | 0 <= n < |m.files| :: FailsAt(codec, i, m, n, reused, file, outcome, code)
  }

  ghost predicate FailsAt(codec: Codec, i: Image, m: Manifest, n: nat, reused: Option<Bytes>, file: Option<Bytes>, outcome: Outcome, code: Refusal)
    requires n < |m.files|
  {
    && EntryFails(codec, m.files[n], m.contentKey, reused, file, outcome, code)
    && (reused.Some? ==> exists slot :: HoldsContents(i, slot, m.files[n].sha256, reused.value))
  }

  /** Answers to the n-th entry's request: any function of the blob asked for and the range header. */
  type Server = (nat, string) -> Option<string> -> Response

  class Downloader {
    const store: DashOtaStore
    const parts: PartFiles
    const codec: Codec
    const app: App

    constructor (store: DashOtaStore, parts: PartFiles, codec: Codec, app: App)
      ensures this.store == store && this.parts == parts && this.codec == codec && this.app == app
    {
      this.store, this.parts, this.codec, this.app := store, parts, codec, app;
    }

    method CheckGates(s: State, signatureOk: bool, m: Manifest) returns (refusal: Option<Refusal>)
      ensures refusal.None? <==> Passes(app, s, signatureOk, m)
      ensures refusal.Some? ==> Explains(app, s, signatureOk, m, refusal.value)
    {
      if !signatureOk { return Some(SigInvalid); }
      if m.schema != 2 { return Some(SigInvalid); }
      if m.appId != app.packageName { return Some(AppMismatch); }
      if m.runtimeVersion != app.bin.runtimeVersion { return Some(RuntimeMismatch); }
      if m.channel != app.channel { return Some(ChannelMismatch); }
      if m.platform != "android" { return Some(PlatformMismatch); }
      if m.minNativeBuild.Some? && app.bin.nativeBuild < m.minNativeBuild.value { return Some(NativeTooOld); }
      if m.bundleVersion <= CurrentVersion(s) { return Some(Downgrade); }
      if !SlotRuns.SafeBundleId(m.bundleId) { return Some(BadManifest); }
      if m.bundleId in s.disabledBundles { return Some(BundleDisabled); }
      for n := 0 to |m.files|
        invariant forall k | 0 <= k < n :: GoodEntry(m.files[k])
      {
        var entry := m.files[n];
        if !Paths.AndroidAccepts(entry.path) {
          assert entry in m.files && !GoodEntry(entry);
          return Some(PathInvalid);
        }
        if !IsSha256Hex(entry.sha256) || !IsSha256Hex(entry.blob.sha256) {
          assert entry in m.files && !GoodEntry(entry);
          return Some(BadManifest);
        }
      }
      return None;
    }

    /** Rewrite the staging directory of one bundle. */
    method SetStaging(id: string, dir: Dir)
      modifies store`staging
      ensures store.staging == old(store.staging)[id := dir]
    {
      store.staging := store.staging[id := dir];
    }

    /** Fetch the blob of an entry and undo its encryption and compression. */
    method FetchPlaintext(n: nat, e: Entry, key: Option<string>, server: Server)
      returns (contents: Option<Bytes>, refusal: Refusal)
      modifies parts
      ensures var (file, outcome) := Downloaded(FindIn(old(parts.files), PartOf(e)), e.blob.size, server(n, e.blob.sha256));
              if contents.Some? then
                && outcome.Done? && file.Some? && codec.hash(file.value) == e.blob.sha256
                && contents == Opened(codec, e, key, file.value)
              else BlobFails(codec, e, key, file, outcome, refusal)
      ensures PartsKept(old(parts.files), parts.files, e, contents.Some?)
    {
      var part := PartOf(e);
      ghost var found := parts.files;
      var outcome := parts.DownloadBlob(part, e.blob.size, server(n, e.blob.sha256));
      OnlyOneChanged(found, parts.files, part);
      // Hashing a file that is not there raises, like a failed transfer.
      if outcome.Failed? || part !in parts.files {
        return None, Network;
      }
      if codec.hash(parts.files[part]) != e.blob.sha256 {
        parts.files := parts.files - {part};
        return None, BlobHashMismatch;
      }
      var sealed := part;
      PartIsNotDec(e, e);
      if key.Some? {
        var decrypted := codec.decrypt(key.value, e.blob, e.sha256, parts.files[part]);
        parts.files := parts.files - {part};
        if decrypted.None? {
          return None, DecryptFailed;
        }
        sealed := DecOf(e);
        parts.files := parts.files[sealed := decrypted.value];
      }
      contents := if e.blob.zstd then codec.decompress(parts.files[sealed], e.size) else Some(parts.files[sealed]);
      parts.files := parts.files - {sealed};
      refusal := DecompressFailed;
    }

    /** Put one file in place: already there, reused from a slot, or downloaded; verified in each case. */
    method AssembleEntry(id: string, n: nat, e: Entry, key: Option<string>, have: map<string, Bytes>, server: Server)
      returns (refusal: Option<Refusal>)
      requires id in store.staging
      modifies store`staging, parts
      ensures id in store.staging && SameExcept(old(store.staging), store.staging, id)
      ensures OthersKept(old(store.staging[id]), store.staging[id], e.path, PartName(e.path))
      ensures refusal.None? ==> HasFile(Signed(codec.hash), e, store.staging[id])
      ensures PartsKept(old(parts.files), parts.files, e, refusal.None?)
      ensures CanGet(codec, e, key, have, old(parts.files), server(n, e.blob.sha256)) ==> refusal.None?
      ensures refusal.Some? ==> Fails(codec, e, key, have, old(parts.files), server(n, e.blob.sha256), refusal.value)
    {
      var dir := store.staging[id];
      // Left in place by a download that did not finish: kept if it is right.
      if e.path in dir && |dir[e.path]| == e.size && codec.hash(dir[e.path]) == e.sha256 {
        return None;
      }

      if e.sha256 in have {
        SetStaging(id, dir[e.path := have[e.sha256]]);
        if |have[e.sha256]| != e.size || codec.hash(have[e.sha256]) != e.sha256 {
          SetStaging(id, dir - {e.path});
          return Some(FileHashMismatch);
        }
        return None;
      }
      refusal := DownloadEntry(id, n, e, key, server);
    }

    /** Download, unpack into the `.part` file, verify, and only then rename into place. */
    method DownloadEntry(id: string, n: nat, e: Entry, key: Option<string>, server: Server) returns (refusal: Option<Refusal>)
      requires id in store.staging
      modifies store`staging, parts
      ensures id in store.staging && SameExcept(old(store.staging), store.staging, id)
      ensures OthersKept(old(store.staging[id]), store.staging[id], e.path, PartName(e.path))
      ensures refusal.None? ==> HasFile(Signed(codec.hash), e, store.staging[id]) && PartName(e.path) !in store.staging[id]
      ensures PartsKept(old(parts.files), parts.files, e, refusal.None?)
      ensures CanGet(codec, e, key, map[], old(parts.files), server(n, e.blob.sha256)) ==> refusal.None?
      ensures refusal.Some? ==> Fails(codec, e, key, map[], old(parts.files), server(n, e.blob.sha256), refusal.value)
    {
      var dir := store.staging[id];
      ObtainableIsFetched(codec, e, key, FindIn(parts.files, PartOf(e)), server(n, e.blob.sha256));
      var contents, code := FetchPlaintext(n, e, key, server);
      var tmpOut := PartName(e.path);
      if contents.None? {
        if code.DecompressFailed? {
          SetStaging(id, dir - {tmpOut});
        }
        return Some(code);
      }
      SetStaging(id, dir[tmpOut := contents.value]);
      if |contents.value| != e.size || codec.hash(contents.value) != e.sha256 {
        SetStaging(id, dir - {tmpOut});
        return Some(FileHashMismatch);
      }
      // Renamed into place only now that it is verified.
      SetStaging(id, (dir - {tmpOut})[e.path := contents.value]);
      return None;
    }

    /**
     If a release is staged, every file of its manifest is in the committed slot with its signed hash
     and size, whichever branch produced it; otherwise the saved state and every slot directory are
     as they were.
     */
    method DownloadAndStage(signatureOk: bool, m: Manifest, server: Server) returns (r: Staging)
      modifies store, parts
      ensures r.StagedSlot? ==>
                && Passes(app, Load(old(store.file)), signatureOk, m)
                && r.slot == SlotFor(app, m)
                && Load(store.file) == Load(old(store.file)).(staged := Some(r.slot))
                && m.bundleId in store.bundles && SameExcept(old(store.bundles), store.bundles, m.bundleId)
                && IsInstalled(codec.hash, m.files, store.bundles[m.bundleId])
      ensures r.Refused? ==> Load(store.file) == Load(old(store.file)) && store.bundles == old(store.bundles)
      // It succeeds when nothing is missing, and a refusal says what is.
      ensures Passes(app, Load(old(store.file)), signatureOk, m) && NothingIsMissing(codec, old(store.Disk()), m, old(parts.files), server) ==>
                r.StagedSlot?
      ensures r.Refused? ==>
                if Passes(app, Load(old(store.file)), signatureOk, m) then DownloadFails(codec, old(store.Disk()), m, r.code)
                else Explains(app, Load(old(store.file)), signatureOk, m, r.code)
    {
      ghost var found := store.Disk();
      var state := store.LoadState();
      var refusal := CheckGates(state, signatureOk, m);
      if refusal.Some? {
        return Refused(refusal.value);
      }

      var dir := store.StagingDir(m.bundleId);
      var have := store.HaveFiles();
      ReusableAsBefore(found, store.Disk(), have);
      r := Install(m, have, server);
      if NothingIsMissing(codec, found, m, old(parts.files), server) {
        EverythingCanBeHad(codec, found, m, have, old(parts.files), server);
      }
      if r.Refused? {
        FailureIsFound(codec, found, m, have, r.code);
      }
    }

    /** Assemble every file and commit. */
    method Install(m: Manifest, have: map<string, Bytes>, server: Server) returns (r: Staging)
      requires m.bundleId in store.staging
      modifies store, parts
      ensures r.StagedSlot? ==>
                && r.slot == SlotFor(app, m)
                && Load(store.file) == Load(old(store.file)).(staged := Some(r.slot))
                && m.bundleId in store.bundles && SameExcept(old(store.bundles), store.bundles, m.bundleId)
                && IsInstalled(codec.hash, m.files, store.bundles[m.bundleId])
      ensures r.Refused? ==> Load(store.file) == Load(old(store.file)) && store.bundles == old(store.bundles)
      ensures CanGetFrom(codec, m, 0, have, old(parts.files), server) && NoneIsInTheWay(m.files) ==> r.StagedSlot?
      ensures r.Refused? ==>
                if r.code.IncompleteSlot? then !NoneIsInTheWay(m.files) else SomeEntryFails(codec, m, have, r.code)
    {
      var refusal, files, bundleSha := AssembleAll(m, have, server);
      if refusal.Some? {
        return Refused(refusal.value);
      }

      ghost var assembled, before := store.staging[m.bundleId], store.Disk();
      if NoneIsInTheWay(m.files) {
        AllThereIsComplete(codec.hash, m.files, assembled);
      }
      CommitSettles(before, SlotFor(app, m));
      var commit := store.CommitStaged(app.bin, m.bundleId, m.bundleVersion, m.runtimeVersion, bundleSha, files);
      if commit.MissingFiles? {
        return Refused(IncompleteSlot);
      }
      CompleteMeansEveryFile(Signed(codec.hash), m.files, assembled);
      r := StagedSlot(SlotFor(app, m));
    }

    /** The assembly loop, over the entries in manifest order. */
    method AssembleAll(m: Manifest, have: map<string, Bytes>, server: Server)
      returns (refusal: Option<Refusal>, files: map<string, string>, bundleSha: string)
      requires m.bundleId in store.staging
      modifies store`staging, parts
      ensures m.bundleId in store.staging && SameExcept(old(store.staging), store.staging, m.bundleId)
      ensures refusal.None? ==> Reached(Signed(codec.hash), m.files, |m.files|, store.staging[m.bundleId], files, bundleSha)
      ensures CanGetFrom(codec, m, 0, have, old(parts.files), server) ==> refusal.None?
      ensures refusal.Some? ==> SomeEntryFails(codec, m, have, refusal.value)
    {
      files, bundleSha := map[], "";
      ghost var canGet := CanGetFrom(codec, m, 0, have, parts.files, server);
      for n := 0 to |m.files|
        invariant m.bundleId in store.staging && SameExcept(old(store.staging), store.staging, m.bundleId)
        invariant Reached(Signed(codec.hash), m.files, n, store.staging[m.bundleId], files, bundleSha)
        invariant canGet ==> CanGetFrom(codec, m, n, have, parts.files, server)
      {
        refusal, files, bundleSha := AssembleNext(m, n, files, bundleSha, have, server);
        if refusal.Some? {
          return;
        }
      }
      refusal := None;
    }

    /** One round of that loop. */
    method AssembleNext(m: Manifest, n: nat, files: map<string, string>, bundleSha: string, have: map<string, Bytes>, server: Server)
      returns (refusal: Option<Refusal>, listed: map<string, string>, newSha: string)
      requires m.bundleId in store.staging && n < |m.files|
      requires Reached(Signed(codec.hash), m.files, n, store.staging[m.bundleId], files, bundleSha)
      modifies store`staging, parts
      ensures m.bundleId in store.staging && SameExcept(old(store.staging), store.staging, m.bundleId)
      ensures refusal.None? ==> Reached(Signed(codec.hash), m.files, n + 1, store.staging[m.bundleId], listed, newSha)
      ensures CanGetFrom(codec, m, n, have, old(parts.files), server) ==>
                refusal.None? && CanGetFrom(codec, m, n + 1, have, parts.files, server)
      ensures refusal.Some? ==> SomeEntryFails(codec, m, have, refusal.value)
    {
      var entry := m.files[n];
      newSha := if entry.isBundle then entry.sha256 else bundleSha;
      listed := files[entry.path := entry.sha256];
      ghost var before, found := store.staging[m.bundleId], parts.files;
      refusal := AssembleEntry(m.bundleId, n, entry, m.contentKey, have, server);
      if refusal.Some? {
        EntryIsBlamed(codec, m, n, have, found, server(n, entry.blob.sha256), refusal.value);
      } else {
        NextIsReached(Signed(codec.hash), m.files, n, before, store.staging[m.bundleId], files, bundleSha);
        OthersStillObtainable(codec, m, n, have, found, parts.files, server);
      }
    }
  }

  // ---- what it means -----------------------------------------------------

  /**
   A download that succeeds is exactly the commit of the run model: its gate is the run's gate, and
   the directory it commits satisfies what a commit there relies on.
   */
  lemma DownloadMatchesTheRun(app: App, s: State, m: Manifest, w: SlotRuns.World, dir: Dir)
    requires Passes(app, s, true, m)
    requires w.catalog(m.bundleId) == SlotRuns.Release(m.bundleVersion, m.runtimeVersion, BundleSha(m.files, |m.files|), FileMap(m.files, |m.files|))
    requires Assembled(Signed(w.hash), m.files, |m.files|, dir)
    ensures SlotRuns.SlotOf(w, m.bundleId, app.bin) == SlotFor(app, m)
    ensures SlotRuns.Gate(s, app.bin, SlotRuns.SlotOf(w, m.bundleId, app.bin))
    ensures SlotRuns.Verified(w, dir, SlotRuns.SlotOf(w, m.bundleId, app.bin).files)
  {
    AssembledIsVerified(w, m.files, dir);
  }
}
