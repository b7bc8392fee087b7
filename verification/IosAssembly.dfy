/**
 The same pipeline on iOS: no resuming, a reused file is hashed again but not measured, and two different
 paths can be one file. What a success promises is less than on Android, and exactly how much less is
 stated here. A directory is keyed by where a path leads (`Place`).
 */
module IosAssembly {
  import opened Common
  import opened SlotModel
  import opened SlotStore
  import SlotRuns
  import Paths
  import ReleaseOrder
  import Spots
  import opened Assembly

  /** What a request for the n-th entry's blob brings back: a whole body with status 200, or nothing. */
  type Fetch = (nat, string) -> Option<Bytes>

  datatype Outcome = StagedSlot(slot: Slot) | Threw

  predicate GoodIosEntry(glue: Paths.Glue, e: Entry) {
    Paths.IosAccepts(glue, e.path) && IsSha256Hex(e.sha256) && IsSha256Hex(e.blob.sha256)
  }

  ghost predicate PassesIos(glue: Paths.Glue, app: App, s: State, signatureOk: bool, m: Manifest) {
    && signatureOk && m.schema == 2
    && m.appId == app.packageName && m.channel == app.channel && m.platform == "ios"
    && (m.minNativeBuild.Some? ==> app.bin.nativeBuild >= m.minNativeBuild.value)
    && m.files != []
    && SlotRuns.Gate(s, app.bin, SlotFor(app, m))
    && forall e | e in m.files :: GoodIosEntry(glue, e)
  }

  // ---- paths and files ---------------------------------------------------

  /** What the file system makes of a path: paths with one folding name one file. */
  type Folding = string -> string

  /** Where a path leads. */
  function Place(fold: Folding, path: string): string {
    fold(Spots.Key(path))
  }

  /** The entry, under the name its path stands for. */
  function Named(fold: Folding, e: Entry): Entry {
    e.(path := Place(fold, e.path))
  }

  function Keyed(fold: Folding, files: seq<Entry>): seq<Entry> {
    seq(|files|, n requires 0 <= n < |files| => Named(fold, files[n]))
  }

  /** The temporary file beside the file of an entry. */
  function TmpKey(fold: Folding, e: Entry): string {
    Place(fold, PartName(e.path))
  }

  /** No path leaves the directory it is appended to, not even on its way. */
  predicate StaysBelow(files: seq<Entry>) {
    forall e | e in files :: Paths.Depth(Paths.Split(e.path), 0) > 0
  }

  /** Two paths for one file promise one hash. */
  predicate KeysAgree(fold: Folding, files: seq<Entry>) {
    forall i, j | 0 <= i < j < |files| :: Place(fold, files[i].path) == Place(fold, files[j].path) ==> files[i].sha256 == files[j].sha256
  }

  /** Every path of the manifest leads to a file with the hash signed for it. */
  predicate EveryHash(fold: Folding, hash: Bytes -> string, files: seq<Entry>, dir: Dir) {
    forall e | e in files :: Place(fold, e.path) in dir && hash(dir[Place(fold, e.path)]) == e.sha256
  }

  /** Every promised path leads to a file that is not empty. */
  predicate KeyedComplete(fold: Folding, dir: Dir, files: map<string, string>) {
    forall p | p in files :: Place(fold, p) in dir && |dir[Place(fold, p)]| > 0
  }

  /** What the promised paths lead to. */
  function Seen(fold: Folding, dir: Dir, files: map<string, string>): Dir {
    map p | p in files && Place(fold, p) in dir :: dir[Place(fold, p)]
  }

  ghost predicate Offers(fold: Folding, bundles: map<string, Dir>, slot: Option<Slot>, sha: string, contents: Bytes) {
    && slot.Some? && slot.value.bundleId != "" && slot.value.bundleId in bundles
    && var seen := Seen(fold, bundles[slot.value.bundleId], slot.value.files);
       exists path :: Lists(seen, slot.value.files, path, sha) && seen[path] == contents
  }

  function IosCommitted(fold: Folding, i: Image, slot: Slot): Image {
    if KeyedComplete(fold, StagingOf(i, slot.bundleId), slot.files) then
      Save(Read(Renamed(i, slot.bundleId)), Load(i.file).(staged := Some(slot)))
    else
      i.(staging := i.staging - {slot.bundleId})
  }

  lemma PreparingIsForgotten(i: Image, id: string)
    ensures Renamed(Prepared(i, id), id) == Renamed(i, id)
    ensures Prepared(i, id).staging - {id} == i.staging - {id} && Prepared(i, id).bundles == i.bundles
  {
    assert Prepared(i, id).staging - {id} == i.staging - {id};
  }

  lemma IosCommitPublishes(fold: Folding, i: Image, slot: Slot)
    ensures var after := IosCommitted(fold, i, slot);
            if KeyedComplete(fold, StagingOf(i, slot.bundleId), slot.files) then
              && after.bundles == i.bundles[slot.bundleId := StagingOf(i, slot.bundleId)]
              && Load(after.file) == Load(i.file).(staged := Some(slot))
            else after.bundles == i.bundles && after.file == i.file
    ensures IosCommitted(fold, i, slot).staging == i.staging - {slot.bundleId}
  {
  }

  lemma {:induction false} PathsAreMapped(files: seq<Entry>, n: nat, i: nat)
    requires i < n <= |files|
    ensures files[i].path in FileMap(files, n)
  {
    if i < n - 1 {
      PathsAreMapped(files, n - 1, i);
    }
  }

  /** Nothing is missing at the commit, so the last entry for each file is there and right. */
  lemma CommittedHasEveryFile(fold: Folding, right: Check, files: seq<Entry>, dir: Dir)
    requires Assembled(right, Keyed(fold, files), |files|, dir) && KeyedComplete(fold, dir, FileMap(files, |files|))
    ensures EveryFile(right, Keyed(fold, files), dir)
  {
    if DistinctPaths(Keyed(fold, files)) {
      DistinctPathsAreAllLast(Keyed(fold, files));
    }
    forall i | 0 <= i < |files| && IsLast(Keyed(fold, files), i, |files|) ensures HasFile(right, Keyed(fold, files)[i], dir) {
      PathsAreMapped(files, |files|, i);
    }
  }

  lemma {:induction false} LastForItsFile(files: seq<Entry>, i: nat, n: nat) returns (j: nat)
    requires i < n <= |files|
    ensures i <= j < n && IsLast(files, j, n) && files[j].path == files[i].path
    decreases n
  {
    j := n - 1;
    if files[j].path != files[i].path {
      j := LastForItsFile(files, i, n - 1);
    }
  }

  /**
   When the last entry for each file is right, every entry has its signed hash if and only if no two of
   them promise different hashes for one file.
   */
  lemma EveryHashExactly(fold: Folding, hash: Bytes -> string, have: map<string, Bytes>, files: seq<Entry>, dir: Dir)
    requires EveryFile(SignedOrReused(hash, have), Keyed(fold, files), dir)
    ensures EveryHash(fold, hash, files, dir) <==> KeysAgree(fold, files)
  {
    if KeysAgree(fold, files) {
      forall e | e in files ensures Place(fold, e.path) in dir && hash(dir[Place(fold, e.path)]) == e.sha256 {
        var i :| 0 <= i < |files| && files[i] == e;
        var j := LastForItsFile(Keyed(fold, files), i, |files|);
        assert HasFile(SignedOrReused(hash, have), Keyed(fold, files)[j], dir);
      }
    } else {
      var i, j :| 0 <= i < j < |files| && Place(fold, files[i].path) == Place(fold, files[j].path) && files[i].sha256 != files[j].sha256;
      assert files[i] in files && files[j] in files;
    }
  }

  /**
   No promised path is missing, and each file is right for the last entry that leads to it: the signed hash,
   and the signed size unless it was reused from a slot. How far that goes is exact.
   */
  ghost predicate Installed(fold: Folding, hash: Bytes -> string, have: map<string, Bytes>, files: seq<Entry>, dir: Dir) {
    && KeyedComplete(fold, dir, FileMap(files, |files|))
    && EveryFile(SignedOrReused(hash, have), Keyed(fold, files), dir)
    && (EveryHash(fold, hash, files, dir) <==> KeysAgree(fold, files))
  }

  lemma CommittedIsInstalled(fold: Folding, hash: Bytes -> string, have: map<string, Bytes>, files: seq<Entry>, dir: Dir)
    requires Assembled(SignedOrReused(hash, have), Keyed(fold, files), |files|, dir) && KeyedComplete(fold, dir, FileMap(files, |files|))
    ensures Installed(fold, hash, have, files, dir)
  {
    CommittedHasEveryFile(fold, SignedOrReused(hash, have), files, dir);
    EveryHashExactly(fold, hash, have, files, dir);
  }

  /** Two entries that pass every check of iOS, with different paths and one file between them. */
  lemma AcceptedPathsCanShareAFile(fold: Folding, dotted: Entry, plain: Entry)
    requires Spots.IsDotted(dotted.path) && Spots.IsPlain(plain.path) && dotted.sha256 != plain.sha256
    requires forall e | e in [dotted, plain] :: IsSha256Hex(e.sha256) && IsSha256Hex(e.blob.sha256)
    ensures forall e | e in [dotted, plain] :: GoodIosEntry(Paths.AccentJoins(), e)
    ensures DistinctPaths([dotted, plain]) && StaysBelow([dotted, plain]) && !KeysAgree(fold, [dotted, plain])
  {
    var files := [dotted, plain];
    Spots.IosPathsCanCoincide(dotted.path, plain.path);
    Paths.StaysBelowExactly(dotted.path);
    Paths.StaysBelowExactly(plain.path);
    assert Place(fold, files[0].path) == Place(fold, files[1].path) && files[0].sha256 != files[1].sha256;
  }

  /** The same goes for a composed and a decomposed accent, which the publisher accepts too, where names fold to one. */
  lemma EquivalentPathsCanShareAFile(fold: Folding, composed: Entry, decomposed: Entry)
    requires ReleaseOrder.IsComposed(composed.path) && ReleaseOrder.IsDecomposed(decomposed.path)
    requires fold(composed.path) == fold(decomposed.path) && composed.sha256 != decomposed.sha256
    ensures forall e | e in [composed, decomposed] :: Paths.SharedAccepts(e.path) && Paths.IosAccepts(Paths.AccentJoins(), e.path)
    ensures DistinctPaths([composed, decomposed]) && StaysBelow([composed, decomposed]) && !KeysAgree(fold, [composed, decomposed])
  {
    var files := [composed, decomposed];
    assert composed.path[0] != decomposed.path[0];
    ShortPathIsItsKey(composed.path);
    ShortPathIsItsKey(decomposed.path);
    assert Place(fold, files[0].path) == Place(fold, files[1].path) && files[0].sha256 != files[1].sha256;
  }

  lemma ShortPathIsItsKey(path: string)
    requires ReleaseOrder.IsComposed(path) || ReleaseOrder.IsDecomposed(path)
    ensures Paths.SharedAccepts(path) && Paths.IosAccepts(Paths.AccentJoins(), path)
    ensures Spots.Key(path) == path && Paths.Depth(Paths.Split(path), 0) > 0
  {
    ReleaseOrder.ShortIsShort(path);
    ReleaseOrder.ShortNameIsAccepted(path);
    assert forall i | 0 <= i < |path| :: path[i] != ':';
    Paths.CheckersAgreeExactly(Paths.AccentJoins(), path);
    Spots.GoodPathIsItsKey(path);
    forall root ensures root < Paths.Resolve(root, path) {
      Paths.AcceptedPathIsContained(root, path);
    }
    Paths.StaysBelowExactly(path);
  }

  // ---- one entry ---------------------------------------------------------

  /** Left over from an earlier attempt, and right. */
  predicate AlreadyThere(fold: Folding, codec: Codec, e: Entry, dir: Dir) {
    HasFile(Signed(codec.hash), Named(fold, e), dir)
  }

  /** The blob of an entry, if it is the signed one and opens. */
  function Unsealed(codec: Codec, e: Entry, key: Option<string>, fetched: Option<Bytes>): Option<Bytes> {
    if fetched.None? || |fetched.value| != e.blob.size || codec.hash(fetched.value) != e.blob.sha256 then None
    else if key.Some? then codec.decrypt(key.value, e.blob, e.sha256, fetched.value)
    else fetched
  }

  function Decompressed(codec: Codec, e: Entry, sealed: Bytes): Option<Bytes> {
    if e.blob.zstd then codec.decompress(sealed, e.size) else Some(sealed)
  }

  /** The staging directory after one entry, and whether the download goes on. */
  function Entered(fold: Folding, codec: Codec, e: Entry, dir: Dir, key: Option<string>, have: map<string, Bytes>, fetched: Option<Bytes>): (Dir, bool) {
    if AlreadyThere(fold, codec, e, dir) then (dir, true)
    else if e.sha256 in have then Reused(fold, codec, e, dir, have[e.sha256])
    else Fetched(fold, codec, e, dir, Unsealed(codec, e, key, fetched))
  }

  function Reused(fold: Folding, codec: Codec, e: Entry, dir: Dir, contents: Bytes): (Dir, bool) {
    if codec.hash(contents) != e.sha256 then (dir - {Place(fold, e.path)}, false)
    else (dir[Place(fold, e.path) := contents], true)
  }

  function Fetched(fold: Folding, codec: Codec, e: Entry, dir: Dir, sealed: Option<Bytes>): (Dir, bool) {
    if sealed.None? then (dir, false)
    else
      var written := Decompressed(codec, e, sealed.value);
      if written.None? || !Signed(codec.hash)(e, written.value) then (dir - {TmpKey(fold, e)}, false)
      else ((dir - {TmpKey(fold, e)})[Place(fold, e.path) := written.value], true)
  }

  /** The signed hash; and the signed size, except for contents reused from a slot. */
  function SignedOrReused(hash: Bytes -> string, have: map<string, Bytes>): Check {
    (e: Entry, contents: Bytes) =>
      hash(contents) == e.sha256 && (|contents| == e.size || (e.sha256 in have && contents == have[e.sha256]))
  }

  /** An entry that goes through has its signed hash, and its signed size unless the reused file has another one. */
  lemma EnteredIsRightExactly(fold: Folding, codec: Codec, e: Entry, dir: Dir, key: Option<string>, have: map<string, Bytes>, fetched: Option<Bytes>)
    requires Entered(fold, codec, e, dir, key, have, fetched).1
    ensures var after := Entered(fold, codec, e, dir, key, have, fetched).0;
            && HasFile(SignedOrReused(codec.hash, have), Named(fold, e), after)
            && (HasFile(Signed(codec.hash), Named(fold, e), after) <==>
                  (AlreadyThere(fold, codec, e, dir) || e.sha256 !in have || |have[e.sha256]| == e.size))
  {
  }

  // ---- when a download goes through --------------------------------------

  /** The file is on the device and right, or the server has the signed blob. */
  predicate IosCanGet(codec: Codec, e: Entry, key: Option<string>, have: map<string, Bytes>, fetched: Option<Bytes>) {
    if e.sha256 in have then codec.hash(have[e.sha256]) == e.sha256
    else fetched.Some? && IsBlobOf(codec, e, key, fetched.value)
  }

  /** An entry goes through exactly if it is there already or can be had. */
  lemma EnteredExactly(fold: Folding, codec: Codec, e: Entry, dir: Dir, key: Option<string>, have: map<string, Bytes>, fetched: Option<Bytes>)
    ensures Entered(fold, codec, e, dir, key, have, fetched).1 <==>
              AlreadyThere(fold, codec, e, dir) || IosCanGet(codec, e, key, have, fetched)
  {
  }

  /** No entry leads to a later one's temporary file. */
  predicate IosIsClear(fold: Folding, files: seq<Entry>) {
    forall i, j | 0 <= i < j < |files| :: Place(fold, files[i].path) != TmpKey(fold, files[j])
  }

  /** A file under the name of a temporary file is lost when the entry that uses that name is downloaded. */
  lemma NameInTheWayIsLost(fold: Folding, codec: Codec, e: Entry, other: Entry, dir: Dir, key: Option<string>, have: map<string, Bytes>, fetched: Option<Bytes>)
    requires other.path == PartName(e.path) && Place(fold, other.path) != Place(fold, e.path)
    requires !AlreadyThere(fold, codec, e, dir) && e.sha256 !in have && Entered(fold, codec, e, dir, key, have, fetched).1
    ensures Place(fold, other.path) !in Entered(fold, codec, e, dir, key, have, fetched).0
  {
  }

  /** The first `n` entries are assembled, and none of them is lost if no name is in the way. */
  ghost predicate IosProgress(fold: Folding, right: Check, files: seq<Entry>, n: nat, dir: Dir)
    requires n <= |files|
  {
    Assembled(right, Keyed(fold, files), n, dir) && (IosIsClear(fold, files) ==> AllThere(Keyed(fold, files), n, dir))
  }

  /** And what the loop has noted so far is right. */
  ghost predicate IosReached(fold: Folding, right: Check, files: seq<Entry>, n: nat, dir: Dir, listed: map<string, string>, bundleSha: string)
    requires n <= |files|
  {
    IosProgress(fold, right, files, n, dir) && listed == FileMap(files, n) && bundleSha == BundleSha(files, n)
  }

  lemma EnteredAssembles(fold: Folding, codec: Codec, files: seq<Entry>, n: nat, dir: Dir, key: Option<string>, have: map<string, Bytes>, fetched: Option<Bytes>)
    requires n < |files| && Entered(fold, codec, files[n], dir, key, have, fetched).1
    requires IosProgress(fold, SignedOrReused(codec.hash, have), files, n, dir)
    ensures IosProgress(fold, SignedOrReused(codec.hash, have), files, n + 1, Entered(fold, codec, files[n], dir, key, have, fetched).0)
  {
    var after := Entered(fold, codec, files[n], dir, key, have, fetched).0;
    EnteredIsRightExactly(fold, codec, files[n], dir, key, have, fetched);
    assert OthersKept(dir, after, Keyed(fold, files)[n].path, TmpKey(fold, files[n]));
    AssembledGrows(SignedOrReused(codec.hash, have), Keyed(fold, files), n, dir, after, TmpKey(fold, files[n]));
  }

  lemma {:induction false} PathsLeadThere(fold: Folding, files: seq<Entry>, n: nat, dir: Dir)
    requires n <= |files| && AllThere(Keyed(fold, files), n, dir)
    ensures forall p | p in FileMap(files, n) :: Place(fold, p) in dir
  {
    if n > 0 {
      PathsLeadThere(fold, files, n - 1, dir);
      assert Keyed(fold, files)[n - 1].path == Place(fold, files[n - 1].path);
    }
  }

  /** What the commit needs: clear names, and no file, signed or reused, that is empty. */
  predicate IosNoneIsInTheWay(fold: Folding, files: seq<Entry>, have: map<string, Bytes>) {
    && IosIsClear(fold, files)
    && forall e | e in files :: e.size > 0 && (e.sha256 in have ==> have[e.sha256] != [])
  }

  lemma IosAllThereIsComplete(fold: Folding, hash: Bytes -> string, files: seq<Entry>, have: map<string, Bytes>, dir: Dir)
    requires IosProgress(fold, SignedOrReused(hash, have), files, |files|, dir) && IosNoneIsInTheWay(fold, files, have)
    ensures KeyedComplete(fold, dir, FileMap(files, |files|))
  {
    PathsLeadThere(fold, files, |files|, dir);
    forall p | p in FileMap(files, |files|) ensures Place(fold, p) in dir && |dir[Place(fold, p)]| > 0 {
      var i := LastEntryFor(files, |files|, p);
      var j := LastForItsFile(Keyed(fold, files), i, |files|);
      assert HasFile(SignedOrReused(hash, have), Keyed(fold, files)[j], dir);
      assert files[j] in files;
    }
  }

  ghost predicate IosCanGetAll(codec: Codec, m: Manifest, have: map<string, Bytes>, fetch: Fetch) {
    forall n | 0 <= n < |m.files| :: IosCanGet(codec, m.files[n], m.contentKey, have, fetch(n, m.files[n].blob.sha256))
  }

  /** One slot or the other has a file with that hash. */
  ghost predicate IsOffered(fold: Folding, bundles: map<string, Dir>, s: State, sha: string, contents: Bytes) {
    Offers(fold, bundles, s.current, sha, contents) || Offers(fold, bundles, s.lastKnownGood, sha, contents)
  }

  /** All that a download has to find to succeed. */
  ghost predicate IosNothingIsMissing(fold: Folding, codec: Codec, i: Image, m: Manifest, fetch: Fetch) {
    && (forall e, contents | e in m.files && IsOffered(fold, i.bundles, Load(i.file), e.sha256, contents) :: codec.hash(contents) == e.sha256 && contents != [])
    && (forall n | 0 <= n < |m.files| :: IosHas(fold, codec, i, m.files[n], m.contentKey, fetch(n, m.files[n].blob.sha256)))
    && IosIsClear(fold, m.files) && forall e | e in m.files :: e.size > 0
  }

  ghost predicate IosHas(fold: Folding, codec: Codec, i: Image, e: Entry, key: Option<string>, fetched: Option<Bytes>) {
    (exists contents :: IsOffered(fold, i.bundles, Load(i.file), e.sha256, contents)) || (fetched.Some? && IsBlobOf(codec, e, key, fetched.value))
  }

  /** What is offered for reuse is what the slots have. */
  ghost predicate IosReusable(fold: Folding, bundles: map<string, Dir>, s: State, have: map<string, Bytes>) {
    && (forall sha :: sha in have <==> exists contents :: IsOffered(fold, bundles, s, sha, contents))
    && forall sha | sha in have :: IsOffered(fold, bundles, s, sha, have[sha])
  }

  /** The files of one slot on top of those found before. */
  ghost predicate Adds(fold: Folding, bundles: map<string, Dir>, slot: Option<Slot>, found: map<string, Bytes>, have: map<string, Bytes>) {
    && (forall sha :: sha in have <==> sha in found || exists contents :: Offers(fold, bundles, slot, sha, contents))
    && forall sha | sha in have :: (sha in found && have[sha] == found[sha]) || Offers(fold, bundles, slot, sha, have[sha])
  }

  lemma TwoSlotsAreOffered(fold: Folding, bundles: map<string, Dir>, s: State, some: map<string, Bytes>, have: map<string, Bytes>)
    requires Adds(fold, bundles, s.current, map[], some) && Adds(fold, bundles, s.lastKnownGood, some, have)
    ensures IosReusable(fold, bundles, s, have)
  {
    forall sha | sha in have ensures IsOffered(fold, bundles, s, sha, have[sha]) {
      assert sha in some ==> Offers(fold, bundles, s.current, sha, some[sha]);
    }
    forall sha, contents | IsOffered(fold, bundles, s, sha, contents) ensures sha in have {
      if Offers(fold, bundles, s.current, sha, contents) {
        assert sha in some;
      }
    }
  }

  lemma IosEverythingCanBeHad(fold: Folding, codec: Codec, i: Image, m: Manifest, have: map<string, Bytes>, fetch: Fetch)
    requires IosNothingIsMissing(fold, codec, i, m, fetch) && IosReusable(fold, i.bundles, Load(i.file), have)
    ensures IosCanGetAll(codec, m, have, fetch) && IosNoneIsInTheWay(fold, m.files, have)
  {
    forall n | 0 <= n < |m.files| ensures IosCanGet(codec, m.files[n], m.contentKey, have, fetch(n, m.files[n].blob.sha256)) {
      assert m.files[n] in m.files;
      assert IosHas(fold, codec, i, m.files[n], m.contentKey, fetch(n, m.files[n].blob.sha256));
    }
  }

  /** Every byte as one character: a hash without collisions. */
  function Spelled(b: Bytes): string {
    seq(|b|, i requires 0 <= i < |b| => b[i] as char)
  }

  lemma SpelledHasNoCollision(a: Bytes, b: Bytes)
    requires Spelled(a) == Spelled(b)
    ensures a == b
  {
    assert |a| == |b|;
    forall i | 0 <= i < |a| ensures a[i] == b[i] {
      assert Spelled(a)[i] == Spelled(b)[i];
    }
  }

  /** A concrete entry, of signed size two, that iOS installs with the one byte it finds and Android refuses. */
  lemma ReusedFileCanHaveAnotherSize(fold: Folding, contents: Bytes)
    requires contents == [1]
    ensures forall a, b :: Spelled(a) == Spelled(b) ==> a == b
    ensures var codec := Codec(Spelled, (k: string, b: BlobInfo, a: string, x: Bytes) => Some(x), (x: Bytes, n: int) => Some(x));
            var sha := Spelled(contents);
            var e := Entry("a", false, sha, 2, BlobInfo(sha, 2, false, "", ""));
            var after := Entered(fold, codec, e, map[], None, map[sha := contents], None);
            && after.1 && HasFile(SignedOrReused(codec.hash, map[sha := contents]), Named(fold, e), after.0)
            && !HasFile(Signed(codec.hash), Named(fold, e), after.0)
  {
    forall a, b | Spelled(a) == Spelled(b) ensures a == b {
      SpelledHasNoCollision(a, b);
    }
  }

  // ---- the pipeline ------------------------------------------------------

  class IosDownloader {
    const store: DashOtaStore
    const codec: Codec
    const app: App
    /** How the system's string type cuts text into characters. */
    const glue: Paths.Glue
    const fold: Folding

    constructor (store: DashOtaStore, codec: Codec, app: App, glue: Paths.Glue, fold: Folding)
      ensures this.store == store && this.codec == codec && this.app == app && this.glue == glue && this.fold == fold
    {
      this.store, this.codec, this.app, this.glue, this.fold := store, codec, app, glue, fold;
    }

    method CheckGates(s: State, signatureOk: bool, m: Manifest) returns (ok: bool)
      ensures ok <==> PassesIos(glue, app, s, signatureOk, m)
    {
      if !signatureOk || m.schema != 2 || m.appId != app.packageName || m.runtimeVersion != app.bin.runtimeVersion {
        return false;
      }
      if m.channel != app.channel || m.platform != "ios" {
        return false;
      }
      if m.minNativeBuild.Some? && app.bin.nativeBuild < m.minNativeBuild.value {
        return false;
      }
      if m.bundleVersion <= CurrentVersion(s) || m.files == [] || !SlotRuns.SafeBundleId(m.bundleId) || m.bundleId in s.disabledBundles {
        return false;
      }
      for n := 0 to |m.files|
        invariant forall k | 0 <= k < n :: GoodIosEntry(glue, m.files[k])
      {
        var entry := m.files[n];
        if !Paths.IosAccepts(glue, entry.path) || !IsSha256Hex(entry.sha256) || !IsSha256Hex(entry.blob.sha256) {
          assert entry in m.files && !GoodIosEntry(glue, entry);
          return false;
        }
      }
      return true;
    }

    method SetStaging(id: string, dir: Dir)
      modifies store`staging
      ensures store.staging == old(store.staging)[id := dir]
    {
      store.staging := store.staging[id := dir];
    }

    /** Plaintext hash to contents, for every file of the two slots a sweep is sure to keep. */
    method HaveFiles() returns (have: map<string, Bytes>)
      modifies store`file, store`log
      ensures store.Disk() == Read(old(store.Disk()))
      ensures IosReusable(fold, store.bundles, Load(store.file), have)
    {
      var state := store.LoadState();
      var some := AddSlot(state.current, map[]);
      have := AddSlot(state.lastKnownGood, some);
      TwoSlotsAreOffered(fold, store.bundles, state, some, have);
    }

    method AddSlot(slot: Option<Slot>, found: map<string, Bytes>) returns (have: map<string, Bytes>)
      ensures Adds(fold, store.bundles, slot, found, have)
    {
      if slot.None? || slot.value.bundleId == "" || slot.value.bundleId !in store.bundles {
        return found;
      }
      var seen := Seen(fold, store.bundles[slot.value.bundleId], slot.value.files);
      have := AddFiles(seen, slot.value.files, found);
      forall sha, path | Lists(seen, slot.value.files, path, sha) ensures Offers(fold, store.bundles, slot, sha, seen[path]) {
      }
    }

    method AssembleEntry(id: string, n: nat, e: Entry, key: Option<string>, have: map<string, Bytes>, fetch: Fetch) returns (ok: bool)
      requires id in store.staging
      modifies store`staging
      ensures id in store.staging && SameExcept(old(store.staging), store.staging, id)
      ensures (store.staging[id], ok) == Entered(fold, codec, e, old(store.staging[id]), key, have, fetch(n, e.blob.sha256))
    {
      var dir := store.staging[id];
      var out := Place(fold, e.path);
      if out in dir && |dir[out]| == e.size && codec.hash(dir[out]) == e.sha256 {
        return true;
      }
      if e.sha256 in have {
        ok := ReuseFile(id, e, have[e.sha256]);
      } else {
        ok := DownloadFile(id, e, key, fetch(n, e.blob.sha256));
      }
    }

    /** Check the blob that came back, and open it. */
    method DownloadFile(id: string, e: Entry, key: Option<string>, body: Option<Bytes>) returns (ok: bool)
      requires id in store.staging
      modifies store`staging
      ensures id in store.staging && SameExcept(old(store.staging), store.staging, id)
      ensures (store.staging[id], ok) == Fetched(fold, codec, e, old(store.staging[id]), Unsealed(codec, e, key, body))
    {
      if body.None? || |body.value| != e.blob.size || codec.hash(body.value) != e.blob.sha256 {
        return false;
      }
      var sealed := if key.Some? then codec.decrypt(key.value, e.blob, e.sha256, body.value) else body;
      if sealed.None? {
        return false;
      }
      ok := WriteFile(id, e, sealed.value);
    }

    /** Copy a file of this device into place, and hash the copy. */
    method ReuseFile(id: string, e: Entry, contents: Bytes) returns (ok: bool)
      requires id in store.staging
      modifies store`staging
      ensures id in store.staging && SameExcept(old(store.staging), store.staging, id)
      ensures (store.staging[id], ok) == Reused(fold, codec, e, old(store.staging[id]), contents)
    {
      var dir := store.staging[id];
      SetStaging(id, dir[Place(fold, e.path) := contents]);
      ok := codec.hash(contents) == e.sha256;
      if !ok {
        SetStaging(id, dir - {Place(fold, e.path)});
      }
    }

    /** Unpack into the `.part` file, measure and hash it, and only then rename it into place. */
    method WriteFile(id: string, e: Entry, sealed: Bytes) returns (ok: bool)
      requires id in store.staging
      modifies store`staging
      ensures id in store.staging && SameExcept(old(store.staging), store.staging, id)
      ensures (store.staging[id], ok) == Fetched(fold, codec, e, old(store.staging[id]), Some(sealed))
    {
      var dir := store.staging[id];
      var tmpOut := TmpKey(fold, e);
      var written := if e.blob.zstd then codec.decompress(sealed, e.size) else Some(sealed);
      if written.None? {
        SetStaging(id, dir - {tmpOut});
        return false;
      }
      SetStaging(id, dir[tmpOut := written.value]);
      if |written.value| != e.size || codec.hash(written.value) != e.sha256 {
        SetStaging(id, dir - {tmpOut});
        return false;
      }
      SetStaging(id, (dir - {tmpOut})[Place(fold, e.path) := written.value]);
      return true;
    }

    /** The assembly loop. */
    method AssembleAll(m: Manifest, have: map<string, Bytes>, fetch: Fetch)
      returns (ok: bool, files: map<string, string>, bundleSha: string)
      requires m.bundleId in store.staging
      modifies store`staging
      ensures m.bundleId in store.staging && SameExcept(old(store.staging), store.staging, m.bundleId)
      ensures ok ==> IosReached(fold, SignedOrReused(codec.hash, have), m.files, |m.files|, store.staging[m.bundleId], files, bundleSha)
      ensures IosCanGetAll(codec, m, have, fetch) ==> ok
    {
      files, bundleSha := map[], "";
      for n := 0 to |m.files|
        invariant m.bundleId in store.staging && SameExcept(old(store.staging), store.staging, m.bundleId)
        invariant IosReached(fold, SignedOrReused(codec.hash, have), m.files, n, store.staging[m.bundleId], files, bundleSha)
      {
        ok, files, bundleSha := AssembleNext(m, n, files, bundleSha, have, fetch);
        if !ok {
          return;
        }
      }
      ok := true;
    }

    /** One round of that loop. */
    method AssembleNext(m: Manifest, n: nat, files: map<string, string>, bundleSha: string, have: map<string, Bytes>, fetch: Fetch)
      returns (ok: bool, listed: map<string, string>, newSha: string)
      requires m.bundleId in store.staging && n < |m.files|
      requires IosReached(fold, SignedOrReused(codec.hash, have), m.files, n, store.staging[m.bundleId], files, bundleSha)
      modifies store`staging
      ensures m.bundleId in store.staging && SameExcept(old(store.staging), store.staging, m.bundleId)
      ensures ok ==> IosReached(fold, SignedOrReused(codec.hash, have), m.files, n + 1, store.staging[m.bundleId], listed, newSha)
      ensures IosCanGet(codec, m.files[n], m.contentKey, have, fetch(n, m.files[n].blob.sha256)) ==> ok
    {
      var entry := m.files[n];
      newSha := if entry.isBundle then entry.sha256 else bundleSha;
      listed := files[entry.path := entry.sha256];
      ghost var before := store.staging[m.bundleId];
      EnteredExactly(fold, codec, entry, before, m.contentKey, have, fetch(n, entry.blob.sha256));
      ok := AssembleEntry(m.bundleId, n, entry, m.contentKey, have, fetch);
      if ok {
        EnteredAssembles(fold, codec, m.files, n, before, m.contentKey, have, fetch(n, entry.blob.sha256));
      }
    }

    /** The commit: every promised path has to lead to a file, and then the directory takes its place. */
    method CommitStaged(slot: Slot) returns (r: CommitResult)
      modifies store
      ensures r.Ok? <==> KeyedComplete(fold, StagingOf(old(store.Disk()), slot.bundleId), slot.files)
      ensures store.Disk() == IosCommitted(fold, old(store.Disk()), slot)
    {
      ghost var before := store.Disk();
      var dir := store.StagingDir(slot.bundleId);
      PreparingIsForgotten(before, slot.bundleId);
      var missing := set path | path in slot.files && (Place(fold, path) !in dir || |dir[Place(fold, path)]| == 0);
      if missing != {} {
        store.DeleteRecursively(Staging, slot.bundleId);
        return MissingFiles(missing);
      }
      assert KeyedComplete(fold, dir, slot.files) by {
        forall path | path in slot.files ensures Place(fold, path) in dir && |dir[Place(fold, path)]| > 0 { assert path !in missing; }
      }
      store.MoveIntoPlace(slot.bundleId);
      var state := store.LoadState();
      store.SaveState(state.(staged := Some(slot)));
      r := Ok;
    }

    /**
     If a release whose paths stay in their directory is staged, its slot is installed; every entry then has
     its signed hash if and only if no two of them promise different hashes for one file. Otherwise the saved
     state and every slot directory are as they were.
     */
    method DownloadAndStage(signatureOk: bool, m: Manifest, fetch: Fetch) returns (r: Outcome, ghost have: map<string, Bytes>)
      modifies store
      ensures forall sha | sha in have :: IsOffered(fold, old(store.bundles), Load(old(store.file)), sha, have[sha])
      ensures r.StagedSlot? ==>
                && PassesIos(glue, app, Load(old(store.file)), signatureOk, m)
                && r.slot == SlotFor(app, m)
                && Load(store.file) == Load(old(store.file)).(staged := Some(r.slot))
                && m.bundleId in store.bundles && SameExcept(old(store.bundles), store.bundles, m.bundleId)
      ensures r.StagedSlot? && StaysBelow(m.files) ==> Installed(fold, codec.hash, have, m.files, store.bundles[m.bundleId])
      ensures r.Threw? ==> Load(store.file) == Load(old(store.file)) && store.bundles == old(store.bundles)
      // It succeeds when nothing is missing.
      ensures (&& PassesIos(glue, app, Load(old(store.file)), signatureOk, m) && StaysBelow(m.files)
               && IosNothingIsMissing(fold, codec, old(store.Disk()), m, fetch)) ==> r.StagedSlot?
    {
      have := map[];
      ghost var found := store.Disk();
      var state := store.LoadState();
      var passed := CheckGates(state, signatureOk, m);
      if !passed {
        return Threw, have;
      }
      var dir := store.StagingDir(m.bundleId);
      var reusable := HaveFiles();
      have := reusable;
      if IosNothingIsMissing(fold, codec, found, m, fetch) {
        IosEverythingCanBeHad(fold, codec, found, m, have, fetch);
      }
      r := Install(m, reusable, fetch);
    }

    method Install(m: Manifest, have: map<string, Bytes>, fetch: Fetch) returns (r: Outcome)
      requires m.bundleId in store.staging
      modifies store
      ensures r.StagedSlot? ==>
                && r.slot == SlotFor(app, m)
                && Load(store.file) == Load(old(store.file)).(staged := Some(r.slot))
                && m.bundleId in store.bundles && SameExcept(old(store.bundles), store.bundles, m.bundleId)
                && Installed(fold, codec.hash, have, m.files, store.bundles[m.bundleId])
      ensures r.Threw? ==> Load(store.file) == Load(old(store.file)) && store.bundles == old(store.bundles)
      ensures IosCanGetAll(codec, m, have, fetch) && IosNoneIsInTheWay(fold, m.files, have) ==> r.StagedSlot?
    {
      var ok, files, bundleSha := AssembleAll(m, have, fetch);
      if !ok {
        return Threw;
      }
      ghost var assembled, before := store.staging[m.bundleId], store.Disk();
      var slot := Slot(m.bundleId, m.bundleVersion, m.runtimeVersion, Some(app.bin.nativeBuild), bundleSha, files);
      IosCommitPublishes(fold, before, slot);
      if IosNoneIsInTheWay(fold, m.files, have) {
        IosAllThereIsComplete(fold, codec.hash, m.files, have, assembled);
      }
      var commit := CommitStaged(slot);
      if commit.MissingFiles? {
        return Threw;
      }
      CommittedIsInstalled(fold, codec.hash, have, m.files, assembled);
      r := Outcome.StagedSlot(slot);
    }
  }
}
