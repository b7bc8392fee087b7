/** Which release a device is offered, what it can then download, and what is never offered again. */
module Selection {
  import opened Common
  import opened Backend

  datatype Device = Device(
    platform: string,
    channel: string,
    runtimeVersion: string,
    appVersion: string,
    buildNumber: int,
    currentBundleVersion: int,
    installId: string)

  /** The rollout bucket of an install for a bundle, and whether an app version is in a range. */
  datatype Rules = Rules(bucket: (string, string) -> nat, inRange: (string, string) -> bool)

  datatype Eligibility = Eligible | PlatformMismatch | ChannelMismatch | RuntimeMismatch | NotNewer | NativeTooOld | AppVersionExcluded

  const MANIFEST_SCHEMA := 2

  function IsEligible(rules: Rules, m: Manifest, d: Device): Eligibility {
    if m.platform != d.platform then PlatformMismatch
    else if m.channel != d.channel then ChannelMismatch
    else if m.runtimeVersion != d.runtimeVersion then RuntimeMismatch
    else if m.bundleVersion <= d.currentBundleVersion then NotNewer
    else if m.minNativeBuild.Some? && d.buildNumber < m.minNativeBuild.value then NativeTooOld
    else if m.targetAppVersions != "" && !rules.inRange(d.appVersion, m.targetAppVersions) then AppVersionExcluded
    else Eligible
  }

  predicate Candidate(rules: Rules, r: Record, d: Device) {
    && r.finalized && r.schema == MANIFEST_SCHEMA
    && !r.paused && !r.rolledBack
    && IsEligible(rules, r.manifest, d) == Eligible
    && rules.bucket(d.installId, r.bundleId) < r.rolloutPercentage
  }

  predicate NewestFirst(list: seq<Record>) {
    forall i, j | 0 <= i < j < |list| :: list[i].createdAt >= list[j].createdAt
  }

  /** Where a release goes: behind every one at least as new. */
  method PlaceFor(list: seq<Record>, createdAt: int) returns (k: nat)
    requires NewestFirst(list)
    ensures k <= |list|
    ensures forall j | 0 <= j < k :: list[j].createdAt >= createdAt
    ensures forall j | k <= j < |list| :: list[j].createdAt < createdAt
  {
    k := |list|;
    while k > 0 && list[k - 1].createdAt < createdAt
      invariant k <= |list| && forall j | k <= j < |list| :: list[j].createdAt < createdAt
    {
      k := k - 1;
    }
  }

  lemma InsertionKeepsAll(list: seq<Record>, k: nat, r: Record)
    requires k <= |list|
    ensures multiset(list[..k] + [r] + list[k..]) == multiset(list) + multiset{r}
  {
    assert list == list[..k] + list[k..];
  }

  /** The stored releases, newest first: a stable insertion sort of whatever order they are stored in. */
  method ListReleases(stored: seq<Record>) returns (list: seq<Record>)
    ensures NewestFirst(list) && multiset(list) == multiset(stored)
  {
    list := [];
    for n := 0 to |stored|
      invariant NewestFirst(list) && multiset(list) == multiset(stored[..n])
    {
      assert stored[..n + 1] == stored[..n] + [stored[n]];
      var k := PlaceFor(list, stored[n].createdAt);
      InsertionKeepsAll(list, k, stored[n]);
      list := list[..k] + [stored[n]] + list[k..];
    }
    assert stored[..|stored|] == stored;
  }

  /** The best candidate: no candidate has a higher version, nor the same version and a later date. */
  ghost predicate IsPick(rules: Rules, stored: seq<Record>, d: Device, pick: Option<Record>) {
    && (pick.None? ==> forall r | r in stored :: !Candidate(rules, r, d))
    && (pick.Some? ==> pick.value in stored && Candidate(rules, pick.value, d)
                       && forall r | r in stored && Candidate(rules, r, d) :: Beats(pick.value, r))
  }

  predicate Beats(best: Record, r: Record) {
    r.bundleVersion < best.bundleVersion || (r.bundleVersion == best.bundleVersion && r.createdAt <= best.createdAt)
  }

  method PickEligible(rules: Rules, stored: seq<Record>, d: Device) returns (pick: Option<Record>)
    ensures IsPick(rules, stored, d, pick)
  {
    var list := ListReleases(stored);
    pick := None;
    for n := 0 to |list|
      invariant pick.None? ==> forall k | 0 <= k < n :: !Candidate(rules, list[k], d)
      invariant pick.Some? ==> exists k | 0 <= k < n :: pick.value == list[k] && Candidate(rules, list[k], d)
      invariant pick.Some? ==> forall k | 0 <= k < n && Candidate(rules, list[k], d) :: Beats(pick.value, list[k])
    {
      var r := list[n];
      if Candidate(rules, r, d) {
        if pick.None? || r.bundleVersion > pick.value.bundleVersion {
          pick := Some(r);
        }
      }
    }
    forall r | r in stored ensures r in list {
      assert r in multiset(stored);
    }
    forall r | r in list ensures r in stored {
      assert r in multiset(list);
    }
  }

  // ---- what a device sees ------------------------------------------------

  /** A device that has installed what it was offered is offered nothing from the same table. */
  lemma InstalledIsUpToDate(rules: Rules, stored: seq<Record>, d: Device, pick: Record, again: Option<Record>)
    requires forall r | r in stored :: Mirrors(r.bundleId, r)
    requires IsPick(rules, stored, d, Some(pick))
    requires IsPick(rules, stored, d.(currentBundleVersion := pick.manifest.bundleVersion), again)
    ensures again.None?
  {
    if again.Some? {
      var r := again.value;
      assert Mirrors(r.bundleId, r) && Mirrors(pick.bundleId, pick);
      assert r.manifest.bundleVersion > pick.manifest.bundleVersion;
      assert Candidate(rules, r, d);
    }
  }

  /** Raising the percentage never takes a release away from a device that could have it. */
  lemma RaisingTheRolloutKeepsDevices(rules: Rules, hash: Bytes -> string, db: Db, id: string, percentage: int, d: Device)
    requires id in db.releases && Mirrors(id, db.releases[id]) && Candidate(rules, db.releases[id], d)
    requires Clamp(percentage) >= db.releases[id].rolloutPercentage
    ensures var next := Step(hash, db, SetRollout(id, percentage));
            id in next.releases && Candidate(rules, next.releases[id], d)
  {
  }

  // ---- who can have a release, switch by switch --------------------------

  /** The release is for this device: its platform, channel and binary, newer than what it runs, and not beyond it. */
  predicate IsFor(rules: Rules, m: Manifest, d: Device) {
    && d.platform == m.platform && d.channel == m.channel && d.runtimeVersion == m.runtimeVersion
    && m.bundleVersion > d.currentBundleVersion
    && (m.minNativeBuild.Some? ==> d.buildNumber >= m.minNativeBuild.value)
    && (m.targetAppVersions == "" || rules.inRange(d.appVersion, m.targetAppVersions))
  }

  /** Published, not withdrawn, for this device, and the device is in the share it is rolled out to. */
  lemma CandidateExactly(rules: Rules, r: Record, d: Device)
    ensures Candidate(rules, r, d) <==>
              && r.finalized && r.schema == 2 && !(r.paused || r.rolledBack)
              && IsFor(rules, r.manifest, d) && r.rolloutPercentage > rules.bucket(d.installId, r.bundleId)
  {
  }

  /** Pausing takes a release away from everybody, and resuming it undoes just that. */
  lemma PausingIsUndone(rules: Rules, hash: Bytes -> string, db: Db, id: string, d: Device, sha: string)
    requires id in db.releases && Mirrors(id, db.releases[id])
    ensures var paused := Step(hash, db, SetPaused(id, true));
            && id in paused.releases && !Candidate(rules, paused.releases[id], d) && ServeBlob(paused, Some(id), id, sha) == Gone
            && (!db.releases[id].paused ==> Step(hash, paused, SetPaused(id, false)) == db)
  {
    var paused := Step(hash, db, SetPaused(id, true));
    assert paused.releases[id := db.releases[id]] == db.releases;
  }

  /** A percentage reaches exactly the devices in the buckets below it, whatever was set before, and all else stays. */
  lemma RolloutReachesItsShare(rules: Rules, hash: Bytes -> string, db: Db, id: string, percentage: int, d: Device)
    requires id in db.releases && Mirrors(id, db.releases[id]) && rules.bucket(d.installId, id) < 100
    ensures var r, next := db.releases[id], Step(hash, db, SetRollout(id, percentage));
            && next.blobs == db.blobs && next.releases.Keys == db.releases.Keys
            && (forall other | other in db.releases && other != id :: next.releases[other] == db.releases[other])
            && (Candidate(rules, next.releases[id], d) <==>
                  Candidate(rules, r.(rolloutPercentage := 100), d) && rules.bucket(d.installId, id) < percentage)
            && 0 <= next.releases[id].rolloutPercentage <= 100
  {
  }

  /** Declaring a release again neither resumes it nor brings it back; and nobody has it before it is finalized. */
  lemma DeclaringKeepsSwitches(rules: Rules, hash: Bytes -> string, db: Db, m: Manifest, rollout: int, now: int, d: Device)
    requires m.bundleId in db.releases && !db.releases[m.bundleId].finalized
    ensures var was, next := db.releases[m.bundleId], Step(hash, db, Declare(m, rollout, now));
            && m.bundleId in next.releases
            && var r := next.releases[m.bundleId];
               r.paused == was.paused && r.rolledBack == was.rolledBack && r.adoption == was.adoption && r.manifest == m
               && r.rolloutPercentage == rollout && !Candidate(rules, r, d)
  {
  }

  // ---- what a device can download ----------------------------------------

  datatype BlobAnswer = BadToken | TokenScope | NotFound | Gone | Bytes_(body: Bytes)

  /** The blob route up to the range: which bytes a request with a token for `granted` may read. */
  function ServeBlob(db: Db, granted: Option<string>, id: string, sha: string): BlobAnswer {
    if granted.None? then BadToken
    else if granted.value != id then TokenScope
    else if id !in db.releases then NotFound
    else if db.releases[id].paused || db.releases[id].rolledBack then Gone
    else if FindBlobEntry(db.releases[id].manifest, sha).None? then NotFound
    else if sha !in db.blobs then NotFound
    else Bytes_(db.blobs[sha])
  }

  /** Bytes are answered exactly to a token for that release, while it is not withdrawn, for a blob it lists. */
  lemma BlobIsServedExactly(db: Db, granted: Option<string>, id: string, sha: string)
    ensures ServeBlob(db, granted, id, sha).Bytes_? <==>
              && granted == Some(id) && id in db.releases && !db.releases[id].paused && !db.releases[id].rolledBack
              && sha in Shas(db.releases[id].manifest.files) + Shas(db.releases[id].manifest.patches) && sha in db.blobs
    ensures ServeBlob(db, granted, id, sha).Bytes_? ==> ServeBlob(db, granted, id, sha).body == db.blobs[sha]
  {
  }

  /** Whatever is offered can be downloaded: every blob of it, with its signed hash and size. */
  lemma OfferedReleaseCanBeDownloaded(rules: Rules, hash: Bytes -> string, ops: seq<Op>, stored: seq<Record>, d: Device, pick: Record, sha: string)
    requires NoCollision(hash)
    requires var db := Steps(hash, EMPTY, ops); forall r | r in stored :: r.bundleId in db.releases && db.releases[r.bundleId] == r
    requires IsPick(rules, stored, d, Some(pick)) && sha in AllShas(pick.manifest)
    ensures var answer := ServeBlob(Steps(hash, EMPTY, ops), Some(pick.bundleId), pick.bundleId, sha);
            && answer.Bytes_? && hash(answer.body) == sha
            && |answer.body| == FindBlobEntry(pick.manifest, sha).value.size
  {
    EveryReachableStateIsSafe(hash, ops);
    var db := Steps(hash, EMPTY, ops);
    assert Servable(db.blobs, db.releases[pick.bundleId]);
    assert Present(db.blobs, pick.manifest, sha);
  }

  /** A release that was rolled back is never offered nor served again, whatever happens to it later. */
  lemma RolledBackIsGoneForever(rules: Rules, hash: Bytes -> string, before: seq<Op>, after: seq<Op>, id: string, d: Device, sha: string)
    requires NoCollision(hash)
    requires var db := Steps(hash, EMPTY, before); id in db.releases && db.releases[id].rolledBack
    ensures var db := Steps(hash, EMPTY, before + after);
            && id in db.releases && !Candidate(rules, db.releases[id], d)
            && ServeBlob(db, Some(id), id, sha) == Gone
  {
    PublishedManifestNeverChanges(hash, before, after, id);
  }
}
