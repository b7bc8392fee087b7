/**
 The backend's release table and its content-addressed blob store, shared by all releases: the three
 publishing steps, discarding, and the administrator's switches, as functions of the stored data.
 */
module Backend {
  import opened Common

  datatype BlobEntry = BlobEntry(sha256: string, size: int)

  datatype Manifest = Manifest(
    bundleId: string,
    platform: string,
    channel: string,
    runtimeVersion: string,
    bundleVersion: int,
    schema: int,
    minNativeBuild: Option<int>,
    targetAppVersions: string,
    /** the blobs of the files, in manifest order, and then those of the patches. */
    files: seq<BlobEntry>,
    patches: seq<BlobEntry>)

  datatype Adoption = Adoption(applied: nat, healthy: nat, failed: nat, rolledBack: nat)

  const NO_ADOPTION := Adoption(0, 0, 0, 0)

  datatype Record = Record(
    bundleId: string,
    platform: string,
    channel: string,
    runtimeVersion: string,
    bundleVersion: int,
    schema: int,
    manifest: Manifest,
    rolloutPercentage: int,
    paused: bool,
    rolledBack: bool,
    createdAt: int,
    adoption: Adoption,
    finalized: bool)

  datatype Db = Db(releases: map<string, Record>, blobs: map<string, Bytes>)

  const EMPTY := Db(map[], map[])

  // ---- manifests ---------------------------------------------------------

  function Shas(entries: seq<BlobEntry>): set<string> {
    set e | e in entries :: e.sha256
  }

  /** Every blob the manifest references. */
  function AllShas(m: Manifest): set<string> {
    Shas(m.files) + Shas(m.patches)
  }

  function FirstWith(entries: seq<BlobEntry>, sha: string): (r: Option<BlobEntry>)
    ensures r.Some? <==> sha in Shas(entries)
    ensures r.Some? ==> r.value in entries && r.value.sha256 == sha
  {
    if entries == [] then None
    else if entries[0].sha256 == sha then Some(entries[0])
    else FirstWith(entries[1..], sha)
  }

  /** The entry a request for `sha` is checked against: files before patches. */
  function FindBlobEntry(m: Manifest, sha: string): (r: Option<BlobEntry>)
    ensures r.Some? <==> sha in AllShas(m)
  {
    if FirstWith(m.files, sha).Some? then FirstWith(m.files, sha) else FirstWith(m.patches, sha)
  }

  /** The store holds the blob at the size the manifest gives for it. */
  predicate Present(blobs: map<string, Bytes>, m: Manifest, sha: string) {
    FindBlobEntry(m, sha).Some? && sha in blobs && |blobs[sha]| == FindBlobEntry(m, sha).value.size
  }

  function Missing(blobs: map<string, Bytes>, m: Manifest): set<string> {
    set sha | sha in AllShas(m) && !Present(blobs, m, sha)
  }

  // ---- operations --------------------------------------------------------

  datatype Op =
    | Declare(manifest: Manifest, rollout: int, now: int)
    | StageBlob(bundleId: string, sha: string, body: Bytes, maxBytes: nat)
    | Finalize(bundleId: string)
    | SetRollout(bundleId: string, percentage: int)
    | SetPaused(bundleId: string, paused: bool)
    | RollBack(bundleId: string)
    | Count(bundleId: string, adoption: Adoption, pause: bool)

  function IdOf(op: Op): string {
    if op.Declare? then op.manifest.bundleId else op.bundleId
  }

  /** Blobs some release other than `id` references, finalized or not. */
  function ReferencedElsewhere(releases: map<string, Record>, id: string): set<string> {
    set other, sha | other in releases && other != id && sha in AllShas(releases[other].manifest) :: sha
  }

  function Discarded(db: Db, id: string, keepAlso: set<string>): map<string, Bytes> {
    if id in db.releases then
      db.blobs - (AllShas(db.releases[id].manifest) - ReferencedElsewhere(db.releases, id) - keepAlso)
    else db.blobs
  }

  function NewRecord(m: Manifest, rollout: int, now: int, existing: Option<Record>): Record {
    Record(m.bundleId, m.platform, m.channel, m.runtimeVersion, m.bundleVersion, m.schema, m, rollout,
           if existing.Some? then existing.value.paused else false,
           if existing.Some? then existing.value.rolledBack else false,
           if existing.Some? then existing.value.createdAt else now,
           if existing.Some? then existing.value.adoption else NO_ADOPTION,
           false)
  }

  function Existing(db: Db, id: string): Option<Record> {
    if id in db.releases then Some(db.releases[id]) else None
  }

  function Put(db: Db, r: Record): Db {
    db.(releases := db.releases[r.bundleId := r])
  }

  /** The body is stored: the release lists the blob, it is not there yet, and hash and size are right. */
  predicate Accepts(hash: Bytes -> string, db: Db, op: Op)
    requires op.StageBlob?
  {
    && op.bundleId in db.releases
    && op.sha in AllShas(db.releases[op.bundleId].manifest)
    && !Present(db.blobs, db.releases[op.bundleId].manifest, op.sha)
    && |op.body| <= op.maxBytes
    && hash(op.body) == op.sha
    && |op.body| == FindBlobEntry(db.releases[op.bundleId].manifest, op.sha).value.size
  }

  function Clamp(percentage: int): int {
    if percentage < 0 then 0 else if percentage > 100 then 100 else percentage
  }

  function Step(hash: Bytes -> string, db: Db, op: Op): Db {
    match op
    case Declare(m, rollout, now) =>
      var existing := Existing(db, m.bundleId);
      if existing.Some? && existing.value.finalized then db
      else Put(db.(blobs := Discarded(db, m.bundleId, AllShas(m))), NewRecord(m, rollout, now, existing))
    case StageBlob(_, sha, body, _) =>
      if Accepts(hash, db, op) then db.(blobs := db.blobs[sha := body]) else db
    case Finalize(id) =>
      if id in db.releases && Missing(db.blobs, db.releases[id].manifest) == {}
      then Put(db, db.releases[id].(finalized := true)) else db
    case SetRollout(id, percentage) =>
      if id in db.releases then Put(db, db.releases[id].(rolloutPercentage := Clamp(percentage))) else db
    case SetPaused(id, paused) =>
      if id in db.releases then Put(db, db.releases[id].(paused := paused)) else db
    case RollBack(id) =>
      if id in db.releases then Put(db, db.releases[id].(rolledBack := true, paused := true)) else db
    case Count(id, adoption, pause) =>
      if id in db.releases
      then Put(db, db.releases[id].(adoption := adoption, paused := db.releases[id].paused || pause)) else db
  }

  function Steps(hash: Bytes -> string, db: Db, ops: seq<Op>): Db {
    if ops == [] then db else Step(hash, Steps(hash, db, ops[..|ops| - 1]), ops[|ops| - 1])
  }

  // ---- what every operation keeps ----------------------------------------

  /** The record repeats what its manifest says, under its own id. */
  predicate Mirrors(id: string, r: Record) {
    && r.bundleId == id && r.manifest.bundleId == id
    && r.platform == r.manifest.platform && r.channel == r.manifest.channel
    && r.runtimeVersion == r.manifest.runtimeVersion && r.bundleVersion == r.manifest.bundleVersion
    && r.schema == r.manifest.schema
  }

  ghost predicate Addressed(hash: Bytes -> string, blobs: map<string, Bytes>) {
    forall sha | sha in blobs :: hash(blobs[sha]) == sha
  }

  /** A finalized release has every blob it references, at the right size. */
  ghost predicate Servable(blobs: map<string, Bytes>, r: Record) {
    r.finalized ==> forall sha | sha in AllShas(r.manifest) :: Present(blobs, r.manifest, sha)
  }

  ghost predicate Safe(hash: Bytes -> string, db: Db) {
    && Addressed(hash, db.blobs)
    && (forall id | id in db.releases :: Mirrors(id, db.releases[id]))
    && (forall id | id in db.releases :: Servable(db.blobs, db.releases[id]))
  }

  /** An operation on one release never takes away a blob another release has. */
  lemma BlobsOfOthersStay(hash: Bytes -> string, db: Db, op: Op, id: string, sha: string)
    requires NoCollision(hash) && Addressed(hash, db.blobs)
    requires id in db.releases && sha in AllShas(db.releases[id].manifest)
    requires IdOf(op) != id || !op.Declare? || op.manifest == db.releases[id].manifest
    requires sha in db.blobs
    ensures sha in Step(hash, db, op).blobs && Step(hash, db, op).blobs[sha] == db.blobs[sha]
  {
    if op.Declare? && IdOf(op) != id {
      assert sha in ReferencedElsewhere(db.releases, IdOf(op));
    }
    if op.StageBlob? && op.sha == sha {
      assert hash(op.body) == hash(db.blobs[sha]) || !Accepts(hash, db, op);
    }
  }

  /** The only operation that can break a safe state shows two contents with one hash. */
  lemma UnsafeStepIsACollision(hash: Bytes -> string, db: Db, op: Op)
    requires Safe(hash, db) && !Safe(hash, Step(hash, db, op))
    ensures op.StageBlob? && op.sha in db.blobs && hash(op.body) == hash(db.blobs[op.sha]) && op.body != db.blobs[op.sha]
  {
    var next := Step(hash, db, op);
    if !op.StageBlob? || !Accepts(hash, db, op) || op.sha !in db.blobs || op.body == db.blobs[op.sha] {
      forall id | id in next.releases ensures Servable(next.blobs, next.releases[id]) {
        var r := next.releases[id];
        if r.finalized {
          forall sha | sha in AllShas(r.manifest) ensures Present(next.blobs, r.manifest, sha) {
            if id in db.releases && db.releases[id].finalized {
              assert Present(db.blobs, r.manifest, sha);
              if op.Declare? && IdOf(op) != id {
                assert sha in ReferencedElsewhere(db.releases, IdOf(op));
              }
            } else {
              assert sha !in Missing(db.blobs, r.manifest);
            }
          }
        }
      }
      assert false;
    }
  }

  lemma StepKeepsSafe(hash: Bytes -> string, db: Db, op: Op)
    requires NoCollision(hash) && Safe(hash, db)
    ensures Safe(hash, Step(hash, db, op))
  {
    if !Safe(hash, Step(hash, db, op)) {
      UnsafeStepIsACollision(hash, db, op);
    }
  }

  /** In every reachable state of the store, blobs hash to their keys and finalized releases are whole. */
  lemma {:induction false} EveryReachableStateIsSafe(hash: Bytes -> string, ops: seq<Op>)
    requires NoCollision(hash)
    ensures Safe(hash, Steps(hash, EMPTY, ops))
  {
    if ops != [] {
      EveryReachableStateIsSafe(hash, ops[..|ops| - 1]);
      StepKeepsSafe(hash, Steps(hash, EMPTY, ops[..|ops| - 1]), ops[|ops| - 1]);
    }
  }

  // ---- what never changes ------------------------------------------------

  /** `next` still has the release; a finalized one has its manifest, and a rolled-back one is rolled back. */
  predicate Promised(db: Db, next: Db, id: string) {
    && id in db.releases && id in next.releases
    && (db.releases[id].finalized ==> next.releases[id].finalized && next.releases[id].manifest == db.releases[id].manifest)
    && (db.releases[id].rolledBack ==> next.releases[id].rolledBack)
  }

  lemma StepKeepsPromises(hash: Bytes -> string, db: Db, op: Op, id: string)
    requires id in db.releases && forall other | other in db.releases :: Mirrors(other, db.releases[other])
    ensures Promised(db, Step(hash, db, op), id) && Step(hash, db, op).releases[id].createdAt == db.releases[id].createdAt
  {
  }

  lemma LastStepKeepsPromises(hash: Bytes -> string, ops: seq<Op>, op: Op, id: string)
    requires NoCollision(hash) && id in Steps(hash, EMPTY, ops).releases
    ensures Promised(Steps(hash, EMPTY, ops), Steps(hash, EMPTY, ops + [op]), id)
  {
    assert (ops + [op])[..|ops + [op]| - 1] == ops;
    EveryReachableStateIsSafe(hash, ops);
    StepKeepsPromises(hash, Steps(hash, EMPTY, ops), op, id);
  }

  lemma PromisesChain(a: Db, b: Db, c: Db, id: string)
    requires Promised(a, b, id) && Promised(b, c, id)
    ensures Promised(a, c, id)
  {
  }

  lemma {:induction false} PublishedManifestNeverChanges(hash: Bytes -> string, before: seq<Op>, after: seq<Op>, id: string)
    requires NoCollision(hash) && id in Steps(hash, EMPTY, before).releases
    ensures Promised(Steps(hash, EMPTY, before), Steps(hash, EMPTY, before + after), id)
  {
    if after == [] {
      assert before + after == before;
    } else {
      var n := |after| - 1;
      var ops := before + after[..n];
      PublishedManifestNeverChanges(hash, before, after[..n], id);
      LastStepKeepsPromises(hash, ops, after[n], id);
      assert before + after == ops + [after[n]];
      PromisesChain(Steps(hash, EMPTY, before), Steps(hash, EMPTY, ops), Steps(hash, EMPTY, ops + [after[n]]), id);
    }
  }
}
