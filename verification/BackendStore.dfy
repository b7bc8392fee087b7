/** The store's methods, and the publishing client that calls them while other clients do too. */
module BackendStore {
  import opened Arrangements
  import opened Common
  import opened Backend

  datatype Declaration = Declared(missing: seq<string>) | AlreadyPublished

  datatype Upload = Stored | AlreadyThere | NoRelease | NoBlob | TooLarge | HashMismatch | SizeMismatch

  datatype Publication = Published(already: bool) | UnknownRelease | Incomplete(missing: seq<string>)

  predicate Distinct(s: seq<string>) {
    forall i, j | 0 <= i < j < |s| :: s[i] != s[j]
  }

  method AddShas(entries: seq<BlobEntry>, found: seq<string>) returns (seen: seq<string>)
    requires Distinct(found)
    ensures Distinct(seen) && Elements(seen) == Elements(found) + Shas(entries)
  {
    seen := found;
    for n := 0 to |entries|
      invariant Distinct(seen) && Elements(seen) == Elements(found) + Shas(entries[..n])
    {
      assert entries[..n + 1] == entries[..n] + [entries[n]];
      assert Shas(entries[..n + 1]) == Shas(entries[..n]) + {entries[n].sha256};
      assert Elements(seen + [entries[n].sha256]) == Elements(seen) + {entries[n].sha256};
      if entries[n].sha256 !in seen {
        seen := seen + [entries[n].sha256];
      }
    }
    assert entries[..|entries|] == entries;
  }

  /** Every distinct blob hash of the release, files and patches alike. */
  method CollectBlobShas(m: Manifest) returns (seen: seq<string>)
    ensures Distinct(seen) && Elements(seen) == AllShas(m)
  {
    seen := AddShas(m.files, []);
    seen := AddShas(m.patches, seen);
  }

  predicate IsReferencedElsewhere(releases: map<string, Record>, id: string, sha: string) {
    exists other | other in releases && other != id :: sha in AllShas(releases[other].manifest)
  }

  /** What is said of the body of a listed blob that is not there yet. */
  predicate BodyJudged(hash: Bytes -> string, listed: Option<BlobEntry>, sha: string, body: Bytes, maxBytes: nat, r: Upload) {
    && listed.Some?
    && (r.TooLarge? <==> |body| > maxBytes)
    && (r.HashMismatch? <==> |body| <= maxBytes && hash(body) != sha)
    && (r.SizeMismatch? <==> |body| <= maxBytes && hash(body) == sha && |body| != listed.value.size)
  }

  /** The record before and after: one switch is set, and the percentage is as near to what was asked as there is. */
  predicate Administered(was: Record, op: Op, now: Record)
    requires op.SetRollout? || op.SetPaused? || op.RollBack? || op.Count?
  {
    match op
    case SetRollout(_, percentage) =>
      && now == was.(rolloutPercentage := now.rolloutPercentage)
      && (if percentage < 0 then now.rolloutPercentage == 0
          else if percentage > 100 then now.rolloutPercentage == 100
          else now.rolloutPercentage == percentage)
    case SetPaused(_, paused) => now == was.(paused := paused)
    case RollBack(_) => now == was.(rolledBack := true, paused := true)
    case Count(_, adoption, pause) => now == was.(adoption := adoption, paused := pause || was.paused)
  }

  class Store {
    var releases: map<string, Record>
    var blobs: map<string, Bytes>
    const hash: Bytes -> string

    constructor (hash: Bytes -> string)
      ensures this.hash == hash && View() == EMPTY
    {
      this.hash := hash;
      releases, blobs := map[], map[];
    }

    ghost function View(): Db
      reads this
    {
      Db(releases, blobs)
    }

    /** The blobs not yet held at the right size. */
    method MissingBlobs(m: Manifest) returns (missing: seq<string>)
      ensures Distinct(missing) && Elements(missing) == Missing(blobs, m)
    {
      var shas := CollectBlobShas(m);
      missing := [];
      for n := 0 to |shas|
        invariant forall k | 0 <= k < |missing| :: exists j | 0 <= j < n :: missing[k] == shas[j]
        invariant Distinct(missing)
        invariant Elements(missing) == set j | 0 <= j < n && !Present(blobs, m, shas[j]) :: shas[j]
      {
        var sha := shas[n];
        assert sha in Elements(shas);
        var expected := FindBlobEntry(m, sha);
        if sha !in blobs || |blobs[sha]| != expected.value.size {
          assert !Present(blobs, m, sha) && Elements(missing + [sha]) == Elements(missing) + {sha};
          missing := missing + [sha];
        }
      }
      assert forall sha :: sha in AllShas(m) <==> exists j | 0 <= j < |shas| :: shas[j] == sha by {
        assert forall sha :: sha in Elements(shas) <==> exists j | 0 <= j < |shas| :: shas[j] == sha;
      }
    }

    method BlobsReferencedElsewhere(exceptBundleId: string) returns (keep: set<string>)
      ensures keep == ReferencedElsewhere(releases, exceptBundleId)
      ensures forall sha :: sha in keep <==> exists other | other in releases && other != exceptBundleId :: sha in AllShas(releases[other].manifest)
    {
      keep := {};
      var ids := releases.Keys;
      while ids != {}
        invariant ids <= releases.Keys
        invariant keep == set other, sha | other in releases && other !in ids && other != exceptBundleId
                                           && sha in AllShas(releases[other].manifest) :: sha
        decreases |ids|
      {
        var other :| other in ids;
        ids := ids - {other};
        if other != exceptBundleId {
          var shas := CollectBlobShas(releases[other].manifest);
          keep := keep + Elements(shas);
        }
      }
    }

    /** Delete the release's blobs that nothing else needs, one at a time. */
    method DiscardRelease(bundleId: string, keepAlso: seq<string>)
      modifies this`blobs
      ensures blobs == Discarded(old(View()), bundleId, Elements(keepAlso))
      ensures bundleId in releases ==> forall sha | sha in old(blobs) :: (sha in blobs && blobs[sha] == old(blobs)[sha]) <==>
                sha !in AllShas(releases[bundleId].manifest) || sha in keepAlso || IsReferencedElsewhere(releases, bundleId, sha)
    {
      if bundleId !in releases {
        return;
      }
      var keep := BlobsReferencedElsewhere(bundleId);
      keep := keep + Elements(keepAlso);
      var shas := CollectBlobShas(releases[bundleId].manifest);
      for n := 0 to |shas|
        invariant blobs == old(blobs) - (Elements(shas[..n]) - keep)
      {
        assert Elements(shas[..n + 1]) == Elements(shas[..n]) + {shas[n]};
        if shas[n] !in keep {
          blobs := blobs - {shas[n]};
        }
      }
      assert shas[..|shas|] == shas;
      assert Elements(shas) - keep
          == AllShas(releases[bundleId].manifest) - ReferencedElsewhere(releases, bundleId) - Elements(keepAlso);
    }

    method CreateRelease(m: Manifest, rollout: int, now: int) returns (r: Declaration)
      modifies this
      ensures View() == Step(hash, old(View()), Declare(m, rollout, now))
      ensures r.AlreadyPublished? <==> Existing(old(View()), m.bundleId).Some? && old(releases)[m.bundleId].finalized
      // Only the gap is reported: blobs of this manifest that were there before still are.
      ensures r.Declared? ==> Distinct(r.missing) && Elements(r.missing) == Missing(old(blobs), m) == Missing(blobs, m)
    {
      var existing := if m.bundleId in releases then Some(releases[m.bundleId]) else None;
      if existing.Some? && existing.value.finalized {
        return AlreadyPublished;
      }
      if existing.Some? {
        var keepAlso := CollectBlobShas(m);
        DiscardRelease(m.bundleId, keepAlso);
      }
      var record := NewRecord(m, rollout, now, existing);
      releases := releases[m.bundleId := record];
      var missing := MissingBlobs(m);
      assert forall sha | sha in AllShas(m) :: Present(blobs, m, sha) <==> Present(old(blobs), m, sha);
      return Declared(missing);
    }

    method Stage(bundleId: string, sha: string, body: Bytes, maxBytes: nat) returns (r: Upload)
      modifies this`blobs
      ensures View() == Step(hash, old(View()), StageBlob(bundleId, sha, body, maxBytes))
      ensures r.Stored? <==> Accepts(hash, old(View()), StageBlob(bundleId, sha, body, maxBytes))
      ensures r.AlreadyThere? <==> bundleId in releases && Present(old(blobs), releases[bundleId].manifest, sha)
      ensures r.NoRelease? <==> bundleId !in releases
      ensures r.NoBlob? <==> bundleId in releases && sha !in AllShas(releases[bundleId].manifest)
      ensures r.TooLarge? || r.HashMismatch? || r.SizeMismatch? || r.Stored? ==>
                bundleId in releases && BodyJudged(hash, FindBlobEntry(releases[bundleId].manifest, sha), sha, body, maxBytes, r)
    {
      if bundleId !in releases {
        return NoRelease;
      }
      var expected := FindBlobEntry(releases[bundleId].manifest, sha);
      if expected.None? {
        return NoBlob;
      }
      if sha in blobs && |blobs[sha]| == expected.value.size {
        return AlreadyThere;
      }
      if |body| > maxBytes {
        return TooLarge;
      }
      if hash(body) != sha {
        return HashMismatch;
      }
      if |body| != expected.value.size {
        return SizeMismatch;
      }
      blobs := blobs[sha := body];
      return Stored;
    }

    method FinalizeRelease(bundleId: string) returns (r: Publication)
      modifies this`releases
      requires bundleId in releases ==> releases[bundleId].bundleId == bundleId
      ensures View() == if bundleId in old(releases) && old(releases)[bundleId].finalized then old(View())
                        else Step(hash, old(View()), Finalize(bundleId))
      ensures r.Published? <==> (&& bundleId in old(releases)
                                 && (|| old(releases)[bundleId].finalized
                                     || Missing(blobs, old(releases)[bundleId].manifest) == {}))
      ensures r.Published? ==> releases[bundleId].finalized
      ensures r.UnknownRelease? <==> bundleId !in old(releases)
      ensures r.Incomplete? ==> Elements(r.missing) == Missing(blobs, old(releases)[bundleId].manifest)
    {
      if bundleId !in releases {
        return UnknownRelease;
      }
      var record := releases[bundleId];
      if record.finalized {
        return Published(true);
      }
      var missing := MissingBlobs(record.manifest);
      if |missing| > 0 {
        assert missing[0] in Elements(missing);
        return Incomplete(missing);
      }
      releases := releases[bundleId := record.(finalized := true)];
      return Published(false);
    }

    /** The administrator's switches and the adoption counters: one record is rewritten. */
    method Administer(op: Op)
      requires op.SetRollout? || op.SetPaused? || op.RollBack? || op.Count?
      requires op.bundleId in releases ==> releases[op.bundleId].bundleId == op.bundleId
      modifies this`releases
      ensures View() == Step(hash, old(View()), op)
      ensures releases.Keys == old(releases).Keys && forall other | other in releases && other != op.bundleId :: releases[other] == old(releases)[other]
      ensures op.bundleId in releases ==> Administered(old(releases)[op.bundleId], op, releases[op.bundleId])
    {
      if op.bundleId !in releases {
        return;
      }
      var r := releases[op.bundleId];
      match op {
        case SetRollout(_, percentage) => r := r.(rolloutPercentage := Clamp(percentage));
        case SetPaused(_, paused) => r := r.(paused := paused);
        case RollBack(_) =>
          r := r.(rolledBack := true);
          r := r.(paused := true);
        case Count(_, adoption, pause) =>
          r := r.(adoption := adoption);
          if pause {
            r := r.(paused := true);
          }
      }
      releases := releases[op.bundleId := r];
    }

    /** Any one API call of any client. */
    method Call(op: Op)
      requires Safe(hash, View()) && NoCollision(hash)
      modifies this
      ensures View() == Step(hash, old(View()), op) && Safe(hash, View())
    {
      StepKeepsSafe(hash, View(), op);
      match op {
        case Declare(m, rollout, now) => var _ := CreateRelease(m, rollout, now);
        case StageBlob(id, sha, body, maxBytes) => var _ := Stage(id, sha, body, maxBytes);
        case Finalize(id) =>
          if id in releases && releases[id].finalized {
            FinalizingTwiceIsNothing(hash, View(), id);
          }
          var _ := FinalizeRelease(id);
        case _ => Administer(op);
      }
    }
  }

  lemma FinalizingTwiceIsNothing(hash: Bytes -> string, db: Db, id: string)
    requires Safe(hash, db) && id in db.releases && db.releases[id].finalized
    ensures Step(hash, db, Finalize(id)) == db
  {
    assert Servable(db.blobs, db.releases[id]);
    assert db.releases[id].(finalized := true) == db.releases[id];
    assert db.releases[id := db.releases[id]] == db.releases;
  }

  // ---- the publishing client ---------------------------------------------

  /** A signed manifest and the bytes of each blob it references. */
  datatype Prepared = Prepared(manifest: Manifest, blobs: map<string, Bytes>)

  ghost predicate WellPrepared(hash: Bytes -> string, p: Prepared, maxBytes: nat) {
    forall sha | sha in AllShas(p.manifest) ::
      && sha in p.blobs && hash(p.blobs[sha]) == sha && |p.blobs[sha]| <= maxBytes
      && |p.blobs[sha]| == FindBlobEntry(p.manifest, sha).value.size
  }

  /** Nobody else declares this bundle id in the meantime. */
  predicate LeavesAlone(ops: seq<Op>, id: string) {
    forall op | op in ops :: op.Declare? ==> op.manifest.bundleId != id
  }

  /** The release is declared with this manifest, finalized or not. */
  predicate IsDeclared(db: Db, m: Manifest) {
    m.bundleId in db.releases && db.releases[m.bundleId].manifest == m
  }

  lemma OthersKeepProgress(hash: Bytes -> string, db: Db, op: Op, m: Manifest)
    requires NoCollision(hash) && Safe(hash, db) && IsDeclared(db, m)
    requires op.Declare? ==> op.manifest.bundleId != m.bundleId
    ensures IsDeclared(Step(hash, db, op), m)
    ensures Missing(Step(hash, db, op).blobs, m) <= Missing(db.blobs, m)
  {
    forall sha | sha in Missing(Step(hash, db, op).blobs, m) ensures sha in Missing(db.blobs, m) {
      if Present(db.blobs, m, sha) {
        BlobsOfOthersStay(hash, db, op, m.bundleId, sha);
      }
    }
  }

  /** Everything other clients do between two calls of this one. */
  method Interfere(store: Store, ops: seq<Op>, ghost m: Manifest)
    requires Safe(store.hash, store.View()) && NoCollision(store.hash)
    requires IsDeclared(store.View(), m) && LeavesAlone(ops, m.bundleId)
    modifies store
    ensures Safe(store.hash, store.View()) && IsDeclared(store.View(), m)
    ensures Missing(store.blobs, m) <= old(Missing(store.blobs, m))
  {
    for n := 0 to |ops|
      invariant Safe(store.hash, store.View()) && IsDeclared(store.View(), m)
      invariant Missing(store.blobs, m) <= old(Missing(store.blobs, m))
    {
      OthersKeepProgress(store.hash, store.View(), ops[n], m);
      store.Call(ops[n]);
    }
  }

  datatype UploadResult = Uploaded(count: nat) | Failed

  /** One upload, which leaves this blob no longer missing and makes no other one missing. */
  method UploadOne(store: Store, p: Prepared, sha: string, maxBytes: nat)
    requires Safe(store.hash, store.View()) && NoCollision(store.hash) && IsDeclared(store.View(), p.manifest)
    requires WellPrepared(store.hash, p, maxBytes) && sha in AllShas(p.manifest)
    modifies store
    ensures Safe(store.hash, store.View()) && IsDeclared(store.View(), p.manifest)
    ensures Missing(store.blobs, p.manifest) <= old(Missing(store.blobs, p.manifest)) - {sha}
  {
    var upload := StageBlob(p.manifest.bundleId, sha, p.blobs[sha], maxBytes);
    OthersKeepProgress(store.hash, store.View(), upload, p.manifest);
    StepKeepsSafe(store.hash, store.View(), upload);
    var _ := store.Stage(p.manifest.bundleId, sha, p.blobs[sha], maxBytes);
    assert Present(store.blobs, p.manifest, sha);
  }

  lemma OneLessToGo(missing: seq<string>, done: nat)
    requires done < |missing|
    ensures Elements(missing[done..]) == {missing[done]} + Elements(missing[done + 1..])
  {
    assert missing[done..] == [missing[done]] + missing[done + 1..];
  }

  /** The upload loop: whatever others do meanwhile, nothing is missing when it is over. */
  method UploadMissing(store: Store, p: Prepared, missing: seq<string>, maxBytes: nat, others: nat -> seq<Op>) returns (ok: bool)
    requires Safe(store.hash, store.View()) && NoCollision(store.hash) && IsDeclared(store.View(), p.manifest)
    requires WellPrepared(store.hash, p, maxBytes) && Elements(missing) == Missing(store.blobs, p.manifest)
    requires forall n :: LeavesAlone(others(n), p.manifest.bundleId)
    modifies store
    ensures Safe(store.hash, store.View()) && IsDeclared(store.View(), p.manifest)
    ensures ok && Missing(store.blobs, p.manifest) == {}
  {
    ghost var m := p.manifest;
    var done := 0;
    assert missing[..|missing|] == missing;
    while done < |missing|
      invariant done <= |missing|
      invariant Safe(store.hash, store.View()) && IsDeclared(store.View(), m)
      invariant Missing(store.blobs, m) <= Elements(missing[done..]) && Elements(missing) <= AllShas(m)
    {
      Interfere(store, others(done), m);
      var sha := missing[done];
      assert sha in Elements(missing);
      if sha !in p.blobs {
        return false;
      }
      UploadOne(store, p, sha, maxBytes);
      OneLessToGo(missing, done);
      done := done + 1;
    }
    return true;
  }

  /**
   Declare, upload the missing blobs, finalize, with arbitrary calls of other clients before each of
   these steps. As long as nobody else declares the same bundle id, it ends published unless that id
   was published already; it uploads exactly the blobs the store did not have, which on a second run
   is the gap the first left.
   */
  method UploadRelease(store: Store, p: Prepared, rollout: int, now: int, maxBytes: nat, others: nat -> seq<Op>)
    returns (r: UploadResult)
    requires Safe(store.hash, store.View()) && NoCollision(store.hash)
    requires WellPrepared(store.hash, p, maxBytes)
    requires forall n :: LeavesAlone(others(n), p.manifest.bundleId)
    modifies store
    ensures r.Failed? <==> p.manifest.bundleId in old(store.releases) && old(store.releases)[p.manifest.bundleId].finalized
    ensures r.Failed? ==> store.View() == old(store.View())
    ensures r.Uploaded? ==>
              && r.count == |Missing(old(store.blobs), p.manifest)|
              && IsDeclared(store.View(), p.manifest) && store.releases[p.manifest.bundleId].finalized
    ensures Safe(store.hash, store.View())
  {
    var m := p.manifest;
    StepKeepsSafe(store.hash, store.View(), Declare(m, rollout, now));
    var declaration := store.CreateRelease(m, rollout, now);
    if declaration.AlreadyPublished? {
      return Failed;
    }
    var missing := declaration.missing;
    var uploaded := UploadMissing(store, p, missing, maxBytes, others);
    if !uploaded {
      return Failed;
    }
    Interfere(store, others(|missing|), m);
    StepKeepsSafe(store.hash, store.View(), Finalize(m.bundleId));
    FinishedIsKept(store.hash, store.View(), m);
    var publication := store.FinalizeRelease(m.bundleId);
    DistinctCount(missing);
    r := Uploaded(|missing|);
  }

  lemma FinishedIsKept(hash: Bytes -> string, db: Db, m: Manifest)
    requires Safe(hash, db) && IsDeclared(db, m) && Missing(db.blobs, m) == {}
    ensures IsDeclared(Step(hash, db, Finalize(m.bundleId)), m)
  {
  }

  lemma {:induction false} DistinctCount(s: seq<string>)
    requires Distinct(s)
    ensures |Elements(s)| == |s|
  {
    if s != [] {
      var n := |s| - 1;
      DistinctCount(s[..n]);
      assert Elements(s) == Elements(s[..n]) + {s[n]};
    }
  }
}
