/**
 Building a release and reassembling it: hashing, compressing and sealing every distinct file, and the
 reference verifier that undoes it. The round trip is exact for exactly the inputs it can be exact for.
 */
module Release {
  import opened Arrangements
  import opened Common
  import Paths
  import Zstd

  datatype File = File(path: string, data: Bytes)

  /** `iv` and `tag` are empty when the release is not encrypted. */
  datatype BlobEntry = BlobEntry(sha256: string, size: nat, zstd: bool, iv: string, tag: string)

  datatype Entry = Entry(path: string, isBundle: bool, sha256: string, size: nat, blob: BlobEntry)

  datatype Meta = Meta(bundleId: string, runtimeVersion: string, platform: string, channel: string, appId: string, keyId: string)

  datatype Manifest = Manifest(meta: Meta, contentKey: Option<Bytes>, files: seq<Entry>)

  datatype Input = Input(
    meta: Meta,
    files: seq<File>,
    bundlePath: string,
    encrypt: bool,
    contentKey: Option<Bytes>,
    bundleLevel: int,
    assetLevel: int)

  /** The primitives a release rests on. */
  datatype Crypto = Crypto(
    hash: Bytes -> string,
    compress: (Bytes, int) -> Bytes,
    decompress: Bytes -> Option<Bytes>,
    /** key, nonce, associated data, bytes: ciphertext and tag. */
    encrypt: (Bytes, string, string, Bytes) -> (Bytes, string),
    /** key, nonce, tag, associated data, ciphertext. */
    decrypt: (Bytes, string, string, string, Bytes) -> Option<Bytes>,
    deriveIv: (Bytes, string) -> string,
    compressible: string -> bool)

  /** What is assumed of the primitives: hashes look like hashes, and each pair undoes itself. */
  ghost predicate Laws(c: Crypto) {
    && (forall a :: IsSha256Hex(c.hash(a)))
    && (forall x, level :: |x| <= MAX_SAFE_INTEGER ==> CompressesWell(c, x, level))
    && (forall key, iv, aad, x :: SealOpens(c, key, iv, aad, x))
    && (forall key, sha :: c.deriveIv(key, sha) != "")
  }

  /** The frame declares the size of its contents and unpacks to them. */
  ghost predicate CompressesWell(c: Crypto, x: Bytes, level: int) {
    var packed := c.compress(x, level);
    c.decompress(packed) == Some(x) && Zstd.FrameContentSize(packed) == Some(|x|)
  }

  ghost predicate SealOpens(c: Crypto, key: Bytes, iv: string, aad: string, x: Bytes) {
    var sealed := c.encrypt(key, iv, aad, x);
    sealed.1 != "" && c.decrypt(key, iv, sealed.1, aad, sealed.0) == Some(x)
  }

  // ---- one blob ----------------------------------------------------------

  /** Compressed, unless that saves less than two percent; and whether it was. */
  function Packed(c: Crypto, data: Bytes, path: string, level: int): (Bytes, bool) {
    if !c.compressible(path) then (data, false)
    else
      var compressed := c.compress(data, level);
      if 100 * |compressed| >= 98 * |data| then (data, false) else (compressed, true)
  }

  /** The manifest entry and the stored bytes of one packed file; the nonce comes from the bytes sealed. */
  function Sealed(c: Crypto, packed: (Bytes, bool), key: Option<Bytes>, plaintextSha: string): (BlobEntry, Bytes) {
    if key.None? then (BlobEntry(c.hash(packed.0), |packed.0|, packed.1, "", ""), packed.0)
    else
      var iv := c.deriveIv(key.value, c.hash(packed.0));
      var sealed := c.encrypt(key.value, iv, plaintextSha, packed.0);
      (BlobEntry(c.hash(sealed.0), |sealed.0|, packed.1, iv, sealed.1), sealed.0)
  }

  function KeyOf(input: Input): Option<Bytes> {
    if input.encrypt then input.contentKey else None
  }

  function LevelOf(input: Input, f: File): int {
    if f.path == input.bundlePath then input.bundleLevel else input.assetLevel
  }

  /** The blob made from this file, if it is the first with its contents. */
  function BlobOf(c: Crypto, input: Input, f: File): (BlobEntry, Bytes) {
    Sealed(c, Packed(c, f.data, f.path, LevelOf(input, f)), KeyOf(input), c.hash(f.data))
  }

  /** The first of the files with the same plaintext hash as the n-th. */
  function FirstSame(c: Crypto, files: seq<File>, n: nat, from: nat := 0): (k: nat)
    requires from <= n < |files|
    ensures from <= k <= n && c.hash(files[k].data) == c.hash(files[n].data)
    ensures forall j | from <= j < k :: c.hash(files[j].data) != c.hash(files[n].data)
    decreases n - from
  {
    if c.hash(files[from].data) == c.hash(files[n].data) then from else FirstSame(c, files, n, from + 1)
  }

  /** The blob the n-th file ends up in, and its entry. */
  function SharedBlob(c: Crypto, input: Input, files: seq<File>, n: nat): (BlobEntry, Bytes)
    requires n < |files|
  {
    BlobOf(c, input, files[FirstSame(c, files, n)])
  }

  function EntryOf(c: Crypto, input: Input, files: seq<File>, n: nat): Entry
    requires n < |files|
  {
    EntryWith(c, input, files[n], SharedBlob(c, input, files, n).0)
  }

  // ---- manifests ---------------------------------------------------------

  predicate GoodMeta(m: Meta) {
    && m.bundleId != "" && m.runtimeVersion != "" && m.appId != "" && m.keyId != ""
    && (m.platform == "ios" || m.platform == "android")
    && (m.channel == "dev" || m.channel == "uat" || m.channel == "prod")
  }

  predicate GoodBlob(b: BlobEntry, encrypted: bool) {
    IsSha256Hex(b.sha256) && (encrypted ==> b.iv != "" && b.tag != "") && (!encrypted ==> b.iv == "" && b.tag == "")
  }

  predicate GoodEntry(e: Entry, encrypted: bool) {
    Paths.SharedAccepts(e.path) && IsSha256Hex(e.sha256) && GoodBlob(e.blob, encrypted)
  }

  predicate DistinctPaths(files: seq<Entry>) {
    DistinctBy((e: Entry) => e.path, files)
  }

  function Bundles(files: seq<Entry>): nat {
    if files == [] then 0 else Bundles(files[..|files| - 1]) + if files[|files| - 1].isBundle then 1 else 0
  }

  predicate ShapeOk(m: Manifest) {
    && GoodMeta(m.meta)
    && (m.contentKey.Some? ==> m.contentKey.value != [])
    && m.files != []
    && (forall n | 0 <= n < |m.files| :: GoodEntry(m.files[n], m.contentKey.Some?))
    && DistinctPaths(m.files)
    && Bundles(m.files) == 1
  }

  predicate EntriesOk(m: Manifest, n: nat)
    requires n <= |m.files|
  {
    (forall k | 0 <= k < n :: GoodEntry(m.files[k], m.contentKey.Some?)) && DistinctPaths(m.files[..n])
  }

  lemma OneMoreChecked(m: Manifest, n: nat, paths: set<string>)
    requires n < |m.files| && paths == set k | 0 <= k < n :: m.files[k].path
    ensures EntriesOk(m, n + 1) <==> EntriesOk(m, n) && GoodEntry(m.files[n], m.contentKey.Some?) && m.files[n].path !in paths
  {
    OneMorePath(m.files, n, paths);
  }

  lemma OneMorePath(files: seq<Entry>, n: nat, paths: set<string>)
    requires n < |files| && paths == set k | 0 <= k < n :: files[k].path
    ensures DistinctPaths(files[..n + 1]) <==> DistinctPaths(files[..n]) && files[n].path !in paths
  {
    if files[n].path in paths {
      var k :| 0 <= k < n && files[k].path == files[n].path;
      assert files[..n + 1][k].path == files[..n + 1][n].path;
    }
    assert forall k | 0 <= k < n :: files[..n][k] == files[..n + 1][k];
  }

  /** The structural check, with its set of seen paths and its bundle count. */
  method ValidateShape(m: Manifest) returns (ok: bool)
    ensures ok == ShapeOk(m)
  {
    ok := GoodMeta(m.meta) && (m.contentKey.Some? ==> m.contentKey.value != []) && m.files != [];
    var paths := {};
    var bundles := 0;
    for n := 0 to |m.files|
      invariant paths == set k | 0 <= k < n :: m.files[k].path
      invariant bundles == Bundles(m.files[..n])
      invariant ok <==> GoodMeta(m.meta) && (m.contentKey.Some? ==> m.contentKey.value != []) && m.files != [] && EntriesOk(m, n)
    {
      assert m.files[..n + 1][..n] == m.files[..n];
      var e := m.files[n];
      OneMoreChecked(m, n, paths);
      if e.path in paths {
        ok := false;
      }
      paths := paths + {e.path};
      if !GoodEntry(e, m.contentKey.Some?) {
        ok := false;
      }
      if e.isBundle {
        bundles := bundles + 1;
      }
    }
    assert m.files[..|m.files|] == m.files;
    if bundles != 1 {
      ok := false;
    }
  }

  // ---- reassembling ------------------------------------------------------

  /** The bytes behind an entry: stored, checked, opened, unpacked and checked again; none on any mismatch. */
  function Opened(c: Crypto, key: Option<Bytes>, e: Entry, fetched: Option<Bytes>): Option<Bytes> {
    if fetched.None? || |fetched.value| != e.blob.size || c.hash(fetched.value) != e.blob.sha256 then None
    else
      var packed := if key.Some? then c.decrypt(key.value, e.blob.iv, e.blob.tag, e.sha256, fetched.value) else fetched;
      if packed.None? then None
      else
        var data := Unpacked(c, packed.value, e.blob.zstd, e.size);
        if data.None? || |data.value| != e.size || c.hash(data.value) != e.sha256 then None else data
  }

  /** Undo the compression, refusing a frame that does not declare the expected size. */
  function Unpacked(c: Crypto, data: Bytes, zstd: bool, expectedSize: nat): Option<Bytes> {
    if !zstd then (if |data| != expectedSize then None else Some(data))
    else if Zstd.FrameContentSize(data) != Some(expectedSize) then None
    else c.decompress(data)
  }

  /** An entry opens only if its blob is the signed one, and a frame is unpacked only if it declares the signed size. */
  lemma OpenedIsChecked(c: Crypto, key: Option<Bytes>, e: Entry, fetched: Option<Bytes>)
    requires Opened(c, key, e, fetched).Some?
    ensures fetched.Some? && |fetched.value| == e.blob.size && c.hash(fetched.value) == e.blob.sha256
    ensures var packed := if key.Some? then c.decrypt(key.value, e.blob.iv, e.blob.tag, e.sha256, fetched.value) else fetched;
            && packed.Some?
            && if e.blob.zstd then
                 Zstd.FrameContentSize(packed.value) == Some(e.size) && Opened(c, key, e, fetched) == c.decompress(packed.value)
               else
                 |packed.value| == e.size && Opened(c, key, e, fetched) == packed
  {
  }

  /** How the verifier gets at the contents of an entry whose blob it has not seen before. */
  function Opener(c: Crypto, key: Option<Bytes>, fetch: string -> Option<Bytes>): Entry -> Option<Bytes> {
    (e: Entry) => Opened(c, key, e, fetch(e.blob.sha256))
  }

  datatype Progress = Progress(files: seq<File>, cache: map<string, Bytes>)

  /** The verifier's loop over the first `n` entries: one fetch per distinct blob, a cached plaintext after that. */
  function Reassembled(entries: seq<Entry>, open: Entry -> Option<Bytes>, n: nat): (p: Option<Progress>)
    requires n <= |entries|
    ensures p.Some? ==> |p.value.files| == n
  {
    if n == 0 then Some(Progress([], map[]))
    else
      var before := Reassembled(entries, open, n - 1);
      if before.None? then None else WithEntry(entries[n - 1], open, before.value)
  }

  function WithEntry(e: Entry, open: Entry -> Option<Bytes>, before: Progress): (p: Option<Progress>) {
    if e.blob.sha256 in before.cache then
      Some(before.(files := before.files + [File(e.path, before.cache[e.blob.sha256])]))
    else
      var data := open(e);
      if data.None? then None
      else Some(Progress(before.files + [File(e.path, data.value)], before.cache[e.blob.sha256 := data.value]))
  }

  /** The whole verification; a manifest whose signature or shape is wrong is refused. */
  function Verified(c: Crypto, signatureOk: bool, m: Manifest, fetch: string -> Option<Bytes>): Option<seq<File>> {
    if !signatureOk || !ShapeOk(m) then None
    else
      var p := Reassembled(m.files, Opener(c, m.contentKey, fetch), |m.files|);
      if p.None? then None else Some(p.value.files)
  }

  method VerifyRelease(c: Crypto, signatureOk: bool, m: Manifest, fetch: string -> Option<Bytes>) returns (r: Option<seq<File>>)
    ensures r == Verified(c, signatureOk, m, fetch)
  {
    if !signatureOk {
      return None;
    }
    var shape := ValidateShape(m);
    if !shape {
      return None;
    }
    r := ReassembleAll(m.files, Opener(c, m.contentKey, fetch));
  }

  method ReassembleAll(entries: seq<Entry>, open: Entry -> Option<Bytes>) returns (r: Option<seq<File>>)
    ensures var p := Reassembled(entries, open, |entries|); r == if p.None? then None else Some(p.value.files)
  {
    var cache: map<string, Bytes> := map[];
    var files: seq<File> := [];
    for n := 0 to |entries|
      invariant Reassembled(entries, open, n) == Some(Progress(files, cache))
    {
      var e := entries[n];
      if e.blob.sha256 in cache {
        files := files + [File(e.path, cache[e.blob.sha256])];
      } else {
        var data := open(e);
        if data.None? {
          StaysFailed(entries, open, n + 1, |entries|);
          return None;
        }
        cache := cache[e.blob.sha256 := data.value];
        files := files + [File(e.path, data.value)];
      }
    }
    return Some(files);
  }

  lemma {:induction false} StaysFailed(entries: seq<Entry>, open: Entry -> Option<Bytes>, k: nat, n: nat)
    requires k <= n <= |entries| && Reassembled(entries, open, k).None?
    ensures Reassembled(entries, open, n).None?
  {
    if k < n {
      StaysFailed(entries, open, k, n - 1);
    }
  }

  /** What is returned for an entry is what the cache holds for its blob. */
  lemma {:induction false} OutputsMatchTheCache(entries: seq<Entry>, open: Entry -> Option<Bytes>, n: nat)
    requires n <= |entries| && Reassembled(entries, open, n).Some?
    ensures var p := Reassembled(entries, open, n).value;
            forall i | 0 <= i < n ::
              && entries[i].blob.sha256 in p.cache
              && p.files[i] == File(entries[i].path, p.cache[entries[i].blob.sha256])
  {
    if n > 0 {
      OutputsMatchTheCache(entries, open, n - 1);
    }
  }

  /** Entries with the same blob have the same contents. */
  predicate BlobsTellApart(entries: seq<Entry>, data: seq<Bytes>)
    requires |entries| == |data|
  {
    forall i, j | 0 <= i < |data| && 0 <= j < |data| && entries[i].blob.sha256 == entries[j].blob.sha256 :: data[i] == data[j]
  }

  /** On its own, every entry opens to these contents. */
  predicate EachOpens(entries: seq<Entry>, open: Entry -> Option<Bytes>, data: seq<Bytes>) {
    |entries| == |data| && forall n | 0 <= n < |data| :: open(entries[n]) == Some(data[n])
  }

  /** The cache answers for exactly the blobs of the first `n` entries, each with its contents. */
  predicate CacheHolds(entries: seq<Entry>, data: seq<Bytes>, n: nat, cache: map<string, Bytes>)
    requires n <= |entries| == |data|
  {
    && (forall k | 0 <= k < n :: entries[k].blob.sha256 in cache && cache[entries[k].blob.sha256] == data[k])
    && (forall sha | sha in cache :: exists k | 0 <= k < n :: entries[k].blob.sha256 == sha)
  }

  predicate HoldsFiles(entries: seq<Entry>, data: seq<Bytes>, n: nat, files: seq<File>)
    requires n <= |entries| == |data|
  {
    |files| == n && forall k | 0 <= k < n :: files[k] == File(entries[k].path, data[k])
  }

  lemma OneMoreFile(entries: seq<Entry>, data: seq<Bytes>, n: nat, files: seq<File>)
    requires n < |entries| == |data| && HoldsFiles(entries, data, n, files)
    ensures HoldsFiles(entries, data, n + 1, files + [File(entries[n].path, data[n])])
  {
  }

  lemma CachedIsRight(entries: seq<Entry>, data: seq<Bytes>, n: nat, cache: map<string, Bytes>)
    requires n < |entries| == |data| && BlobsTellApart(entries, data) && CacheHolds(entries, data, n, cache)
    requires entries[n].blob.sha256 in cache
    ensures cache[entries[n].blob.sha256] == data[n] && CacheHolds(entries, data, n + 1, cache)
  {
    var k :| 0 <= k < n && entries[k].blob.sha256 == entries[n].blob.sha256;
  }

  lemma CacheGrows(entries: seq<Entry>, data: seq<Bytes>, n: nat, cache: map<string, Bytes>)
    requires n < |entries| == |data| && CacheHolds(entries, data, n, cache) && entries[n].blob.sha256 !in cache
    ensures CacheHolds(entries, data, n + 1, cache[entries[n].blob.sha256 := data[n]])
  {
    var grown := cache[entries[n].blob.sha256 := data[n]];
    forall sha | sha in grown ensures exists k | 0 <= k < n + 1 :: entries[k].blob.sha256 == sha {
      if sha in cache {
        var k :| 0 <= k < n && entries[k].blob.sha256 == sha;
      }
    }
  }

  predicate RightSoFar(entries: seq<Entry>, data: seq<Bytes>, n: nat, p: Progress)
    requires n <= |entries| == |data|
  {
    HoldsFiles(entries, data, n, p.files) && CacheHolds(entries, data, n, p.cache)
  }

  lemma StaysRight(entries: seq<Entry>, open: Entry -> Option<Bytes>, data: seq<Bytes>, n: nat, before: Progress)
    requires n < |entries| == |data| && open(entries[n]) == Some(data[n]) && BlobsTellApart(entries, data)
    requires RightSoFar(entries, data, n, before)
    ensures var p := WithEntry(entries[n], open, before); p.Some? && RightSoFar(entries, data, n + 1, p.value)
  {
    OneMoreFile(entries, data, n, before.files);
    if entries[n].blob.sha256 in before.cache {
      CachedIsRight(entries, data, n, before.cache);
    } else {
      CacheGrows(entries, data, n, before.cache);
    }
  }

  /** While contents are told apart by their blobs, the cache never answers for the wrong file. */
  lemma {:induction false} ReassemblesEveryFile(entries: seq<Entry>, open: Entry -> Option<Bytes>, data: seq<Bytes>, n: nat)
    requires n <= |entries| && EachOpens(entries, open, data) && BlobsTellApart(entries, data)
    ensures Reassembled(entries, open, n).Some? && RightSoFar(entries, data, n, Reassembled(entries, open, n).value)
  {
    if n > 0 {
      ReassemblesEveryFile(entries, open, data, n - 1);
      StaysRight(entries, open, data, n - 1, Reassembled(entries, open, n - 1).value);
    }
  }

  /** The loop over entries that open one by one is right exactly when the cache key tells them apart. */
  lemma ReassembledExactly(entries: seq<Entry>, open: Entry -> Option<Bytes>, data: seq<Bytes>)
    requires EachOpens(entries, open, data)
    ensures var p := Reassembled(entries, open, |entries|);
            p.Some? && HoldsFiles(entries, data, |entries|, p.value.files) <==> BlobsTellApart(entries, data)
  {
    var p := Reassembled(entries, open, |entries|);
    if BlobsTellApart(entries, data) {
      ReassemblesEveryFile(entries, open, data, |entries|);
    }
    if p.Some? && HoldsFiles(entries, data, |entries|, p.value.files) {
      OutputsMatchTheCache(entries, open, |entries|);
      forall i, j | 0 <= i < |data| && 0 <= j < |data| && entries[i].blob.sha256 == entries[j].blob.sha256
        ensures data[i] == data[j]
      {
        assert p.value.files[i].data == p.value.files[j].data;
      }
    }
  }

  // ---- what an arbitrary server can make it return -----------------------

  /** The contents have the hash and the size the entry was signed with. */
  predicate IsSigned(c: Crypto, e: Entry, data: Bytes) {
    c.hash(data) == e.sha256 && |data| == e.size
  }

  /** Every cached plaintext was opened, and so checked, for some entry with that blob. */
  ghost predicate CacheIsChecked(c: Crypto, entries: seq<Entry>, n: nat, cache: map<string, Bytes>)
    requires n <= |entries|
  {
    forall sha | sha in cache :: exists k | 0 <= k < n :: entries[k].blob.sha256 == sha && IsSigned(c, entries[k], cache[sha])
  }

  lemma {:induction false} OnlyCheckedIsCached(c: Crypto, key: Option<Bytes>, fetch: string -> Option<Bytes>, entries: seq<Entry>, n: nat)
    requires n <= |entries| && Reassembled(entries, Opener(c, key, fetch), n).Some?
    ensures CacheIsChecked(c, entries, n, Reassembled(entries, Opener(c, key, fetch), n).value.cache)
  {
    if n > 0 {
      OnlyCheckedIsCached(c, key, fetch, entries, n - 1);
      var before := Reassembled(entries, Opener(c, key, fetch), n - 1).value;
      var e := entries[n - 1];
      OpenedIsSigned(c, key, e, fetch(e.blob.sha256));
      CheckedStaysCached(c, entries, n - 1, before, Opener(c, key, fetch));
    }
  }

  lemma OpenedIsSigned(c: Crypto, key: Option<Bytes>, e: Entry, fetched: Option<Bytes>)
    ensures Opened(c, key, e, fetched).Some? ==> IsSigned(c, e, Opened(c, key, e, fetched).value)
  {
  }

  lemma CheckedStaysCached(c: Crypto, entries: seq<Entry>, n: nat, before: Progress, open: Entry -> Option<Bytes>)
    requires n < |entries| && CacheIsChecked(c, entries, n, before.cache)
    requires open(entries[n]).Some? ==> IsSigned(c, entries[n], open(entries[n]).value)
    ensures var p := WithEntry(entries[n], open, before); p.Some? ==> CacheIsChecked(c, entries, n + 1, p.value.cache)
  {
    var p := WithEntry(entries[n], open, before);
    if p.Some? {
      forall sha | sha in p.value.cache
        ensures exists k | 0 <= k < n + 1 :: entries[k].blob.sha256 == sha && IsSigned(c, entries[k], p.value.cache[sha])
      {
        if sha in before.cache {
          var k :| 0 <= k < n && entries[k].blob.sha256 == sha && IsSigned(c, entries[k], before.cache[sha]);
        }
      }
    }
  }

  /** Entries with one blob were signed for one contents. */
  predicate BlobsAgree(entries: seq<Entry>) {
    forall i, j | 0 <= i < |entries| && 0 <= j < |entries| && entries[i].blob.sha256 == entries[j].blob.sha256 ::
      entries[i].sha256 == entries[j].sha256 && entries[i].size == entries[j].size
  }

  ghost predicate AllSigned(c: Crypto, entries: seq<Entry>, files: seq<File>) {
    |files| == |entries| && forall n | 0 <= n < |files| :: files[n].path == entries[n].path && IsSigned(c, entries[n], files[n].data)
  }

  lemma CheckedAndMatching(c: Crypto, entries: seq<Entry>, p: Progress)
    requires |p.files| == |entries| && CacheIsChecked(c, entries, |entries|, p.cache)
    requires forall i | 0 <= i < |entries| ::
               entries[i].blob.sha256 in p.cache && p.files[i] == File(entries[i].path, p.cache[entries[i].blob.sha256])
    ensures AllSigned(c, entries, p.files) <==> BlobsAgree(entries)
  {
    if AllSigned(c, entries, p.files) {
      forall i, j | 0 <= i < |entries| && 0 <= j < |entries| && entries[i].blob.sha256 == entries[j].blob.sha256
        ensures entries[i].sha256 == entries[j].sha256 && entries[i].size == entries[j].size
      {
        assert p.files[i].data == p.files[j].data;
      }
    }
    if BlobsAgree(entries) {
      forall n | 0 <= n < |entries| ensures IsSigned(c, entries[n], p.files[n].data) {
        var sha := entries[n].blob.sha256;
        var k :| 0 <= k < |entries| && entries[k].blob.sha256 == sha && IsSigned(c, entries[k], p.cache[sha]);
      }
    }
  }

  lemma ReassembledIsSignedExactly(c: Crypto, key: Option<Bytes>, fetch: string -> Option<Bytes>, entries: seq<Entry>)
    requires Reassembled(entries, Opener(c, key, fetch), |entries|).Some?
    ensures AllSigned(c, entries, Reassembled(entries, Opener(c, key, fetch), |entries|).value.files) <==> BlobsAgree(entries)
  {
    OutputsMatchTheCache(entries, Opener(c, key, fetch), |entries|);
    OnlyCheckedIsCached(c, key, fetch, entries, |entries|);
    CheckedAndMatching(c, entries, Reassembled(entries, Opener(c, key, fetch), |entries|).value);
  }

  /**
   Against any server at all: when verification returns, every file has the hash and size it was signed
   with if and only if the manifest gives entries with one blob one hash and size. Nothing is assumed of
   the primitives.
   */
  lemma VerifiedFilesAreSignedExactly(c: Crypto, signatureOk: bool, m: Manifest, fetch: string -> Option<Bytes>)
    requires Verified(c, signatureOk, m, fetch).Some?
    ensures AllSigned(c, m.files, Verified(c, signatureOk, m, fetch).value) <==> BlobsAgree(m.files)
  {
    ReassembledIsSignedExactly(c, m.contentKey, fetch, m.files);
  }

  // ---- building ----------------------------------------------------------

  datatype BuildResult = Built(manifest: Manifest, blobs: map<string, Bytes>) | BuildFailed(reason: BuildError)

  datatype BuildError = NoFiles | BadPath | DuplicatePath | NoBundleFile | NoContentKey | BadContentKey | InvalidManifest

  /** How the publisher compares paths; `true` when the first does not come after the second. */
  type Order = (string, string) -> bool

  /** A consistent comparator: it decides every pair, and may call different paths equal. */
  ghost predicate TotalPreorder(leq: Order) {
    && (forall a, b :: leq(a, b) || leq(b, a))
    && (forall a, b, c :: leq(a, b) && leq(b, c) ==> leq(a, c))
  }

  function PathBefore(leq: Order): (File, File) -> bool {
    (a: File, b: File) => !leq(b.path, a.path)
  }

  /** The files in path order, by a sort that keeps the order of paths it calls equal. */
  function PathOrder(leq: Order, files: seq<File>): seq<File> {
    Arranged(PathBefore(leq), files)
  }

  predicate DistinctFiles(files: seq<File>) {
    DistinctBy((f: File) => f.path, files)
  }

  predicate Acceptable(input: Input) {
    && input.files != []
    && (forall f | f in input.files :: Paths.SharedAccepts(f.path))
    && DistinctFiles(input.files)
    && (exists f | f in input.files :: f.path == input.bundlePath)
    && (input.encrypt ==> input.contentKey.Some?)
    && (input.contentKey.Some? ==> |input.contentKey.value| == 32)
  }

  function ManifestOf(c: Crypto, input: Input, sorted: seq<File>): Manifest {
    Manifest(input.meta, KeyOf(input), seq(|sorted|, n requires 0 <= n < |sorted| => EntryOf(c, input, sorted, n)))
  }

  /** The blobs the files end up in, one by one. */
  function SharedBlobs(c: Crypto, input: Input, files: seq<File>): (shared: seq<(BlobEntry, Bytes)>)
    ensures |shared| == |files| && forall n | 0 <= n < |files| :: shared[n] == SharedBlob(c, input, files, n)
  {
    seq(|files|, n requires 0 <= n < |files| => SharedBlob(c, input, files, n))
  }

  /** The upload is exactly the first `n` of these blobs, every one under its own hash. */
  ghost predicate Holds(c: Crypto, shared: seq<(BlobEntry, Bytes)>, blobs: map<string, Bytes>, n: nat)
    requires n <= |shared|
  {
    && (forall k | 0 <= k < n :: shared[k].0.sha256 in blobs)
    && (forall sha | sha in blobs :: exists k | 0 <= k < n :: shared[k].0.sha256 == sha && blobs[sha] == shared[k].1)
  }

  function OtherPath(): (File, File) -> bool {
    (a: File, b: File) => a.path != b.path
  }

  /** Sorting loses nothing and adds nothing. */
  lemma SortingKeeps(leq: Order, files: seq<File>)
    requires DistinctFiles(files)
    ensures DistinctFiles(PathOrder(leq, files)) && Elements(PathOrder(leq, files)) == Elements(files)
  {
    ArrangedHasTheSame(PathBefore(leq), files);
    ArrangedKeepsPairs(PathBefore(leq), OtherPath(), files);
    forall i, j | 0 <= i < j < |files| ensures PathOrder(leq, files)[i].path != PathOrder(leq, files)[j].path {
      assert OtherPath()(PathOrder(leq, files)[i], PathOrder(leq, files)[j]);
    }
  }

  /** What is wrong with an input that is refused. */
  ghost predicate Explains(input: Input, error: BuildError) {
    match error
    case NoFiles => input.files == []
    case BadPath => exists f | f in input.files :: !Paths.SharedAccepts(f.path)
    case DuplicatePath => exists i, j | 0 <= i < j < |input.files| :: input.files[i].path == input.files[j].path
    case NoBundleFile => forall f | f in input.files :: f.path != input.bundlePath
    case NoContentKey => input.encrypt && input.contentKey.None?
    case BadContentKey => input.contentKey.Some? && |input.contentKey.value| != 32
    case InvalidManifest => false
  }

  /** The checks before anything is built. */
  method CheckInput(input: Input) returns (error: Option<BuildError>)
    ensures error.None? <==> Acceptable(input)
    ensures error.Some? ==> Explains(input, error.value)
  {
    if input.files == [] {
      return Some(NoFiles);
    }
    var seen := {};
    for n := 0 to |input.files|
      invariant seen == set k | 0 <= k < n :: input.files[k].path
      invariant forall k | 0 <= k < n :: Paths.SharedAccepts(input.files[k].path)
      invariant forall i, j | 0 <= i < j < n :: input.files[i].path != input.files[j].path
    {
      var path := input.files[n].path;
      if !Paths.SharedAccepts(path) {
        assert input.files[n] in input.files;
        return Some(BadPath);
      }
      if path in seen {
        return Some(DuplicatePath);
      }
      seen := seen + {path};
    }
    if input.bundlePath !in seen {
      forall f | f in input.files ensures f.path != input.bundlePath {
        assert f.path in seen;
      }
      return Some(NoBundleFile);
    }
    if input.encrypt && input.contentKey.None? {
      return Some(NoContentKey);
    }
    if input.contentKey.Some? && |input.contentKey.value| != 32 {
      return Some(BadContentKey);
    }
    return None;
  }

  /** Two files with the same plaintext hash end up in the same blob. */
  lemma SameHashSameBlob(c: Crypto, input: Input, files: seq<File>, k: nat, n: nat)
    requires k <= n < |files| && c.hash(files[k].data) == c.hash(files[n].data)
    ensures SharedBlob(c, input, files, k) == SharedBlob(c, input, files, n)
  {
    assert FirstSame(c, files, k) == FirstSame(c, files, n);
  }

  /** The first file with its contents is the one the blob is made from. */
  lemma FirstMakesTheBlob(c: Crypto, input: Input, files: seq<File>, n: nat)
    requires n < |files| && forall k | 0 <= k < n :: c.hash(files[k].data) != c.hash(files[n].data)
    ensures SharedBlob(c, input, files, n) == BlobOf(c, input, files[n])
  {
    assert FirstSame(c, files, n) == n;
  }

  lemma BlobHasItsHash(c: Crypto, input: Input, files: seq<File>, n: nat)
    requires n < |files|
    ensures SharedBlob(c, input, files, n).0.sha256 == c.hash(SharedBlob(c, input, files, n).1)
  {
  }

  method BuildRelease(c: Crypto, leq: Order, input: Input) returns (r: BuildResult, ghost sorted: seq<File>)
    ensures r.Built? ==>
              && Acceptable(input) && sorted == PathOrder(leq, input.files)
              && r.manifest == ManifestOf(c, input, sorted) && ShapeOk(r.manifest)
              && Holds(c, SharedBlobs(c, input, sorted), r.blobs, |sorted|)
    ensures r.Built? ==> MadeAsAsked(c, input, r.manifest, r.blobs)
    ensures Acceptable(input) && Laws(c) && GoodMeta(input.meta) ==> r.Built?
    ensures r.BuildFailed? && r.reason != InvalidManifest ==> Explains(input, r.reason)
  {
    sorted := [];
    var error := CheckInput(input);
    if error.Some? {
      return BuildFailed(error.value), sorted;
    }
    var files := PathOrder(leq, input.files);
    sorted := files;
    SharedBlobsAreShared(c, input, files);
    var entries, blobs := BuildEntries(c, input, files, SharedBlobs(c, input, files));
    var manifest := Manifest(input.meta, KeyOf(input), entries);
    MadeIsTheManifest(c, input, files, entries);
    if Laws(c) && GoodMeta(input.meta) {
      BuiltShapeIsOk(c, leq, input, files);
    }
    var shape := ValidateShape(manifest);
    if !shape {
      return BuildFailed(InvalidManifest), sorted;
    }
    BuiltIsAsAsked(c, leq, input, files, blobs);
    r := Built(manifest, blobs);
  }

  // ---- what is signed and what is stored ---------------------------------

  /** Compressed, at the level its role asks for, if its kind can be and that saves more than two percent. */
  predicate IsPacked(c: Crypto, input: Input, f: File, packed: Bytes, zstd: bool) {
    var compressed := c.compress(f.data, if f.path == input.bundlePath then input.bundleLevel else input.assetLevel);
    && (zstd <==> c.compressible(f.path) && 100 * |compressed| < 98 * |f.data|)
    && packed == if zstd then compressed else f.data
  }

  /**
   The entry and the stored bytes of a blob made from this file: with encryption, the ciphertext of the
   packed file under the content key and a nonce of its own, bound to the file's hash; else the packed file.
   */
  predicate StoredAs(c: Crypto, input: Input, f: File, packed: Bytes, b: BlobEntry, stored: Bytes) {
    && IsPacked(c, input, f, packed, b.zstd)
    && b.sha256 == c.hash(stored) && b.size == |stored|
    && if input.encrypt then
         && input.contentKey.Some?
         && b.iv == c.deriveIv(input.contentKey.value, c.hash(packed))
         && (stored, b.tag) == c.encrypt(input.contentKey.value, b.iv, c.hash(f.data), packed)
       else
         stored == packed && b.iv == "" && b.tag == ""
  }

  /** An entry for the n-th file, whose blob is made from a file with the same contents. */
  ghost predicate DescribesFile(c: Crypto, input: Input, e: Entry) {
    && (exists f | f in input.files ::
          e.path == f.path && e.sha256 == c.hash(f.data) && e.size == |f.data| && (e.isBundle <==> f.path == input.bundlePath))
    && exists stored :: BlobIsMade(c, input, e, stored)
  }

  ghost predicate BlobIsMade(c: Crypto, input: Input, e: Entry, stored: Bytes) {
    exists f, packed | f in input.files :: c.hash(f.data) == e.sha256 && StoredAs(c, input, f, packed, e.blob, stored)
  }

  /** The key is signed exactly when encryption was asked for; and every blob of the upload is made for an entry. */
  ghost predicate MadeAsAsked(c: Crypto, input: Input, m: Manifest, blobs: map<string, Bytes>) {
    && m.meta == input.meta && m.contentKey == (if input.encrypt then input.contentKey else None)
    && |m.files| == |input.files|
    && (forall n | 0 <= n < |m.files| :: DescribesFile(c, input, m.files[n]) && m.files[n].blob.sha256 in blobs)
    && (forall sha | sha in blobs ::
          exists n | 0 <= n < |m.files| :: m.files[n].blob.sha256 == sha && BlobIsMade(c, input, m.files[n], blobs[sha]))
  }

  lemma BlobIsStoredAs(c: Crypto, input: Input, f: File)
    requires input.encrypt ==> input.contentKey.Some?
    ensures var packed := Packed(c, f.data, f.path, LevelOf(input, f)).0; var b := BlobOf(c, input, f);
            StoredAs(c, input, f, packed, b.0, b.1)
  {
  }

  lemma SharedBlobIsMade(c: Crypto, input: Input, sorted: seq<File>, n: nat)
    requires (input.encrypt ==> input.contentKey.Some?) && n < |sorted| && Elements(sorted) == Elements(input.files)
    ensures BlobIsMade(c, input, EntryOf(c, input, sorted, n), SharedBlob(c, input, sorted, n).1)
  {
    var f := sorted[FirstSame(c, sorted, n)];
    assert f in Elements(input.files);
    BlobIsStoredAs(c, input, f);
  }

  lemma EntryDescribesFile(c: Crypto, input: Input, sorted: seq<File>, n: nat)
    requires (input.encrypt ==> input.contentKey.Some?) && n < |sorted| && Elements(sorted) == Elements(input.files)
    ensures DescribesFile(c, input, EntryOf(c, input, sorted, n))
  {
    assert sorted[n] in Elements(input.files);
    SharedBlobIsMade(c, input, sorted, n);
  }

  lemma UploadIsMade(c: Crypto, input: Input, sorted: seq<File>, blobs: map<string, Bytes>, sha: string)
    requires (input.encrypt ==> input.contentKey.Some?) && Elements(sorted) == Elements(input.files)
    requires Holds(c, SharedBlobs(c, input, sorted), blobs, |sorted|) && sha in blobs
    ensures var m := ManifestOf(c, input, sorted);
            exists n | 0 <= n < |m.files| :: m.files[n].blob.sha256 == sha && BlobIsMade(c, input, m.files[n], blobs[sha])
  {
    var shared := SharedBlobs(c, input, sorted);
    var n :| 0 <= n < |sorted| && shared[n].0.sha256 == sha && blobs[sha] == shared[n].1;
    SharedBlobIsMade(c, input, sorted, n);
    assert ManifestOf(c, input, sorted).files[n] == EntryOf(c, input, sorted, n);
  }

  lemma BuiltIsAsAsked(c: Crypto, leq: Order, input: Input, sorted: seq<File>, blobs: map<string, Bytes>)
    requires Acceptable(input) && sorted == PathOrder(leq, input.files)
    requires Holds(c, SharedBlobs(c, input, sorted), blobs, |sorted|)
    ensures MadeAsAsked(c, input, ManifestOf(c, input, sorted), blobs)
  {
    SortingKeeps(leq, input.files);
    ArrangedHasTheSame(PathBefore(leq), input.files);
    var m, shared := ManifestOf(c, input, sorted), SharedBlobs(c, input, sorted);
    forall n | 0 <= n < |sorted| ensures DescribesFile(c, input, m.files[n]) && m.files[n].blob.sha256 in blobs {
      EntryDescribesFile(c, input, sorted, n);
      assert shared[n].0.sha256 in blobs;
    }
    forall sha | sha in blobs
      ensures exists n | 0 <= n < |m.files| :: m.files[n].blob.sha256 == sha && BlobIsMade(c, input, m.files[n], blobs[sha])
    {
      UploadIsMade(c, input, sorted, blobs, sha);
    }
  }

  /** Where two derivations give one nonce, as they do for one hash, the same bytes are sealed. */
  lemma OneNonceSealsOneText(c: Crypto, input: Input, f: File, p: Bytes, b: BlobEntry, s: Bytes, g: File, q: Bytes, d: BlobEntry, u: Bytes)
    requires input.encrypt && StoredAs(c, input, f, p, b, s) && StoredAs(c, input, g, q, d, u) && b.iv == d.iv
    requires forall x, y :: c.deriveIv(input.contentKey.value, x) == c.deriveIv(input.contentKey.value, y) ==> x == y
    requires NoCollisionAmong(c.hash, [p, q])
    ensures p == q
  {
    assert c.hash([p, q][0]) == c.hash([p, q][1]);
  }

  /** A file that two releases of one key ship in one role is stored as the same blob in both. */
  lemma UnchangedFileIsStoredOnce(c: Crypto, a: Input, b: Input, f: File, p: Bytes, x: BlobEntry, s: Bytes, q: Bytes, y: BlobEntry, u: Bytes)
    requires a.encrypt == b.encrypt && (a.encrypt ==> a.contentKey == b.contentKey)
    requires (f.path == a.bundlePath <==> f.path == b.bundlePath) && a.bundleLevel == b.bundleLevel && a.assetLevel == b.assetLevel
    requires StoredAs(c, a, f, p, x, s) && StoredAs(c, b, f, q, y, u)
    ensures x == y && s == u
  {
  }

  /** `shared` says for each file which blob it ends up in. */
  ghost predicate Sharing(c: Crypto, input: Input, files: seq<File>, shared: seq<(BlobEntry, Bytes)>) {
    && |shared| == |files|
    && (forall n | 0 <= n < |files| :: OwnBlob(c, input, files, shared, n))
    && (forall k, n | 0 <= k <= n < |files| :: SameBlob(c, files, shared, k, n))
  }

  /** The first file with its contents is the one its blob is made from. */
  ghost predicate OwnBlob(c: Crypto, input: Input, files: seq<File>, shared: seq<(BlobEntry, Bytes)>, n: nat)
    requires n < |files| == |shared|
  {
    && shared[n].0.sha256 == c.hash(shared[n].1)
    && ((forall k | 0 <= k < n :: c.hash(files[k].data) != c.hash(files[n].data)) ==> shared[n] == BlobOf(c, input, files[n]))
  }

  ghost predicate SameBlob(c: Crypto, files: seq<File>, shared: seq<(BlobEntry, Bytes)>, k: nat, n: nat)
    requires k <= n < |files| == |shared|
  {
    c.hash(files[k].data) == c.hash(files[n].data) ==> shared[k] == shared[n]
  }

  lemma SharedBlobsAreShared(c: Crypto, input: Input, files: seq<File>)
    ensures Sharing(c, input, files, SharedBlobs(c, input, files))
  {
    var shared := SharedBlobs(c, input, files);
    forall n | 0 <= n < |files| ensures OwnBlob(c, input, files, shared, n) {
      BlobHasItsHash(c, input, files, n);
      if forall k | 0 <= k < n :: c.hash(files[k].data) != c.hash(files[n].data) {
        FirstMakesTheBlob(c, input, files, n);
      }
    }
    forall k, n | 0 <= k <= n < |files| ensures SameBlob(c, files, shared, k, n) {
      if c.hash(files[k].data) == c.hash(files[n].data) {
        SameHashSameBlob(c, input, files, k, n);
      }
    }
  }

  function EntryWith(c: Crypto, input: Input, f: File, blob: BlobEntry): Entry {
    Entry(f.path, f.path == input.bundlePath, c.hash(f.data), |f.data|, blob)
  }

  ghost predicate EntriesMade(c: Crypto, input: Input, files: seq<File>, shared: seq<(BlobEntry, Bytes)>, entries: seq<Entry>)
    requires |files| == |shared|
  {
    && |entries| <= |files|
    && forall k | 0 <= k < |entries| :: entries[k] == EntryWith(c, input, files[k], shared[k].0)
  }

  lemma MadeIsTheManifest(c: Crypto, input: Input, files: seq<File>, entries: seq<Entry>)
    requires |entries| == |files| && EntriesMade(c, input, files, SharedBlobs(c, input, files), entries)
    ensures entries == ManifestOf(c, input, files).files
  {
    forall n | 0 <= n < |files| ensures entries[n] == EntryOf(c, input, files, n) {
      assert entries[n] == EntryWith(c, input, files[n], SharedBlobs(c, input, files)[n].0);
    }
  }

  lemma OneMoreEntry(c: Crypto, input: Input, files: seq<File>, shared: seq<(BlobEntry, Bytes)>, entries: seq<Entry>)
    requires |entries| < |files| == |shared| && EntriesMade(c, input, files, shared, entries)
    ensures EntriesMade(c, input, files, shared, entries + [EntryWith(c, input, files[|entries|], shared[|entries|].0)])
  {
  }

  /** The blobs chosen so far, by plaintext hash. */
  ghost predicate Chosen(c: Crypto, files: seq<File>, shared: seq<(BlobEntry, Bytes)>, n: nat, chosen: map<string, BlobEntry>)
    requires n <= |files| == |shared|
  {
    && (forall k | 0 <= k < n :: c.hash(files[k].data) in chosen && chosen[c.hash(files[k].data)] == shared[k].0)
    && (forall sha | sha in chosen :: exists k | 0 <= k < n :: c.hash(files[k].data) == sha)
  }

  lemma ChosenBefore(c: Crypto, input: Input, files: seq<File>, shared: seq<(BlobEntry, Bytes)>, n: nat,
                     chosen: map<string, BlobEntry>)
    requires Sharing(c, input, files, shared) && n < |files| && Chosen(c, files, shared, n, chosen)
    requires c.hash(files[n].data) in chosen
    ensures chosen[c.hash(files[n].data)] == shared[n].0 && Chosen(c, files, shared, n + 1, chosen)
    ensures exists k | 0 <= k < n :: shared[k] == shared[n]
  {
    var k :| 0 <= k < n && c.hash(files[k].data) == c.hash(files[n].data);
    assert SameBlob(c, files, shared, k, n);
  }

  lemma ChosenNow(c: Crypto, input: Input, files: seq<File>, shared: seq<(BlobEntry, Bytes)>, n: nat,
                  chosen: map<string, BlobEntry>)
    requires Sharing(c, input, files, shared) && n < |files| && Chosen(c, files, shared, n, chosen)
    requires c.hash(files[n].data) !in chosen
    ensures shared[n] == BlobOf(c, input, files[n])
    ensures shared[n].0.sha256 == c.hash(shared[n].1)
    ensures Chosen(c, files, shared, n + 1, chosen[c.hash(files[n].data) := shared[n].0])
  {
    assert OwnBlob(c, input, files, shared, n);
  }

  /** One entry per file, one blob per distinct contents. */
  method BuildEntries(c: Crypto, input: Input, files: seq<File>, ghost shared: seq<(BlobEntry, Bytes)>)
    returns (entries: seq<Entry>, blobs: map<string, Bytes>)
    requires Sharing(c, input, files, shared)
    ensures |entries| == |files| && EntriesMade(c, input, files, shared, entries)
    ensures Holds(c, shared, blobs, |files|)
  {
    entries, blobs := [], map[];
    var blobByPlaintext: map<string, BlobEntry> := map[];
    for n := 0 to |files|
      invariant |entries| == n && EntriesMade(c, input, files, shared, entries)
      invariant Chosen(c, files, shared, n, blobByPlaintext)
      invariant Holds(c, shared, blobs, n)
    {
      var file := files[n];
      var plaintextSha := c.hash(file.data);
      if plaintextSha !in blobByPlaintext {
        ChosenNow(c, input, files, shared, n, blobByPlaintext);
        var sealed := BlobOf(c, input, file);
        blobByPlaintext := blobByPlaintext[plaintextSha := sealed.0];
        blobs := blobs[sealed.0.sha256 := sealed.1];
      } else {
        ChosenBefore(c, input, files, shared, n, blobByPlaintext);
      }
      assert blobByPlaintext[plaintextSha] == shared[n].0;
      OneMoreEntry(c, input, files, shared, entries);
      entries := entries + [EntryWith(c, input, file, blobByPlaintext[plaintextSha])];
    }
  }

  lemma BuiltEntryIsGood(c: Crypto, input: Input, sorted: seq<File>, n: nat)
    requires Laws(c) && n < |sorted| && Paths.SharedAccepts(sorted[n].path)
    ensures GoodEntry(EntryOf(c, input, sorted, n), KeyOf(input).Some?)
  {
    var f := sorted[FirstSame(c, sorted, n)];
    if KeyOf(input).Some? {
      var packed := Packed(c, f.data, f.path, LevelOf(input, f));
      assert SealOpens(c, KeyOf(input).value, c.deriveIv(KeyOf(input).value, c.hash(packed.0)), c.hash(f.data), packed.0);
    }
  }

  lemma BuiltHasOneBundle(c: Crypto, leq: Order, input: Input, sorted: seq<File>)
    requires Acceptable(input) && sorted == PathOrder(leq, input.files)
    ensures Bundles(ManifestOf(c, input, sorted).files) == 1
  {
    var entries := ManifestOf(c, input, sorted).files;
    SortingKeeps(leq, input.files);
    var f :| f in input.files && f.path == input.bundlePath;
    assert f in Elements(sorted);
    var b :| 0 <= b < |sorted| && sorted[b] == f;
    OneBundle(entries, b, |entries|);
    assert entries[..|entries|] == entries;
  }

  lemma BuiltHasDistinctPaths(c: Crypto, input: Input, sorted: seq<File>)
    requires DistinctFiles(sorted)
    ensures DistinctPaths(ManifestOf(c, input, sorted).files)
  {
  }

  lemma BuiltShapeIsOk(c: Crypto, leq: Order, input: Input, sorted: seq<File>)
    requires Laws(c) && Acceptable(input) && GoodMeta(input.meta) && sorted == PathOrder(leq, input.files)
    ensures ShapeOk(ManifestOf(c, input, sorted))
  {
    SortingKeeps(leq, input.files);
    forall n | 0 <= n < |sorted| ensures GoodEntry(EntryOf(c, input, sorted, n), KeyOf(input).Some?) {
      assert sorted[n] in Elements(input.files);
      BuiltEntryIsGood(c, input, sorted, n);
    }
    BuiltHasOneBundle(c, leq, input, sorted);
    BuiltHasDistinctPaths(c, input, sorted);
    assert input.files[0] in Elements(sorted);
  }

  lemma {:induction false} OneBundle(files: seq<Entry>, b: nat, n: nat)
    requires b < |files| && n <= |files| && forall k | 0 <= k < |files| :: files[k].isBundle <==> k == b
    ensures Bundles(files[..n]) == if b < n then 1 else 0
  {
    if n > 0 {
      OneBundle(files, b, n - 1);
      assert files[..n][..n - 1] == files[..n - 1];
    }
  }

  // ---- the round trip ----------------------------------------------------

  function Fetch(blobs: map<string, Bytes>): string -> Option<Bytes> {
    sha => if sha in blobs then Some(blobs[sha]) else None
  }

  /** Contents stored as the same bytes are the same contents. */
  predicate Faithful(stored: seq<Bytes>, data: seq<Bytes>)
    requires |stored| == |data|
  {
    forall i, j | 0 <= i < |data| && 0 <= j < |data| :: stored[i] == stored[j] ==> data[i] == data[j]
  }

  /** The laws hold, no two of the files or blobs collide, and no file is longer than a buffer can be. */
  ghost predicate Sound(c: Crypto, input: Input, sorted: seq<File>) {
    && Laws(c)
    && NoCollisionAmong(c.hash, Contents(sorted)) && NoCollisionAmong(c.hash, StoredBytes(c, input, sorted))
    && forall n | 0 <= n < |sorted| :: |sorted[n].data| <= MAX_SAFE_INTEGER
  }

  lemma OpeningUndoesSealing(c: Crypto, input: Input, sorted: seq<File>, n: nat)
    requires Sound(c, input, sorted) && n < |sorted|
    ensures Opened(c, KeyOf(input), EntryOf(c, input, sorted, n), Some(SharedBlob(c, input, sorted, n).1)) == Some(sorted[n].data)
  {
    var k := FirstSame(c, sorted, n);
    var f := sorted[k];
    assert f.data == sorted[n].data by {
      assert Contents(sorted)[k] == f.data && Contents(sorted)[n] == sorted[n].data;
    }
    var packed := Packed(c, f.data, f.path, LevelOf(input, f));
    if KeyOf(input).Some? {
      assert SealOpens(c, KeyOf(input).value, c.deriveIv(KeyOf(input).value, c.hash(packed.0)), c.hash(f.data), packed.0);
    }
    assert CompressesWell(c, f.data, LevelOf(input, f));
    assert Unpacked(c, packed.0, packed.1, |f.data|) == Some(f.data);
  }

  /** The stored bytes of each file, in path order. */
  function StoredBytes(c: Crypto, input: Input, sorted: seq<File>): (r: seq<Bytes>)
    ensures |r| == |sorted| && forall n | 0 <= n < |sorted| :: r[n] == SharedBlob(c, input, sorted, n).1
  {
    seq(|sorted|, n requires 0 <= n < |sorted| => SharedBlob(c, input, sorted, n).1)
  }

  function Contents(sorted: seq<File>): (r: seq<Bytes>)
    ensures |r| == |sorted| && forall n | 0 <= n < |sorted| :: r[n] == sorted[n].data
  {
    seq(|sorted|, n requires 0 <= n < |sorted| => sorted[n].data)
  }

  /** Every file's blob is in the upload. */
  lemma UploadHasTheBlob(c: Crypto, input: Input, sorted: seq<File>, blobs: map<string, Bytes>, n: nat)
    requires NoCollisionAmong(c.hash, StoredBytes(c, input, sorted)) && n < |sorted|
    requires Holds(c, SharedBlobs(c, input, sorted), blobs, |sorted|)
    ensures var blob := SharedBlob(c, input, sorted, n); blob.0.sha256 in blobs && blobs[blob.0.sha256] == blob.1
  {
    var shared, stored := SharedBlobs(c, input, sorted), StoredBytes(c, input, sorted);
    var sha := shared[n].0.sha256;
    var k :| 0 <= k < |sorted| && shared[k].0.sha256 == sha && blobs[sha] == shared[k].1;
    BlobHasItsHash(c, input, sorted, k);
    BlobHasItsHash(c, input, sorted, n);
    assert stored[k] == shared[k].1 && stored[n] == shared[n].1;
  }

  lemma BuiltReleaseOpens(c: Crypto, input: Input, sorted: seq<File>, blobs: map<string, Bytes>)
    requires Sound(c, input, sorted) && Holds(c, SharedBlobs(c, input, sorted), blobs, |sorted|)
    ensures EachOpens(ManifestOf(c, input, sorted).files, Opener(c, KeyOf(input), Fetch(blobs)), Contents(sorted))
  {
    forall n | 0 <= n < |sorted|
      ensures Opener(c, KeyOf(input), Fetch(blobs))(EntryOf(c, input, sorted, n)) == Some(sorted[n].data)
    {
      UploadHasTheBlob(c, input, sorted, blobs, n);
      OpeningUndoesSealing(c, input, sorted, n);
    }
  }

  /** Blobs have the same hash exactly when the stored bytes are the same. */
  lemma BlobsAreStoredBytes(c: Crypto, input: Input, sorted: seq<File>)
    requires NoCollisionAmong(c.hash, StoredBytes(c, input, sorted))
    ensures BlobsTellApart(ManifestOf(c, input, sorted).files, Contents(sorted))
       <==> Faithful(StoredBytes(c, input, sorted), Contents(sorted))
  {
    var entries, stored := ManifestOf(c, input, sorted).files, StoredBytes(c, input, sorted);
    forall n | 0 <= n < |sorted| ensures entries[n].blob.sha256 == c.hash(stored[n]) {
      BlobHasItsHash(c, input, sorted, n);
    }
    HashesTellApart(c, entries, stored, Contents(sorted));
  }

  lemma HashesTellApart(c: Crypto, entries: seq<Entry>, stored: seq<Bytes>, data: seq<Bytes>)
    requires NoCollisionAmong(c.hash, stored) && |entries| == |stored| == |data|
    requires forall n | 0 <= n < |entries| :: entries[n].blob.sha256 == c.hash(stored[n])
    ensures BlobsTellApart(entries, data) <==> Faithful(stored, data)
  {
  }

  /**
   Verifying a built release returns exactly its files, in path order, if and only if no two different
   contents are stored as the same bytes. Otherwise the verifier's cache, keyed by the stored bytes,
   answers one file with the other's contents.
   */
  lemma RoundTripExactly(c: Crypto, leq: Order, input: Input, sorted: seq<File>, blobs: map<string, Bytes>)
    requires Sound(c, input, sorted) && Acceptable(input) && GoodMeta(input.meta) && sorted == PathOrder(leq, input.files)
    requires Holds(c, SharedBlobs(c, input, sorted), blobs, |sorted|)
    ensures Verified(c, true, ManifestOf(c, input, sorted), Fetch(blobs)) == Some(sorted)
       <==> Faithful(StoredBytes(c, input, sorted), Contents(sorted))
  {
    var m := ManifestOf(c, input, sorted);
    BuiltShapeIsOk(c, leq, input, sorted);
    BuiltReleaseOpens(c, input, sorted, blobs);
    BlobsAreStoredBytes(c, input, sorted);
    ReassembledExactly(m.files, Opener(c, m.contentKey, Fetch(blobs)), Contents(sorted));
    FilesAreTheInput(c, input, sorted, Reassembled(m.files, Opener(c, m.contentKey, Fetch(blobs)), |m.files|));
  }

  lemma FilesAreTheInput(c: Crypto, input: Input, sorted: seq<File>, p: Option<Progress>)
    ensures p.Some? && HoldsFiles(ManifestOf(c, input, sorted).files, Contents(sorted), |sorted|, p.value.files)
       <==> p.Some? && p.value.files == sorted
  {
    var entries := ManifestOf(c, input, sorted).files;
    assert forall k | 0 <= k < |sorted| :: File(entries[k].path, Contents(sorted)[k]) == sorted[k];
  }

  /**
   How that happens without encryption: ship a file together with its own compressed form under a name the
   compressor leaves alone. Both are stored as the same bytes, so one comes back as the other.
   */
  lemma CompressedCopyIsConfused(c: Crypto, leq: Order, input: Input, sorted: seq<File>, blobs: map<string, Bytes>, i: nat, j: nat)
    requires Sound(c, input, sorted) && Acceptable(input) && GoodMeta(input.meta) && sorted == PathOrder(leq, input.files)
    requires !input.encrypt
    requires Holds(c, SharedBlobs(c, input, sorted), blobs, |sorted|)
    requires i < |sorted| && j < |sorted| && FirstSame(c, sorted, i) == i && FirstSame(c, sorted, j) == j
    requires Packed(c, sorted[i].data, sorted[i].path, LevelOf(input, sorted[i])) == (sorted[j].data, true)
    requires !c.compressible(sorted[j].path)
    ensures Verified(c, true, ManifestOf(c, input, sorted), Fetch(blobs)) != Some(sorted)
  {
    RoundTripExactly(c, leq, input, sorted, blobs);
    assert StoredBytes(c, input, sorted)[i] == StoredBytes(c, input, sorted)[j];
    assert Contents(sorted)[i] != Contents(sorted)[j];
  }

  // ---- the upload is determined ------------------------------------------

  lemma UploadsAgree(c: Crypto, input: Input, sorted: seq<File>, a: map<string, Bytes>, b: map<string, Bytes>, sha: string)
    requires NoCollisionAmong(c.hash, StoredBytes(c, input, sorted)) && sha in a
    requires Holds(c, SharedBlobs(c, input, sorted), a, |sorted|) && Holds(c, SharedBlobs(c, input, sorted), b, |sorted|)
    ensures sha in b && a[sha] == b[sha]
  {
    var n :| 0 <= n < |sorted| && SharedBlob(c, input, sorted, n).0.sha256 == sha;
    UploadHasTheBlob(c, input, sorted, a, n);
    UploadHasTheBlob(c, input, sorted, b, n);
  }

  lemma UploadIsCovered(c: Crypto, input: Input, sorted: seq<File>, a: map<string, Bytes>, b: map<string, Bytes>)
    requires NoCollisionAmong(c.hash, StoredBytes(c, input, sorted))
    requires Holds(c, SharedBlobs(c, input, sorted), a, |sorted|) && Holds(c, SharedBlobs(c, input, sorted), b, |sorted|)
    ensures forall sha | sha in a :: sha in b && a[sha] == b[sha]
  {
    forall sha | sha in a ensures sha in b && a[sha] == b[sha] {
      UploadsAgree(c, input, sorted, a, b, sha);
    }
  }

  /** Two uploads of the same blobs are the same upload. */
  lemma UploadIsDetermined(c: Crypto, input: Input, sorted: seq<File>, a: map<string, Bytes>, b: map<string, Bytes>)
    requires NoCollisionAmong(c.hash, StoredBytes(c, input, sorted))
    requires Holds(c, SharedBlobs(c, input, sorted), a, |sorted|) && Holds(c, SharedBlobs(c, input, sorted), b, |sorted|)
    ensures a == b
  {
    UploadIsCovered(c, input, sorted, a, b);
    UploadIsCovered(c, input, sorted, b, a);
    SameMap(a, b);
  }

  lemma SameMap(a: map<string, Bytes>, b: map<string, Bytes>)
    requires forall sha | sha in a :: sha in b && a[sha] == b[sha]
    requires forall sha | sha in b :: sha in a
    ensures a == b
  {
  }
}
