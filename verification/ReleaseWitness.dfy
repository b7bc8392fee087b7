/**
 One release the verifier gets wrong: two hundred zero bytes, and beside them, under a name the compressor
 leaves alone, their own compressed form. Every assumption made about the primitives is met.
 */
module ReleaseWitness {
  import opened Arrangements
  import opened Common
  import Paths
  import opened Release
  import ReleaseOrder
  import Zstd

  // ---- primitives that keep the laws -------------------------------------

  function Zeros(n: nat): Bytes {
    seq(n, i => 0)
  }

  predicate AllZero(x: Bytes) {
    forall i | 0 <= i < |x| :: x[i] == 0
  }

  const HEADER_SIZE := 13

  /** A single segment with eight size bytes. */
  function HeaderFor(n: nat): Zstd.Header {
    Zstd.Header(3, true, 0, 0, 0, [], n)
  }

  lemma HeaderIsWellFormed(n: nat)
    requires n <= MAX_SAFE_INTEGER
    ensures Zstd.WellFormed(HeaderFor(n)) && |Zstd.Written(HeaderFor(n))| == HEADER_SIZE
  {
    Zstd.PowersOf256();
  }

  /** Zeros are packed into the header alone; anything else is stored behind it. */
  function Framed(x: Bytes): Bytes {
    var h := HeaderFor(|x|);
    if !Zstd.WellFormed(h) then x else Zstd.Written(h) + if AllZero(x) then [] else x
  }

  function Unframed(b: Bytes): Option<Bytes> {
    if |b| < HEADER_SIZE then None
    else if |b| > HEADER_SIZE then Some(b[HEADER_SIZE..])
    else
      var n := Zstd.FrameContentSize(b);
      if n.None? then None else Some(Zeros(n.value))
  }

  /** Two hashes: one for short contents and one for long ones. */
  function Hashed(a: Bytes): string {
    [if |a| < 200 then '0' else '1'] + seq(63, i => '0')
  }

  function ShrinkingCrypto(): Crypto {
    Crypto(
      Hashed,
      (x: Bytes, level: int) => Framed(x),
      Unframed,
      (key: Bytes, iv: string, aad: string, x: Bytes) => (x, "tag"),
      (key: Bytes, iv: string, tag: string, aad: string, x: Bytes) => Some(x),
      (key: Bytes, sha: string) => "iv",
      (path: string) => path != "b.png")
  }

  lemma FramesAreRead(x: Bytes)
    requires |x| <= MAX_SAFE_INTEGER
    ensures Unframed(Framed(x)) == Some(x) && Zstd.FrameContentSize(Framed(x)) == Some(|x|)
  {
    HeaderIsWellFormed(|x|);
    var rest := if AllZero(x) then [] else x;
    Zstd.ParsingReadsWhatIsWritten(HeaderFor(|x|), rest);
    if AllZero(x) {
      assert x == Zeros(|x|);
    } else {
      assert |x| > 0 && (Zstd.Written(HeaderFor(|x|)) + x)[HEADER_SIZE..] == x;
    }
  }

  lemma LawsCanBeMet()
    ensures Laws(ShrinkingCrypto())
  {
    var c := ShrinkingCrypto();
    forall x: Bytes, level: int | |x| <= MAX_SAFE_INTEGER ensures CompressesWell(c, x, level) {
      FramesAreRead(x);
    }
    assert forall a :: IsSha256Hex(c.hash(a));
    assert forall key, iv, aad, x :: SealOpens(c, key, iv, aad, x);
  }

  // ---- the release -------------------------------------------------------

  /** "a.js" before everything else. */
  function ScriptFirst(): Order {
    (a: string, b: string) => a == "a.js" || b != "a.js"
  }

  predicate IsInstance(input: Input, script: File, picture: File) {
    && script == File("a.js", Zeros(200)) && picture == File("b.png", Framed(Zeros(200)))
    && input == Input(Meta("b", "rt", "ios", "dev", "app", "key"), [script, picture], "a.js", false, None, 19, 19)
  }

  lemma NamesAreAccepted(script: string, picture: string)
    requires script == "a.js" && picture == "b.png"
    ensures Paths.SharedAccepts(script) && Paths.SharedAccepts(picture) && script != picture
  {
    ReleaseOrder.ShortIsShort(script);
    ReleaseOrder.ShortIsShort(picture);
    ReleaseOrder.ShortNameIsAccepted(script);
    ReleaseOrder.ShortNameIsAccepted(picture);
    assert script[0] != picture[0];
  }

  lemma TwoStayInOrder(before: (File, File) -> bool, x: File, y: File)
    requires !before(y, x)
    ensures Arranged(before, [x, y]) == [x, y]
  {
    assert [x, y][..1] == [x] && [x][..0] == [] && [x][1..] == [];
    assert Arranged(before, [x]) == [x];
    assert Inserted(before, [x], y) == [x] + Inserted(before, [], y);
  }

  lemma TwoFilesAreAcceptable(input: Input, x: File, y: File)
    requires input.files == [x, y] && x.path != y.path && input.bundlePath == x.path
    requires Paths.SharedAccepts(x.path) && Paths.SharedAccepts(y.path)
    requires !input.encrypt && input.contentKey.None?
    ensures Acceptable(input)
  {
    assert x in input.files;
  }

  lemma InstanceIsAcceptable(input: Input, script: File, picture: File)
    requires IsInstance(input, script, picture)
    ensures Acceptable(input)
  {
    NamesAreAccepted(script.path, picture.path);
    TwoFilesAreAcceptable(input, script, picture);
  }

  lemma InstanceIsInOrder(input: Input, script: File, picture: File)
    requires IsInstance(input, script, picture)
    ensures PathOrder(ScriptFirst(), input.files) == input.files
  {
    NamesAreAccepted(script.path, picture.path);
    TwoStayInOrder(PathBefore(ScriptFirst()), script, picture);
  }

  lemma InstanceIsStoredOnce(input: Input, script: File, picture: File)
    requires IsInstance(input, script, picture)
    ensures |picture.data| == HEADER_SIZE
    ensures var c := ShrinkingCrypto(); var files := input.files;
            && FirstSame(c, files, 0) == 0 && FirstSame(c, files, 1) == 1
            && Packed(c, script.data, script.path, 19) == (picture.data, true)
            && SharedBlob(c, input, files, 0).1 == picture.data && SharedBlob(c, input, files, 1).1 == picture.data
  {
    HeaderIsWellFormed(200);
    assert AllZero(Zeros(200)) && |Zeros(200)| == 200;
    var c := ShrinkingCrypto();
    assert Hashed(script.data)[0] == '1' && Hashed(picture.data)[0] == '0';
    assert c.hash(script.data) != c.hash(picture.data);
    assert FirstSame(c, input.files, 1) == 1;
  }

  lemma InstanceIsSound(input: Input, script: File, picture: File)
    requires IsInstance(input, script, picture)
    ensures Sound(ShrinkingCrypto(), input, input.files)
  {
    LawsCanBeMet();
    InstanceIsStoredOnce(input, script, picture);
    var c := ShrinkingCrypto();
    assert Hashed(script.data)[0] == '1' && Hashed(picture.data)[0] == '0';
    assert Contents(input.files) == [script.data, picture.data];
    assert StoredBytes(c, input, input.files) == [picture.data, picture.data];
  }

  /** Everything that opens on its own is reassembled to something. */
  lemma {:induction false} ReassemblyNeverFails(entries: seq<Entry>, open: Entry -> Option<Bytes>, data: seq<Bytes>, n: nat)
    requires n <= |entries| && EachOpens(entries, open, data)
    ensures Reassembled(entries, open, n).Some?
  {
    if n > 0 {
      ReassemblyNeverFails(entries, open, data, n - 1);
    }
  }

  /** Verifying what was built ends without an error. */
  lemma BuiltIsVerified(c: Crypto, leq: Order, input: Input, sorted: seq<File>, blobs: map<string, Bytes>)
    requires Sound(c, input, sorted) && Acceptable(input) && GoodMeta(input.meta) && sorted == PathOrder(leq, input.files)
    requires Holds(c, SharedBlobs(c, input, sorted), blobs, |sorted|)
    ensures ShapeOk(ManifestOf(c, input, sorted)) && Verified(c, true, ManifestOf(c, input, sorted), Fetch(blobs)).Some?
  {
    var m := ManifestOf(c, input, sorted);
    BuiltShapeIsOk(c, leq, input, sorted);
    BuiltReleaseOpens(c, input, sorted, blobs);
    ReassemblyNeverFails(m.files, Opener(c, m.contentKey, Fetch(blobs)), Contents(sorted), |sorted|);
  }

  /** The release is built, accepted and verified without an error, and what comes back is not what went in. */
  lemma VerifierReturnsTheWrongFile(input: Input, script: File, picture: File, blobs: map<string, Bytes>)
    requires IsInstance(input, script, picture) && blobs == map[Hashed(picture.data) := picture.data]
    ensures var c := ShrinkingCrypto(); var m := ManifestOf(c, input, input.files);
            var r := Verified(c, true, m, Fetch(blobs));
            && Holds(c, SharedBlobs(c, input, input.files), blobs, 2) && ShapeOk(m)
            && r.Some? && r != Some(input.files) && !BlobsAgree(m.files) && !AllSigned(c, m.files, r.value)
  {
    var c := ShrinkingCrypto();
    var m := ManifestOf(c, input, input.files);
    InstanceIsAcceptable(input, script, picture);
    InstanceIsInOrder(input, script, picture);
    InstanceIsStoredOnce(input, script, picture);
    InstanceIsSound(input, script, picture);
    InstanceIsUploaded(input, script, picture, blobs);
    BuiltIsVerified(c, ScriptFirst(), input, input.files, blobs);
    CompressedCopyIsConfused(c, ScriptFirst(), input, input.files, blobs, 0, 1);
    InstanceDisagrees(input, script, picture);
    VerifiedFilesAreSignedExactly(c, true, m, Fetch(blobs));
  }

  lemma InstanceIsUploaded(input: Input, script: File, picture: File, blobs: map<string, Bytes>)
    requires IsInstance(input, script, picture) && blobs == map[Hashed(picture.data) := picture.data]
    ensures Holds(ShrinkingCrypto(), SharedBlobs(ShrinkingCrypto(), input, input.files), blobs, 2)
  {
    var c := ShrinkingCrypto();
    InstanceIsStoredOnce(input, script, picture);
    BlobHasItsHash(c, input, input.files, 0);
    BlobHasItsHash(c, input, input.files, 1);
  }

  lemma InstanceDisagrees(input: Input, script: File, picture: File)
    requires IsInstance(input, script, picture)
    ensures !BlobsAgree(ManifestOf(ShrinkingCrypto(), input, input.files).files)
  {
    var c := ShrinkingCrypto();
    var entries := ManifestOf(c, input, input.files).files;
    InstanceIsStoredOnce(input, script, picture);
    BlobHasItsHash(c, input, input.files, 0);
    BlobHasItsHash(c, input, input.files, 1);
    assert entries[0].blob.sha256 == entries[1].blob.sha256;
    assert entries[0].size == 200 && entries[1].size == HEADER_SIZE;
  }
}
