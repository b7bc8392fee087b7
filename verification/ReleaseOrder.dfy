/** How far the order in which a publisher lists the files decides what is built. */
module ReleaseOrder {
  import opened Arrangements
  import opened Common
  import Paths
  import opened Release

  lemma PathOrderIsWeak(leq: Order)
    requires TotalPreorder(leq)
    ensures WeakOrder(PathBefore(leq))
  {
    var before := PathBefore(leq);
    forall x, y | before(x, y) ensures !before(y, x) {
      assert leq(x.path, y.path);
    }
    forall x, y, z | before(x, y) && before(y, z) ensures before(x, z) {
      assert leq(x.path, y.path);
      assert leq(z.path, x.path) ==> leq(z.path, y.path);
    }
    forall x, y, z | before(x, z) ensures before(x, y) || before(y, z) {
      assert leq(z.path, y.path) && leq(y.path, x.path) ==> leq(z.path, x.path);
    }
  }

  /** The result is in order, and of two paths the comparator calls equal the one listed first comes first. */
  lemma SortingIsStable(leq: Order, files: seq<File>)
    requires TotalPreorder(leq)
    ensures var sorted := PathOrder(leq, files);
            && (forall i, j | 0 <= i < j < |sorted| :: leq(sorted[i].path, sorted[j].path))
            && (forall i, j | 0 <= i < j < |files| && leq(files[i].path, files[j].path) :: Precedes(sorted, files[i], files[j]))
  {
    var sorted := PathOrder(leq, files);
    PathOrderIsWeak(leq);
    ArrangedHasNoInversion(PathBefore(leq), files);
    forall i, j | 0 <= i < j < |sorted| ensures leq(sorted[i].path, sorted[j].path) {
      assert !PathBefore(leq)(sorted[j], sorted[i]);
    }
    forall i, j | 0 <= i < j < |files| && leq(files[i].path, files[j].path) ensures Precedes(sorted, files[i], files[j]) {
      TiesKeepTheirOrder(leq, files, i, j);
    }
  }

  /** The comparator calls no two of the paths equal. */
  predicate NoTies(leq: Order, files: seq<File>) {
    forall i, j | 0 <= i < j < |files| :: !(leq(files[i].path, files[j].path) && leq(files[j].path, files[i].path))
  }

  /** The same input with its files listed in another order. */
  ghost predicate Relisted(a: Input, b: Input) {
    b == a.(files := b.files) && DistinctFiles(b.files) && Elements(b.files) == Elements(a.files)
  }

  function BuiltManifest(c: Crypto, leq: Order, input: Input): Manifest {
    ManifestOf(c, input, PathOrder(leq, input.files))
  }

  lemma NoTiesIsComparable(leq: Order, a: seq<File>, b: seq<File>)
    requires TotalPreorder(leq) && NoTies(leq, a) && DistinctFiles(b) && Elements(b) == Elements(a)
    ensures Comparable(PathBefore(leq), b)
  {
    forall i, j | 0 <= i < j < |b| ensures PathBefore(leq)(b[i], b[j]) || PathBefore(leq)(b[j], b[i]) {
      assert b[i] in Elements(a) && b[j] in Elements(a);
      var k :| 0 <= k < |a| && a[k] == b[i];
      var l :| 0 <= l < |a| && a[l] == b[j];
      assert k != l;
    }
  }

  /** Without ties every listing of the same files is sorted the same way. */
  lemma SortedTheSame(leq: Order, a: seq<File>, b: seq<File>)
    requires TotalPreorder(leq) && NoTies(leq, a)
    requires DistinctFiles(a) && DistinctFiles(b) && Elements(b) == Elements(a)
    ensures PathOrder(leq, a) == PathOrder(leq, b)
  {
    PathOrderIsWeak(leq);
    NoTiesIsComparable(leq, a, a);
    NoTiesIsComparable(leq, a, b);
    ArrangedIsOrdered(PathBefore(leq), a);
    ArrangedIsOrdered(PathBefore(leq), b);
    OrderIsUnique(PathBefore(leq), PathOrder(leq, a), PathOrder(leq, b));
  }

  lemma SameOrderSameManifest(c: Crypto, a: Input, b: Input, sorted: seq<File>)
    requires b == a.(files := b.files)
    ensures ManifestOf(c, a, sorted) == ManifestOf(c, b, sorted) && SharedBlobs(c, a, sorted) == SharedBlobs(c, b, sorted)
  {
    forall n | 0 <= n < |sorted| ensures EntryOf(c, a, sorted, n) == EntryOf(c, b, sorted, n) {
    }
  }

  // ---- with a tie --------------------------------------------------------

  function Backwards(files: seq<File>): seq<File> {
    seq(|files|, i requires 0 <= i < |files| => files[|files| - 1 - i])
  }

  lemma BackwardsIsRelisted(a: Input)
    requires DistinctFiles(a.files)
    ensures Relisted(a, a.(files := Backwards(a.files)))
  {
    var b := Backwards(a.files);
    forall f | f in a.files ensures f in b {
      var k :| 0 <= k < |a.files| && a.files[k] == f;
      assert b[|a.files| - 1 - k] == f;
    }
    assert Elements(b) == Elements(a.files);
  }

  /** Manifests that agree list the paths in one order, so two paths cannot stand both ways round. */
  lemma OneOrderOnly(c: Crypto, a: Input, b: Input, s: seq<File>, t: seq<File>, x: File, y: File)
    requires DistinctFiles(s) && DistinctFiles(t)
    requires Precedes(s, x, y) && Precedes(t, y, x)
    ensures ManifestOf(c, a, s) != ManifestOf(c, b, t)
  {
    var i, j :| 0 <= i < j < |s| && s[i] == x && s[j] == y;
    var k, l :| 0 <= k < l < |t| && t[k] == y && t[l] == x;
    var here, there := ManifestOf(c, a, s).files, ManifestOf(c, b, t).files;
    assert |here| == |s| && |there| == |t|;
    if |s| == |t| {
      assert t[i].path != x.path || t[j].path != y.path;
      assert here[i].path == x.path && here[j].path == y.path;
      assert there[i].path == t[i].path && there[j].path == t[j].path;
    }
  }

  lemma TiesKeepTheirOrder(leq: Order, files: seq<File>, i: nat, j: nat)
    requires TotalPreorder(leq) && i < j < |files| && leq(files[i].path, files[j].path)
    ensures Precedes(PathOrder(leq, files), files[i], files[j])
  {
    PathOrderIsWeak(leq);
    ArrangedIsStable(PathBefore(leq), files, i, j);
  }

  lemma TieIsVisible(c: Crypto, leq: Order, a: Input, i: nat, j: nat)
    requires TotalPreorder(leq) && DistinctFiles(a.files) && i < j < |a.files|
    requires leq(a.files[i].path, a.files[j].path) && leq(a.files[j].path, a.files[i].path)
    ensures var b := a.(files := Backwards(a.files));
            Relisted(a, b) && BuiltManifest(c, leq, b) != BuiltManifest(c, leq, a)
  {
    var b := a.(files := Backwards(a.files));
    var n := |a.files|;
    BackwardsIsRelisted(a);
    TiesKeepTheirOrder(leq, a.files, i, j);
    TiesKeepTheirOrder(leq, b.files, n - 1 - j, n - 1 - i);
    SortingKeeps(leq, a.files);
    SortingKeeps(leq, b.files);
    OneOrderOnly(c, a, b, PathOrder(leq, a.files), PathOrder(leq, b.files), a.files[i], a.files[j]);
  }

  /** The manifest does not depend on how the files are listed if and only if no two paths tie. */
  lemma InputOrderDoesNotMatterExactly(c: Crypto, leq: Order, a: Input)
    requires TotalPreorder(leq) && DistinctFiles(a.files)
    ensures (forall b | Relisted(a, b) :: BuiltManifest(c, leq, b) == BuiltManifest(c, leq, a)) <==> NoTies(leq, a.files)
  {
    if NoTies(leq, a.files) {
      forall b | Relisted(a, b) ensures BuiltManifest(c, leq, b) == BuiltManifest(c, leq, a) {
        SortedTheSame(leq, a.files, b.files);
        SameOrderSameManifest(c, a, b, PathOrder(leq, a.files));
      }
    } else {
      var i, j :| 0 <= i < j < |a.files| && leq(a.files[i].path, a.files[j].path) && leq(a.files[j].path, a.files[i].path);
      TieIsVisible(c, leq, a, i, j);
    }
  }

  /** And without ties the upload does not depend on it either. */
  lemma UploadDoesNotDependOnOrder(c: Crypto, leq: Order, a: Input, b: Input)
    requires TotalPreorder(leq) && DistinctFiles(a.files) && Relisted(a, b) && NoTies(leq, a.files)
    ensures SharedBlobs(c, a, PathOrder(leq, a.files)) == SharedBlobs(c, b, PathOrder(leq, b.files))
  {
    SortedTheSame(leq, a.files, b.files);
    SameOrderSameManifest(c, a, b, PathOrder(leq, a.files));
  }

  // ---- which blob a file ends up in --------------------------------------

  /** No file with the same contents has a path that comes before: it can be listed first of them. */
  predicate CanLead(c: Crypto, leq: Order, files: seq<File>, x: File) {
    x in files && forall z | z in files && c.hash(z.data) == c.hash(x.data) :: !PathBefore(leq)(z, x)
  }

  /** Files with the same contents whose paths tie for the first place make one blob. */
  ghost predicate TiesAgree(c: Crypto, leq: Order, a: Input) {
    forall x, y | CanLead(c, leq, a.files, x) && CanLead(c, leq, a.files, y) && c.hash(x.data) == c.hash(y.data) ::
      BlobOf(c, a, x) == BlobOf(c, a, y)
  }

  /** Every file ends up in the same blob, with the same entry, in both listings. */
  predicate SameBlobs(c: Crypto, leq: Order, a: Input, b: Input) {
    var s, t := PathOrder(leq, a.files), PathOrder(leq, b.files);
    forall i, j | 0 <= i < |s| && 0 <= j < |t| && s[i] == t[j] :: SharedBlob(c, a, s, i) == SharedBlob(c, b, t, j)
  }

  /** The blob of a file is made from one that can lead. */
  lemma BlobComesFromALeader(c: Crypto, leq: Order, input: Input, n: nat) returns (x: File)
    requires TotalPreorder(leq) && DistinctFiles(input.files) && n < |PathOrder(leq, input.files)|
    ensures var sorted := PathOrder(leq, input.files);
            && CanLead(c, leq, input.files, x) && c.hash(x.data) == c.hash(sorted[n].data)
            && SharedBlob(c, input, sorted, n) == BlobOf(c, input, x)
  {
    var sorted := PathOrder(leq, input.files);
    var k := FirstSame(c, sorted, n);
    x := sorted[k];
    PathOrderIsWeak(leq);
    ArrangedHasNoInversion(PathBefore(leq), input.files);
    SortingKeeps(leq, input.files);
    assert x in Elements(sorted);
    forall z | z in input.files && c.hash(z.data) == c.hash(x.data) ensures !PathBefore(leq)(z, x) {
      assert z in Elements(sorted);
      var l :| 0 <= l < |sorted| && sorted[l] == z;
      assert l >= k;
    }
  }

  /** What comes first among the files with its contents makes the blob of each of them. */
  lemma LeaderMakesTheBlob(c: Crypto, input: Input, sorted: seq<File>, x: File, n: nat)
    requires DistinctFiles(sorted) && x in sorted && n < |sorted| && c.hash(sorted[n].data) == c.hash(x.data)
    requires forall z | z in sorted && z != x && c.hash(z.data) == c.hash(x.data) :: Precedes(sorted, x, z)
    ensures SharedBlob(c, input, sorted, n) == BlobOf(c, input, x)
  {
    var k := FirstSame(c, sorted, n);
    assert sorted[k] in sorted;
  }

  lemma Without(files: seq<File>, x: File) returns (others: seq<File>)
    requires DistinctFiles(files) && x in files
    ensures DistinctFiles([x] + others) && Elements([x] + others) == Elements(files)
  {
    var k :| 0 <= k < |files| && files[k] == x;
    others := files[..k] + files[k + 1..];
    var all := [x] + others;
    forall f | f in files ensures f in all {
      var i :| 0 <= i < |files| && files[i] == f;
      assert i < k ==> all[i + 1] == f;
      assert i > k ==> all[i] == f;
    }
    forall i, j | 0 <= i < j < |all| ensures all[i].path != all[j].path {
      assert forall n | 0 < n < |all| :: all[n] == files[if n <= k then n - 1 else n];
    }
  }

  /** Listed first, a file that can lead does. */
  lemma ListedFirstItLeads(c: Crypto, leq: Order, a: Input, x: File) returns (b: Input)
    requires TotalPreorder(leq) && DistinctFiles(a.files) && CanLead(c, leq, a.files, x)
    ensures Relisted(a, b)
    ensures var sorted := PathOrder(leq, b.files);
            forall n | 0 <= n < |sorted| && c.hash(sorted[n].data) == c.hash(x.data) :: SharedBlob(c, b, sorted, n) == BlobOf(c, a, x)
  {
    var others := Without(a.files, x);
    b := a.(files := [x] + others);
    var sorted := PathOrder(leq, b.files);
    SortingKeeps(leq, b.files);
    PathOrderIsWeak(leq);
    assert x in Elements(b.files);
    forall z | z in sorted && z != x && c.hash(z.data) == c.hash(x.data) ensures Precedes(sorted, x, z) {
      assert z in Elements(b.files) && z in Elements(a.files);
      var j :| 0 <= j < |b.files| && b.files[j] == z;
      ArrangedIsStable(PathBefore(leq), b.files, 0, j);
    }
    forall n | 0 <= n < |sorted| && c.hash(sorted[n].data) == c.hash(x.data)
      ensures SharedBlob(c, b, sorted, n) == BlobOf(c, a, x)
    {
      LeaderMakesTheBlob(c, b, sorted, x, n);
    }
  }

  /** Two listings that put different ones first disagree about the blob of `x`. */
  lemma LeadersDisagree(c: Crypto, leq: Order, a: Input, x: File, y: File)
    requires TotalPreorder(leq) && DistinctFiles(a.files) && forall b | Relisted(a, b) :: SameBlobs(c, leq, a, b)
    requires CanLead(c, leq, a.files, x) && CanLead(c, leq, a.files, y) && c.hash(x.data) == c.hash(y.data)
    ensures BlobOf(c, a, x) == BlobOf(c, a, y)
  {
    var b := ListedFirstItLeads(c, leq, a, x);
    var d := ListedFirstItLeads(c, leq, a, y);
    SortingKeeps(leq, a.files);
    SortingKeeps(leq, b.files);
    SortingKeeps(leq, d.files);
    var s, t, u := PathOrder(leq, a.files), PathOrder(leq, b.files), PathOrder(leq, d.files);
    assert x in Elements(s) && x in Elements(t) && x in Elements(u);
    var i :| 0 <= i < |s| && s[i] == x;
    var j :| 0 <= j < |t| && t[j] == x;
    var k :| 0 <= k < |u| && u[k] == x;
    assert SharedBlob(c, a, s, i) == SharedBlob(c, b, t, j) == SharedBlob(c, d, u, k);
  }

  lemma LeadersAreTheSame(c: Crypto, leq: Order, a: seq<File>, b: seq<File>, x: File)
    requires Elements(a) == Elements(b) && CanLead(c, leq, b, x)
    ensures CanLead(c, leq, a, x)
  {
    assert forall z :: z in a <==> z in Elements(b);
  }

  lemma AgreeingTiesMakeSameBlobs(c: Crypto, leq: Order, a: Input, b: Input)
    requires TotalPreorder(leq) && DistinctFiles(a.files) && TiesAgree(c, leq, a) && Relisted(a, b)
    ensures SameBlobs(c, leq, a, b)
  {
    var s, t := PathOrder(leq, a.files), PathOrder(leq, b.files);
    forall i, j | 0 <= i < |s| && 0 <= j < |t| && s[i] == t[j] ensures SharedBlob(c, a, s, i) == SharedBlob(c, b, t, j) {
      var x := BlobComesFromALeader(c, leq, a, i);
      var y := BlobComesFromALeader(c, leq, b, j);
      LeadersAreTheSame(c, leq, a.files, b.files, y);
    }
  }

  /**
   The blobs files end up in do not depend on how the files are listed if and only if files with the same
   contents, whose paths tie for the first place among them, make one blob.
   */
  lemma ListingDecidesBlobsExactly(c: Crypto, leq: Order, a: Input)
    requires TotalPreorder(leq) && DistinctFiles(a.files)
    ensures (forall b | Relisted(a, b) :: SameBlobs(c, leq, a, b)) <==> TiesAgree(c, leq, a)
  {
    if TiesAgree(c, leq, a) {
      forall b | Relisted(a, b) ensures SameBlobs(c, leq, a, b) {
        AgreeingTiesMakeSameBlobs(c, leq, a, b);
      }
    } else {
      var x, y :| CanLead(c, leq, a.files, x) && CanLead(c, leq, a.files, y) && c.hash(x.data) == c.hash(y.data)
                  && BlobOf(c, a, x) != BlobOf(c, a, y);
      if forall b | Relisted(a, b) :: SameBlobs(c, leq, a, b) {
        LeadersDisagree(c, leq, a, x, y);
      }
    }
  }

  // ---- two accepted paths that tie ---------------------------------------

  /** The letter a with an acute accent: one code point, or two. The language standard has them compare equal. */
  predicate IsComposed(path: string) {
    path == ['\U{00E1}', '.', 'p', 'n', 'g']
  }

  predicate IsDecomposed(path: string) {
    path == ['a', Paths.ACUTE, '.', 'p', 'n', 'g']
  }

  lemma ShortNameIsAccepted(path: string)
    requires 2 <= |path| && '/' !in path && '\0' !in path && '\\' !in path && Paths.Utf8Length(path) <= 512
    requires path[0] != '.' && path[1] != ':'
    ensures Paths.SharedAccepts(path)
  {
    assert forall i | 0 <= i < |path| :: path[i] in path;
    Paths.UncutIsOneSegment(Paths.ByCodePoint(), path, |path|);
    Paths.OneGoodSegmentIsCommon(Paths.ByCodePoint(), path);
  }

  lemma ShortIsShort(path: string)
    requires |path| <= 6
    ensures Paths.Utf8Length(path) <= 24
  {
    TailIsShort(path, 0);
  }

  lemma {:induction false} TailIsShort(path: string, n: nat)
    requires n <= |path|
    ensures Paths.Utf8Length(path[n..]) <= 4 * (|path| - n)
    decreases |path| - n
  {
    if n < |path| {
      TailIsShort(path, n + 1);
      assert path[n..][1..] == path[n + 1..];
    }
    assert n == 0 ==> path[n..] == path;
  }

  /** Two files under these names are accepted, and whichever is listed first comes first in the manifest. */
  lemma TiedPathsFollowTheListing(c: Crypto, leq: Order, a: Input, composed: string, decomposed: string, x: Bytes, y: Bytes)
    requires IsComposed(composed) && IsDecomposed(decomposed)
    requires TotalPreorder(leq) && leq(composed, decomposed) && leq(decomposed, composed)
    requires a.files == [File(composed, x), File(decomposed, y)] && a.bundlePath == composed && !a.encrypt && a.contentKey.None?
    ensures var b := a.(files := [a.files[1], a.files[0]]);
            && Acceptable(a) && Acceptable(b) && Relisted(a, b)
            && BuiltManifest(c, leq, b) != BuiltManifest(c, leq, a)
  {
    ShortIsShort(composed);
    ShortIsShort(decomposed);
    ShortNameIsAccepted(composed);
    ShortNameIsAccepted(decomposed);
    assert composed[0] != decomposed[0];
    assert Backwards(a.files) == [a.files[1], a.files[0]];
    TieIsVisible(c, leq, a, 0, 1);
    assert a.files[0] in a.files && a.files[0] in Backwards(a.files);
  }
}
