/** Which file a path stands for, wherever it is appended: so many levels up, and then these names. */
module Spots {
  import opened Paths

  datatype Spot = Spot(ups: nat, names: seq<string>)

  const HERE := Spot(0, [])

  /** One component further. */
  function Moved(at: Spot, component: string): Spot {
    if component == "" || component == "." then at
    else if component == ".." then
      if at.names == [] then at.(ups := at.ups + 1) else at.(names := at.names[..|at.names| - 1])
    else at.(names := at.names + [component])
  }

  function Normal(components: seq<string>, at: Spot): Spot
    decreases |components|
  {
    if components == [] then at else Normal(components[1..], Moved(at, components[0]))
  }

  function SpotOf(path: string): Spot {
    Normal(Split(path), HERE)
  }

  /** Where the spot is, seen from the top: the root is its own parent. */
  function Land(root: seq<string>, at: Spot): seq<string> {
    (if at.ups <= |root| then root[..|root| - at.ups] else []) + at.names
  }

  lemma StepLands(root: seq<string>, at: Spot, component: string)
    ensures Stepped(Land(root, at), component) == Land(root, Moved(at, component))
  {
    var base := if at.ups <= |root| then root[..|root| - at.ups] else [];
    if component == ".." && at.names != [] {
      assert (base + at.names)[..|base| + |at.names| - 1] == base + at.names[..|at.names| - 1];
    } else if component == ".." {
      assert base + [] == base;
    } else {
      assert base + at.names + [component] == base + (at.names + [component]);
    }
  }

  lemma {:induction false} WalkLands(root: seq<string>, at: Spot, components: seq<string>)
    ensures Walk(Land(root, at), components) == Land(root, Normal(components, at))
    decreases |components|
  {
    if components != [] {
      StepLands(root, at, components[0]);
      WalkLands(root, Moved(at, components[0]), components[1..]);
    }
  }

  lemma ResolveLands(root: seq<string>, path: string)
    ensures Resolve(root, path) == Land(root, SpotOf(path))
  {
    assert Land(root, HERE) == root;
    WalkLands(root, HERE, Split(path));
  }

  // ---- what a spot can look like -----------------------------------------

  predicate IsName(name: string) {
    GoodSegment(name) && '/' !in name
  }

  predicate Proper(at: Spot) {
    forall n | 0 <= n < |at.names| :: IsName(at.names[n])
  }

  predicate SlashFree(components: seq<string>) {
    forall n | 0 <= n < |components| :: '/' !in components[n]
  }

  lemma {:induction false} SegmentsAreSlashFree(s: string, n: nat)
    requires n <= |s|
    ensures SlashFree(Segments(ByCodePoint(), s, n))
  {
    if n > 0 {
      SegmentsAreSlashFree(s, n - 1);
      assert Cut(ByCodePoint(), s, n - 1) <==> s[n - 1] == '/';
    }
  }

  lemma {:induction false} NormalIsProper(components: seq<string>, at: Spot)
    requires SlashFree(components) && Proper(at)
    ensures Proper(Normal(components, at))
    decreases |components|
  {
    if components != [] {
      NormalIsProper(components[1..], Moved(at, components[0]));
    }
  }

  lemma SpotIsProper(path: string)
    ensures Proper(SpotOf(path))
  {
    SegmentsAreSlashFree(path, |path|);
    NormalIsProper(Split(path), HERE);
  }

  /** A path of good segments stands for just those, in its own directory. */
  lemma {:induction false} GoodIsNormal(components: seq<string>, at: Spot)
    requires AllGood(components)
    ensures Normal(components, at) == Spot(at.ups, at.names + components)
    decreases |components|
  {
    if components == [] {
      assert at.names + [] == at.names;
    } else {
      assert GoodSegment(components[0]);
      GoodIsNormal(components[1..], Moved(at, components[0]));
      assert at.names + [components[0]] + components[1..] == at.names + components;
    }
  }

  // ---- when two paths are one file ---------------------------------------

  /** From a root of names that neither spot has, different spots are different places. */
  lemma SpotsPartSomewhere(a: Spot, b: Spot, name: string, root: seq<string>)
    requires a.ups <= b.ups == |root| && a != b
    requires name !in a.names && name !in b.names && forall n | 0 <= n < |root| :: root[n] == name
    ensures Land(root, a) != Land(root, b)
  {
    assert Land(root, b) == b.names;
    if a.ups == b.ups {
      assert Land(root, a) == a.names;
    } else {
      assert Land(root, a)[0] == name;
      assert name in Land(root, a);
    }
  }

  /**
   Two paths stand for one file wherever they are appended if and only if they go the same number of levels
   up and then name the same.
   */
  lemma SameFileExactly(a: string, b: string)
    ensures (forall root :: Resolve(root, a) == Resolve(root, b)) <==> SpotOf(a) == SpotOf(b)
  {
    var s, t := SpotOf(a), SpotOf(b);
    if s == t {
      forall root ensures Resolve(root, a) == Resolve(root, b) {
        ResolveLands(root, a);
        ResolveLands(root, b);
      }
    } else {
      var name := LongerThanAll(s.names + t.names);
      NotAmong(s.names, t.names, name);
      var root := seq(if s.ups <= t.ups then t.ups else s.ups, i => name);
      if s.ups <= t.ups {
        SpotsPartSomewhere(s, t, name, root);
      } else {
        SpotsPartSomewhere(t, s, name, root);
      }
      ResolveLands(root, a);
      ResolveLands(root, b);
    }
  }

  lemma NotAmong(a: seq<string>, b: seq<string>, name: string)
    requires forall c | c in a + b :: |c| < |name|
    ensures name !in a && name !in b
  {
    assert forall c :: c in a || c in b ==> c in a + b;
  }

  // ---- spots as texts ----------------------------------------------------

  function Ups(n: nat): seq<string> {
    seq(n, i => "..")
  }

  function Text(names: seq<string>): string {
    if names == [] then "" else Join(names)
  }

  /** The shortest path to the same file. */
  function Key(path: string): string {
    KeyOf(SpotOf(path))
  }

  function KeyOf(at: Spot): string {
    Text(Ups(at.ups) + at.names)
  }

  lemma LastPartIsUnique(x: string, l: string, y: string, m: string)
    requires '/' !in l && '/' !in m && x + ("/" + l) == y + ("/" + m)
    ensures x == y && l == m
  {
    var s, t := x + ("/" + l), y + ("/" + m);
    assert s[|x|] == '/' && t[|y|] == '/';
    assert forall k | |x| < k < |s| :: s[k] == l[k - |x| - 1] && s[k] in l;
    assert forall k | |y| < k < |t| :: t[k] == m[k - |y| - 1] && t[k] in m;
    assert |x| == |y|;
    assert x == s[..|x|] && y == t[..|y|] && l == s[|x| + 1..] && m == t[|y| + 1..];
  }

  lemma JoinHasLast(names: seq<string>)
    requires |names| > 1
    ensures Join(names) == Join(names[..|names| - 1]) + ("/" + names[|names| - 1])
  {
  }

  lemma {:induction false} JoinIsUnique(a: seq<string>, b: seq<string>)
    requires a != [] && b != [] && SlashFree(a) && SlashFree(b) && Join(a) == Join(b)
    ensures a == b
    decreases |a|
  {
    if |a| > 1 {
      JoinHasLast(a);
      assert '/' in Join(a);
    }
    if |b| > 1 {
      JoinHasLast(b);
      assert '/' in Join(b);
    }
    if |a| > 1 && |b| > 1 {
      var k, m := |a| - 1, |b| - 1;
      LastPartIsUnique(Join(a[..k]), a[k], Join(b[..m]), b[m]);
      JoinIsUnique(a[..k], b[..m]);
      assert a == a[..k] + [a[k]] && b == b[..m] + [b[m]];
    }
  }

  lemma {:induction false} JoinIsNotEmpty(names: seq<string>)
    requires names != [] && names[|names| - 1] != ""
    ensures Join(names) != ""
  {
  }

  lemma UpsAreCounted(m: nat, a: seq<string>, n: nat, b: seq<string>)
    requires Ups(m) + a == Ups(n) + b && ".." !in a && ".." !in b
    ensures m == n && a == b
  {
    var s, t := Ups(m) + a, Ups(n) + b;
    assert m < |s| ==> s[m] == a[0] && s[m] in a;
    assert n < |t| ==> t[n] == b[0] && t[n] in b;
    assert forall k | 0 <= k < m :: s[k] == "..";
    assert forall k | 0 <= k < n :: t[k] == "..";
    assert m == n;
    assert a == s[m..] && b == t[n..];
  }

  lemma ProperHasNoDots(at: Spot)
    requires Proper(at)
    ensures ".." !in at.names && SlashFree(Ups(at.ups) + at.names)
    ensures var all := Ups(at.ups) + at.names; all != [] ==> all[|all| - 1] != ""
  {
    var all := Ups(at.ups) + at.names;
    forall n | 0 <= n < |all| ensures '/' !in all[n] && all[n] != "" {
      if n >= at.ups {
        assert all[n] == at.names[n - at.ups];
      }
    }
  }

  /** Different spots have different texts. */
  lemma KeyIsUnique(a: Spot, b: Spot)
    requires Proper(a) && Proper(b) && KeyOf(a) == KeyOf(b)
    ensures a == b
  {
    var s, t := Ups(a.ups) + a.names, Ups(b.ups) + b.names;
    ProperHasNoDots(a);
    ProperHasNoDots(b);
    if s != [] {
      JoinIsNotEmpty(s);
    }
    if t != [] {
      JoinIsNotEmpty(t);
    }
    if s != [] && t != [] {
      JoinIsUnique(s, t);
    }
    UpsAreCounted(a.ups, a.names, b.ups, b.names);
  }

  /** Two paths have one key if and only if they stand for one file wherever they are appended. */
  lemma KeysDecide(a: string, b: string)
    ensures Key(a) == Key(b) <==> forall root :: Resolve(root, a) == Resolve(root, b)
  {
    SpotIsProper(a);
    SpotIsProper(b);
    SameFileExactly(a, b);
    if Key(a) == Key(b) {
      KeyIsUnique(SpotOf(a), SpotOf(b));
    }
  }

  /** A path that passes the scan by code points is its own key. */
  lemma GoodPathIsItsKey(path: string)
    requires AllGood(Split(path))
    ensures Key(path) == path && SpotOf(path) == Spot(0, Split(path))
  {
    GoodIsNormal(Split(path), HERE);
    assert [] + Split(path) == Split(path) && Ups(0) + Split(path) == Split(path);
    JoinUndoesSegments(ByCodePoint(), path, |path|);
    assert path[..|path|] == path;
  }

  // ---- two iOS paths, one file -------------------------------------------

  predicate IsDotted(path: string) {
    path == ['.', '/', ACUTE, 'x']
  }

  predicate IsPlain(path: string) {
    path == [ACUTE, 'x']
  }

  lemma DottedIsShort(path: string)
    requires IsDotted(path)
    ensures Utf8Length(path) == 5
  {
    assert path[1..] == ['/', ACUTE, 'x'] && ['/', ACUTE, 'x'][1..] == [ACUTE, 'x'];
    assert [ACUTE, 'x'][1..] == ['x'] && ['x'][1..] == "";
    assert Utf8Length(['x']) == 1;
    assert Utf8Length([ACUTE, 'x']) == 3;
    assert Utf8Length(['/', ACUTE, 'x']) == 4;
  }

  lemma PlainIsShort(path: string)
    requires IsPlain(path)
    ensures Utf8Length(path) == 3
  {
    assert path[1..] == ['x'] && ['x'][1..] == "";
    assert Utf8Length(['x']) == 1;
  }

  lemma DottedIsAccepted(dotted: string)
    requires IsDotted(dotted)
    ensures IosAccepts(AccentJoins(), dotted)
  {
    DottedIsShort(dotted);
    assert dotted[1] == '/' && !Alone(AccentJoins(), dotted, 1);
    UncutIsOneSegment(AccentJoins(), dotted, |dotted|);
    OneGoodSegmentIsCommon(AccentJoins(), dotted);
  }

  lemma PlainIsAccepted(plain: string)
    requires IsPlain(plain)
    ensures IosAccepts(AccentJoins(), plain)
  {
    PlainIsShort(plain);
    UncutIsOneSegment(AccentJoins(), plain, |plain|);
    OneGoodSegmentIsCommon(AccentJoins(), plain);
  }

  /** iOS accepts "./", an accent and "x", and the accent and "x" alone; and they are one file. */
  lemma IosPathsCanCoincide(dotted: string, plain: string)
    requires IsDotted(dotted) && IsPlain(plain)
    ensures dotted != plain && IosAccepts(AccentJoins(), dotted) && IosAccepts(AccentJoins(), plain)
    ensures SpotOf(dotted) == SpotOf(plain) == Spot(0, [plain]) && Key(dotted) == Key(plain) == plain
    ensures forall root :: Resolve(root, dotted) == Resolve(root, plain) == root + [plain]
  {
    DottedIsAccepted(dotted);
    PlainIsAccepted(plain);
    SpotsOfTheTwo(dotted, plain);
    SameFileExactly(dotted, plain);
    forall root ensures Resolve(root, plain) == root + [plain] {
      ResolveLands(root, plain);
    }
  }

  lemma PlainIsItsKey(plain: string)
    requires IsPlain(plain)
    ensures SpotOf(plain) == Spot(0, [plain]) && Key(plain) == plain
  {
    UncutIsOneSegment(ByCodePoint(), plain, |plain|);
    assert plain[..|plain|] == plain;
    GoodPathIsItsKey(plain);
  }

  lemma DottedSplits(dotted: string, plain: string)
    requires IsDotted(dotted) && IsPlain(plain)
    ensures Split(dotted) == [".", plain]
  {
    CutOnceIsTwoSegments(ByCodePoint(), dotted, 1, |dotted|);
    assert dotted[..1] == "." && dotted[2..|dotted|] == plain;
  }

  lemma DotIsNothing(name: string)
    requires GoodSegment(name)
    ensures Normal([".", name], HERE) == Spot(0, [name])
  {
    assert [".", name][1..] == [name];
    GoodIsNormal([name], HERE);
    assert [] + [name] == [name];
  }

  lemma SpotsOfTheTwo(dotted: string, plain: string)
    requires IsDotted(dotted) && IsPlain(plain)
    ensures SpotOf(dotted) == SpotOf(plain) == Spot(0, [plain]) && Key(plain) == plain
  {
    PlainIsItsKey(plain);
    DottedSplits(dotted, plain);
    DotIsNothing(plain);
  }
}
