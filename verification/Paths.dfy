/** The three path checkers, and where an accepted path lands when a file system resolves it. */
module Paths {
  import opened Arrangements

  const MAX_PATH_BYTES := 512

  function Utf8Size(c: char): nat {
    if c as int < 0x80 then 1 else if c as int < 0x800 then 2 else if c as int < 0x10000 then 3 else 4
  }

  function Utf8Length(s: string): nat {
    if s == "" then 0 else Utf8Size(s[0]) + Utf8Length(s[1..])
  }

  // ---- characters and segments -------------------------------------------

  /**
   How a text falls into user-perceived characters (section 3 of UAX #29): whether the code points on
   both sides of a position belong to one of them. Swift compares and splits text by these.
   */
  type Glue = (string, nat) -> bool

  /** Every code point on its own, as TypeScript and Kotlin look at these paths. */
  function ByCodePoint(): Glue {
    (s: string, i: nat) => false
  }

  /** The code point at `i` is a whole character. */
  predicate Alone(glue: Glue, s: string, i: nat)
    requires i < |s|
  {
    (i > 0 ==> !glue(s, i)) && (i + 1 < |s| ==> !glue(s, i + 1))
  }

  /** Some character of the text is this one. */
  predicate Contains(glue: Glue, s: string, c: char) {
    exists i | 0 <= i < |s| :: s[i] == c && Alone(glue, s, i)
  }

  /** The character at `i` is a slash. */
  predicate Cut(glue: Glue, s: string, i: nat)
    requires i < |s|
  {
    s[i] == '/' && Alone(glue, s, i)
  }

  /** The segments of the first `n` code points, cut at every character that is a slash. */
  function Segments(glue: Glue, s: string, n: nat): (r: seq<string>)
    requires n <= |s|
    ensures |r| >= 1
  {
    if n == 0 then [""]
    else
      var before := Segments(glue, s, n - 1);
      if Cut(glue, s, n - 1) then before + [""]
      else Extended(before, s[n - 1])
  }

  /** The last segment with one more code point. */
  function Extended(segments: seq<string>, c: char): (r: seq<string>)
    requires |segments| >= 1
    ensures |r| == |segments|
  {
    segments[..|segments| - 1] + [segments[|segments| - 1] + [c]]
  }

  function Split(s: string): seq<string> {
    Segments(ByCodePoint(), s, |s|)
  }

  predicate GoodSegment(segment: string) {
    segment != "" && segment != "." && segment != ".."
  }

  predicate AllGood(segments: seq<string>) {
    forall segment | segment in segments :: GoodSegment(segment)
  }

  // ---- the checkers ------------------------------------------------------

  predicate IsLetter(c: char) {
    'A' <= c <= 'Z' || 'a' <= c <= 'z'
  }

  predicate HasDriveLetter(path: string) {
    |path| >= 2 && IsLetter(path[0]) && path[1] == ':'
  }

  /** What all three checkers look for, each in the characters it sees. */
  predicate Common(glue: Glue, path: string) {
    && path != ""
    && Utf8Length(path) <= MAX_PATH_BYTES
    && !Contains(glue, path, '\0') && !Contains(glue, path, '\\')
    && !Cut(glue, path, 0)
    && AllGood(Segments(glue, path, |path|))
  }

  /** The publisher's and the backend's check: also no drive letter. */
  predicate SharedAccepts(path: string) {
    Common(ByCodePoint(), path) && !HasDriveLetter(path)
  }

  predicate AndroidAccepts(path: string) {
    Common(ByCodePoint(), path)
  }

  /** The second character is a colon. */
  predicate ColonSecond(glue: Glue, path: string) {
    exists i | 0 < i < |path| :: path[i] == ':' && Alone(glue, path, i) && forall j | 0 < j < i :: glue(path, j)
  }

  /** The iOS check: no colon as the second character, whatever the first one is. */
  predicate IosAccepts(glue: Glue, path: string) {
    Common(glue, path) && !ColonSecond(glue, path)
  }

  /** The scan over the segments. */
  method CheckSegments(glue: Glue, path: string) returns (ok: bool)
    ensures ok == AllGood(Segments(glue, path, |path|))
  {
    var segments := Segments(glue, path, |path|);
    for n := 0 to |segments|
      invariant forall m | 0 <= m < n :: GoodSegment(segments[m])
    {
      if segments[n] == "" || segments[n] == "." || segments[n] == ".." {
        assert segments[n] in segments && !GoodSegment(segments[n]);
        return false;
      }
    }
    return true;
  }

  /** Each check told from the code points, for the two that see those. */
  lemma AndroidAcceptsExactly(path: string)
    ensures AndroidAccepts(path) <==>
              path != "" && Utf8Length(path) <= 512 && '\0' !in path && '\\' !in path && path[0] != '/' && AllGood(Split(path))
  {
    ContainsByCodePoint(path, '\0');
    ContainsByCodePoint(path, '\\');
    if path != "" {
      assert Cut(ByCodePoint(), path, 0) <==> path[0] == '/';
    }
  }

  lemma SharedAcceptsExactly(path: string)
    ensures SharedAccepts(path) <==>
              AndroidAccepts(path) && !(|path| > 1 && path[1] == ':' && ('a' <= path[0] <= 'z' || 'A' <= path[0] <= 'Z'))
  {
  }

  // ---- resolution --------------------------------------------------------

  /**
   Pathname resolution of section 4.13 of POSIX.1-2017 without symbolic links: an empty component and
   "." stay where they are, ".." goes to the parent (and stays at the root).
   */
  function Walk(at: seq<string>, components: seq<string>): seq<string>
    decreases |components|
  {
    if components == [] then at else Walk(Stepped(at, components[0]), components[1..])
  }

  function Stepped(at: seq<string>, component: string): seq<string> {
    if component == "" || component == "." then at
    else if component == ".." then (if at == [] then [] else at[..|at| - 1])
    else at + [component]
  }

  /** Where a path goes when it is appended to a directory: a file system cuts it at every slash there is. */
  function Resolve(root: seq<string>, path: string): seq<string> {
    Walk(root, Split(path))
  }

  lemma {:induction false} WalkGoes(at: seq<string>, components: seq<string>)
    requires AllGood(components)
    ensures Walk(at, components) == at + components
    decreases |components|
  {
    if components != [] {
      assert GoodSegment(components[0]);
      WalkGoes(at + [components[0]], components[1..]);
      assert at + [components[0]] + components[1..] == at + components;
    } else {
      assert at + components == at;
    }
  }

  /** Every component adds at most one level, and one that is not good adds none. */
  lemma {:induction false} WalkIsShort(at: seq<string>, components: seq<string>)
    ensures |Walk(at, components)| <= |at| + |components|
    ensures !AllGood(components) ==> |Walk(at, components)| < |at| + |components|
    decreases |components|
  {
    if components != [] {
      WalkIsShort(Stepped(at, components[0]), components[1..]);
      if GoodSegment(components[0]) && !AllGood(components) {
        var bad :| bad in components && !GoodSegment(bad);
        assert components == [components[0]] + components[1..];
        assert bad in components[1..];
      }
    }
  }

  // ---- containment -------------------------------------------------------

  /** An accepted path lands strictly below the root, at its own segments. */
  lemma AcceptedPathIsContained(root: seq<string>, path: string)
    requires SharedAccepts(path) || AndroidAccepts(path)
    ensures Resolve(root, path) == root + Split(path) && root < Resolve(root, path)
  {
    WalkGoes(root, Split(path));
  }

  /**
   The scan of the code points decides for any path whether it lands at its own segments. The iOS scan
   sees characters, so for what it accepts the two can differ.
   */
  lemma LandsAtItsSegmentsExactly(path: string)
    ensures (forall root :: Resolve(root, path) == root + Split(path)) <==> AllGood(Split(path))
  {
    if AllGood(Split(path)) {
      forall root ensures Resolve(root, path) == root + Split(path) {
        WalkGoes(root, Split(path));
      }
    } else {
      WalkIsShort([], Split(path));
      assert |Resolve([], path)| < |[] + Split(path)|;
    }
  }

  /** How deep below where it started a walk ends; none when it leaves that directory on the way. */
  function Depth(components: seq<string>, start: nat): (depth: int)
    ensures depth >= -1
    decreases |components|
  {
    if components == [] then start
    else
      var c := components[0];
      if c == "" || c == "." then Depth(components[1..], start)
      else if c == ".." then (if start == 0 then -1 else Depth(components[1..], start - 1))
      else Depth(components[1..], start + 1)
  }

  /** A walk that never leaves `root` ends that much below it. */
  lemma {:induction false} StayingIsBelow(root: seq<string>, at: seq<string>, components: seq<string>)
    requires root <= at && Depth(components, |at| - |root|) >= 0
    ensures root <= Walk(at, components) && |Walk(at, components)| == |root| + Depth(components, |at| - |root|)
    decreases |components|
  {
    if components != [] {
      StayingIsBelow(root, Stepped(at, components[0]), components[1..]);
    }
  }

  /** The steps after leaving cannot enter again what they never name. */
  lemma {:induction false} NeverBack(at: seq<string>, components: seq<string>, level: nat, name: string)
    requires |at| > level ==> at[level] != name
    requires name !in components
    ensures |Walk(at, components)| > level ==> Walk(at, components)[level] != name
    decreases |components|
  {
    if components != [] {
      NeverBack(Stepped(at, components[0]), components[1..], level, name);
    }
  }

  /** A walk that leaves a directory whose name it never mentions does not end inside it. */
  lemma {:induction false} LeavingIsNotBelow(up: seq<string>, name: string, at: seq<string>, components: seq<string>)
    requires up + [name] <= at && Depth(components, |at| - |up| - 1) == -1
    requires name !in components
    ensures !(up + [name] <= Walk(at, components))
    decreases |components|
  {
    var c := components[0];
    if c == ".." && |at| == |up| + 1 {
      assert at[..|at| - 1] == up;
      NeverBack(up, components[1..], |up|, name);
      assert Walk(at, components) == Walk(up, components[1..]);
      assert (up + [name])[|up|] == name;
    } else {
      LeavingIsNotBelow(up, name, Stepped(at, c), components[1..]);
    }
  }

  lemma NameNotIn(components: seq<string>) returns (name: string)
    ensures name !in components
  {
    name := LongerThanAll(components);
  }

  lemma {:induction false} LongerThanAll(components: seq<string>) returns (name: string)
    ensures forall c | c in components :: |c| < |name|
  {
    name := "x";
    if components != [] {
      var rest := LongerThanAll(components[1..]);
      name := rest + components[0] + "x";
      assert components == [components[0]] + components[1..];
    }
  }

  /**
   A path, whoever accepted it, stays strictly below every directory it can be appended to if and only if
   counting its components never goes below zero and ends above it.
   */
  lemma StaysBelowExactly(path: string)
    ensures (forall root :: root < Resolve(root, path)) <==> Depth(Split(path), 0) > 0
  {
    var components := Split(path);
    if Depth(components, 0) >= 0 {
      forall root ensures root <= Resolve(root, path) && |Resolve(root, path)| == |root| + Depth(components, 0) {
        StayingIsBelow(root, root, components);
      }
      if Depth(components, 0) == 0 {
        assert !([] < Resolve([], path));
      }
    } else {
      var name := NameNotIn(components);
      LeavingIsNotBelow([], name, [name], components);
      assert [] + [name] == [name];
      assert !([name] < Resolve([name], path));
    }
  }

  // ---- different paths ---------------------------------------------------

  function Join(segments: seq<string>): string
    requires |segments| >= 1
  {
    if |segments| == 1 then segments[0]
    else Join(segments[..|segments| - 1]) + "/" + segments[|segments| - 1]
  }

  lemma OneLonger(s: string, n: nat)
    requires 0 < n <= |s|
    ensures s[..n] == s[..n - 1] + [s[n - 1]]
  {
  }

  lemma JoinExtended(segments: seq<string>, c: char)
    requires segments != []
    ensures Join(Extended(segments, c)) == Join(segments) + [c]
  {
    var k := |segments| - 1;
    assert Extended(segments, c)[..k] == segments[..k];
    if k > 0 {
      var front := Join(segments[..k]) + "/";
      assert front + (segments[k] + [c]) == (front + segments[k]) + [c];
    }
  }

  lemma JoinWithEmpty(segments: seq<string>)
    requires segments != []
    ensures Join(segments + [""]) == Join(segments) + "/"
  {
    assert (segments + [""])[..|segments|] == segments;
  }

  lemma {:induction false} JoinUndoesSegments(glue: Glue, s: string, n: nat)
    requires n <= |s|
    ensures Join(Segments(glue, s, n)) == s[..n]
  {
    if n > 0 {
      JoinUndoesSegments(glue, s, n - 1);
      JoinExtended(Segments(glue, s, n - 1), s[n - 1]);
      JoinWithEmpty(Segments(glue, s, n - 1));
      OneLonger(s, n);
    }
  }

  /**
   Different paths that pass the scan by code points, as all that the publisher or Android accepts do, are
   different files. What only iOS accepts is in `Spots`.
   */
  lemma AcceptedPathsAreDistinct(root: seq<string>, a: string, b: string)
    requires AllGood(Split(a)) && AllGood(Split(b)) && a != b
    ensures Resolve(root, a) != Resolve(root, b)
  {
    WalkGoes(root, Split(a));
    WalkGoes(root, Split(b));
    JoinUndoesSegments(ByCodePoint(), a, |a|);
    JoinUndoesSegments(ByCodePoint(), b, |b|);
    assert a[..|a|] == a && b[..|b|] == b;
    assert (root + Split(a))[|root|..] == Split(a) && (root + Split(b))[|root|..] == Split(b);
  }

  // ---- where the checkers agree ------------------------------------------

  /** A slash that is only a part of a character. */
  predicate HidesSlash(glue: Glue, s: string) {
    exists i | 0 <= i < |s| :: s[i] == '/' && !Alone(glue, s, i)
  }

  lemma {:induction false} SegmentsWithoutHiding(glue: Glue, s: string, n: nat)
    requires n <= |s| && !HidesSlash(glue, s)
    ensures Segments(glue, s, n) == Segments(ByCodePoint(), s, n)
  {
    if n > 0 {
      SegmentsWithoutHiding(glue, s, n - 1);
    }
  }

  /** The segment that is still open after `n` code points. */
  function Open(glue: Glue, s: string, n: nat): string
    requires n <= |s|
  {
    if n == 0 || Cut(glue, s, n - 1) then "" else Open(glue, s, n - 1) + [s[n - 1]]
  }

  /** The segments that a slash has ended by then. */
  function Ended(glue: Glue, s: string, n: nat): set<string>
    requires n <= |s|
  {
    if n == 0 then {}
    else if Cut(glue, s, n - 1) then Ended(glue, s, n - 1) + {Open(glue, s, n - 1)}
    else Ended(glue, s, n - 1)
  }

  lemma {:induction false} SegmentsAreEndedOrOpen(glue: Glue, s: string, n: nat)
    requires n <= |s|
    ensures var r := Segments(glue, s, n);
            r[|r| - 1] == Open(glue, s, n) && Elements(r[..|r| - 1]) == Ended(glue, s, n)
  {
    if n > 0 {
      SegmentsAreEndedOrOpen(glue, s, n - 1);
      var before, r := Segments(glue, s, n - 1), Segments(glue, s, n);
      if Cut(glue, s, n - 1) {
        assert r[..|r| - 1] == before == before[..|before| - 1] + [before[|before| - 1]];
      } else {
        assert r[..|r| - 1] == before[..|before| - 1];
      }
    }
  }

  ghost predicate GoodParts(ended: set<string>, open: string) {
    GoodSegment(open) && forall q | q in ended :: GoodSegment(q)
  }

  lemma GoodByParts(glue: Glue, s: string)
    ensures AllGood(Segments(glue, s, |s|)) <==> GoodParts(Ended(glue, s, |s|), Open(glue, s, |s|))
  {
    SegmentsAreEndedOrOpen(glue, s, |s|);
    var r := Segments(glue, s, |s|);
    assert r == r[..|r| - 1] + [r[|r| - 1]];
    var front := r[..|r| - 1];
    assert forall q :: q in Elements(front) <==> q in front;
  }

  ghost predicate Coarser(ended: set<string>, open: string, fineEnded: set<string>, fineOpen: string) {
    && (forall q | q in ended :: q in fineEnded || '/' in q)
    && (open == fineOpen || '/' in open)
  }

  lemma CoarserIsGood(ended: set<string>, open: string, fineEnded: set<string>, fineOpen: string)
    requires Coarser(ended, open, fineEnded, fineOpen) && GoodParts(fineEnded, fineOpen)
    ensures GoodParts(ended, open)
  {
  }

  /** Segments of characters are segments of code points, or have a slash inside. */
  lemma {:induction false} CoarseSegments(glue: Glue, s: string, n: nat)
    requires n <= |s|
    ensures Coarser(Ended(glue, s, n), Open(glue, s, n), Ended(ByCodePoint(), s, n), Open(ByCodePoint(), s, n))
  {
    if n > 0 {
      CoarseSegments(glue, s, n - 1);
    }
  }

  lemma GoodSegmentsStayGood(glue: Glue, s: string)
    requires AllGood(Split(s))
    ensures AllGood(Segments(glue, s, |s|))
  {
    CoarseSegments(glue, s, |s|);
    GoodByParts(glue, s);
    GoodByParts(ByCodePoint(), s);
    CoarserIsGood(Ended(glue, s, |s|), Open(glue, s, |s|), Ended(ByCodePoint(), s, |s|), Open(ByCodePoint(), s, |s|));
  }

  /**
   The checkers are meant to agree. What the publisher accepts Android accepts too, and iOS accepts it
   except when its second character is a colon, however the text falls into characters.
   */
  lemma CheckersAgreeExactly(glue: Glue, path: string)
    requires SharedAccepts(path)
    ensures AndroidAccepts(path)
    ensures IosAccepts(glue, path) <==> !ColonSecond(glue, path)
  {
    assert forall c :: Contains(glue, path, c) ==> Contains(ByCodePoint(), path, c);
    GoodSegmentsStayGood(glue, path);
  }

  /** What iOS accepts without a hidden slash passes the scan by code points. */
  lemma WithoutHiddenSlashesIosIsStricter(glue: Glue, path: string)
    requires IosAccepts(glue, path) && !HidesSlash(glue, path)
    ensures AllGood(Split(path))
  {
    SegmentsWithoutHiding(glue, path, |path|);
  }

  /** And Android accepts it too exactly when it has no backslash and no NUL inside a character either. */
  lemma AndroidFollowsIosExactly(glue: Glue, path: string)
    requires IosAccepts(glue, path) && !HidesSlash(glue, path)
    ensures AndroidAccepts(path) <==> '\\' !in path && '\0' !in path
  {
    WithoutHiddenSlashesIosIsStricter(glue, path);
    assert forall c :: Contains(ByCodePoint(), path, c) <==> c in path by {
      forall c ensures Contains(ByCodePoint(), path, c) <==> c in path {
        ContainsByCodePoint(path, c);
      }
    }
  }

  lemma ContainsByCodePoint(path: string, c: char)
    ensures Contains(ByCodePoint(), path, c) <==> c in path
  {
    if c in path {
      var i :| 0 <= i < |path| && path[i] == c;
      assert Alone(ByCodePoint(), path, i);
    }
  }

  // ---- where they do not -------------------------------------------------

  const ACUTE := '\U{0301}'

  /** The rule for one combining accent: it never begins a character. */
  function AccentJoins(): Glue {
    (s: string, i: nat) => i < |s| && s[i] == ACUTE
  }

  lemma ExtendedOne(word: string, c: char, next: string)
    requires next == word + [c]
    ensures Extended([word], c) == [next]
  {
  }

  lemma ExtendedTwo(first: string, word: string, c: char, next: string)
    requires next == word + [c]
    ensures Extended([first, word], c) == [first, next]
  {
    assert [first, word][..1] == [first];
  }

  lemma {:induction false} UncutIsOneSegment(glue: Glue, s: string, n: nat)
    requires n <= |s| && forall i | 0 <= i < n :: !Cut(glue, s, i)
    ensures Segments(glue, s, n) == [s[..n]]
  {
    if n == 0 {
      assert s[..0] == "";
    } else {
      OneLonger(s, n);
      ExtendedOne(s[..n - 1], s[n - 1], s[..n]);
      UncutIsOneSegment(glue, s, n - 1);
    }
  }

  lemma {:induction false} CutOnceIsTwoSegments(glue: Glue, s: string, c: nat, n: nat)
    requires c < n <= |s| && forall i | 0 <= i < n :: Cut(glue, s, i) <==> i == c
    ensures Segments(glue, s, n) == [s[..c], s[c + 1..n]]
  {
    if c == n - 1 {
      UncutIsOneSegment(glue, s, c);
      assert s[c + 1..n] == "";
    } else {
      CutOnceIsTwoSegments(glue, s, c, n - 1);
      ExtendedTwo(s[..c], s[c + 1..n - 1], s[n - 1], s[c + 1..n]);
    }
  }

  predicate IsEscape(s: string) {
    s == ['.', '.', '/', ACUTE, 'x']
  }

  lemma EscapeIsShort(s: string)
    requires IsEscape(s)
    ensures Utf8Length(s) == 6
  {
    assert s[1..] == ['.', '/', ACUTE, 'x'] && ['.', '/', ACUTE, 'x'][1..] == ['/', ACUTE, 'x'];
    assert ['/', ACUTE, 'x'][1..] == [ACUTE, 'x'] && [ACUTE, 'x'][1..] == ['x'] && ['x'][1..] == "";
    assert Utf8Length(['x']) == 1;
    assert Utf8Length([ACUTE, 'x']) == 3;
    assert Utf8Length(['/', ACUTE, 'x']) == 4;
    assert Utf8Length(['.', '/', ACUTE, 'x']) == 5;
  }

  lemma EscapeLeaves()
    ensures Walk(["staging", "id"], [['.', '.'], [ACUTE, 'x']]) == ["staging", [ACUTE, 'x']]
  {
    var components := [['.', '.'], [ACUTE, 'x']];
    assert Stepped(["staging", "id"], components[0]) == ["staging"];
    assert components[1..] == [[ACUTE, 'x']];
    WalkGoes(["staging"], [[ACUTE, 'x']]);
  }

  lemma OneGoodSegmentIsCommon(glue: Glue, s: string)
    requires s != "" && s[0] != '/' && '\0' !in s && '\\' !in s && Utf8Length(s) <= MAX_PATH_BYTES
    requires Segments(glue, s, |s|) == [s[..|s|]] && GoodSegment(s)
    ensures Common(glue, s)
  {
    assert forall i | 0 <= i < |s| :: s[i] in s;
    assert s[..|s|] == s;
  }

  /** iOS accepts "../", an accent and "x"; and that leaves the directory it is appended to. */
  lemma IosPathCanEscape(path: string)
    requires IsEscape(path)
    ensures IosAccepts(AccentJoins(), path) && HidesSlash(AccentJoins(), path)
    ensures Resolve(["staging", "id"], path) == ["staging", [ACUTE, 'x']]
  {
    EscapeIsShort(path);
    assert path[2] == '/' && !Alone(AccentJoins(), path, 2);
    UncutIsOneSegment(AccentJoins(), path, |path|);
    OneGoodSegmentIsCommon(AccentJoins(), path);
    CutOnceIsTwoSegments(ByCodePoint(), path, 2, |path|);
    assert path[..2] == ['.', '.'] && path[3..|path|] == [ACUTE, 'x'];
    EscapeLeaves();
  }

  lemma ShortNameIsShort(x: char, y: char, z: char)
    requires x as int < 0x80 && y as int < 0x80 && z as int < 0x80
    ensures Utf8Length([x, y, z]) == 3
  {
    assert [x, y, z][1..] == [y, z] && [y, z][1..] == [z] && [z][1..] == "";
    assert Utf8Length([z]) == 1;
    assert Utf8Length([y, z]) == 2;
  }

  lemma ShortNameIsCommon(x: char, y: char, z: char, s: string)
    requires s == [x, y, z] && '/' !in s && '\\' !in s && '\0' !in s
    requires x as int < 0x80 && y as int < 0x80 && z as int < 0x80
    ensures Common(ByCodePoint(), s)
  {
    assert s[0] == x && s[1] == y && s[2] == z;
    UncutIsOneSegment(ByCodePoint(), s, |s|);
    ShortNameIsShort(x, y, z);
    OneGoodSegmentIsCommon(ByCodePoint(), s);
  }

  /** A colon after a digit is refused by iOS only; a drive letter is accepted by Android only. */
  lemma CheckersDisagree(digit: string, letter: string)
    requires digit == "1:x" && letter == "c:x"
    ensures SharedAccepts(digit) && AndroidAccepts(digit) && !IosAccepts(ByCodePoint(), digit)
    ensures AndroidAccepts(letter) && !SharedAccepts(letter)
  {
    ShortNameIsCommon('1', ':', 'x', digit);
    ShortNameIsCommon('c', ':', 'x', letter);
    assert Alone(ByCodePoint(), digit, 1);
  }
}
