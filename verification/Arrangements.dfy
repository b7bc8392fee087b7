/** Stable sorting by a strict order: what a sort returns, and what decides it. */
module Arrangements {

  ghost predicate StrictOrder<T(!new)>(before: (T, T) -> bool) {
    && (forall x, y :: before(x, y) ==> !before(y, x))
    && (forall x, y, z :: before(x, y) && before(y, z) ==> before(x, z))
  }

  /** A strict order in which being undecided is transitive, as a comparator makes one. */
  ghost predicate WeakOrder<T(!new)>(before: (T, T) -> bool) {
    StrictOrder(before) && forall x, y, z :: before(x, z) ==> before(x, y) || before(y, z)
  }

  predicate Ordered<T>(before: (T, T) -> bool, s: seq<T>) {
    forall i, j | 0 <= i < j < |s| :: before(s[i], s[j])
  }

  /** Nothing stands behind what should come after it. */
  predicate NoInversion<T>(before: (T, T) -> bool, s: seq<T>) {
    forall i, j | 0 <= i < j < |s| :: !before(s[j], s[i])
  }

  /** No two elements are left undecided by the order. */
  predicate Comparable<T>(before: (T, T) -> bool, s: seq<T>) {
    forall i, j | 0 <= i < j < |s| :: before(s[i], s[j]) || before(s[j], s[i])
  }

  function Elements<T(==)>(s: seq<T>): set<T> {
    set x | x in s
  }

  /** Behind everything it does not come before. */
  function Inserted<T>(before: (T, T) -> bool, s: seq<T>, x: T): seq<T> {
    if s != [] && !before(x, s[0]) then [s[0]] + Inserted(before, s[1..], x) else [x] + s
  }

  function Arranged<T>(before: (T, T) -> bool, s: seq<T>): seq<T> {
    if s == [] then [] else Inserted(before, Arranged(before, s[..|s| - 1]), s[|s| - 1])
  }

  // ---- any order ---------------------------------------------------------

  lemma {:induction false} InsertedElements<T>(before: (T, T) -> bool, s: seq<T>, x: T)
    ensures multiset(Inserted(before, s, x)) == multiset(s) + multiset{x}
  {
    if s != [] && !before(x, s[0]) {
      InsertedElements(before, s[1..], x);
      assert s == [s[0]] + s[1..];
    }
  }

  lemma {:induction false} ArrangedElements<T>(before: (T, T) -> bool, s: seq<T>)
    ensures multiset(Arranged(before, s)) == multiset(s)
  {
    if s != [] {
      ArrangedElements(before, s[..|s| - 1]);
      InsertedElements(before, Arranged(before, s[..|s| - 1]), s[|s| - 1]);
      assert s == s[..|s| - 1] + [s[|s| - 1]];
    }
  }

  lemma ArrangedHasTheSame<T>(before: (T, T) -> bool, s: seq<T>)
    ensures Elements(Arranged(before, s)) == Elements(s) && |Arranged(before, s)| == |s|
  {
    ArrangedElements(before, s);
    var r := Arranged(before, s);
    forall x | x in r ensures x in s {
      assert x in multiset(r);
    }
    forall x | x in s ensures x in r {
      assert x in multiset(s);
    }
    assert |multiset(r)| == |multiset(s)|;
  }

  /** Any two elements at different places are told apart. */
  predicate Pairwise<T>(apart: (T, T) -> bool, s: seq<T>) {
    forall i, j | 0 <= i < |s| && 0 <= j < |s| && i != j :: apart(s[i], s[j])
  }

  lemma {:induction false} InsertedKeepsPairs<T>(before: (T, T) -> bool, apart: (T, T) -> bool, s: seq<T>, x: T)
    requires Pairwise(apart, s) && forall y | y in s :: apart(x, y) && apart(y, x)
    ensures Pairwise(apart, Inserted(before, s, x))
  {
    if s != [] && !before(x, s[0]) {
      InsertedKeepsPairs(before, apart, s[1..], x);
      var tail := Inserted(before, s[1..], x);
      forall y | y in tail ensures apart(s[0], y) && apart(y, s[0]) {
        InsertedElements(before, s[1..], x);
        assert y in multiset(tail);
        if y != x {
          var k :| 0 <= k < |s[1..]| && s[1..][k] == y;
          assert y == s[k + 1];
        }
      }
    }
  }

  /** What tells the elements apart before sorting tells them apart afterwards. */
  lemma {:induction false} ArrangedKeepsPairs<T>(before: (T, T) -> bool, apart: (T, T) -> bool, s: seq<T>)
    requires Pairwise(apart, s)
    ensures Pairwise(apart, Arranged(before, s))
  {
    if s != [] {
      var rest, x := s[..|s| - 1], s[|s| - 1];
      ArrangedKeepsPairs(before, apart, rest);
      ArrangedHasTheSame(before, rest);
      forall y | y in Arranged(before, rest) ensures apart(x, y) && apart(y, x) {
        assert y in Elements(rest);
        var k :| 0 <= k < |rest| && rest[k] == y;
        assert y == s[k];
      }
      InsertedKeepsPairs(before, apart, Arranged(before, rest), x);
    }
  }

  // ---- a comparator that may leave elements undecided --------------------

  predicate Precedes<T(==)>(s: seq<T>, x: T, y: T) {
    exists i, j | 0 <= i < j < |s| :: s[i] == x && s[j] == y
  }

  lemma {:induction false} InsertedHasNoInversion<T(!new)>(before: (T, T) -> bool, s: seq<T>, x: T)
    requires WeakOrder(before) && NoInversion(before, s)
    ensures NoInversion(before, Inserted(before, s, x))
  {
    if s != [] && !before(x, s[0]) {
      InsertedHasNoInversion(before, s[1..], x);
      var tail := Inserted(before, s[1..], x);
      InsertedElements(before, s[1..], x);
      forall y | y in tail ensures !before(y, s[0]) {
        assert y in multiset(tail);
        if y != x {
          var k :| 0 <= k < |s[1..]| && s[1..][k] == y;
          assert y == s[k + 1];
        }
      }
    } else if s != [] {
      forall k | 0 <= k < |s| ensures !before(s[k], x) {
        assert before(x, s[0]);
      }
    }
  }

  lemma {:induction false} ArrangedHasNoInversion<T(!new)>(before: (T, T) -> bool, s: seq<T>)
    requires WeakOrder(before)
    ensures NoInversion(before, Arranged(before, s))
  {
    if s != [] {
      ArrangedHasNoInversion(before, s[..|s| - 1]);
      InsertedHasNoInversion(before, Arranged(before, s[..|s| - 1]), s[|s| - 1]);
    }
  }

  lemma {:induction false} InsertedKeepsPrecedence<T>(before: (T, T) -> bool, s: seq<T>, x: T, a: T, b: T)
    requires Precedes(s, a, b)
    ensures Precedes(Inserted(before, s, x), a, b)
  {
    var i, j :| 0 <= i < j < |s| && s[i] == a && s[j] == b;
    var r := Inserted(before, s, x);
    if !before(x, s[0]) {
      if i == 0 {
        InsertedElements(before, s[1..], x);
        assert s[1..][j - 1] == b;
        assert b in multiset(s[1..]) && b in multiset(r[1..]);
        var k :| 0 <= k < |r[1..]| && r[1..][k] == b;
        assert r[0] == a && r[k + 1] == b;
      } else {
        assert s[1..][i - 1] == a && s[1..][j - 1] == b;
        InsertedKeepsPrecedence(before, s[1..], x, a, b);
        var m, n :| 0 <= m < n < |r[1..]| && r[1..][m] == a && r[1..][n] == b;
        assert r[m + 1] == a && r[n + 1] == b;
      }
    } else {
      assert r[i + 1] == a && r[j + 1] == b;
    }
  }

  lemma NotBeforeTheFirst<T(!new)>(before: (T, T) -> bool, first: T, a: T, x: T)
    requires WeakOrder(before) && !before(a, first) && !before(x, a)
    ensures !before(x, first)
  {
  }

  lemma {:induction false} InsertedComesAfterTies<T(!new)>(before: (T, T) -> bool, s: seq<T>, x: T, a: T)
    requires WeakOrder(before) && NoInversion(before, s) && a in s && !before(x, a)
    ensures Precedes(Inserted(before, s, x), a, x)
  {
    var k :| 0 <= k < |s| && s[k] == a;
    var r := Inserted(before, s, x);
    if k > 0 {
      NotBeforeTheFirst(before, s[0], a, x);
    }
    if k == 0 {
      InsertedElements(before, s[1..], x);
      assert x in multiset(r[1..]);
      var m :| 0 <= m < |r[1..]| && r[1..][m] == x;
      assert r[0] == a && r[m + 1] == x;
    } else {
      assert s[1..][k - 1] == a;
      InsertedComesAfterTies(before, s[1..], x, a);
      var m, n :| 0 <= m < n < |r[1..]| && r[1..][m] == a && r[1..][n] == x;
      assert r[m + 1] == a && r[n + 1] == x;
    }
  }

  /** Undecided elements keep the order they came in. */
  lemma {:induction false} ArrangedIsStable<T(!new)>(before: (T, T) -> bool, s: seq<T>, i: nat, j: nat)
    requires WeakOrder(before) && i < j < |s| && !before(s[j], s[i])
    ensures Precedes(Arranged(before, s), s[i], s[j])
  {
    var rest, x := s[..|s| - 1], s[|s| - 1];
    if j < |rest| {
      ArrangedIsStable(before, rest, i, j);
      InsertedKeepsPrecedence(before, Arranged(before, rest), x, s[i], s[j]);
    } else {
      ArrangedHasNoInversion(before, rest);
      ArrangedHasTheSame(before, rest);
      assert rest[i] in Elements(rest) && rest[i] in Elements(Arranged(before, rest));
      InsertedComesAfterTies(before, Arranged(before, rest), x, s[i]);
    }
  }

  // ---- an order that decides everything ----------------------------------

  lemma {:induction false} InsertedIsOrdered<T(!new)>(before: (T, T) -> bool, s: seq<T>, x: T)
    requires StrictOrder(before) && Ordered(before, s) && forall y | y in s :: before(x, y) || before(y, x)
    ensures Ordered(before, Inserted(before, s, x)) && Elements(Inserted(before, s, x)) == Elements(s) + {x}
  {
    if s != [] && !before(x, s[0]) {
      InsertedIsOrdered(before, s[1..], x);
      var tail := Inserted(before, s[1..], x);
      forall y | y in tail ensures before(s[0], y) {
        assert y in Elements(tail);
      }
    } else if s != [] {
      forall y | y in s ensures before(x, y) {
        assert before(x, s[0]);
      }
    }
  }

  lemma {:induction false} ArrangedIsOrdered<T(!new)>(before: (T, T) -> bool, s: seq<T>)
    requires StrictOrder(before) && Comparable(before, s)
    ensures Ordered(before, Arranged(before, s)) && Elements(Arranged(before, s)) == Elements(s)
  {
    if s != [] {
      var rest, x := s[..|s| - 1], s[|s| - 1];
      ArrangedIsOrdered(before, rest);
      forall y | y in Arranged(before, rest) ensures before(x, y) || before(y, x) {
        assert y in Elements(rest);
      }
      InsertedIsOrdered(before, Arranged(before, rest), x);
      assert s == rest + [x];
    }
  }

  lemma FirstIsLeast<T(!new)>(before: (T, T) -> bool, a: seq<T>, b: seq<T>)
    requires StrictOrder(before) && Ordered(before, a) && Ordered(before, b)
    requires a != [] && b != [] && a[0] in b && b[0] in a
    ensures a[0] == b[0]
  {
  }

  lemma TailElements<T(!new)>(before: (T, T) -> bool, a: seq<T>)
    requires StrictOrder(before) && Ordered(before, a) && a != []
    ensures Elements(a[1..]) == Elements(a) - {a[0]} && Ordered(before, a[1..])
  {
    assert a == [a[0]] + a[1..];
    assert a[0] !in a[1..];
  }

  /** Two ordered lists of the same elements are the same list. */
  lemma {:induction false} OrderIsUnique<T(!new)>(before: (T, T) -> bool, a: seq<T>, b: seq<T>)
    requires StrictOrder(before) && Ordered(before, a) && Ordered(before, b) && Elements(a) == Elements(b)
    ensures a == b
  {
    assert a != [] ==> a[0] in Elements(b);
    assert b != [] ==> b[0] in Elements(a);
    if a != [] {
      FirstIsLeast(before, a, b);
      TailElements(before, a);
      TailElements(before, b);
      OrderIsUnique(before, a[1..], b[1..]);
      assert a == [a[0]] + a[1..] && b == [b[0]] + b[1..];
    }
  }
}
