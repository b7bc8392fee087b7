/**
 Canonical JSON, the exact text that is signed and verified: sorting the keys of every object, printing the
 result, and why two values print the same text exactly when they differ in nothing but key order.
 */
module CanonicalJson {
  import opened Arrangements
  import opened Common
  import opened JsonNumbers
  import Ranges

  /**
   `Undefined` is a property that is there without a value; `NonFinite` is an infinity or not a number. A
   finite number is the decimal text the language has for it, of which equal numbers have one.
   */
  datatype Json = Undefined | Null | Bool(flag: bool) | Num(decimal: Text) | NonFinite | Str(text: Text) | Arr(items: seq<Json>) | Obj(members: seq<Member>)

  datatype Member = Member(key: Text, value: Json)

  /** `__proto__`: assigning it sets the prototype of an object and leaves no property behind. */
  const PROTO: Text := [95, 95, 112, 114, 111, 116, 111, 95, 95]

  predicate DistinctKeys(ms: seq<Member>) {
    forall i, j | 0 <= i < j < |ms| :: ms[i].key != ms[j].key
  }

  /** The values covered: what a JSON text can say, with no hole in an array. */
  ghost predicate Plain(v: Json) {
    match v
    case Undefined => false
    case Num(decimal) => IsNumberText(decimal)
    case Arr(items) => forall i | 0 <= i < |items| :: Plain(items[i])
    case Obj(ms) => DistinctKeys(ms) && forall i | 0 <= i < |ms| :: ms[i].value.Undefined? || Plain(ms[i].value)
    case _ => true
  }

  ghost predicate Finite(v: Json) {
    match v
    case NonFinite => false
    case Arr(items) => forall i | 0 <= i < |items| :: Finite(items[i])
    case Obj(ms) => forall i | 0 <= i < |ms| :: Finite(ms[i].value)
    case _ => true
  }

  // ---- the order of properties -------------------------------------------

  /** Comparison by code unit, as the default sort does it. */
  predicate Less(a: Text, b: Text) {
    b != [] && (a == [] || a[0] < b[0] || (a[0] == b[0] && Less(a[1..], b[1..])))
  }

  function DigitsOf(n: nat): (r: Text)
    ensures |r| == |Ranges.Decimal(n)| > 0
    ensures forall i | 0 <= i < |r| :: IsDigit(r[i]) && r[i] as int == Ranges.Decimal(n)[i] as int
  {
    Ranges.NumberUndoesDecimal(n);
    var digits := Ranges.Decimal(n);
    seq(|digits|, i requires 0 <= i < |digits| => digits[i] as int as Unit)
  }

  function NumberOf(key: Text): nat
    requires forall i | 0 <= i < |key| :: IsDigit(key[i])
  {
    if key == [] then 0
    else
      assert IsDigit(key[|key| - 1]);
      10 * NumberOf(key[..|key| - 1]) + (key[|key| - 1] as int - 48)
  }

  /** The number a key stands for when it is an array index written the canonical way. */
  function IndexOf(key: Text): (n: Option<nat>)
    ensures n.Some? ==> key == DigitsOf(n.value)
  {
    if !(forall i | 0 <= i < |key| :: IsDigit(key[i])) then None
    else
      var n := NumberOf(key);
      if n < 0xFFFF_FFFF && DigitsOf(n) == key then Some(n) else None
  }

  /** The order in which an object lists its properties when they are added by code unit: array indices come first. */
  predicate KeyBefore(a: Text, b: Text) {
    match (IndexOf(a), IndexOf(b))
    case (Some(m), Some(n)) => m < n
    case (Some(_), None) => true
    case (None, Some(_)) => false
    case (None, None) => Less(a, b)
  }

  predicate MemberBefore(m: Member, n: Member) {
    KeyBefore(m.key, n.key)
  }

  predicate MemberLess(m: Member, n: Member) {
    Less(m.key, n.key)
  }

  lemma {:induction false} LessDecides(a: Text, b: Text)
    ensures a == b <==> !Less(a, b) && !Less(b, a)
    ensures !(Less(a, b) && Less(b, a))
  {
    if a != [] && b != [] {
      LessDecides(a[1..], b[1..]);
      assert a == [a[0]] + a[1..] && b == [b[0]] + b[1..];
    }
  }

  lemma {:induction false} LessChains(a: Text, b: Text, c: Text)
    requires Less(a, b) && Less(b, c)
    ensures Less(a, c)
  {
    if a != [] && a[0] == b[0] == c[0] {
      LessChains(a[1..], b[1..], c[1..]);
    }
  }

  lemma KeysAreDecided(a: Text, b: Text)
    ensures a == b <==> !KeyBefore(a, b) && !KeyBefore(b, a)
    ensures !(KeyBefore(a, b) && KeyBefore(b, a))
  {
    LessDecides(a, b);
  }

  lemma MemberOrders()
    ensures StrictOrder(MemberBefore) && StrictOrder(MemberLess)
  {
    forall m, n ensures !(MemberBefore(m, n) && MemberBefore(n, m)) && !(MemberLess(m, n) && MemberLess(n, m)) {
      KeysAreDecided(m.key, n.key);
      LessDecides(m.key, n.key);
    }
    forall l, m, n | MemberLess(l, m) && MemberLess(m, n) ensures MemberLess(l, n) {
      LessChains(l.key, m.key, n.key);
    }
    forall l, m, n | MemberBefore(l, m) && MemberBefore(m, n) ensures MemberBefore(l, n) {
      if IndexOf(l.key).None? && IndexOf(m.key).None? && IndexOf(n.key).None? {
        LessChains(l.key, m.key, n.key);
      }
    }
  }

  lemma DistinctIsComparable(ms: seq<Member>)
    requires DistinctKeys(ms)
    ensures Comparable(MemberBefore, ms) && Comparable(MemberLess, ms)
  {
    forall i, j | 0 <= i < j < |ms|
      ensures MemberBefore(ms[i], ms[j]) || MemberBefore(ms[j], ms[i])
      ensures MemberLess(ms[i], ms[j]) || MemberLess(ms[j], ms[i])
    {
      KeysAreDecided(ms[i].key, ms[j].key);
      LessDecides(ms[i].key, ms[j].key);
    }
  }

  // ---- sorting -----------------------------------------------------------

  /** Whether a property is in the sorted object at all. */
  predicate Kept(m: Member) {
    !m.value.Undefined? && m.key != PROTO
  }

  /** The value with the keys of every object in order. */
  function Sorted(v: Json): Json
    decreases v
  {
    match v
    case Arr(items) => Arr(seq(|items|, i requires 0 <= i < |items| => Sorted(items[i])))
    case Obj(ms) => Obj(Arranged(MemberBefore, Cleaned(ms)))
    case _ => v
  }

  /** The properties that stay, each with its value sorted. */
  function Cleaned(ms: seq<Member>): seq<Member>
    decreases ms
  {
    if ms == [] then []
    else
      var m := ms[|ms| - 1];
      Cleaned(ms[..|ms| - 1]) + if Kept(m) then [CleanedMember(m)] else []
  }

  function CleanedMember(m: Member): Member
    decreases m
  {
    Member(m.key, Sorted(m.value))
  }

  ghost predicate CleanedFrom(ms: seq<Member>, m: Member) {
    exists i | 0 <= i < |ms| :: Kept(ms[i]) && m == CleanedMember(ms[i])
  }

  lemma {:induction false} CleanedElements(ms: seq<Member>, m: Member)
    ensures m in Cleaned(ms) <==> CleanedFrom(ms, m)
  {
    if ms != [] {
      var front := ms[..|ms| - 1];
      CleanedElements(front, m);
      assert CleanedFrom(front, m) ==> CleanedFrom(ms, m) by {
        if i :| 0 <= i < |front| && Kept(front[i]) && m == CleanedMember(front[i]) {
          assert ms[i] == front[i];
        }
      }
      assert CleanedFrom(ms, m) ==> CleanedFrom(front, m) || (Kept(ms[|ms| - 1]) && m == CleanedMember(ms[|ms| - 1])) by {
        if i :| 0 <= i < |ms| && Kept(ms[i]) && m == CleanedMember(ms[i]) {
          if i < |front| {
            assert front[i] == ms[i];
          }
        }
      }
    }
  }

  lemma {:induction false} CleanedIsDistinct(ms: seq<Member>)
    requires DistinctKeys(ms)
    ensures DistinctKeys(Cleaned(ms))
  {
    if ms != [] {
      var front := ms[..|ms| - 1];
      CleanedIsDistinct(front);
      forall m | m in Cleaned(front) ensures m.key != ms[|ms| - 1].key {
        CleanedElements(front, m);
      }
    }
  }

  lemma CleaningIgnoresOrder(ms: seq<Member>, ns: seq<Member>)
    requires Elements(ms) == Elements(ns)
    ensures Elements(Cleaned(ms)) == Elements(Cleaned(ns))
  {
    forall m ensures m in Cleaned(ms) <==> m in Cleaned(ns) {
      CleanedStays(ms, ns, m);
      CleanedStays(ns, ms, m);
    }
  }

  lemma CleanedStays(ms: seq<Member>, ns: seq<Member>, m: Member)
    requires Elements(ms) == Elements(ns)
    ensures m in Cleaned(ms) ==> m in Cleaned(ns)
  {
    CleanedElements(ms, m);
    CleanedElements(ns, m);
    if i :| 0 <= i < |ms| && Kept(ms[i]) && m == CleanedMember(ms[i]) {
      assert ms[i] in Elements(ns);
    }
  }

  /** Adding a property that is not there yet to an object. */
  function Put(output: seq<Member>, m: Member): seq<Member> {
    if m.key == PROTO then output
    else if IndexOf(m.key).None? then output + [m]
    else Inserted(MemberBefore, output, m)
  }

  /** The entries of an object by code unit of their key, as the loop goes through them. */
  function Entries(ms: seq<Member>): seq<Member> {
    Arranged(MemberLess, ms)
  }

  lemma EntriesAreInOrder(ms: seq<Member>)
    requires DistinctKeys(ms)
    ensures Ordered(MemberLess, Entries(ms)) && Elements(Entries(ms)) == Elements(ms)
    ensures Elements(Cleaned(Entries(ms))) == Elements(Cleaned(ms))
  {
    MemberOrders();
    DistinctIsComparable(ms);
    ArrangedIsOrdered(MemberLess, ms);
    CleaningIgnoresOrder(Entries(ms), ms);
  }

  /** The object built from the first `n` entries. */
  ghost predicate BuiltFrom(entries: seq<Member>, n: nat, output: seq<Member>)
    requires n <= |entries|
  {
    Ordered(MemberBefore, output) && Elements(output) == Elements(Cleaned(entries[..n]))
  }

  lemma PutKeepsOrder(output: seq<Member>, m: Member)
    requires Ordered(MemberBefore, output) && m.key != PROTO && forall o | o in output :: Less(o.key, m.key)
    ensures Ordered(MemberBefore, Put(output, m)) && Elements(Put(output, m)) == Elements(output) + {m}
  {
    if IndexOf(m.key).Some? {
      MemberOrders();
      forall o | o in output ensures MemberBefore(o, m) || MemberBefore(m, o) {
        KeysAreDecided(o.key, m.key);
        LessDecides(o.key, m.key);
      }
      InsertedIsOrdered(MemberBefore, output, m);
    }
  }

  lemma EarlierKeysAreLess(entries: seq<Member>, n: nat, o: Member)
    requires n < |entries| && Ordered(MemberLess, entries) && o in Cleaned(entries[..n])
    ensures Less(o.key, entries[n].key)
  {
    CleanedElements(entries[..n], o);
    var i :| 0 <= i < n && Kept(entries[..n][i]) && o == CleanedMember(entries[..n][i]);
    assert MemberLess(entries[i], entries[n]);
  }

  lemma PutBuilds(entries: seq<Member>, n: nat, output: seq<Member>)
    requires n < |entries| && Ordered(MemberLess, entries) && BuiltFrom(entries, n, output)
    ensures BuiltFrom(entries, n + 1, if entries[n].value.Undefined? then output else Put(output, CleanedMember(entries[n])))
  {
    var m := CleanedMember(entries[n]);
    assert entries[..n + 1][..n] == entries[..n];
    if Kept(entries[n]) {
      assert Elements(Cleaned(entries[..n + 1])) == Elements(Cleaned(entries[..n])) + {m};
      forall o | o in output ensures Less(o.key, m.key) {
        assert o in Elements(Cleaned(entries[..n]));
        EarlierKeysAreLess(entries, n, o);
      }
      PutKeepsOrder(output, m);
    }
  }

  /** An object built in property order from all the entries is the sorted object. */
  lemma BuiltIsSorted(ms: seq<Member>, output: seq<Member>)
    requires DistinctKeys(ms) && BuiltFrom(Entries(ms), |Entries(ms)|, output)
    ensures Obj(output) == Sorted(Obj(ms))
  {
    assert Entries(ms)[..|Entries(ms)|] == Entries(ms);
    EntriesAreInOrder(ms);
    MemberOrders();
    CleanedIsDistinct(ms);
    DistinctIsComparable(Cleaned(ms));
    ArrangedIsOrdered(MemberBefore, Cleaned(ms));
    OrderIsUnique(MemberBefore, output, Arranged(MemberBefore, Cleaned(ms)));
  }

  /** Sorting by recursion and a loop over the keys, refusing numbers that are not finite. */
  method SortValue(v: Json) returns (r: Option<Json>)
    requires Plain(v)
    ensures r == if Finite(v) then Some(Sorted(v)) else None
    decreases v
  {
    match v {
      case NonFinite => {
        return None;
      }
      case Arr(items) => {
        var sorted: seq<Json> := [];
        for i := 0 to |items|
          invariant |sorted| == i && forall k | 0 <= k < i :: Finite(items[k]) && sorted[k] == Sorted(items[k])
        {
          var item := SortValue(items[i]);
          if item.None? {
            return None;
          }
          sorted := sorted + [item.value];
        }
        assert Arr(sorted) == Sorted(v);
        return Some(Arr(sorted));
      }
      case Obj(ms) => {
        r := SortObject(ms);
      }
      case _ => {
        return Some(v);
      }
    }
  }

  method SortObject(ms: seq<Member>) returns (r: Option<Json>)
    requires Plain(Obj(ms))
    ensures r == if Finite(Obj(ms)) then Some(Sorted(Obj(ms))) else None
    decreases ms
  {
    var entries := Entries(ms);
    EntriesAreInOrder(ms);
    var output: seq<Member> := [];
    for n := 0 to |entries|
      invariant BuiltFrom(entries, n, output)
      invariant forall k | 0 <= k < n :: Finite(entries[k].value)
    {
      var entry := entries[n];
      assert entry in Elements(ms);
      PutBuilds(entries, n, output);
      if !entry.value.Undefined? {
        var child := SortValue(entry.value);
        if child.None? {
          return None;
        }
        output := Put(output, Member(entry.key, child.value));
      }
    }
    forall i | 0 <= i < |ms| ensures Finite(ms[i].value) {
      assert ms[i] in Elements(entries);
    }
    BuiltIsSorted(ms, output);
    return Some(Obj(output));
  }

  // ---- what sorting forgets ----------------------------------------------

  /**
   The same value up to the order of properties: equal property by property, where a property without a
   value, or one that sets the prototype, is as good as none.
   */
  ghost predicate Same(a: Json, b: Json)
    decreases a
  {
    match (a, b)
    case (Arr(xs), Arr(ys)) => |xs| == |ys| && forall i | 0 <= i < |xs| :: Same(xs[i], ys[i])
    case (Obj(ms), Obj(ns)) => EachHasItsLike(ms, ns) && EachIsTheLikeOfOne(ms, ns)
    case _ => a == b
  }

  ghost predicate EachHasItsLike(ms: seq<Member>, ns: seq<Member>)
    decreases ms
  {
    forall i | 0 <= i < |ms| && IsSaid(ms[i]) ::
      exists j | 0 <= j < |ns| && IsSaid(ns[j]) :: ms[i].key == ns[j].key && Same(ms[i].value, ns[j].value)
  }

  ghost predicate EachIsTheLikeOfOne(ms: seq<Member>, ns: seq<Member>)
    decreases ms
  {
    forall j | 0 <= j < |ns| && IsSaid(ns[j]) ::
      exists i | 0 <= i < |ms| && IsSaid(ms[i]) :: ms[i].key == ns[j].key && Same(ms[i].value, ns[j].value)
  }

  /** A JSON text can say it, and assigning it leaves it in the object. */
  predicate IsSaid(m: Member) {
    m.value != Undefined && m.key != [95, 95, 112, 114, 111, 116, 111, 95, 95]
  }

  /** Sorting maps two values to one exactly when they differ in nothing but the order of properties. */
  lemma {:induction false} SortingForgetsOnlyOrder(a: Json, b: Json)
    requires Plain(a) && Plain(b)
    ensures Sorted(a) == Sorted(b) <==> Same(a, b)
    decreases a
  {
    if a.Arr? && b.Arr? {
      if |a.items| == |b.items| {
        forall i | 0 <= i < |a.items| ensures Sorted(a.items[i]) == Sorted(b.items[i]) <==> Same(a.items[i], b.items[i]) {
          SortingForgetsOnlyOrder(a.items[i], b.items[i]);
        }
      }
      SortedArraysAreEqual(a.items, b.items);
    } else if a.Obj? && b.Obj? {
      forall i, j | 0 <= i < |a.members| && 0 <= j < |b.members| && Kept(a.members[i]) && Kept(b.members[j])
        ensures Sorted(a.members[i].value) == Sorted(b.members[j].value) <==> Same(a.members[i].value, b.members[j].value)
      {
        SortingForgetsOnlyOrder(a.members[i].value, b.members[j].value);
      }
      SortedObjectsAreEqual(a.members, b.members);
      CleanedMatch(a.members, b.members);
    }
  }

  lemma SortedArraysAreEqual(xs: seq<Json>, ys: seq<Json>)
    ensures Sorted(Arr(xs)) == Sorted(Arr(ys)) <==> |xs| == |ys| && forall i | 0 <= i < |xs| :: Sorted(xs[i]) == Sorted(ys[i])
  {
    var a, b := Sorted(Arr(xs)).items, Sorted(Arr(ys)).items;
    assert forall i | 0 <= i < |xs| :: a[i] == Sorted(xs[i]);
    assert forall i | 0 <= i < |ys| :: b[i] == Sorted(ys[i]);
  }

  lemma SortedObjectsAreEqual(ms: seq<Member>, ns: seq<Member>)
    requires DistinctKeys(ms) && DistinctKeys(ns)
    ensures Sorted(Obj(ms)) == Sorted(Obj(ns)) <==> Elements(Cleaned(ms)) == Elements(Cleaned(ns))
  {
    MemberOrders();
    CleanedIsDistinct(ms);
    CleanedIsDistinct(ns);
    DistinctIsComparable(Cleaned(ms));
    DistinctIsComparable(Cleaned(ns));
    ArrangedIsOrdered(MemberBefore, Cleaned(ms));
    ArrangedIsOrdered(MemberBefore, Cleaned(ns));
    if Elements(Cleaned(ms)) == Elements(Cleaned(ns)) {
      OrderIsUnique(MemberBefore, Arranged(MemberBefore, Cleaned(ms)), Arranged(MemberBefore, Cleaned(ns)));
    }
  }

  /** Every property of `ms` that stays has its like in `ns`. */
  ghost predicate Covered(ms: seq<Member>, ns: seq<Member>) {
    forall i | 0 <= i < |ms| && Kept(ms[i]) :: CleanedFrom(ns, CleanedMember(ms[i]))
  }

  lemma CoveredIsSubset(ms: seq<Member>, ns: seq<Member>)
    ensures Elements(Cleaned(ms)) <= Elements(Cleaned(ns)) <==> Covered(ms, ns)
  {
    if Covered(ms, ns) {
      forall m | m in Cleaned(ms) ensures m in Cleaned(ns) {
        CleanedElements(ms, m);
        CleanedElements(ns, m);
      }
    }
    if Elements(Cleaned(ms)) <= Elements(Cleaned(ns)) {
      forall i | 0 <= i < |ms| && Kept(ms[i]) ensures CleanedFrom(ns, CleanedMember(ms[i])) {
        CleanedElements(ms, CleanedMember(ms[i]));
        CleanedElements(ns, CleanedMember(ms[i]));
        assert CleanedMember(ms[i]) in Elements(Cleaned(ms));
      }
    }
  }

  ghost predicate SortsLikeSame(ms: seq<Member>, ns: seq<Member>) {
    forall i, j | 0 <= i < |ms| && 0 <= j < |ns| && Kept(ms[i]) && Kept(ns[j]) ::
      Sorted(ms[i].value) == Sorted(ns[j].value) <==> Same(ms[i].value, ns[j].value)
  }

  lemma CoveredForwards(ms: seq<Member>, ns: seq<Member>)
    requires SortsLikeSame(ms, ns)
    ensures Covered(ms, ns) <==> EachHasItsLike(ms, ns)
  {
  }

  lemma CoveredBackwards(ms: seq<Member>, ns: seq<Member>)
    requires SortsLikeSame(ms, ns)
    ensures Covered(ns, ms) <==> EachIsTheLikeOfOne(ms, ns)
  {
  }

  lemma CleanedMatch(ms: seq<Member>, ns: seq<Member>)
    requires SortsLikeSame(ms, ns)
    ensures Elements(Cleaned(ms)) == Elements(Cleaned(ns)) <==> Same(Obj(ms), Obj(ns))
  {
    CoveredIsSubset(ms, ns);
    CoveredIsSubset(ns, ms);
    CoveredForwards(ms, ns);
    CoveredBackwards(ms, ns);
    ObjectsAreTheSame(ms, ns);
  }

  lemma ObjectsAreTheSame(ms: seq<Member>, ns: seq<Member>)
    ensures Same(Obj(ms), Obj(ns)) <==> EachHasItsLike(ms, ns) && EachIsTheLikeOfOne(ms, ns)
  {
  }

  // ---- sorting twice -----------------------------------------------------

  /** Sorting a sorted value changes nothing. */
  lemma {:induction false} SortingTwiceIsSortingOnce(v: Json)
    requires Plain(v)
    ensures Sorted(Sorted(v)) == Sorted(v)
    decreases v
  {
    match v {
      case Arr(items) => {
        forall i | 0 <= i < |items| ensures Sorted(Sorted(items[i])) == Sorted(items[i]) {
          SortingTwiceIsSortingOnce(items[i]);
        }
        SortedArraysAreEqual(Sorted(v).items, items);
      }
      case Obj(ms) => {
        var cleaned := Cleaned(ms);
        CleaningTwiceIsCleaningOnce(ms);
        CleanedIsDistinct(ms);
        MemberOrders();
        DistinctIsComparable(cleaned);
        ArrangedIsOrdered(MemberBefore, cleaned);
        OrderedIsDistinct(Arranged(MemberBefore, cleaned));
        CleaningIgnoresOrder(Arranged(MemberBefore, cleaned), cleaned);
        SortedObjectsAreEqual(Arranged(MemberBefore, cleaned), ms);
      }
      case _ => {
      }
    }
  }

  lemma OrderedIsDistinct(ms: seq<Member>)
    requires Ordered(MemberBefore, ms)
    ensures DistinctKeys(ms)
  {
    forall i, j | 0 <= i < j < |ms| ensures ms[i].key != ms[j].key {
      assert MemberBefore(ms[i], ms[j]);
      KeysAreDecided(ms[i].key, ms[j].key);
    }
  }

  lemma {:induction false} CleaningTwiceIsCleaningOnce(ms: seq<Member>)
    requires forall i | 0 <= i < |ms| :: ms[i].value.Undefined? || Plain(ms[i].value)
    ensures Cleaned(Cleaned(ms)) == Cleaned(ms)
    decreases ms
  {
    if ms != [] {
      var front, m := ms[..|ms| - 1], ms[|ms| - 1];
      CleaningTwiceIsCleaningOnce(front);
      if Kept(m) {
        SortingTwiceIsSortingOnce(m.value);
        assert Kept(CleanedMember(m)) && CleanedMember(CleanedMember(m)) == CleanedMember(m);
        assert Cleaned(ms)[..|Cleaned(ms)| - 1] == Cleaned(front);
      } else {
        assert Cleaned(ms) == Cleaned(front);
      }
    }
  }
}
