/**
 In which order the properties of a canonical text stand: array indices by their number, and then the other
 keys by the first code unit in which they differ, all told from the texts of the keys alone.
 */
module JsonOrder {
  import opened Arrangements
  import opened CanonicalJson
  import opened Common
  import opened JsonNumbers
  import opened JsonReader
  import opened JsonText
  import Ranges

  /** The first `k` units are common, and then `a` has ended or has the lower unit. */
  predicate PartsAt(a: Text, b: Text, k: nat) {
    k <= |a| && k < |b| && a[..k] == b[..k] && (k < |a| ==> a[k] < b[k])
  }

  predicate ComesFirst(a: Text, b: Text) {
    exists k | 0 <= k < |b| :: PartsAt(a, b, k)
  }

  /** 4294967295, which is one too many. */
  const LIMIT: Text := [52, 50, 57, 52, 57, 54, 55, 50, 57, 53]

  /** A zero or digits that do not begin with one. */
  predicate IsInteger(key: Text) {
    IntegerEnd(key, 0) == Some(|key|)
  }

  predicate IsSmaller(a: Text, b: Text) {
    |a| < |b| || (|a| == |b| && ComesFirst(a, b))
  }

  predicate IsArrayIndex(key: Text) {
    IsInteger(key) && IsSmaller(key, LIMIT)
  }

  predicate StandsBefore(a: Text, b: Text) {
    if IsArrayIndex(a) && IsArrayIndex(b) then IsSmaller(a, b)
    else IsArrayIndex(a) || (!IsArrayIndex(b) && ComesFirst(a, b))
  }

  /** In every object of the value, wherever it is. */
  ghost predicate KeysInOrder(v: Json) {
    match v
    case Arr(items) => forall i | 0 <= i < |items| :: KeysInOrder(items[i])
    case Obj(ms) =>
      && (forall i, j | 0 <= i < j < |ms| :: StandsBefore(ms[i].key, ms[j].key))
      && forall i | 0 <= i < |ms| :: KeysInOrder(ms[i].value)
    case _ => true
  }

  // ---- by code unit ------------------------------------------------------

  lemma PartsLater(a: Text, b: Text, k: nat)
    requires a != [] && b != [] && a[0] == b[0]
    ensures PartsAt(a, b, k + 1) <==> PartsAt(a[1..], b[1..], k)
  {
    if k < |a| && k < |b| {
      assert a[..k + 1] == [a[0]] + a[1..][..k] && b[..k + 1] == [b[0]] + b[1..][..k];
      assert a[1..][..k] == a[..k + 1][1..] && b[1..][..k] == b[..k + 1][1..];
    }
  }

  lemma {:induction false} LessIsFirst(a: Text, b: Text)
    ensures Less(a, b) <==> ComesFirst(a, b)
  {
    if a != [] && b != [] && a[0] == b[0] {
      LessIsFirst(a[1..], b[1..]);
      if k :| 0 <= k < |b[1..]| && PartsAt(a[1..], b[1..], k) {
        PartsLater(a, b, k);
      }
      if k :| 0 <= k < |b| && PartsAt(a, b, k) {
        PartsLater(a, b, k - 1);
      }
    } else if Less(a, b) {
      assert PartsAt(a, b, 0);
    }
  }

  // ---- by number ---------------------------------------------------------

  predicate AllDigits(key: Text) {
    forall i | 0 <= i < |key| :: IsDigit(key[i])
  }

  function Pow10(k: nat): nat {
    if k == 0 then 1 else 10 * Pow10(k - 1)
  }

  lemma {:induction false} PowersGrow(j: nat, k: nat)
    requires j <= k
    ensures 1 <= Pow10(j) <= Pow10(k)
  {
    if j < k {
      PowersGrow(j, k - 1);
    } else if k > 0 {
      PowersGrow(k - 1, k - 1);
    }
  }

  lemma {:induction false} NumberIsBelow(key: Text)
    requires AllDigits(key)
    ensures NumberOf(key) < Pow10(|key|)
  {
    if key != [] {
      NumberIsBelow(key[..|key| - 1]);
    }
  }

  lemma {:induction false} NumberIsAtLeast(key: Text)
    requires AllDigits(key) && key != [] && key[0] != 48
    ensures NumberOf(key) >= Pow10(|key| - 1)
  {
    if |key| > 1 {
      NumberIsAtLeast(key[..|key| - 1]);
    } else {
      assert NumberOf(key[..0]) == 0;
    }
  }

  lemma {:induction false} FirstHasTheSmallerNumber(a: Text, b: Text, k: nat)
    requires AllDigits(a) && AllDigits(b) && |a| == |b| && PartsAt(a, b, k)
    ensures NumberOf(a) < NumberOf(b)
  {
    var n := |a| - 1;
    if k < n {
      assert a[..n][..k] == a[..k] && b[..n][..k] == b[..k];
      FirstHasTheSmallerNumber(a[..n], b[..n], k);
    }
  }

  lemma {:induction false} DigitsStay(key: Text, at: nat)
    requires at <= |key|
    ensures DigitsEnd(key, at) == |key| <==> forall i | at <= i < |key| :: IsDigit(key[i])
    decreases |key| - at
  {
    if at < |key| && IsDigit(key[at]) {
      DigitsStay(key, at + 1);
    }
  }

  lemma IntegerIsDigits(key: Text)
    ensures IsInteger(key) <==> key != [] && AllDigits(key) && (key[0] == 48 ==> |key| == 1)
  {
    DigitsStay(key, 0);
  }

  lemma SmallerHasTheSmallerNumber(a: Text, b: Text)
    requires IsInteger(a) && IsInteger(b) && IsSmaller(a, b)
    ensures AllDigits(a) && AllDigits(b) && NumberOf(a) < NumberOf(b)
  {
    IntegerIsDigits(a);
    IntegerIsDigits(b);
    if |a| < |b| {
      NumberIsBelow(a);
      NumberIsAtLeast(b);
      PowersGrow(|a|, |b| - 1);
    } else {
      var k :| 0 <= k < |b| && PartsAt(a, b, k);
      FirstHasTheSmallerNumber(a, b, k);
    }
  }

  /** Of two integers one is smaller, if they are not the same. */
  lemma IntegersAreDecided(a: Text, b: Text)
    ensures a == b || IsSmaller(a, b) || IsSmaller(b, a)
  {
    LessIsFirst(a, b);
    LessIsFirst(b, a);
    LessDecides(a, b);
  }

  lemma SmallerExactly(a: Text, b: Text)
    requires IsInteger(a) && IsInteger(b)
    ensures AllDigits(a) && AllDigits(b)
    ensures IsSmaller(a, b) <==> NumberOf(a) < NumberOf(b)
    ensures a == b <==> NumberOf(a) == NumberOf(b)
  {
    IntegerIsDigits(a);
    IntegerIsDigits(b);
    IntegersAreDecided(a, b);
    if IsSmaller(a, b) {
      SmallerHasTheSmallerNumber(a, b);
    }
    if IsSmaller(b, a) {
      SmallerHasTheSmallerNumber(b, a);
    }
  }

  lemma {:induction false} SameNumber(key: Text, digits: string)
    requires |key| == |digits| && AllDigits(key) && Ranges.AllDigits(digits)
    requires forall i | 0 <= i < |key| :: key[i] as int == digits[i] as int
    ensures NumberOf(key) == Ranges.Number(digits)
  {
    if key != [] {
      SameNumber(key[..|key| - 1], digits[..|digits| - 1]);
    }
  }

  lemma {:induction false} DecimalDoesNotPad(n: nat)
    ensures Ranges.Decimal(n)[0] == '0' ==> n == 0
  {
    if n >= 10 {
      DecimalDoesNotPad(n / 10);
    }
  }

  /** The digits of a number are an integer, and stand for it. */
  lemma DigitsAreAnInteger(n: nat)
    ensures IsInteger(DigitsOf(n)) && AllDigits(DigitsOf(n)) && NumberOf(DigitsOf(n)) == n
  {
    var key := DigitsOf(n);
    Ranges.NumberUndoesDecimal(n);
    SameNumber(key, Ranges.Decimal(n));
    DecimalDoesNotPad(n);
    IntegerIsDigits(key);
  }

  lemma OneDigitMore(key: Text, n: nat)
    requires n < |key| && AllDigits(key)
    ensures NumberOf(key[..n + 1]) == 10 * NumberOf(key[..n]) + (key[n] as int - 48)
  {
    assert key[..n + 1][..n] == key[..n];
  }

  lemma FiveDigits(key: Text, n: nat)
    requires n + 5 <= |key| && AllDigits(key)
    ensures NumberOf(key[..n + 5]) == 100000 * NumberOf(key[..n]) + 10000 * (key[n] as int - 48) + 1000 * (key[n + 1] as int - 48)
                                      + 100 * (key[n + 2] as int - 48) + 10 * (key[n + 3] as int - 48) + (key[n + 4] as int - 48)
  {
    OneDigitMore(key, n);
    OneDigitMore(key, n + 1);
    OneDigitMore(key, n + 2);
    OneDigitMore(key, n + 3);
    OneDigitMore(key, n + 4);
  }

  lemma LimitIsTheLimit(limit: Text)
    requires limit == LIMIT
    ensures IsInteger(limit) && AllDigits(limit) && NumberOf(limit) == 0xFFFF_FFFF
  {
    IntegerIsDigits(limit);
    FiveDigits(limit, 0);
    FiveDigits(limit, 5);
    assert limit[..0] == [] && limit[..10] == limit;
  }

  /** What the object takes for an array index is what the text shows to be one. */
  lemma IndexIsArrayIndex(key: Text)
    ensures IndexOf(key).Some? <==> IsArrayIndex(key)
    ensures IndexOf(key).Some? ==> AllDigits(key) && IndexOf(key).value == NumberOf(key)
  {
    LimitIsTheLimit(LIMIT);
    IntegerIsDigits(key);
    if AllDigits(key) {
      DigitsAreAnInteger(NumberOf(key));
    }
    if IsInteger(key) {
      SmallerExactly(key, LIMIT);
      SmallerExactly(key, DigitsOf(NumberOf(key)));
    }
  }

  lemma OrderIsTextual(a: Text, b: Text)
    ensures KeyBefore(a, b) <==> StandsBefore(a, b)
  {
    IndexIsArrayIndex(a);
    IndexIsArrayIndex(b);
    LessIsFirst(a, b);
    if IsArrayIndex(a) && IsArrayIndex(b) {
      SmallerExactly(a, b);
    }
  }

  // ---- the canonical text ------------------------------------------------

  lemma {:induction false} SortedIsInOrder(v: Json)
    requires Plain(v)
    ensures KeysInOrder(Sorted(v)) && Plain(Sorted(v))
    decreases v
  {
    match v {
      case Arr(items) => {
        forall i | 0 <= i < |items| ensures KeysInOrder(Sorted(items[i])) && Plain(Sorted(items[i])) {
          SortedIsInOrder(items[i]);
        }
      }
      case Obj(ms) => {
        forall m | m in Cleaned(ms) ensures KeysInOrder(m.value) && Plain(m.value) {
          CleanedElements(ms, m);
          var i :| 0 <= i < |ms| && Kept(ms[i]) && m == CleanedMember(ms[i]);
          SortedIsInOrder(ms[i].value);
        }
        MembersAreInOrder(ms);
      }
      case _ => {
      }
    }
  }

  lemma MembersAreInOrder(ms: seq<Member>)
    requires DistinctKeys(ms) && forall m | m in Cleaned(ms) :: KeysInOrder(m.value) && Plain(m.value)
    ensures KeysInOrder(Sorted(Obj(ms))) && Plain(Sorted(Obj(ms)))
  {
    var sorted := Arranged(MemberBefore, Cleaned(ms));
    MemberOrders();
    CleanedIsDistinct(ms);
    DistinctIsComparable(Cleaned(ms));
    ArrangedIsOrdered(MemberBefore, Cleaned(ms));
    OrderedIsDistinct(sorted);
    forall i, j | 0 <= i < j < |sorted| ensures StandsBefore(sorted[i].key, sorted[j].key) {
      OrderIsTextual(sorted[i].key, sorted[j].key);
    }
    forall i | 0 <= i < |sorted| ensures KeysInOrder(sorted[i].value) && Plain(sorted[i].value) {
      assert sorted[i] in Elements(Cleaned(ms));
    }
  }

  /**
   The canonical text of a value is a JSON text without insignificant whitespace, which says that value up to
   the order of properties, with the keys of every object in order.
   */
  lemma CanonicalTextIsJson(v: Json)
    requires Plain(v) && Finite(v)
    ensures var r := ReadValue(CanonicalText(v));
            r.Some? && r.value.1 == [] && Same(v, r.value.0) && KeysInOrder(r.value.0)
  {
    SortedIsPrintable(v);
    PrintIsRead(Sorted(v), []);
    SortedIsInOrder(v);
    SortingTwiceIsSortingOnce(v);
    SortingForgetsOnlyOrder(v, Sorted(v));
  }
}
