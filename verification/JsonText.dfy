/**
 The text of a canonical value, written as the language's own serializer writes it, and why no two values
 share a text: reading from the left, every unit decides what comes next.
 */
module JsonText {
  import opened Arrangements
  import opened CanonicalJson
  import opened Common
  import opened JsonNumbers

  const QUOTE: Unit := 34
  const COMMA: Unit := 44
  const MINUS: Unit := 45
  const COLON: Unit := 58
  const OPEN_BRACKET: Unit := 91
  const BACKSLASH: Unit := 92
  const CLOSE_BRACKET: Unit := 93
  const OPEN_BRACE: Unit := 123
  const CLOSE_BRACE: Unit := 125

  const NULL_TEXT: Text := [110, 117, 108, 108]
  const TRUE_TEXT: Text := [116, 114, 117, 101]
  const FALSE_TEXT: Text := [102, 97, 108, 115, 101]

  // ---- strings -----------------------------------------------------------

  predicate IsHigh(u: Unit) {
    0xD800 <= u <= 0xDBFF
  }

  predicate IsLow(u: Unit) {
    0xDC00 <= u <= 0xDFFF
  }

  /** A high surrogate with its low one. */
  predicate StartsWithPair(s: Text) {
    |s| >= 2 && IsHigh(s[0]) && IsLow(s[1])
  }

  function HexDigit(d: int): Unit
    requires 0 <= d < 16
  {
    if d < 10 then (48 + d) as Unit else (87 + d) as Unit
  }

  function Hex(u: Unit): Text {
    var n := u as int;
    [HexDigit(n / 0x1000), HexDigit(n / 0x100 % 0x10), HexDigit(n / 0x10 % 0x10), HexDigit(n % 0x10)]
  }

  /** One unit inside a string; a surrogate that is not part of a pair is escaped. */
  function Escaped(u: Unit): Text {
    if u == QUOTE || u == BACKSLASH then [BACKSLASH, u]
    else if u == 8 then [BACKSLASH, 98]
    else if u == 9 then [BACKSLASH, 116]
    else if u == 10 then [BACKSLASH, 110]
    else if u == 12 then [BACKSLASH, 102]
    else if u == 13 then [BACKSLASH, 114]
    else if u < 32 || IsHigh(u) || IsLow(u) then [BACKSLASH, 117] + Hex(u)
    else [u]
  }

  /** The inside of a string, followed by `rest`. */
  function PrintUnits(s: Text, rest: Text): Text {
    if s == [] then rest
    else if StartsWithPair(s) then s[..2] + PrintUnits(s[2..], rest)
    else Escaped(s[0]) + PrintUnits(s[1..], rest)
  }

  function PrintString(s: Text, rest: Text): Text {
    [QUOTE] + PrintUnits(s, [QUOTE] + rest)
  }

  // ---- values ------------------------------------------------------------

  /** The text of a value, followed by `rest`. */
  function Print(v: Json, rest: Text): Text
    decreases v
  {
    match v
    case Bool(flag) => (if flag then TRUE_TEXT else FALSE_TEXT) + rest
    case Num(decimal) => decimal + rest
    case Str(s) => PrintString(s, rest)
    case Arr(items) =>
      [OPEN_BRACKET] + if items == [] then [CLOSE_BRACKET] + rest else Print(items[0], PrintItems(items[1..], rest))
    case Obj(ms) =>
      [OPEN_BRACE] + if ms == [] then [CLOSE_BRACE] + rest else PrintMember(ms[0], PrintMembers(ms[1..], rest))
    case _ => NULL_TEXT + rest
  }

  /** The items of an array after the first, and its end. */
  function PrintItems(items: seq<Json>, rest: Text): Text
    decreases items
  {
    if items == [] then [CLOSE_BRACKET] + rest else [COMMA] + Print(items[0], PrintItems(items[1..], rest))
  }

  function PrintMember(m: Member, rest: Text): Text
    decreases m
  {
    PrintString(m.key, [COLON] + Print(m.value, rest))
  }

  /** The properties of an object after the first, and its end. */
  function PrintMembers(ms: seq<Member>, rest: Text): Text
    decreases ms
  {
    if ms == [] then [CLOSE_BRACE] + rest else [COMMA] + PrintMember(ms[0], PrintMembers(ms[1..], rest))
  }

  /** What signing and verifying work on. */
  function CanonicalText(v: Json): Text {
    Print(Sorted(v), [])
  }

  /** Nothing that the serializer would leave out or print as something else. */
  ghost predicate Printable(v: Json) {
    match v
    case Undefined => false
    case NonFinite => false
    case Num(decimal) => IsNumberText(decimal)
    case Arr(items) => forall i | 0 <= i < |items| :: Printable(items[i])
    case Obj(ms) => forall i | 0 <= i < |ms| :: Printable(ms[i].value)
    case _ => true
  }

  // ---- reading strings back ----------------------------------------------

  lemma Cut(p: Text, q: Text, x: Text, y: Text)
    requires p + x == q + y && |p| == |q|
    ensures p == q && x == y
  {
    assert p == (p + x)[..|p|] && q == (q + y)[..|q|];
    assert x == (p + x)[|p|..] && y == (q + y)[|q|..];
  }

  lemma HexIsUnique(u: Unit, w: Unit)
    requires Hex(u) == Hex(w)
    ensures u == w
  {
    assert forall n | 0 <= n < 4 :: Hex(u)[n] == Hex(w)[n];
    DigitsMakeTheUnit(u as int, w as int);
  }

  lemma DigitsMakeTheUnit(m: int, n: int)
    requires 0 <= m < 0x1_0000 && 0 <= n < 0x1_0000
    requires m / 0x1000 == n / 0x1000 && m / 0x100 % 0x10 == n / 0x100 % 0x10
    requires m / 0x10 % 0x10 == n / 0x10 % 0x10 && m % 0x10 == n % 0x10
    ensures m == n
  {
    DigitsAddUp(m);
    DigitsAddUp(n);
  }

  lemma DigitsAddUp(m: int)
    requires 0 <= m < 0x1_0000
    ensures m == m / 0x1000 * 0x1000 + m / 0x100 % 0x10 * 0x100 + m / 0x10 % 0x10 * 0x10 + m % 0x10
  {
    assert m / 0x10 / 0x10 == m / 0x100;
    assert m / 0x100 / 0x10 == m / 0x1000;
  }

  /** Which unit an escape stands for can be told from its text. */
  lemma EscapeReads(u: Unit, w: Unit, x: Text, y: Text)
    requires Escaped(u) + x == Escaped(w) + y
    ensures u == w && x == y
  {
    assert (Escaped(u) + x)[0] == Escaped(u)[0] && (Escaped(w) + y)[0] == Escaped(w)[0];
    if |Escaped(u)| > 1 {
      assert (Escaped(u) + x)[1] == Escaped(u)[1] && (Escaped(w) + y)[1] == Escaped(w)[1];
      Cut(Escaped(u), Escaped(w), x, y);
      if |Escaped(u)| == 6 {
        assert Hex(u) == Escaped(u)[2..] && Hex(w) == Escaped(w)[2..];
        HexIsUnique(u, w);
      }
    } else {
      Cut(Escaped(u), Escaped(w), x, y);
    }
  }

  lemma UnitsStart(s: Text, rest: Text)
    requires s != []
    ensures PrintUnits(s, rest) != [] && PrintUnits(s, rest)[0] != QUOTE
    ensures IsHigh(PrintUnits(s, rest)[0]) <==> StartsWithPair(s)
  {
  }

  /** The inside of a string ends at the first quote that is not escaped. */
  lemma {:induction false} UnitsRead(s: Text, t: Text, x: Text, y: Text)
    requires PrintUnits(s, [QUOTE] + x) == PrintUnits(t, [QUOTE] + y)
    ensures s == t && x == y
  {
    if s != [] {
      UnitsStart(s, [QUOTE] + x);
    }
    if t != [] {
      UnitsStart(t, [QUOTE] + y);
    }
    if s == [] {
      Cut([QUOTE], [QUOTE], x, y);
    } else if StartsWithPair(s) {
      Cut(s[..2], t[..2], PrintUnits(s[2..], [QUOTE] + x), PrintUnits(t[2..], [QUOTE] + y));
      UnitsRead(s[2..], t[2..], x, y);
      assert s == s[..2] + s[2..] && t == t[..2] + t[2..];
    } else {
      EscapeReads(s[0], t[0], PrintUnits(s[1..], [QUOTE] + x), PrintUnits(t[1..], [QUOTE] + y));
      UnitsRead(s[1..], t[1..], x, y);
      assert s == [s[0]] + s[1..] && t == [t[0]] + t[1..];
    }
  }

  lemma StringReads(s: Text, t: Text, x: Text, y: Text)
    requires PrintString(s, x) == PrintString(t, y)
    ensures s == t && x == y
  {
    Cut([QUOTE], [QUOTE], PrintUnits(s, [QUOTE] + x), PrintUnits(t, [QUOTE] + y));
    UnitsRead(s, t, x, y);
  }

  // ---- reading numbers back ----------------------------------------------

  lemma NumberEnds(m: Text, n: Text, x: Text, y: Text)
    requires m + x == n + y && EndsNumber(x) && forall i | 0 <= i < |n| :: IsNumberUnit(n[i])
    ensures |n| <= |m|
  {
    var k, text := |m|, m + x;
    assert forall i | 0 <= i < |n| :: text[i] == (n + y)[i] == n[i];
    assert k < |text| ==> text[k] == x[0];
  }

  /** A number ends where its units end. */
  lemma NumberReads(m: Text, n: Text, x: Text, y: Text)
    requires m + x == n + y && EndsNumber(x) && EndsNumber(y) && IsNumberText(m) && IsNumberText(n)
    ensures m == n && x == y
  {
    NumberEnds(m, n, x, y);
    NumberEnds(n, m, y, x);
    Cut(m, n, x, y);
  }

  // ---- reading values back -----------------------------------------------

  /** What the first unit of a text says about the value. */
  predicate StartsAs(v: Json, u: Unit) {
    match v
    case Bool(flag) => u == if flag then 116 else 102
    case Num(_) => IsDigit(u) || u == MINUS
    case Str(_) => u == QUOTE
    case Arr(_) => u == OPEN_BRACKET
    case Obj(_) => u == OPEN_BRACE
    case _ => u == 110
  }

  lemma PrintStarts(v: Json, rest: Text)
    requires v.Num? ==> IsNumberText(v.decimal)
    ensures Print(v, rest) != [] && StartsAs(v, Print(v, rest)[0])
  {
    if v.Num? {
      assert (v.decimal + rest)[0] == v.decimal[0];
    }
  }

  lemma ItemsStart(items: seq<Json>, rest: Text)
    ensures PrintItems(items, rest) != []
    ensures PrintItems(items, rest)[0] == if items == [] then CLOSE_BRACKET else COMMA
  {
  }

  lemma MembersStart(ms: seq<Member>, rest: Text)
    ensures PrintMembers(ms, rest) != []
    ensures PrintMembers(ms, rest)[0] == if ms == [] then CLOSE_BRACE else COMMA
  {
  }

  /** A text determines the value it begins with, and what follows it. */
  lemma {:induction false} ValueReads(a: Json, b: Json, x: Text, y: Text)
    requires Printable(a) && Printable(b) && EndsNumber(x) && EndsNumber(y) && Print(a, x) == Print(b, y)
    ensures a == b && x == y
    decreases a
  {
    PrintStarts(a, x);
    PrintStarts(b, y);
    match a {
      case Null => {
        Cut(NULL_TEXT, NULL_TEXT, x, y);
      }
      case Bool(flag) => {
        var text := if flag then TRUE_TEXT else FALSE_TEXT;
        Cut(text, text, x, y);
      }
      case Num(decimal) => {
        NumberReads(decimal, b.decimal, x, y);
      }
      case Str(s) => {
        StringReads(s, b.text, x, y);
      }
      case Arr(items) => {
        ArrayReads(items, b.items, x, y);
      }
      case Obj(ms) => {
        ObjectReads(ms, b.members, x, y);
      }
    }
  }

  lemma {:induction false} ArrayReads(xs: seq<Json>, ys: seq<Json>, x: Text, y: Text)
    requires Printable(Arr(xs)) && Printable(Arr(ys)) && Print(Arr(xs), x) == Print(Arr(ys), y)
    ensures xs == ys && x == y
    decreases xs, 1
  {
    var insideX := Print(Arr(xs), x)[1..];
    var insideY := Print(Arr(ys), y)[1..];
    assert insideX == if xs == [] then [CLOSE_BRACKET] + x else Print(xs[0], PrintItems(xs[1..], x));
    assert insideY == if ys == [] then [CLOSE_BRACKET] + y else Print(ys[0], PrintItems(ys[1..], y));
    if xs != [] {
      PrintStarts(xs[0], PrintItems(xs[1..], x));
    }
    if ys != [] {
      PrintStarts(ys[0], PrintItems(ys[1..], y));
    }
    if xs == [] {
      Cut([CLOSE_BRACKET], [CLOSE_BRACKET], x, y);
    } else {
      ValueReads(xs[0], ys[0], PrintItems(xs[1..], x), PrintItems(ys[1..], y));
      ItemsRead(xs[1..], ys[1..], x, y);
      assert xs == [xs[0]] + xs[1..] && ys == [ys[0]] + ys[1..];
    }
  }

  lemma {:induction false} ItemsRead(xs: seq<Json>, ys: seq<Json>, x: Text, y: Text)
    requires Printable(Arr(xs)) && Printable(Arr(ys)) && PrintItems(xs, x) == PrintItems(ys, y)
    ensures xs == ys && x == y
    decreases xs
  {
    ItemsStart(xs, x);
    ItemsStart(ys, y);
    if xs == [] {
      Cut([CLOSE_BRACKET], [CLOSE_BRACKET], x, y);
    } else {
      var restX, restY := PrintItems(xs[1..], x), PrintItems(ys[1..], y);
      Cut([COMMA], [COMMA], Print(xs[0], restX), Print(ys[0], restY));
      ValueReads(xs[0], ys[0], restX, restY);
      ItemsRead(xs[1..], ys[1..], x, y);
      assert xs == [xs[0]] + xs[1..] && ys == [ys[0]] + ys[1..];
    }
  }

  lemma {:induction false} MemberReads(m: Member, n: Member, x: Text, y: Text)
    requires Printable(m.value) && Printable(n.value) && EndsNumber(x) && EndsNumber(y)
    requires PrintMember(m, x) == PrintMember(n, y)
    ensures m == n && x == y
    decreases m
  {
    StringReads(m.key, n.key, [COLON] + Print(m.value, x), [COLON] + Print(n.value, y));
    Cut([COLON], [COLON], Print(m.value, x), Print(n.value, y));
    ValueReads(m.value, n.value, x, y);
  }

  lemma {:induction false} ObjectReads(ms: seq<Member>, ns: seq<Member>, x: Text, y: Text)
    requires Printable(Obj(ms)) && Printable(Obj(ns)) && Print(Obj(ms), x) == Print(Obj(ns), y)
    ensures ms == ns && x == y
    decreases ms, 1
  {
    var insideX := Print(Obj(ms), x)[1..];
    var insideY := Print(Obj(ns), y)[1..];
    assert insideX == if ms == [] then [CLOSE_BRACE] + x else PrintMember(ms[0], PrintMembers(ms[1..], x));
    assert insideY == if ns == [] then [CLOSE_BRACE] + y else PrintMember(ns[0], PrintMembers(ns[1..], y));
    assert insideX[0] == if ms == [] then CLOSE_BRACE else QUOTE;
    assert insideY[0] == if ns == [] then CLOSE_BRACE else QUOTE;
    if ms == [] {
      Cut([CLOSE_BRACE], [CLOSE_BRACE], x, y);
    } else {
      MemberReads(ms[0], ns[0], PrintMembers(ms[1..], x), PrintMembers(ns[1..], y));
      MembersRead(ms[1..], ns[1..], x, y);
      assert ms == [ms[0]] + ms[1..] && ns == [ns[0]] + ns[1..];
    }
  }

  lemma {:induction false} MembersRead(ms: seq<Member>, ns: seq<Member>, x: Text, y: Text)
    requires Printable(Obj(ms)) && Printable(Obj(ns)) && PrintMembers(ms, x) == PrintMembers(ns, y)
    ensures ms == ns && x == y
    decreases ms
  {
    MembersStart(ms, x);
    MembersStart(ns, y);
    if ms == [] {
      Cut([CLOSE_BRACE], [CLOSE_BRACE], x, y);
    } else {
      var restX, restY := PrintMembers(ms[1..], x), PrintMembers(ns[1..], y);
      Cut([COMMA], [COMMA], PrintMember(ms[0], restX), PrintMember(ns[0], restY));
      MemberReads(ms[0], ns[0], restX, restY);
      MembersRead(ms[1..], ns[1..], x, y);
      assert ms == [ms[0]] + ms[1..] && ns == [ns[0]] + ns[1..];
    }
  }

  // ---- the text as a key -------------------------------------------------

  lemma {:induction false} SortedIsPrintable(v: Json)
    requires Plain(v) && Finite(v)
    ensures Printable(Sorted(v))
    decreases v
  {
    match v {
      case Arr(items) => {
        forall i | 0 <= i < |items| ensures Printable(Sorted(items[i])) {
          SortedIsPrintable(items[i]);
        }
      }
      case Obj(ms) => {
        MemberOrders();
        CleanedIsDistinct(ms);
        DistinctIsComparable(Cleaned(ms));
        ArrangedIsOrdered(MemberBefore, Cleaned(ms));
        forall m | m in Arranged(MemberBefore, Cleaned(ms)) ensures Printable(m.value) {
          assert m in Elements(Cleaned(ms));
          CleanedElements(ms, m);
          var i :| 0 <= i < |ms| && Kept(ms[i]) && m == CleanedMember(ms[i]);
          SortedIsPrintable(ms[i].value);
        }
      }
      case _ => {
      }
    }
  }

  /** Two values have the same canonical text if and only if they are the same up to the order of properties. */
  lemma CanonicalTextIsAFaithfulKey(a: Json, b: Json)
    requires Plain(a) && Finite(a) && Plain(b) && Finite(b)
    ensures CanonicalText(a) == CanonicalText(b) <==> Same(a, b)
  {
    if CanonicalText(a) == CanonicalText(b) {
      SortedIsPrintable(a);
      SortedIsPrintable(b);
      ValueReads(Sorted(a), Sorted(b), [], []);
    }
    SortingForgetsOnlyOrder(a, b);
  }

  /** A property named `__proto__` does not make it into the text, whatever its value. */
  lemma ProtoPropertyIsLost(v: Json)
    requires Plain(v) && Finite(v)
    ensures CanonicalText(Obj([Member(PROTO, v)])) == CanonicalText(Obj([]))
  {
    CanonicalTextIsAFaithfulKey(Obj([Member(PROTO, v)]), Obj([]));
  }

  /** The canonical text, or a refusal when some number in the value is not finite. */
  method Canonicalize(v: Json) returns (r: Option<Text>)
    requires Plain(v)
    ensures r == if Finite(v) then Some(CanonicalText(v)) else None
  {
    var sorted := SortValue(v);
    r := if sorted.None? then None else Some(Print(sorted.value, []));
  }
}
