/**
 A reader of JSON texts (RFC 8259), and what it makes of canonical ones. The grammar is that of the standard
 without its optional whitespace, so a text it reads to the end has no insignificant whitespace.
 */
module JsonReader {
  import opened Arrangements
  import opened CanonicalJson
  import opened Common
  import opened JsonNumbers
  import opened JsonText

  // ---- strings, section 7 ------------------------------------------------

  function HexValue(u: Unit): Option<int> {
    if 48 <= u <= 57 then Some(u as int - 48)
    else if 65 <= u <= 70 then Some(u as int - 55)
    else if 97 <= u <= 102 then Some(u as int - 87)
    else None
  }

  /** The unit that four hexadecimal digits stand for. */
  function ReadHex(s: Text): Option<int> {
    if |s| < 4 then None
    else
      match (HexValue(s[0]), HexValue(s[1]), HexValue(s[2]), HexValue(s[3]))
      case (Some(a), Some(b), Some(c), Some(d)) => Some(0x1000 * a + 0x100 * b + 0x10 * c + d)
      case _ => None
  }

  /** The unit an escape of two units stands for. */
  function ReadShort(u: Unit): Option<Unit> {
    if u == 34 || u == 92 || u == 47 then Some(u)
    else if u == 98 then Some(8)
    else if u == 102 then Some(12)
    else if u == 110 then Some(10)
    else if u == 114 then Some(13)
    else if u == 116 then Some(9)
    else None
  }

  function Preceded(units: Text, r: Option<(Text, Text)>): Option<(Text, Text)> {
    if r.None? then None else Some((units + r.value.0, r.value.1))
  }

  /** The inside of a string up to its closing quote, and what follows. Surrogates come in pairs or escaped. */
  function ReadUnits(s: Text): (r: Option<(Text, Text)>)
    ensures r.Some? ==> |r.value.1| < |s|
    decreases |s|
  {
    if s == [] || s[0] < 32 then None
    else if s[0] == 34 then Some(([], s[1..]))
    else if s[0] == 92 then
      if |s| == 1 then None
      else if s[1] == 117 then
        var u := ReadHex(s[2..]);
        if u.None? || !(0 <= u.value < 0x1_0000) then None else Preceded([u.value as Unit], ReadUnits(s[6..]))
      else if ReadShort(s[1]).None? then None
      else Preceded([ReadShort(s[1]).value], ReadUnits(s[2..]))
    else if 0xD800 <= s[0] <= 0xDBFF then
      if |s| > 1 && 0xDC00 <= s[1] <= 0xDFFF then Preceded(s[..2], ReadUnits(s[2..])) else None
    else if 0xDC00 <= s[0] <= 0xDFFF then None
    else Preceded([s[0]], ReadUnits(s[1..]))
  }

  // ---- values, sections 3 to 5 -------------------------------------------

  const TRUE_LITERAL: Text := [116, 114, 117, 101]
  const FALSE_LITERAL: Text := [102, 97, 108, 115, 101]
  const NULL_LITERAL: Text := [110, 117, 108, 108]

  function ReadWord(s: Text): (r: Option<(Json, Text)>)
    ensures r.Some? ==> |r.value.1| < |s|
  {
    if TRUE_LITERAL <= s then Some((Bool(true), s[4..]))
    else if FALSE_LITERAL <= s then Some((Bool(false), s[5..]))
    else if NULL_LITERAL <= s then Some((Null, s[4..]))
    else
      var end := NumberEnd(s);
      if end.None? then None else Some((Num(s[..end.value]), s[end.value..]))
  }

  /** The value a text begins with, and what follows it. */
  function ReadValue(s: Text): (r: Option<(Json, Text)>)
    ensures r.Some? ==> |r.value.1| < |s|
    decreases |s|, 0
  {
    if s == [] then None
    else if s[0] == 34 then
      var r := ReadUnits(s[1..]);
      if r.None? then None else Some((Str(r.value.0), r.value.1))
    else if s[0] == 91 then
      if |s| > 1 && s[1] == 93 then Some((Arr([]), s[2..]))
      else
        var r := ReadItems(s[1..]);
        if r.None? then None else Some((Arr(r.value.0), r.value.1))
    else if s[0] == 123 then
      if |s| > 1 && s[1] == 125 then Some((Obj([]), s[2..]))
      else
        var r := ReadMembers(s[1..]);
        if r.None? then None else Some((Obj(r.value.0), r.value.1))
    else ReadWord(s)
  }

  /** Values with commas between them, and the closing bracket. */
  function ReadItems(s: Text): (r: Option<(seq<Json>, Text)>)
    ensures r.Some? ==> |r.value.1| < |s|
    decreases |s|, 1
  {
    var first := ReadValue(s);
    if first.None? || first.value.1 == [] then None
    else
      var after := first.value.1;
      if after[0] == 93 then Some(([first.value.0], after[1..]))
      else if after[0] != 44 then None
      else
        var more := ReadItems(after[1..]);
        if more.None? then None else Some(([first.value.0] + more.value.0, more.value.1))
  }

  /** A key, a colon and a value. */
  function ReadMember(s: Text): (r: Option<(Member, Text)>)
    ensures r.Some? ==> |r.value.1| < |s|
    decreases |s|, 1
  {
    if s == [] || s[0] != 34 then None
    else
      var key := ReadUnits(s[1..]);
      if key.None? || key.value.1 == [] || key.value.1[0] != 58 then None
      else
        var value := ReadValue(key.value.1[1..]);
        if value.None? then None else Some((Member(key.value.0, value.value.0), value.value.1))
  }

  /** Members with commas between them, and the closing brace. */
  function ReadMembers(s: Text): (r: Option<(seq<Member>, Text)>)
    ensures r.Some? ==> |r.value.1| < |s|
    decreases |s|, 2
  {
    var first := ReadMember(s);
    if first.None? || first.value.1 == [] then None
    else
      var after := first.value.1;
      if after[0] == 125 then Some(([first.value.0], after[1..]))
      else if after[0] != 44 then None
      else
        var more := ReadMembers(after[1..]);
        if more.None? then None else Some(([first.value.0] + more.value.0, more.value.1))
  }

  // ---- what is printed is read back --------------------------------------

  lemma HexDigitReads(d: int)
    requires 0 <= d < 16
    ensures HexValue(HexDigit(d)) == Some(d)
  {
  }

  lemma HexReads(u: Unit, rest: Text)
    ensures ReadHex(Hex(u) + rest) == Some(u as int)
  {
    var n := u as int;
    var s := Hex(u) + rest;
    assert s[0] == HexDigit(n / 0x1000) && s[1] == HexDigit(n / 0x100 % 0x10);
    assert s[2] == HexDigit(n / 0x10 % 0x10) && s[3] == HexDigit(n % 0x10);
    HexDigitReads(n / 0x1000);
    HexDigitReads(n / 0x100 % 0x10);
    HexDigitReads(n / 0x10 % 0x10);
    HexDigitReads(n % 0x10);
    DigitsAddUp(n);
  }

  /** One unit that is not the first of a pair, however it is written. */
  lemma EscapedIsRead(u: Unit, rest: Text)
    ensures ReadUnits(Escaped(u) + rest) == Preceded([u], ReadUnits(rest))
  {
    var s := Escaped(u) + rest;
    assert s[0] == Escaped(u)[0] && s[|Escaped(u)|..] == rest;
    if |Escaped(u)| == 2 {
      assert s[1] == Escaped(u)[1];
    } else if |Escaped(u)| == 6 {
      assert s[1] == Escaped(u)[1] == 117;
      assert s[2..] == Hex(u) + rest;
      HexReads(u, rest);
    }
  }

  lemma {:induction false} UnitsAreRead(text: Text, rest: Text)
    ensures ReadUnits(PrintUnits(text, [34] + rest)) == Some((text, rest))
  {
    if text == [] {
      assert ([34] + rest)[1..] == rest;
    } else if StartsWithPair(text) {
      UnitsAreRead(text[2..], rest);
      var s := text[..2] + PrintUnits(text[2..], [34] + rest);
      assert s[..2] == text[..2] && s[2..] == PrintUnits(text[2..], [34] + rest);
      assert text[..2] + text[2..] == text;
    } else {
      UnitsAreRead(text[1..], rest);
      EscapedIsRead(text[0], PrintUnits(text[1..], [34] + rest));
      assert [text[0]] + text[1..] == text;
    }
  }

  lemma WordIsRead(v: Json, rest: Text)
    requires Printable(v) && EndsNumber(rest) && (v.Null? || v.Bool? || v.Num?)
    ensures ReadValue(Print(v, rest)) == Some((v, rest))
  {
    var s := Print(v, rest);
    if v.Num? {
      NumberEndsThere(v.decimal, rest);
      assert s[0] == v.decimal[0] && s[..|v.decimal|] == v.decimal && s[|v.decimal|..] == rest;
    } else {
      var word := if v.Null? then NULL_LITERAL else if v.flag then TRUE_LITERAL else FALSE_LITERAL;
      assert s == word + rest && s[..|word|] == word && s[|word|..] == rest && s[0] == word[0];
    }
  }

  /** The reader gives back the value that was printed, and exactly what followed it. */
  lemma {:induction false} PrintIsRead(v: Json, rest: Text)
    requires Printable(v) && EndsNumber(rest)
    ensures ReadValue(Print(v, rest)) == Some((v, rest))
    decreases v, 1
  {
    var s := Print(v, rest);
    match v {
      case Str(text) => {
        assert s[1..] == PrintUnits(text, [34] + rest);
        UnitsAreRead(text, rest);
      }
      case Arr(items) => {
        if items == [] {
          assert s[1..] == [93] + rest && s[2..] == rest;
        } else {
          assert s[1..] == Print(items[0], PrintItems(items[1..], rest));
          PrintStarts(items[0], PrintItems(items[1..], rest));
          assert items == [items[0]] + items[1..];
          ItemsAreRead(items, rest);
        }
      }
      case Obj(ms) => {
        if ms == [] {
          assert s[1..] == [125] + rest && s[2..] == rest;
        } else {
          assert s[1..] == PrintMember(ms[0], PrintMembers(ms[1..], rest));
          MembersAreRead(ms, rest);
        }
      }
      case _ => {
        WordIsRead(v, rest);
      }
    }
  }

  lemma {:induction false} ItemsAreRead(items: seq<Json>, rest: Text)
    requires items != [] && Printable(Arr(items))
    ensures ReadItems(Print(items[0], PrintItems(items[1..], rest))) == Some((items, rest))
    decreases items, 0
  {
    var after := PrintItems(items[1..], rest);
    ItemsStart(items[1..], rest);
    PrintIsRead(items[0], after);
    if |items| == 1 {
      assert after == [93] + rest && after[1..] == rest && items == [items[0]];
    } else {
      assert items[1..][1..] == items[2..] && items == [items[0]] + items[1..];
      assert after[1..] == Print(items[1], PrintItems(items[2..], rest));
      ItemsAreRead(items[1..], rest);
    }
  }

  lemma {:induction false} MemberIsRead(m: Member, rest: Text)
    requires Printable(m.value) && EndsNumber(rest)
    ensures ReadMember(PrintMember(m, rest)) == Some((m, rest))
    decreases m, 0
  {
    var s, tail := PrintMember(m, rest), [58] + Print(m.value, rest);
    assert s[1..] == PrintUnits(m.key, [34] + tail);
    UnitsAreRead(m.key, tail);
    assert tail[1..] == Print(m.value, rest);
    PrintIsRead(m.value, rest);
  }

  lemma {:induction false} MembersAreRead(ms: seq<Member>, rest: Text)
    requires ms != [] && Printable(Obj(ms))
    ensures ReadMembers(PrintMember(ms[0], PrintMembers(ms[1..], rest))) == Some((ms, rest))
    decreases ms, 0
  {
    var after := PrintMembers(ms[1..], rest);
    MembersStart(ms[1..], rest);
    MemberIsRead(ms[0], after);
    if |ms| == 1 {
      assert after == [125] + rest && after[1..] == rest && ms == [ms[0]];
    } else {
      assert ms[1..][1..] == ms[2..] && ms == [ms[0]] + ms[1..];
      assert after[1..] == PrintMember(ms[1], PrintMembers(ms[2..], rest));
      MembersAreRead(ms[1..], rest);
    }
  }
}
