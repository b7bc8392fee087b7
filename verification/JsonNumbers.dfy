/** Numbers as section 6 of RFC 8259 writes them: a sign, an integer, a fraction and an exponent. */
module JsonNumbers {
  import opened Common

  /** A UTF-16 code unit. */
  newtype Unit = x: int | 0 <= x < 0x1_0000

  type Text = seq<Unit>

  predicate IsDigit(u: Unit) {
    48 <= u <= 57
  }

  /** A digit, a sign, the point or an exponent mark. */
  predicate IsNumberUnit(u: Unit) {
    IsDigit(u) || u == 43 || u == 45 || u == 46 || u == 69 || u == 101
  }

  /** Where the digits that stand at `at` end. */
  function DigitsEnd(s: Text, at: nat): (end: nat)
    requires at <= |s|
    ensures at <= end <= |s| && forall i | at <= i < end :: IsDigit(s[i])
    decreases |s| - at
  {
    if at < |s| && IsDigit(s[at]) then DigitsEnd(s, at + 1) else at
  }

  /** At least one digit. */
  function SomeDigits(s: Text, at: nat): (end: Option<nat>)
    requires at <= |s|
    ensures end.Some? ==> at < end.value <= |s| && forall i | at <= i < end.value :: IsDigit(s[i])
  {
    if DigitsEnd(s, at) > at then Some(DigitsEnd(s, at)) else None
  }

  /** A zero, or digits that do not begin with one. */
  function IntegerEnd(s: Text, at: nat): (end: Option<nat>)
    requires at <= |s|
    ensures end.Some? ==> at < end.value <= |s| && forall i | at <= i < end.value :: IsDigit(s[i])
  {
    if at < |s| && s[at] == 48 then Some(at + 1) else SomeDigits(s, at)
  }

  function FractionEnd(s: Text, at: nat): (end: Option<nat>)
    requires at <= |s|
    ensures end.Some? ==> at <= end.value <= |s| && forall i | at <= i < end.value :: IsNumberUnit(s[i])
  {
    if at < |s| && s[at] == 46 then SomeDigits(s, at + 1) else Some(at)
  }

  function ExponentEnd(s: Text, at: nat): (end: Option<nat>)
    requires at <= |s|
    ensures end.Some? ==> at <= end.value <= |s| && forall i | at <= i < end.value :: IsNumberUnit(s[i])
  {
    if at < |s| && (s[at] == 69 || s[at] == 101) then
      if at + 1 < |s| && (s[at + 1] == 43 || s[at + 1] == 45) then SomeDigits(s, at + 2) else SomeDigits(s, at + 1)
    else Some(at)
  }

  /** Where the number that `s` begins with ends. */
  function NumberEnd(s: Text): (end: Option<nat>)
    ensures end.Some? ==> 0 < end.value <= |s| && forall i | 0 <= i < end.value :: IsNumberUnit(s[i])
    ensures end.Some? ==> IsDigit(s[0]) || s[0] == 45
  {
    var whole := IntegerEnd(s, if s != [] && s[0] == 45 then 1 else 0);
    if whole.None? then None
    else
      var fraction := FractionEnd(s, whole.value);
      if fraction.None? then None else ExponentEnd(s, fraction.value)
  }

  predicate IsNumberText(text: Text) {
    NumberEnd(text) == Some(|text|)
  }

  predicate EndsNumber(rest: Text) {
    rest == [] || !IsNumberUnit(rest[0])
  }

  // ---- what follows a number is not part of it ---------------------------

  lemma {:induction false} DigitsEndThere(text: Text, rest: Text, at: nat)
    requires at <= |text| && EndsNumber(rest)
    ensures DigitsEnd(text + rest, at) == DigitsEnd(text, at)
    decreases |text| - at
  {
    if at < |text| {
      DigitsEndThere(text, rest, at + 1);
    }
  }

  lemma PartsEndThere(text: Text, rest: Text, at: nat)
    requires at <= |text| && EndsNumber(rest)
    ensures IntegerEnd(text + rest, at) == IntegerEnd(text, at)
    ensures FractionEnd(text + rest, at) == FractionEnd(text, at)
    ensures ExponentEnd(text + rest, at) == ExponentEnd(text, at)
  {
    assert |text| < |text + rest| ==> (text + rest)[|text|] == rest[0];
    DigitsEndThere(text, rest, at);
    if at + 1 <= |text| {
      DigitsEndThere(text, rest, at + 1);
    }
    if at + 2 <= |text| {
      DigitsEndThere(text, rest, at + 2);
    }
  }

  /** A number ends before anything that cannot be in one. */
  lemma NumberEndsThere(text: Text, rest: Text)
    requires IsNumberText(text) && EndsNumber(rest)
    ensures NumberEnd(text + rest) == Some(|text|)
  {
    var start := if text[0] == 45 then 1 else 0;
    PartsEndThere(text, rest, start);
    var whole := IntegerEnd(text, start).value;
    PartsEndThere(text, rest, whole);
    PartsEndThere(text, rest, FractionEnd(text, whole).value);
  }
}
