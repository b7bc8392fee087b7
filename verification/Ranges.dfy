/** Single-range `Range` headers (section 14.1.2 of RFC 9110), as the blob route reads them. */
module Ranges {
  import opened Common

  datatype RangeResult = Whole | Unsatisfiable | Part(start: int, end: int)

  predicate IsDigit(c: char) {
    '0' <= c <= '9'
  }

  predicate AllDigits(s: string) {
    forall n | 0 <= n < |s| :: IsDigit(s[n])
  }

  function Number(s: string): nat
    requires AllDigits(s)
  {
    if s == "" then 0 else 10 * Number(s[..|s| - 1]) + (s[|s| - 1] - '0') as int
  }

  function Decimal(n: nat): string {
    if n < 10 then [Digit(n)] else Decimal(n / 10) + [Digit(n % 10)]
  }

  function Digit(d: nat): char
    requires d < 10
  {
    '0' + d as char
  }

  lemma {:induction false} NumberUndoesDecimal(n: nat)
    ensures AllDigits(Decimal(n)) && Decimal(n) != "" && Number(Decimal(n)) == n
  {
    if n < 10 {
      assert Decimal(n)[..0] == "";
    } else {
      NumberUndoesDecimal(n / 10);
      assert Decimal(n)[..|Decimal(n)| - 1] == Decimal(n / 10);
    }
  }

  predicate IsSpace(c: char) {
    c == ' ' || '\t' <= c <= '\r' || c == '\U{00A0}' || c == '\U{FEFF}'
  }

  function Trim(s: string): string
    decreases |s|
  {
    if s == "" then s
    else if IsSpace(s[0]) then Trim(s[1..])
    else if IsSpace(s[|s| - 1]) then Trim(s[..|s| - 1])
    else s
  }

  /** Position of the first dash, or the length when there is none. */
  function DashIn(s: string): (n: nat)
    ensures n <= |s| && '-' !in s[..n] && (n < |s| ==> s[n] == '-')
  {
    if s == "" || s[0] == '-' then 0 else 1 + DashIn(s[1..])
  }

  const UNIT := "bytes="

  function ParseRange(value: string, size: nat): RangeResult {
    var text := Trim(value);
    if !(UNIT <= text) then Whole
    else
      var rest := text[|UNIT|..];
      var dash := DashIn(rest);
      if dash == |rest| || !AllDigits(rest[..dash]) || !AllDigits(rest[dash + 1..]) then Whole
      else
        var rawStart, rawEnd := rest[..dash], rest[dash + 1..];
        if rawStart == "" && rawEnd == "" then Whole
        else if rawStart == "" then
          // The final bytes.
          var suffix := Number(rawEnd);
          if suffix <= 0 then Unsatisfiable
          else Part(if size > suffix then size - suffix else 0, size - 1)
        else
          var start := Number(rawStart);
          if start >= size then Unsatisfiable
          else
            var end := if rawEnd == "" || Number(rawEnd) >= size - 1 then size - 1 else Number(rawEnd);
            if end < start then Unsatisfiable else Part(start, end)
  }

  /** A range that is answered lies inside the blob exactly when the blob is not empty. */
  lemma RangeIsInBounds(value: string, size: nat)
    requires ParseRange(value, size).Part?
    ensures var r := ParseRange(value, size);
            (0 <= r.start <= r.end < size) <==> size > 0
  {
  }

  /** Of an empty blob the last five bytes are answered as a range that ends before it starts. */
  lemma EmptyBlobIsOutOfBounds(value: string)
    requires value == "bytes=-5"
    ensures ParseRange(value, 0) == Part(0, -1)
  {
    assert Trim(value) == value;
    assert value[|UNIT|..] == "-5" && "-5"[..0] == "" && "-5"[1..] == "5";
    assert Number("5") == 5 by {
      assert "5"[..0] == "";
    }
  }

  lemma NoSpaceToTrim(s: string)
    requires s != "" && !IsSpace(s[0]) && !IsSpace(s[|s| - 1])
    ensures Trim(s) == s
  {
  }

  lemma DigitsAreRead(value: string, first: string, last: string, size: nat)
    requires AllDigits(first) && AllDigits(last) && (first != "" || last != "")
    requires value == "bytes=" + (first + ("-" + last))
    ensures ParseRange(value, size) ==
              if first == "" then
                if Number(last) == 0 then Unsatisfiable else Part(if size > Number(last) then size - Number(last) else 0, size - 1)
              else if Number(first) >= size then Unsatisfiable
              else
                var end := if last == "" || Number(last) >= size - 1 then size - 1 else Number(last);
                if end < Number(first) then Unsatisfiable else Part(Number(first), end)
  {
    HeaderParts(value, first, last);
  }

  /** The parts of a header as the parser cuts it. */
  lemma HeaderParts(value: string, first: string, last: string)
    requires AllDigits(first) && AllDigits(last) && value == "bytes=" + (first + ("-" + last))
    ensures var rest := first + ("-" + last);
            && Trim(value) == value && UNIT <= value && value[|UNIT|..] == rest
            && DashIn(rest) == |first| < |rest| && rest[..|first|] == first && rest[|first| + 1..] == last
  {
    var rest := first + ("-" + last);
    assert value[|value| - 1] == rest[|rest| - 1];
    NoSpaceToTrim(value);
    DashAfterDigits(first, last);
  }

  /** The bytes from `first` to `last`, as far as there are any. */
  lemma RangeIsReadAsWritten(first: nat, last: nat, size: nat)
    ensures ParseRange("bytes=" + (Decimal(first) + ("-" + Decimal(last))), size)
         == if first >= size || last < first then Unsatisfiable else Part(first, if last < size then last else size - 1)
  {
    NumberUndoesDecimal(first);
    NumberUndoesDecimal(last);
    DigitsAreRead("bytes=" + (Decimal(first) + ("-" + Decimal(last))), Decimal(first), Decimal(last), size);
  }

  /** The last `count` bytes, or all of them when there are not so many. */
  lemma SuffixIsReadAsWritten(count: nat, size: nat)
    ensures ParseRange("bytes=" + ("" + ("-" + Decimal(count))), size)
         == if count == 0 then Unsatisfiable else Part(if count < size then size - count else 0, size - 1)
  {
    NumberUndoesDecimal(count);
    DigitsAreRead("bytes=" + ("" + ("-" + Decimal(count))), "", Decimal(count), size);
  }

  /** What a client that already has `have` bytes asks for. */
  function ResumeHeader(have: nat): string {
    UNIT + Decimal(have) + "-"
  }

  /** The route reads a resume header as exactly the bytes that are missing. */
  lemma ResumeAsksForTheRest(have: nat, size: nat)
    ensures ParseRange(ResumeHeader(have), size) == if have < size then Part(have, size - 1) else Unsatisfiable
  {
    NumberUndoesDecimal(have);
    var header := ResumeHeader(have);
    var digits := Decimal(have);
    assert Trim(header) == header;
    assert header[|UNIT|..] == digits + "-";
    DashAfterDigits(digits, "");
    assert digits + ("-" + "") == digits + "-";
    assert (digits + "-")[..|digits|] == digits && (digits + "-")[|digits| + 1..] == "";
  }

  lemma {:induction false} DashAfterDigits(digits: string, more: string)
    requires AllDigits(digits)
    ensures DashIn(digits + ("-" + more)) == |digits|
  {
    if digits != "" {
      DashAfterDigits(digits[1..], more);
      assert (digits + ("-" + more))[1..] == digits[1..] + ("-" + more);
    } else {
      assert digits + ("-" + more) == "-" + more;
    }
  }
}
