/** The admin search box: its text becomes a LIKE pattern that means "contains", and a row id when it is a number. */
module Search {
  import opened Text

  const MAX_ID: int := 0x7fff_ffff_ffff_ffff

  // ----- LIKE with backslash as escape, section 8.5 of ISO/IEC 9075-2; `fold` is the case folding of ILIKE -----

  ghost predicate Like(pattern: string, text: string, fold: char -> char)
    decreases |pattern|
  {
    if pattern == "" then text == ""
    else if pattern[0] == '%' then exists k :: 0 <= k <= |text| && Like(pattern[1..], text[k..], fold)
    else if pattern[0] == '_' then text != "" && Like(pattern[1..], text[1..], fold)
    else if pattern[0] == '\\' then
      |pattern| > 1 && text != "" && fold(pattern[1]) == fold(text[0]) && Like(pattern[2..], text[1..], fold)
    else text != "" && fold(pattern[0]) == fold(text[0]) && Like(pattern[1..], text[1..], fold)
  }

  /** The database rejects a pattern that ends in an unfinished escape. */
  predicate WellFormed(pattern: string)
    decreases |pattern|
  {
    if pattern == "" then true
    else if pattern[0] == '\\' then |pattern| > 1 && WellFormed(pattern[2..])
    else WellFormed(pattern[1..])
  }

  // ----- searchParams -----

  predicate Special(c: char) {
    c == '\\' || c == '%' || c == '_'
  }

  function Escape(text: string): string {
    if text == "" then "" else (if Special(text[0]) then ['\\', text[0]] else [text[0]]) + Escape(text[1..])
  }

  predicate IsDigit(c: char) {
    '0' <= c <= '9'
  }

  predicate Numeral(digits: string) {
    forall k :: 0 <= k < |digits| ==> IsDigit(digits[k])
  }

  function Number(digits: string): nat
    requires Numeral(digits)
  {
    if digits == "" then 0 else
      assert IsDigit(digits[|digits| - 1]);
      10 * Number(digits[..|digits| - 1]) + (digits[|digits| - 1] as int - '0' as int)
  }

  /** strconv.ParseInt in base 10; numbers that do not fit or are not positive read as 0. */
  function ParseId(text: string): int {
    var negative := text != "" && text[0] == '-';
    var digits := if text != "" && (text[0] == '-' || text[0] == '+') then text[1..] else text;
    if digits == "" || !Numeral(digits) then 0
    else if negative || Number(digits) > MAX_ID then 0 else Number(digits)
  }

  function SearchParams(value: string, space: char -> bool): (string, string, int) {
    var search := Trim(value, space);
    (search, "%" + Escape(search) + "%", ParseId(search))
  }

  // ----- what the pattern matches -----

  ghost predicate StartsWith(text: string, s: string, fold: char -> char) {
    |s| <= |text| && forall k :: 0 <= k < |s| ==> fold(text[k]) == fold(s[k])
  }

  ghost predicate Contains(text: string, s: string, fold: char -> char) {
    exists i :: 0 <= i <= |text| && StartsWith(text[i..], s, fold)
  }

  /** An escaped text stands for itself, whatever follows it in the pattern. */
  lemma {:induction false} EscapedIsLiteral(s: string, pattern: string, text: string, fold: char -> char)
    ensures Like(Escape(s) + pattern, text, fold) <==> StartsWith(text, s, fold) && Like(pattern, text[|s|..], fold)
  {
    var whole := Escape(s) + pattern;
    if s == "" {
      assert whole == pattern && text[0..] == text;
    } else {
      var width := if Special(s[0]) then 2 else 1;
      assert whole[width..] == Escape(s[1..]) + pattern;
      if text != "" {
        EscapedIsLiteral(s[1..], pattern, text[1..], fold);
        StartsWithTail(text, s, fold);
        if |s| <= |text| { assert text[1..][|s[1..]|..] == text[|s|..]; }
      }
    }
  }

  lemma StartsWithTail(text: string, s: string, fold: char -> char)
    requires s != "" && text != ""
    ensures StartsWith(text, s, fold) <==> fold(text[0]) == fold(s[0]) && StartsWith(text[1..], s[1..], fold)
  {
    if fold(text[0]) == fold(s[0]) && StartsWith(text[1..], s[1..], fold) {
      forall k | 0 <= k < |s| ensures fold(text[k]) == fold(s[k]) {
        if k > 0 { assert text[1..][k - 1] == text[k] && s[1..][k - 1] == s[k]; }
      }
    }
  }

  lemma AnythingMatchesPercent(text: string, fold: char -> char)
    ensures Like("%", text, fold)
  {
    assert text[|text|..] == "" && Like("", "", fold);
    assert "%"[1..] == "";
  }

  /** Main result: the generated pattern matches exactly the texts that contain the trimmed search text, which is the
      value without the blanks around it. */
  lemma PatternMeansContains(value: string, space: char -> bool, text: string, fold: char -> char)
    returns (left: string, right: string)
    ensures var (search, pattern, _) := SearchParams(value, space);
      && WellFormed(pattern) && (Like(pattern, text, fold) <==> Contains(text, search, fold))
      && value == left + search + right
      && (forall k :: 0 <= k < |left| ==> space(left[k])) && (forall k :: 0 <= k < |right| ==> space(right[k]))
      && (search != "" ==> !space(search[0]) && !space(search[|search| - 1]))
  {
    left, right := TrimIsInner(value, space);
    var search := Trim(value, space);
    var pattern := "%" + Escape(search) + "%";
    assert pattern[1..] == Escape(search) + "%";
    forall k | 0 <= k <= |text|
      ensures Like(pattern[1..], text[k..], fold) <==> StartsWith(text[k..], search, fold)
    {
      EscapedIsLiteral(search, "%", text[k..], fold);
      if |search| <= |text[k..]| { AnythingMatchesPercent(text[k..][|search|..], fold); }
    }
    EscapedIsWellFormed(search, "%");
  }

  lemma {:induction false} EscapedIsWellFormed(s: string, pattern: string)
    requires WellFormed(pattern)
    ensures WellFormed(Escape(s) + pattern)
  {
    if s == "" {
      assert Escape(s) + pattern == pattern;
    } else {
      EscapedIsWellFormed(s[1..], pattern);
      var whole, rest := Escape(s) + pattern, Escape(s[1..]) + pattern;
      if Special(s[0]) {
        assert whole[0] == '\\' && whole[2..] == rest;
      } else {
        assert whole[0] == s[0] && whole[1..] == rest;
      }
    }
  }

  // ----- searching by id -----

  lemma {:induction false} NumberOfDecimal(n: nat)
    ensures Numeral(Decimal(n)) && Number(Decimal(n)) == n
  {
    DecimalNonEmpty(n);
    if n >= 10 {
      NumberOfDecimal(n / 10);
      assert Decimal(n)[..|Decimal(n)| - 1] == Decimal(n / 10);
    } else {
      assert Decimal(n)[..0] == "";
    }
  }

  /** Digits are a number's own numeral, up to zeros in front. */
  lemma {:induction false} DecimalOfNumber(digits: string) returns (zeros: string)
    requires Numeral(digits)
    ensures forall k :: 0 <= k < |zeros| ==> zeros[k] == '0'
    ensures digits == zeros + if Number(digits) == 0 then "" else Decimal(Number(digits))
  {
    zeros := "";
    if digits != "" {
      var head, last := digits[..|digits| - 1], digits[|digits| - 1];
      zeros := DecimalOfNumber(head);
      assert digits == head + [last] && IsDigit(last);
      DigitIsItself(last);
      if Number(head) == 0 {
        if last == '0' { zeros := digits; }
      } else {
        assert Number(digits) / 10 == Number(head) && Number(digits) % 10 == last as int - '0' as int;
      }
    }
  }

  lemma DigitIsItself(c: char)
    requires IsDigit(c)
    ensures Digit(c as int - '0' as int) == c
  {
  }

  lemma ParsedDigits(text: string) returns (sign: string, digits: string)
    requires ParseId(text) != 0
    ensures text == sign + digits && (sign == "" || sign == "+")
    ensures Numeral(digits) && 0 < ParseId(text) == Number(digits) <= 0x7fff_ffff_ffff_ffff
  {
    sign := if text[0] == '+' then "+" else "";
    digits := if text[0] == '+' then text[1..] else text;
  }

  /** Nothing else is taken for an id: a positive result is the number that was typed, signless or with a plus, and in
      the range of ids. */
  lemma IdIsTyped(value: string, space: char -> bool) returns (sign: string, zeros: string)
    requires SearchParams(value, space).2 != 0
    ensures var (search, _, id) := SearchParams(value, space);
      && 0 < id <= 0x7fff_ffff_ffff_ffff && search == sign + (zeros + Decimal(id))
      && (sign == "" || sign == "+") && forall k :: 0 <= k < |zeros| ==> zeros[k] == '0'
  {
    var digits: string;
    sign, digits := ParsedDigits(Trim(value, space));
    zeros := DecimalOfNumber(digits);
  }

  /** A row id typed as a number is found, with any blanks around it. */
  lemma IdIsFound(n: nat, left: string, right: string, space: char -> bool)
    requires 0 < n <= MAX_ID
    requires AllBlank(left, space) && AllBlank(right, space) && forall c :: IsDigit(c) ==> !space(c)
    ensures SearchParams(left + Decimal(n) + right, space).2 == n
  {
    DecimalNonEmpty(n);
    NumberOfDecimal(n);
    TrimIsUnique(left, Decimal(n), right, space);
  }
}
