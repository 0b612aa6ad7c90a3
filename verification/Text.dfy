/** Strings as the Go, TypeScript and SQL sides share them: sequences of characters without an encoding. */
module Text {

  ghost predicate AllBlank(s: string, blank: char -> bool) {
    forall k :: 0 <= k < |s| ==> blank(s[k])
  }

  /** `r` with blanks only before and after it. */
  ghost predicate Padded(s: string, left: string, r: string, right: string, blank: char -> bool) {
    s == left + r + right && AllBlank(left, blank) && AllBlank(right, blank)
  }

  ghost predicate EndsInk(r: string, blank: char -> bool) {
    r != "" ==> !blank(r[0]) && !blank(r[|r| - 1])
  }

  /** `strings.Trim` and `strings.TrimSpace`, told what a blank is. */
  function Trim(s: string, blank: char -> bool): string {
    if s == "" then s
    else if blank(s[0]) then Trim(s[1..], blank)
    else if blank(s[|s| - 1]) then Trim(s[..|s| - 1], blank)
    else s
  }

  lemma PadLeft(s: string, left: string, r: string, right: string, blank: char -> bool)
    requires s != "" && blank(s[0]) && Padded(s[1..], left, r, right, blank)
    ensures Padded(s, [s[0]] + left, r, right, blank)
  {
    assert s == [s[0]] + s[1..];
  }

  lemma PadRight(s: string, left: string, r: string, right: string, blank: char -> bool)
    requires s != "" && blank(s[|s| - 1]) && Padded(s[..|s| - 1], left, r, right, blank)
    ensures Padded(s, left, r, right + [s[|s| - 1]], blank)
  {
    assert s == s[..|s| - 1] + [s[|s| - 1]];
  }

  /** Only blanks are removed, and all of them. */
  lemma {:induction false} TrimIsInner(s: string, blank: char -> bool) returns (left: string, right: string)
    ensures Padded(s, left, Trim(s, blank), right, blank) && EndsInk(Trim(s, blank), blank)
  {
    if s != "" && blank(s[0]) {
      left, right := TrimIsInner(s[1..], blank);
      PadLeft(s, left, Trim(s, blank), right, blank);
      left := [s[0]] + left;
    } else if s != "" && blank(s[|s| - 1]) {
      left, right := TrimIsInner(s[..|s| - 1], blank);
      PadRight(s, left, Trim(s, blank), right, blank);
      right := right + [s[|s| - 1]];
    } else {
      left, right := "", "";
    }
  }

  /** Trimming gives back any text that neither starts nor ends with a blank. */
  lemma {:induction false} TrimIsUnique(left: string, r: string, right: string, blank: char -> bool)
    requires AllBlank(left, blank) && AllBlank(right, blank) && EndsInk(r, blank)
    ensures Trim(left + r + right, blank) == r
    decreases |left| + |right|
  {
    var s := left + r + right;
    if left != "" {
      assert s[1..] == left[1..] + r + right;
      TrimIsUnique(left[1..], r, right, blank);
    } else if right != "" {
      if r == "" {
        assert s[1..] == left + r + right[1..];
        TrimIsUnique(left, r, right[1..], blank);
      } else {
        assert s[..|s| - 1] == left + r + right[..|right| - 1] && s[|s| - 1] == right[|right| - 1];
        TrimIsUnique(left, r, right[..|right| - 1], blank);
      }
    } else {
      assert s == r;
    }
  }

  // ----- decimal numerals -----

  function Digit(d: nat): char
    requires d < 10
  {
    "0123456789"[d]
  }

  function Decimal(n: nat): string {
    if n < 10 then [Digit(n)] else Decimal(n / 10) + [Digit(n % 10)]
  }

  lemma {:induction false} DecimalInjective(a: nat, b: nat)
    requires Decimal(a) == Decimal(b)
    ensures a == b
    decreases a
  {
    var s, t := Decimal(a), Decimal(b);
    assert s[|s| - 1] == t[|t| - 1] && s[..|s| - 1] == t[..|t| - 1];
    if a < 10 {
      DecimalNonEmpty(b / 10);
    } else {
      DecimalNonEmpty(a / 10);
      if b >= 10 { DecimalInjective(a / 10, b / 10); }
    }
  }

  lemma {:induction false} DecimalNonEmpty(n: nat)
    ensures Decimal(n) != [] && forall k :: 0 <= k < |Decimal(n)| ==> '0' <= Decimal(n)[k] <= '9'
  {
    if n >= 10 { DecimalNonEmpty(n / 10); }
  }
}
