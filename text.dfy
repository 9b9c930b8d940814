/**
 * The string primitives the form relies on: JavaScript's notion of white space
 * (shared by `String.prototype.trim` and the regular-expression class `\s`),
 * `trim`, and `parseInt` without a radix, restricted to decimal input.
 */
module Text {
  import opened Wrappers

  /** WhiteSpace and LineTerminator code points of ECMAScript. */
  predicate IsWhitespace(c: char) {
    || c == ' ' || c == '\t' || c == '\n' || c == '\r'
    || c == '\U{000B}' || c == '\U{000C}' || c == '\U{00A0}' || c == '\U{1680}'
    || ('\U{2000}' <= c <= '\U{200A}')
    || c == '\U{2028}' || c == '\U{2029}' || c == '\U{202F}' || c == '\U{205F}'
    || c == '\U{3000}' || c == '\U{FEFF}'
  }

  predicate AllWhitespace(s: string) {
    forall k :: 0 <= k < |s| ==> IsWhitespace(s[k])
  }

  /** Drops the leading white space. */
  function TrimStart(s: string): string {
    if s != [] && IsWhitespace(s[0]) then TrimStart(s[1..]) else s
  }

  /** Drops the trailing white space. */
  function TrimEnd(s: string): string {
    if s != [] && IsWhitespace(s[|s| - 1]) then TrimEnd(s[..|s| - 1]) else s
  }

  /** `TrimStart` keeps the longest suffix that does not start with white space. */
  lemma {:induction false} TrimStartSpec(s: string)
    ensures |TrimStart(s)| <= |s| && TrimStart(s) == s[|s| - |TrimStart(s)|..]
    ensures AllWhitespace(s[..|s| - |TrimStart(s)|])
    ensures TrimStart(s) == [] || !IsWhitespace(TrimStart(s)[0])
  {
    if s != [] && IsWhitespace(s[0]) {
      TrimStartSpec(s[1..]);
      var n := |s| - |TrimStart(s)|;
      assert forall k :: 1 <= k < n ==> s[..n][k] == s[1..][..n - 1][k - 1];
    }
  }

  /** `TrimEnd` keeps the longest prefix that does not end with white space. */
  lemma {:induction false} TrimEndSpec(s: string)
    ensures |TrimEnd(s)| <= |s| && TrimEnd(s) == s[..|TrimEnd(s)|]
    ensures AllWhitespace(s[|TrimEnd(s)|..])
    ensures TrimEnd(s) == [] || !IsWhitespace(TrimEnd(s)[|TrimEnd(s)| - 1])
  {
    if s != [] && IsWhitespace(s[|s| - 1]) {
      var init := s[..|s| - 1];
      TrimEndSpec(init);
      var n := |TrimEnd(s)|;
      assert forall k :: 0 <= k < |s| - 1 - n ==> s[n..][k] == init[n..][k];
    }
  }

  /**
   * `String.prototype.trim`: never longer than its input, and white space at neither
   * end of what it keeps.
   */
  function Trim(s: string): (r: string)
    ensures |r| <= |s|
    ensures r == [] || (!IsWhitespace(r[0]) && !IsWhitespace(r[|r| - 1]))
  {
    TrimStartSpec(s);
    TrimEndSpec(TrimStart(s));
    TrimEnd(TrimStart(s))
  }

  /**
   * What `trim` returns: a contiguous slice of the input with only white space cut
   * off on either side (`Trim`'s own contract adds that neither end of it is white space).
   */
  lemma TrimSlice(s: string)
    ensures exists i, j ::
      (0 <= i <= j <= |s| && Trim(s) == s[i..j] && AllWhitespace(s[..i]) && AllWhitespace(s[j..]))
  {
    var t := TrimStart(s);
    TrimStartSpec(s);
    TrimEndSpec(t);
    var i := |s| - |t|;
    var j := i + |TrimEnd(t)|;
    assert s[i..j] == t[..|TrimEnd(t)|];
    assert s[j..] == t[|TrimEnd(t)|..];
  }

  /** A trimmed field is empty exactly when the raw field held only white space. */
  lemma {:induction false} TrimEmptyIff(s: string)
    ensures Trim(s) == [] <==> AllWhitespace(s)
  {
    var t := TrimStart(s);
    TrimStartSpec(s);
    TrimEndSpec(t);
    assert t[0..] == t;
    if t != [] {
      assert s[|s| - |t|] == t[0];
    }
  }

  /** A string that neither starts nor ends with white space is its own trim. */
  lemma TrimKeeps(s: string)
    requires s == [] || (!IsWhitespace(s[0]) && !IsWhitespace(s[|s| - 1]))
    ensures Trim(s) == s
  {
  }

  /** Trimming twice is trimming once. */
  lemma TrimIdempotent(s: string)
    ensures Trim(Trim(s)) == Trim(s)
  {
    var r := Trim(s);
    TrimSlice(s);
    assert TrimStart(r) == r;
    assert TrimEnd(r) == r;
  }

  // ---------------------------------------------------------------- parseInt

  predicate IsDigit(c: char) {
    '0' <= c <= '9'
  }

  predicate AllDigits(s: string) {
    forall k :: 0 <= k < |s| ==> IsDigit(s[k])
  }

  function DigitValue(c: char): (d: nat)
    requires IsDigit(c)
    ensures d < 10
  {
    c as int - '0' as int
  }

  function DigitChar(d: nat): (c: char)
    requires d < 10
    ensures IsDigit(c) && DigitValue(c) == d
  {
    ('0' as int + d) as char
  }

  /** The longest prefix made of decimal digits. */
  function LeadingDigits(s: string): (r: string)
    ensures AllDigits(r)
  {
    if s != [] && IsDigit(s[0]) then [s[0]] + LeadingDigits(s[1..]) else []
  }

  /** The number a string of decimal digits denotes (most significant digit first). */
  function DigitsValue(d: string): nat
    requires AllDigits(d)
  {
    if d == [] then 0 else DigitsValue(d[..|d| - 1]) * 10 + DigitValue(d[|d| - 1])
  }

  /**
   * `parseInt(s)` with no radix, on decimal input: skips leading white space,
   * takes one optional sign, then the longest run of digits; no digit at all is NaN
   * (`None`). Whatever follows the digits is ignored.
   */
  function ParseInt(s: string): (r: Option<int>)
    ensures r.Some? <==> LeadingDigits(Unsigned(s)) != []
    ensures r.Some? ==> Magnitude(r.value) == DigitsValue(LeadingDigits(Unsigned(s)))
    ensures r.Some? && r.value != 0 ==> (r.value < 0 <==> TrimStart(s)[0] == '-')
  {
    var t := TrimStart(s);
    if t != [] && t[0] == '-' then Negate(ParseDigitRun(t[1..]))
    else if t != [] && t[0] == '+' then ParseDigitRun(t[1..])
    else ParseDigitRun(t)
  }

  /** What `parseInt` reads its digits from: the input after leading white space and one optional sign. */
  function Unsigned(s: string): string {
    var t := TrimStart(s);
    if t != [] && (t[0] == '-' || t[0] == '+') then t[1..] else t
  }

  function Magnitude(n: int): nat {
    if n < 0 then -n else n
  }

  /** The value of the leading run of digits, NaN when there is none. */
  function ParseDigitRun(u: string): Option<int>
  {
    var digits := LeadingDigits(u);
    if digits == [] then None else Some(DigitsValue(digits))
  }

  function Negate(v: Option<int>): Option<int>
  {
    match v
    case None => None
    case Some(n) => Some(-n)
  }

  /** Decimal rendering of a natural number, as template literals and JSON write it. */
  function ShowNat(n: nat): (r: string)
    ensures r != [] && AllDigits(r)
  {
    if n < 10 then [DigitChar(n)] else ShowNat(n / 10) + [DigitChar(n % 10)]
  }

  function ShowInt(n: int): string {
    if n < 0 then "-" + ShowNat(-n) else ShowNat(n)
  }

  lemma {:induction false} DigitsValueShowNat(n: nat)
    ensures DigitsValue(ShowNat(n)) == n
  {
    if n >= 10 {
      var d := ShowNat(n);
      assert d[..|d| - 1] == ShowNat(n / 10);
      DigitsValueShowNat(n / 10);
    }
  }

  lemma {:induction false} LeadingDigitsOfDigits(d: string, rest: string)
    requires AllDigits(d)
    requires rest == [] || !IsDigit(rest[0])
    ensures LeadingDigits(d + rest) == d
  {
    if d != [] {
      assert (d + rest)[1..] == d[1..] + rest;
      LeadingDigitsOfDigits(d[1..], rest);
    } else {
      assert d + rest == rest;
    }
  }

  /** `parseInt` skips nothing in front of a digit or a sign. */
  lemma TrimStartKeeps(s: string)
    requires s != [] && (IsDigit(s[0]) || s[0] == '-' || s[0] == '+')
    ensures TrimStart(s) == s
  {
  }

  /** `parseInt` on a digit string followed by a non-digit. */
  lemma ParseDigits(d: string, rest: string)
    requires d != [] && AllDigits(d)
    requires rest == [] || !IsDigit(rest[0])
    ensures ParseInt(d + rest) == Some(DigitsValue(d))
  {
    var s := d + rest;
    assert s[0] == d[0];
    TrimStartKeeps(s);
    LeadingDigitsOfDigits(d, rest);
  }

  /** In `-`, a digit string, then anything, `parseInt` reads its digits from after the `-`. */
  lemma UnsignedAfterMinus(d: string, rest: string)
    requires d != [] && AllDigits(d)
    ensures TrimStart("-" + d + rest)[0] == '-'
    ensures Unsigned("-" + d + rest) == d + rest
  {
    var s := "-" + d + rest;
    assert s[0] == '-';
    TrimStartKeeps(s);
    assert s[1..] == d + rest;
  }

  /** `parseInt` on `-`, a digit string, then a non-digit. */
  lemma ParseNegatedDigits(d: string, rest: string)
    requires d != [] && AllDigits(d)
    requires rest == [] || !IsDigit(rest[0])
    ensures ParseInt("-" + d + rest) == Some(-(DigitsValue(d) as int))
  {
    UnsignedAfterMinus(d, rest);
    LeadingDigitsOfDigits(d, rest);
  }

  /**
   * `parseInt` reads back a rendered integer, and stops at the first character that
   * is not a digit: `parseInt("30abc")` and `parseInt("30.5")` are both 30.
   */
  lemma ParseShowInt(n: int, rest: string)
    requires rest == [] || !IsDigit(rest[0])
    ensures ParseInt(ShowInt(n) + rest) == Some(n)
  {
    var m: nat := if n < 0 then -n else n;
    DigitsValueShowNat(m);
    if n < 0 {
      ParseNegatedDigits(ShowNat(m), rest);
    } else {
      ParseDigits(ShowNat(m), rest);
    }
  }

  /** A rendered integer followed by text that does not end in white space has nothing to trim. */
  lemma TrimKeepsInteger(n: int, rest: string)
    requires rest == [] || !IsWhitespace(rest[|rest| - 1])
    ensures Trim(ShowInt(n) + rest) == ShowInt(n) + rest
  {
  }

  /**
   * `parseInt` is NaN exactly when no digit follows the leading white space and the
   * optional sign ("", "abc", "-abc", "+x", " x", "- 5").
   */
  lemma ParseIntNaN(s: string)
    ensures ParseInt(s) == None <==> Unsigned(s) == [] || !IsDigit(Unsigned(s)[0])
  {
  }
}
