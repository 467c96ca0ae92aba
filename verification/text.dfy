/** The string operations the back-office applies to search terms (trimming,
    lower-casing, case-insensitive containment) and decimal numerals. */
module Text {

  /** The characters ECMAScript's `String.prototype.trim` strips: the WhiteSpace
      and LineTerminator code points of ECMA-262 (section 12.2 and 12.3). */
  predicate IsSpace(c: char) {
    || c == ' ' || c == '\t' || c == '\n' || c == '\r'
    || c == '\U{000B}' || c == '\U{000C}' || c == '\U{00A0}' || c == '\U{FEFF}'
    || c == '\U{1680}' || ('\U{2000}' <= c <= '\U{200A}')
    || c == '\U{2028}' || c == '\U{2029}' || c == '\U{202F}' || c == '\U{205F}' || c == '\U{3000}'
  }

  /** Drops leading white space: the result is a suffix of `s`, everything dropped is
      white space, and the result does not start with white space. */
  function TrimStart(s: string): (r: string)
    ensures |r| <= |s| && r == s[|s| - |r|..]
    ensures forall k :: 0 <= k < |s| - |r| ==> IsSpace(s[k])
    ensures r == [] || !IsSpace(r[0])
    decreases |s|
  {
    if |s| > 0 && IsSpace(s[0]) then TrimStart(s[1..]) else s
  }

  /** Drops trailing white space: the result is a prefix of `s`, everything dropped is
      white space, and the result does not end with white space. */
  function TrimEnd(s: string): (r: string)
    ensures |r| <= |s| && r == s[..|r|]
    ensures forall k :: |r| <= k < |s| ==> IsSpace(s[k])
    ensures r == [] || !IsSpace(r[|r| - 1])
    decreases |s|
  {
    if |s| > 0 && IsSpace(s[|s| - 1]) then TrimEnd(s[..|s| - 1]) else s
  }

  /** `String.prototype.trim`: the longest infix of `s` that neither starts nor ends with white space. */
  function Trim(s: string): (r: string)
    ensures |r| <= |s|
    ensures r == [] || (!IsSpace(r[0]) && !IsSpace(r[|r| - 1]))
    ensures exists i :: TrimmedAt(s, r, i)
  {
    var a := TrimStart(s);
    var r := TrimEnd(a);
    assert TrimmedAt(s, r, |s| - |a|);
    r
  }

  /** `r` is `s` with white space removed before position `i` and after `i + |r|`. */
  predicate TrimmedAt(s: string, r: string, i: int) {
    && 0 <= i && i + |r| <= |s| && r == s[i..i + |r|]
    && (forall k :: 0 <= k < i ==> IsSpace(s[k]))
    && (forall k :: i + |r| <= k < |s| ==> IsSpace(s[k]))
  }

  /** Trimming twice is trimming once. */
  lemma TrimIdempotent(s: string)
    ensures Trim(Trim(s)) == Trim(s)
  {
    var t := Trim(s);
    assert TrimStart(t) == t;
    assert TrimEnd(t) == t;
  }

  /** A string trims to the empty string exactly when it consists of white space only. */
  lemma {:induction false} TrimEmptyIffBlank(s: string)
    ensures Trim(s) == [] <==> forall k :: 0 <= k < |s| ==> IsSpace(s[k])
  {
    var a := TrimStart(s);
    if a != [] {
      // `a` starts with a non-space character of `s`, which TrimEnd keeps
      assert s[|s| - |a|] == a[0];
      assert TrimEnd(a) != [];
    }
  }

  /** Lower-cases one character the way `toLowerCase` does on the ASCII range. */
  function LowerChar(c: char): char {
    if 'A' <= c <= 'Z' then (c as int + 32) as char else c
  }

  predicate IsUpper(c: char) {
    'A' <= c <= 'Z'
  }

  /** `String.prototype.toLowerCase` restricted to ASCII letters: same length, no
      upper-case letter left, every other character untouched. */
  function ToLower(s: string): (r: string)
    ensures |r| == |s|
    ensures forall k :: 0 <= k < |r| ==> !IsUpper(r[k])
    ensures forall k :: 0 <= k < |s| && !IsUpper(s[k]) ==> r[k] == s[k]
    ensures forall k :: 0 <= k < |s| && IsUpper(s[k]) ==> r[k] as int == s[k] as int + 32
  {
    seq(|s|, k requires 0 <= k < |s| => LowerChar(s[k]))
  }

  /** Lower-casing is idempotent, so a lower-cased search term is its own normal form. */
  lemma ToLowerIdempotent(s: string)
    ensures ToLower(ToLower(s)) == ToLower(s)
  {
  }

  /** `needle` occurs in `hay` starting at position `at`. */
  predicate OccursAt(hay: string, needle: string, at: int) {
    0 <= at && at + |needle| <= |hay| && hay[at..at + |needle|] == needle
  }

  /** Scans `hay` left to right for an occurrence of `needle`. */
  function Includes(hay: string, needle: string): (b: bool)
    ensures b <==> exists at :: OccursAt(hay, needle, at)
    decreases |hay|
  {
    if |needle| <= |hay| && hay[..|needle|] == needle then
      assert OccursAt(hay, needle, 0);
      true
    else if |hay| == 0 then
      false
    else
      var rest := Includes(hay[1..], needle);
      assert rest ==> exists at :: OccursAt(hay, needle, at) by {
        if rest {
          var at :| OccursAt(hay[1..], needle, at);
          assert hay[1..][at..at + |needle|] == hay[at + 1..at + 1 + |needle|];
          assert OccursAt(hay, needle, at + 1);
        }
      }
      assert (exists at :: OccursAt(hay, needle, at)) ==> rest by {
        if exists at :: OccursAt(hay, needle, at) {
          var at :| OccursAt(hay, needle, at);
          assert at != 0;
          assert hay[1..][at - 1..at - 1 + |needle|] == hay[at..at + |needle|];
          assert OccursAt(hay[1..], needle, at - 1);
        }
      }
      rest
  }

  /** Case-insensitive literal containment (a `$regex` with option `i` and no metacharacters). */
  predicate IncludesIgnoringCase(hay: string, needle: string) {
    Includes(ToLower(hay), ToLower(needle))
  }

  /** The numeral of one decimal digit. */
  function Digit(d: nat): (c: char)
    requires d < 10
    ensures '0' <= c <= '9'
  {
    ('0' as int + d) as char
  }

  function DigitValue(c: char): nat
    requires '0' <= c <= '9'
  {
    c as int - '0' as int
  }

  /** Decimal digits of `n`, most significant first, no leading zeros. */
  function Digits(n: nat): (s: string)
    ensures |s| >= 1
    ensures forall k :: 0 <= k < |s| ==> '0' <= s[k] <= '9'
    decreases n
  {
    if n < 10 then [Digit(n)] else Digits(n / 10) + [Digit(n % 10)]
  }

  /** The number a string of decimal digits denotes. */
  function DecimalValue(s: string): nat
    requires forall k :: 0 <= k < |s| ==> '0' <= s[k] <= '9'
    decreases |s|
  {
    if |s| == 0 then 0 else DecimalValue(s[..|s| - 1]) * 10 + DigitValue(s[|s| - 1])
  }

  /** Reading the digits back gives the number. */
  lemma {:induction false} DigitsRoundTrip(n: nat)
    ensures DecimalValue(Digits(n)) == n
    decreases n
  {
    if n >= 10 {
      DigitsRoundTrip(n / 10);
      var s := Digits(n);
      assert s[..|s| - 1] == Digits(n / 10);
    }
  }

  /** `n.toString()` for an integer: a minus sign before the digits of a negative number. */
  function SignedNumeral(n: int): (s: string)
    ensures |s| >= 1
    ensures s[0] == '-' <==> n < 0
    ensures n < 0 ==> s[1..] == Digits(-n)
    ensures n >= 0 ==> s == Digits(n)
  {
    if n < 0 then "-" + Digits(-n) else Digits(n)
  }

  /** The integer a numeral denotes: an optional leading minus sign, then decimal digits. */
  function SignedValue(s: string): int
    requires |s| >= 1
    requires s[0] == '-' || '0' <= s[0] <= '9'
    requires forall k :: 1 <= k < |s| ==> '0' <= s[k] <= '9'
  {
    if s[0] == '-' then -(DecimalValue(s[1..]) as int) else DecimalValue(s)
  }

  /** Reading a signed numeral back gives the integer. */
  lemma SignedNumeralRoundTrip(n: int)
    ensures var s := SignedNumeral(n);
      && (s[0] == '-' || '0' <= s[0] <= '9')
      && (forall k :: 1 <= k < |s| ==> '0' <= s[k] <= '9')
      && SignedValue(s) == n
  {
    var s := SignedNumeral(n);
    if n < 0 {
      var d := Digits(-n);
      assert s[1..] == d;
      assert forall k :: 1 <= k < |s| ==> s[k] == d[k - 1];
      DigitsRoundTrip(-n);
      assert SignedValue(s) == -(DecimalValue(d) as int);
    } else {
      DigitsRoundTrip(n);
    }
  }
}
