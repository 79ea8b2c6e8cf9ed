/**
 * String primitives the validators rely on: UTF-8 byte length (what
 * `new TextEncoder().encode(s).length` counts), decimal rendering of
 * integers (template-literal interpolation of a number), ASCII case
 * folding, and the two regular-expression shapes that recognise a numeric
 * path segment (".<digits>." and ".<digits>" at the end).
 */
module Text {

  /** Number of bytes UTF-8 uses for one Unicode scalar value. */
  function CharUtf8Len(c: char): (n: nat)
    ensures 1 <= n <= 4
    ensures n == 1 <==> c as int < 0x80
  {
    if c as int < 0x80 then 1
    else if c as int < 0x800 then 2
    else if c as int < 0x10000 then 3
    else 4
  }

  /** Length of the UTF-8 encoding of `s`. */
  function Utf8Len(s: string): (n: nat)
    ensures |s| <= n <= 4 * |s|
  {
    if s == [] then 0 else CharUtf8Len(s[0]) + Utf8Len(s[1..])
  }

  lemma {:induction false} Utf8LenConcat(a: string, b: string)
    ensures Utf8Len(a + b) == Utf8Len(a) + Utf8Len(b)
  {
    if a == [] {
      assert a + b == b;
    } else {
      assert (a + b)[1..] == a[1..] + b;
      Utf8LenConcat(a[1..], b);
    }
  }

  /** A string is ASCII when every character encodes to one byte. */
  predicate IsAscii(s: string) {
    forall i | 0 <= i < |s| :: s[i] as int < 0x80
  }

  /** A string whose characters all encode to `w` bytes encodes to `w * |s|` bytes. */
  lemma {:induction false} Utf8LenUniform(s: string, w: nat)
    requires forall c | c in s :: CharUtf8Len(c) == w
    ensures Utf8Len(s) == w * |s|
  {
    if s != [] {
      assert s[0] in s;
      assert forall c | c in s[1..] :: c in s;
      Utf8LenUniform(s[1..], w);
    }
  }

  lemma Utf8LenAscii(s: string)
    requires IsAscii(s)
    ensures Utf8Len(s) == |s|
  {
    forall c | c in s ensures CharUtf8Len(c) == 1 {
      var i :| 0 <= i < |s| && s[i] == c;
    }
    Utf8LenUniform(s, 1);
  }

  /** Every string of a list of short ASCII strings fits in `limit` bytes. */
  lemma AsciiListFits(list: seq<string>, limit: nat)
    requires forall i | 0 <= i < |list| :: IsAscii(list[i]) && |list[i]| <= limit
    ensures forall t | t in list :: Utf8Len(t) <= limit
  {
    forall t | t in list ensures Utf8Len(t) <= limit {
      var i :| 0 <= i < |list| && list[i] == t;
      Utf8LenAscii(t);
    }
  }

  // ---------------------------------------------------------------------
  // Decimal rendering of integers

  predicate IsDigit(c: char) {
    '0' <= c <= '9'
  }

  predicate AllDigits(s: string) {
    forall c | c in s :: IsDigit(c)
  }

  function DigitChar(d: nat): (c: char)
    requires d < 10
    ensures IsDigit(c) && c as int - '0' as int == d
  {
    ('0' as int + d) as char
  }

  /** The shortest decimal numeral of `n`, as `String(n)` writes it. */
  function NatToDecimal(n: nat): (s: string)
    ensures s != [] && AllDigits(s)
    ensures s[0] == '0' ==> n == 0
  {
    if n < 10 then [DigitChar(n)]
    else NatToDecimal(n / 10) + [DigitChar(n % 10)]
  }

  /** `String(i)` for an integer-valued number. */
  function IntToDecimal(i: int): string {
    if i < 0 then "-" + NatToDecimal(-i) else NatToDecimal(i)
  }

  /** The value of a numeral: the inverse of NatToDecimal. */
  function DecimalValue(s: string): nat
    requires AllDigits(s)
  {
    if s == [] then 0
    else
      assert forall c | c in s[..|s| - 1] :: c in s;
      assert s[|s| - 1] in s;
      10 * DecimalValue(s[..|s| - 1]) + (s[|s| - 1] as int - '0' as int)
  }

  lemma {:induction false} DecimalRoundTrip(n: nat)
    ensures DecimalValue(NatToDecimal(n)) == n
  {
    if n >= 10 {
      var s := NatToDecimal(n);
      assert s[..|s| - 1] == NatToDecimal(n / 10);
      DecimalRoundTrip(n / 10);
    }
  }

  /** Different numbers are rendered differently, so a count in a message identifies it. */
  lemma DecimalInjective(m: nat, n: nat)
    requires NatToDecimal(m) == NatToDecimal(n)
    ensures m == n
  {
    DecimalRoundTrip(m);
    DecimalRoundTrip(n);
  }

  // ---------------------------------------------------------------------
  // Case folding (ASCII letters only)

  predicate IsAsciiUpper(c: char) {
    'A' <= c <= 'Z'
  }

  function AsciiLowerChar(c: char): char {
    if IsAsciiUpper(c) then (c as int + 32) as char else c
  }

  /** `s.toLowerCase()`, restricted to the letters A-Z. */
  function AsciiLower(s: string): (r: string)
    ensures |r| == |s|
    ensures forall i | 0 <= i < |s| :: r[i] == AsciiLowerChar(s[i])
  {
    if s == [] then [] else [AsciiLowerChar(s[0])] + AsciiLower(s[1..])
  }

  predicate HasNoUpper(s: string) {
    forall c | c in s :: !IsAsciiUpper(c)
  }

  /** A string equals its lower-case form exactly when it has no upper-case letter. */
  lemma LowerFixedIffNoUpper(s: string)
    ensures s == AsciiLower(s) <==> HasNoUpper(s)
  {
    if s == AsciiLower(s) {
      forall c | c in s ensures !IsAsciiUpper(c) {
        var i :| 0 <= i < |s| && s[i] == c;
        assert AsciiLower(s)[i] == AsciiLowerChar(c);
      }
    }
    if HasNoUpper(s) {
      forall i | 0 <= i < |s| ensures AsciiLower(s)[i] == s[i] {
        assert s[i] in s;
      }
    }
  }

  // ---------------------------------------------------------------------
  // Numeric path segments

  /** Characters strictly between positions `i` and `j` are all digits. */
  predicate DigitsBetween(s: string, i: int, j: int)
    requires 0 <= i < j <= |s|
  {
    forall k | i < k < j :: IsDigit(s[k])
  }

  /** The regular expression `\.\d+\.` matches somewhere in `s`. */
  predicate HasMidIndex(s: string) {
    exists i, j | 0 <= i && i + 1 < j < |s| :: s[i] == '.' && s[j] == '.' && DigitsBetween(s, i, j)
  }

  /** The regular expression `\.\d+$` matches `s`. */
  predicate HasTrailingIndex(s: string) {
    exists i | 0 <= i && i + 1 < |s| :: s[i] == '.' && DigitsBetween(s, i, |s|)
  }

  /** The regular expression `\.\d+ $` (a space before the end) matches `s`. */
  predicate HasTrailingIndexSpace(s: string) {
    exists i | 0 <= i && i + 2 < |s| :: s[i] == '.' && s[|s| - 1] == ' ' && DigitsBetween(s, i, |s| - 1)
  }

  /** With at most one '.', the middle pattern cannot match. */
  lemma SingleDotNoMidIndex(s: string, p: int)
    requires forall k | 0 <= k < |s| && k != p :: s[k] != '.'
    ensures !HasMidIndex(s)
  {
  }

  /** A string whose last character is not a digit has no trailing index. */
  lemma NonDigitEndNoTrailingIndex(s: string)
    requires s != [] && !IsDigit(s[|s| - 1])
    ensures !HasTrailingIndex(s)
  {
  }

  lemma NoDotNoIndex(s: string)
    requires '.' !in s
    ensures !HasMidIndex(s) && !HasTrailingIndex(s) && !HasTrailingIndexSpace(s)
  {
    forall i | 0 <= i < |s| ensures s[i] != '.' {
      assert s[i] in s;
    }
  }

  /** `s.endsWith(suffix)`. */
  predicate EndsWith(s: string, suffix: string) {
    |suffix| <= |s| && s[|s| - |suffix|..] == suffix
  }

  /** `parts.join(sep)`. */
  function Join(parts: seq<string>, sep: string): string {
    if parts == [] then ""
    else if |parts| == 1 then parts[0]
    else parts[0] + sep + Join(parts[1..], sep)
  }
}
