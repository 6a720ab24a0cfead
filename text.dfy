/**
 * Character and string helpers shared by the version comparator and the
 * command builder: ASCII decimal digits, decimal rendering and parsing of
 * natural numbers (as `String(n)` and `Number(run)` do for safe integers),
 * and JavaScript's `String.prototype.trim`.
 */
module Text {

  /** Concatenation is associative (stated once, used where the solver would otherwise search for it) */
  lemma ConcatAssoc<T>(a: seq<T>, b: seq<T>, c: seq<T>)
    ensures (a + b) + c == a + (b + c)
  {
  }

  /** `p` is a prefix of `p + x`, and dropping it leaves `x` */
  lemma PrefixOfConcat<T>(p: seq<T>, x: seq<T>)
    ensures p <= p + x && (p + x)[|p|..] == x
  {
    assert (p + x)[..|p|] == p;
  }

  /** Sequences that differ at position `i` are not prefixes of one another */
  lemma NotPrefixAt<T>(p: seq<T>, t: seq<T>, i: nat)
    requires i < |p| && i < |t| && p[i] != t[i]
    ensures !(p <= t)
  {
  }

  // ----- decimal digits -----

  /** The characters JavaScript's `\d` matches (no `u` flag): ASCII 0-9 */
  predicate IsDigit(c: char) {
    '0' <= c <= '9'
  }

  predicate AllDigits(s: string) {
    forall i :: 0 <= i < |s| ==> IsDigit(s[i])
  }

  function DigitValue(c: char): (d: nat)
    requires IsDigit(c)
    ensures d < 10
  {
    c as int - '0' as int
  }

  function DigitChar(d: nat): (c: char)
    requires d < 10
    ensures IsDigit(c) && DigitValue(c) == d
  {
    ('0' as int + d) as char
  }

  /** Decimal rendering of `n` without leading zeros, as a template literal prints a number */
  function ToDecimal(n: nat): (s: string)
    ensures |s| > 0 && AllDigits(s)
    ensures (s[0] == '0') == (n == 0)
    decreases n
  {
    if n < 10 then [DigitChar(n)] else ToDecimal(n / 10) + [DigitChar(n % 10)]
  }

  /** Value of a run of decimal digits, most significant first (leading zeros allowed) */
  function ParseDecimal(s: string): nat
    requires AllDigits(s)
  {
    if s == [] then 0 else ParseDecimal(s[..|s| - 1]) * 10 + DigitValue(s[|s| - 1])
  }

  /** Parsing undoes rendering */
  lemma {:induction false} ParseToDecimal(n: nat)
    ensures ParseDecimal(ToDecimal(n)) == n
    decreases n
  {
    if n >= 10 {
      var s := ToDecimal(n);
      assert s[..|s| - 1] == ToDecimal(n / 10);
      ParseToDecimal(n / 10);
    }
  }

  /** Distinct numbers have distinct renderings */
  lemma ToDecimalInjective(m: nat, n: nat)
    requires ToDecimal(m) == ToDecimal(n)
    ensures m == n
  {
    ParseToDecimal(m);
    ParseToDecimal(n);
  }

  /** Length of the longest prefix of `s` made of digits */
  function DigitSpan(s: string): (k: nat)
    ensures k <= |s| && AllDigits(s[..k])
    ensures k < |s| ==> !IsDigit(s[k])
    decreases |s|
  {
    if s != [] && IsDigit(s[0]) then
      var k' := DigitSpan(s[1..]);
      assert s[..k' + 1] == [s[0]] + s[1..][..k'];
      k' + 1
    else 0
  }

  /** A digit run followed by the end of the string or by a non-digit ends there */
  lemma {:induction false} DigitSpanOfRun(d: string, rest: string)
    requires AllDigits(d)
    requires rest == [] || !IsDigit(rest[0])
    ensures DigitSpan(d + rest) == |d|
    decreases |d|
  {
    if d != [] {
      assert (d + rest)[1..] == d[1..] + rest;
      DigitSpanOfRun(d[1..], rest);
    }
  }

  // ----- String.prototype.trim -----

  /** The code points `trim` removes: ECMA-262's WhiteSpace (which includes the Unicode
      space separators) and LineTerminator */
  predicate IsWhitespace(c: char) {
    var k := c as int;
    (0x09 <= k <= 0x0D) || k == 0x20 || k == 0xA0 || k == 0x1680
    || (0x2000 <= k <= 0x200A) || k == 0x2028 || k == 0x2029
    || k == 0x202F || k == 0x205F || k == 0x3000 || k == 0xFEFF
  }

  predicate AllWhitespace(s: string) {
    forall i :: 0 <= i < |s| ==> IsWhitespace(s[i])
  }

  // Trimming is defined for any class `strip` of characters and proved once for all of them;
  // `Trim` is its instance for `IsWhitespace`.

  /** Number of characters at the start of `s` that belong to `strip` */
  function LeadingRun(s: string, strip: char -> bool): (k: nat)
    ensures k <= |s|
    ensures forall i :: 0 <= i < k ==> strip(s[i])
    ensures k < |s| ==> !strip(s[k])
    decreases |s|
  {
    if s == [] || !strip(s[0]) then 0 else 1 + LeadingRun(s[1..], strip)
  }

  /** Number of characters at the end of `s` that belong to `strip` */
  function TrailingRun(s: string, strip: char -> bool): (k: nat)
    ensures k <= |s|
    ensures forall i :: |s| - k <= i < |s| ==> strip(s[i])
    ensures k < |s| ==> !strip(s[|s| - 1 - k])
    decreases |s|
  {
    if s == [] || !strip(s[|s| - 1]) then 0 else 1 + TrailingRun(s[..|s| - 1], strip)
  }

  /** `s` without the characters of `strip` at either end */
  function TrimBy(s: string, strip: char -> bool): string
  {
    var a := LeadingRun(s, strip);
    s[a..|s| - TrailingRun(s[a..], strip)]
  }

  /** Trimming returns a factor of `s`, and everything it cuts away belongs to `strip` */
  lemma TrimByCut(s: string, strip: char -> bool)
    ensures LeadingRun(s, strip) + |TrimBy(s, strip)| <= |s|
    ensures TrimBy(s, strip) == s[LeadingRun(s, strip)..LeadingRun(s, strip) + |TrimBy(s, strip)|]
    ensures forall i :: 0 <= i < LeadingRun(s, strip) ==> strip(s[i])
    ensures forall i :: LeadingRun(s, strip) + |TrimBy(s, strip)| <= i < |s| ==> strip(s[i])
  {
    var a := LeadingRun(s, strip);
    var t := s[a..];
    var k := TrailingRun(t, strip);
    assert TrimBy(s, strip) == t[..|t| - k];
    forall i | a + |t| - k <= i < |s| ensures strip(s[i]) {
      assert s[i] == t[i - a];
    }
  }

  /** What trimming returns neither starts nor ends with a character of `strip` */
  lemma TrimByEnds(s: string, strip: char -> bool)
    ensures var r := TrimBy(s, strip);
      r != [] ==> !strip(r[0]) && !strip(r[|r| - 1])
  {
    var a := LeadingRun(s, strip);
    var t := s[a..];
    var k := TrailingRun(t, strip);
    var r := TrimBy(s, strip);
    assert r == t[..|t| - k];
    if r != [] {
      assert r[0] == t[0];
      assert r[|r| - 1] == t[|t| - 1 - k];
    }
  }

  lemma TrimByIdempotent(s: string, strip: char -> bool)
    ensures TrimBy(TrimBy(s, strip), strip) == TrimBy(s, strip)
  {
    var r := TrimBy(s, strip);
    TrimByEnds(s, strip);
    assert LeadingRun(r, strip) == 0;
    assert r[0..] == r;
    assert TrailingRun(r, strip) == 0;
  }

  lemma TrimByEmptyIff(s: string, strip: char -> bool)
    ensures TrimBy(s, strip) == [] <==> forall i :: 0 <= i < |s| ==> strip(s[i])
  {
    TrimByCut(s, strip);
    var a := LeadingRun(s, strip);
    if a < |s| {
      assert !strip(s[a]);
      var t := s[a..];
      assert t[0] == s[a];
      assert TrailingRun(t, strip) < |t|;
    }
  }

  /** `s.trim()` */
  function Trim(s: string): (r: string)
    ensures |r| <= |s|
    ensures r != [] ==> !IsWhitespace(r[0]) && !IsWhitespace(r[|r| - 1])
  {
    TrimByCut(s, IsWhitespace);
    TrimByEnds(s, IsWhitespace);
    TrimBy(s, IsWhitespace)
  }

  /** Trimming twice trims nothing more */
  lemma TrimIdempotent(s: string)
    ensures Trim(Trim(s)) == Trim(s)
  {
    TrimByIdempotent(s, IsWhitespace);
  }

  /** `trim()` yields the empty string exactly when `s` is all whitespace */
  lemma TrimEmptyIff(s: string)
    ensures Trim(s) == [] <==> AllWhitespace(s)
  {
    TrimByEmptyIff(s, IsWhitespace);
  }
}
