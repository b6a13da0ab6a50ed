/**
 * JavaScript strings as far as the signing pipeline looks at them: the order
 * in which `Array.prototype.sort()` (no comparator) puts property names, and
 * the decimal "array index" names that ordinary objects enumerate first.
 *
 * A JavaScript string is a sequence of UTF-16 code units; here it is a Dafny
 * `string`, whose characters are Unicode scalar values, so a string holding a
 * lone surrogate code unit cannot be written down. `Utf16` gives the code
 * units of a string and `LessIsCodeUnitOrder` proves that `Less` is exactly
 * the code-unit order that the default sort compares by.
 */
module JsString {

  // ---------------------------------------------------------------------
  // UTF-16 code units and the default sort order
  // ---------------------------------------------------------------------

  /** The UTF-16 code units of one character. */
  function Utf16Char(c: char): (units: seq<int>)
    ensures 1 <= |units| <= 2
    ensures forall i :: 0 <= i < |units| ==> 0 <= units[i] < 0x1_0000
  {
    var n := c as int;
    if n < 0x1_0000 then [n]
    else [0xD800 + (n - 0x1_0000) / 0x400, 0xDC00 + (n - 0x1_0000) % 0x400]
  }

  /** The UTF-16 code units of a string, i.e. the JavaScript string value. */
  function Utf16(s: string): seq<int>
  {
    if s == [] then [] else Utf16Char(s[0]) + Utf16(s[1..])
  }

  /** Characters below U+10000 are one code unit each, and that unit is the character. */
  lemma {:induction false} Utf16OfBasic(s: string)
    requires forall j :: 0 <= j < |s| ==> s[j] as int < 0x1_0000
    ensures |Utf16(s)| == |s|
    ensures forall j :: 0 <= j < |s| ==> Utf16(s)[j] == s[j] as int
  {
    if s != [] {
      Utf16OfBasic(s[1..]);
      assert Utf16(s) == [s[0] as int] + Utf16(s[1..]);
    }
  }

  /** Lexicographic order on code-unit sequences, a proper prefix first. */
  predicate UnitsLess(a: seq<int>, b: seq<int>)
  {
    b != [] && (a == [] || a[0] < b[0] || (a[0] == b[0] && UnitsLess(a[1..], b[1..])))
  }

  /**
   * The position of a character in code-unit order: characters below U+D800
   * come first, then the supplementary characters (their first unit is a
   * surrogate in D800-DBFF), then the characters U+E000-U+FFFF.
   */
  function CodeUnitRank(c: char): int
  {
    var n := c as int;
    if 0xE000 <= n < 0x1_0000 then n + 0x11_0000 else n
  }

  /** `a` sorts before `b` under the default comparator of `Array.prototype.sort`. */
  predicate Less(a: string, b: string)
  {
    b != [] && (a == [] || CodeUnitRank(a[0]) < CodeUnitRank(b[0]) || (a[0] == b[0] && Less(a[1..], b[1..])))
  }

  lemma RankInjective(c: char, d: char)
    requires c != d
    ensures CodeUnitRank(c) != CodeUnitRank(d)
  {
  }

  lemma {:induction false} UnitsLessCommonPrefix(p: seq<int>, x: seq<int>, y: seq<int>)
    ensures UnitsLess(p + x, p + y) == UnitsLess(x, y)
  {
    if p != [] {
      assert (p + x)[0] == p[0] == (p + y)[0];
      assert (p + x)[1..] == p[1..] + x;
      assert (p + y)[1..] == p[1..] + y;
      UnitsLessCommonPrefix(p[1..], x, y);
    } else {
      assert p + x == x && p + y == y;
    }
  }

  /** Two different characters are ordered by their first differing code unit. */
  lemma FirstCharDecides(c: char, d: char, x: seq<int>, y: seq<int>)
    requires c != d
    ensures UnitsLess(Utf16Char(c) + x, Utf16Char(d) + y) == (CodeUnitRank(c) < CodeUnitRank(d))
  {
    var u, w := Utf16Char(c) + x, Utf16Char(d) + y;
    var n, m := c as int, d as int;
    if n >= 0x1_0000 && m >= 0x1_0000 && (n - 0x1_0000) / 0x400 == (m - 0x1_0000) / 0x400 {
      assert u[0] == w[0];
      assert u[1..][0] == 0xDC00 + (n - 0x1_0000) % 0x400;
      assert w[1..][0] == 0xDC00 + (m - 0x1_0000) % 0x400;
      assert (n - 0x1_0000) % 0x400 != (m - 0x1_0000) % 0x400;
    } else {
      assert u[0] != w[0];
    }
  }

  /** `Less` is the order of the strings' UTF-16 code units. */
  lemma {:induction false} LessIsCodeUnitOrder(a: string, b: string)
    ensures Less(a, b) == UnitsLess(Utf16(a), Utf16(b))
  {
    if a != [] && b != [] {
      if a[0] == b[0] {
        LessIsCodeUnitOrder(a[1..], b[1..]);
        UnitsLessCommonPrefix(Utf16Char(a[0]), Utf16(a[1..]), Utf16(b[1..]));
      } else {
        FirstCharDecides(a[0], b[0], Utf16(a[1..]), Utf16(b[1..]));
      }
    }
  }

  lemma {:induction false} LessIrreflexive(a: string)
    ensures !Less(a, a)
  {
    if a != [] {
      LessIrreflexive(a[1..]);
    }
  }

  lemma {:induction false} LessTransitive(a: string, b: string, c: string)
    requires Less(a, b) && Less(b, c)
    ensures Less(a, c)
  {
    if a != [] && a[0] == b[0] && b[0] == c[0] {
      LessTransitive(a[1..], b[1..], c[1..]);
    }
  }

  lemma {:induction false} LessTotal(a: string, b: string)
    requires a != b
    ensures Less(a, b) || Less(b, a)
  {
    if a != [] && b != [] {
      if a[0] == b[0] {
        LessTotal(a[1..], b[1..]);
      } else {
        RankInjective(a[0], b[0]);
      }
    }
  }

  lemma LessAsymmetric(a: string, b: string)
    requires Less(a, b)
    ensures !Less(b, a)
  {
    if Less(b, a) {
      LessTransitive(a, b, a);
      LessIrreflexive(a);
    }
  }

  // ---------------------------------------------------------------------
  // Decimal digits and array indices
  // ---------------------------------------------------------------------

  predicate IsDigit(c: char)
  {
    '0' <= c <= '9'
  }

  function DigitValue(c: char): nat
    requires IsDigit(c)
  {
    c as int - '0' as int
  }

  function DigitChar(d: nat): (c: char)
    requires d < 10
    ensures IsDigit(c) && DigitValue(c) == d
  {
    ('0' as int + d) as char
  }

  predicate AllDigits(s: string)
  {
    forall i :: 0 <= i < |s| ==> IsDigit(s[i])
  }

  /** The number a string of decimal digits denotes. */
  function DigitsValue(s: string): nat
    requires AllDigits(s)
  {
    if s == [] then 0 else DigitsValue(s[..|s| - 1]) * 10 + DigitValue(s[|s| - 1])
  }

  /**
   * The decimal numeral of `n`, without leading zeros: the name of the
   * array index `n`, and what Number::toString writes for a safe integer.
   */
  function Decimal(n: nat): string
  {
    if n < 10 then [DigitChar(n)] else Decimal(n / 10) + [DigitChar(n % 10)]
  }

  /** A decimal numeral with no superfluous leading zero. */
  predicate IsCanonicalNumeral(s: string)
  {
    |s| > 0 && AllDigits(s) && (s[0] != '0' || |s| == 1)
  }

  /** `Decimal` writes the canonical numeral, and `DigitsValue` reads `n` back from it. */
  lemma {:induction false} DecimalRoundTrip(n: nat)
    ensures IsCanonicalNumeral(Decimal(n))
    ensures DigitsValue(Decimal(n)) == n
  {
    if n >= 10 {
      DecimalRoundTrip(n / 10);
      var s := Decimal(n);
      assert s[..|s| - 1] == Decimal(n / 10);
    }
  }

  /** 2^32 - 1: array indices are the canonical numerals below it. */
  const ARRAY_INDEX_LIMIT: nat := 0xFFFF_FFFF

  /** A property name that is an array index; ordinary objects enumerate these first, in numeric order. */
  predicate IsArrayIndex(k: string)
  {
    IsCanonicalNumeral(k) && DigitsValue(k) < ARRAY_INDEX_LIMIT
  }

  function IndexValue(k: string): nat
    requires IsArrayIndex(k)
  {
    DigitsValue(k)
  }

  function Pow10(e: nat): nat
  {
    if e == 0 then 1 else 10 * Pow10(e - 1)
  }

  lemma {:induction false} DigitsValueBounds(s: string)
    requires AllDigits(s)
    ensures DigitsValue(s) < Pow10(|s|)
    ensures |s| > 0 && s[0] != '0' ==> Pow10(|s| - 1) <= DigitsValue(s)
  {
    if s != [] {
      var p := s[..|s| - 1];
      DigitsValueBounds(p);
      if |s| > 1 {
        assert p[0] == s[0];
      }
    }
  }

  lemma {:induction false} DigitsValueInjective(a: string, b: string)
    requires AllDigits(a) && AllDigits(b) && |a| == |b|
    requires DigitsValue(a) == DigitsValue(b)
    ensures a == b
  {
    if a != [] {
      var n := |a| - 1;
      assert DigitValue(a[n]) == DigitValue(b[n]) && DigitsValue(a[..n]) == DigitsValue(b[..n]) by {
        var x, y := DigitsValue(a[..n]), DigitsValue(b[..n]);
        assert x * 10 + DigitValue(a[n]) == y * 10 + DigitValue(b[n]);
      }
      DigitsValueInjective(a[..n], b[..n]);
      assert a == a[..n] + [a[n]] && b == b[..n] + [b[n]];
    }
  }

  lemma Pow10Monotonic(d: nat, e: nat)
    requires d <= e
    ensures Pow10(d) <= Pow10(e)
  {
  }

  /** Different canonical numerals denote different numbers. */
  lemma CanonicalNumeralInjective(a: string, b: string)
    requires IsCanonicalNumeral(a) && IsCanonicalNumeral(b)
    requires DigitsValue(a) == DigitsValue(b)
    ensures a == b
  {
    DigitsValueBounds(a);
    DigitsValueBounds(b);
    DigitsValueInjective(a, b);
  }

  lemma IndexValueInjective(a: string, b: string)
    requires IsArrayIndex(a) && IsArrayIndex(b)
    requires a != b
    ensures IndexValue(a) != IndexValue(b)
  {
    if IndexValue(a) == IndexValue(b) {
      CanonicalNumeralInjective(a, b);
    }
  }
}
