/**
 * The parts of Python's `str` that the modelled code relies on: character
 * classes (`isspace`, `isdecimal`, `isdigit`), `strip`, case mapping for the
 * comparisons the code makes, `split(sep)[-1]`, `join`, `str(int)` and `int(str)`.
 * Character classes follow the Unicode 15.0 database of Python 3.12.
 */
module Text {
  import opened Common

  /**
   * First code points of the blocks of ten Unicode decimal digits (category Nd)
   * other than the ASCII block '0'..'9'.
   */
  const NonAsciiDecimalZeros: seq<int> := [
    0x660, 0x6F0, 0x7C0, 0x966, 0x9E6, 0xA66, 0xAE6, 0xB66, 0xBE6, 0xC66, 0xCE6,
    0xD66, 0xDE6, 0xE50, 0xED0, 0xF20, 0x1040, 0x1090, 0x17E0, 0x1810, 0x1946, 0x19D0,
    0x1A80, 0x1A90, 0x1B50, 0x1BB0, 0x1C40, 0x1C50, 0xA620, 0xA8D0, 0xA900, 0xA9D0,
    0xA9F0, 0xAA50, 0xABF0, 0xFF10, 0x104A0, 0x10D30, 0x11066, 0x110F0, 0x11136,
    0x111D0, 0x112F0, 0x11450, 0x114D0, 0x11650, 0x116C0, 0x11730, 0x118E0, 0x11950,
    0x11C50, 0x11D50, 0x11DA0, 0x11F50, 0x16A60, 0x16AC0, 0x16B50,
    0x1D7CE, 0x1D7D8, 0x1D7E2, 0x1D7EC, 0x1D7F6,
    0x1E140, 0x1E2F0, 0x1E4F0, 0x1E950, 0x1FBF0]

  /** Inclusive ranges that `str.isdigit` accepts beyond the decimal digits. */
  const OtherDigitRanges: seq<(int, int)> := [
    (0xB2, 0xB3), (0xB9, 0xB9), (0x1369, 0x1371), (0x19DA, 0x19DA), (0x2070, 0x2070),
    (0x2074, 0x2079), (0x2080, 0x2089), (0x2460, 0x2468), (0x2474, 0x247C),
    (0x2488, 0x2490), (0x24EA, 0x24EA), (0x24F5, 0x24FD), (0x24FF, 0x24FF),
    (0x2776, 0x277E), (0x2780, 0x2788), (0x278A, 0x2792), (0x10A40, 0x10A43),
    (0x10E60, 0x10E68), (0x11052, 0x1105A), (0x1F100, 0x1F10A)]

  /** The zero of the decimal block that holds `c`, if any. */
  function DecimalZeroOf(c: char, zeros: seq<int>): (z: Option<int>)
    ensures z.Some? ==> z.value in zeros && z.value <= c as int < z.value + 10
    ensures (exists k :: 0 <= k < |zeros| && zeros[k] <= c as int < zeros[k] + 10) ==> z.Some?
  {
    if zeros == [] then None
    else if zeros[0] <= c as int < zeros[0] + 10 then Some(zeros[0])
    else
      var z := DecimalZeroOf(c, zeros[1..]);
      assert forall k :: 1 <= k < |zeros| ==> zeros[k] == zeros[1..][k - 1];
      z
  }

  /** `str.isdecimal` on one character; also what `\d` matches in a `str` pattern. */
  predicate IsDecimal(c: char)
  {
    IsAsciiDigit(c) || DecimalZeroOf(c, NonAsciiDecimalZeros).Some?
  }

  /** The digit value `int()` gives a decimal character. */
  function DecimalValue(c: char): (d: nat)
    requires IsDecimal(c)
    ensures d < 10
  {
    if IsAsciiDigit(c) then c as int - '0' as int
    else c as int - DecimalZeroOf(c, NonAsciiDecimalZeros).value
  }

  predicate InRanges(x: int, ranges: seq<(int, int)>)
  {
    exists k :: 0 <= k < |ranges| && ranges[k].0 <= x <= ranges[k].1
  }

  /** `str.isdigit` on one character. */
  predicate IsDigitChar(c: char)
  {
    IsDecimal(c) || InRanges(c as int, OtherDigitRanges)
  }

  /** `str.isdigit` on a string: non-empty and every character a digit. */
  predicate IsDigitString(s: string)
  {
    |s| > 0 && forall i :: 0 <= i < |s| ==> IsDigitChar(s[i])
  }

  /** `str.isspace` on one character. */
  predicate IsSpace(c: char)
  {
    var x := c as int;
    (0x09 <= x <= 0x0D) || (0x1C <= x <= 0x20) || x == 0x85 || x == 0xA0 || x == 0x1680
    || (0x2000 <= x <= 0x200A) || x == 0x2028 || x == 0x2029 || x == 0x202F || x == 0x205F
    || x == 0x3000
  }

  /** The whitespace `int()` skips around its literal: `isspace` without U+001C..U+001F. */
  predicate IsIntSpace(c: char)
  {
    IsSpace(c) && !(0x1C <= c as int <= 0x1F)
  }

  function LStripBy(s: string, space: char -> bool): (r: string)
    ensures |r| <= |s| && r == s[|s| - |r|..]
    ensures r == [] || !space(r[0])
    ensures forall i :: 0 <= i < |s| - |r| ==> space(s[i])
  {
    if s != [] && space(s[0]) then
      var r := LStripBy(s[1..], space);
      assert forall i :: 1 <= i < |s| - |r| ==> s[i] == s[1..][i - 1];
      assert s[1..][|s| - 1 - |r|..] == s[|s| - |r|..];
      r
    else s
  }

  function RStripBy(s: string, space: char -> bool): (r: string)
    ensures |r| <= |s| && r == s[..|r|]
    ensures r == [] || !space(r[|r| - 1])
    ensures forall i :: |r| <= i < |s| ==> space(s[i])
  {
    if s != [] && space(s[|s| - 1]) then
      var r := RStripBy(s[..|s| - 1], space);
      assert forall i :: |r| <= i < |s| - 1 ==> s[i] == s[..|s| - 1][i];
      assert s[..|s| - 1][..|r|] == s[..|r|];
      r
    else s
  }

  /** `str.strip()` with no argument. */
  function Strip(s: string): string
  {
    RStripBy(LStripBy(s, IsSpace), IsSpace)
  }

  /** Stripping leaves a string alone when it neither starts nor ends with a space. */
  lemma StripUnchanged(s: string, space: char -> bool)
    requires s == [] || (!space(s[0]) && !space(s[|s| - 1]))
    ensures RStripBy(LStripBy(s, space), space) == s
  {
  }

  predicate IsAsciiDigit(c: char) { '0' <= c <= '9' }
  predicate IsAsciiUpper(c: char) { 'A' <= c <= 'Z' }
  predicate IsAsciiLower(c: char) { 'a' <= c <= 'z' }
  predicate IsAsciiLetter(c: char) { IsAsciiUpper(c) || IsAsciiLower(c) }

  /**
   * Lower-casing of one character, ASCII letters only. For the comparisons the
   * source makes after `lower()` (with "gstin", "csv", "xlsx", ".csv", ".xls",
   * ".xlsx" and "resend") this gives the same verdict as Python's full mapping.
   */
  function LowerChar(c: char): (l: char)
    ensures IsAsciiUpper(c) ==> IsAsciiLower(l) && l as int == c as int + 32
    ensures !IsAsciiUpper(c) ==> l == c
  {
    if IsAsciiUpper(c) then (c as int + 32) as char else c
  }

  function Lower(s: string): (r: string)
    ensures |r| == |s| && forall i :: 0 <= i < |s| ==> r[i] == LowerChar(s[i])
  {
    seq(|s|, i requires 0 <= i < |s| => LowerChar(s[i]))
  }

  /**
   * Upper-casing of one character: ASCII letters, and U+017F LATIN SMALL LETTER
   * LONG S, which Python upper-cases to 'S'. For comparisons with "CSV" and
   * "XLSX" this gives the same verdict as Python's full mapping.
   */
  function UpperChar(c: char): (u: char)
    ensures IsAsciiLower(c) ==> IsAsciiUpper(u) && u as int == c as int - 32
    ensures c == 'ſ' ==> u == 'S'
    ensures !IsAsciiLower(c) && c != 'ſ' ==> u == c
  {
    if IsAsciiLower(c) then (c as int - 32) as char
    else if c == 'ſ' then 'S'
    else c
  }

  function Upper(s: string): (r: string)
    ensures |r| == |s| && forall i :: 0 <= i < |s| ==> r[i] == UpperChar(s[i])
  {
    seq(|s|, i requires 0 <= i < |s| => UpperChar(s[i]))
  }

  /**
   * Lower-casing is a normal form: it leaves no ASCII capital, applying it
   * twice changes nothing more, and it changes a string exactly when the
   * string holds an ASCII capital.
   */
  lemma LowerNormalises(s: string)
    ensures forall i :: 0 <= i < |s| ==> !IsAsciiUpper(Lower(s)[i])
    ensures Lower(Lower(s)) == Lower(s)
    ensures Lower(s) == s <==> forall i :: 0 <= i < |s| ==> !IsAsciiUpper(s[i])
  {
    if Lower(s) == s {
      forall i | 0 <= i < |s| ensures !IsAsciiUpper(s[i]) {
        assert s[i] == Lower(s)[i];
      }
    }
  }

  /**
   * Upper-casing leaves no ASCII lower-case letter and no long s, and
   * applying it twice changes nothing more.
   */
  lemma UpperNormalises(s: string)
    ensures forall i :: 0 <= i < |s| ==> !IsAsciiLower(Upper(s)[i]) && Upper(s)[i] != 'ſ'
    ensures Upper(Upper(s)) == Upper(s)
  {
  }

  /**
   * Upper-casing first and then lower-casing gives the plain lower-cased
   * string exactly when there is no long s, the one character whose
   * upper-case form lower-cases to a different letter.
   */
  lemma LowerOfUpper(s: string)
    ensures Lower(Upper(s)) == Lower(s) <==> 'ſ' !in s
  {
    if 'ſ' in s {
      var i :| 0 <= i < |s| && s[i] == 'ſ';
      assert Lower(Upper(s))[i] == 's' != Lower(s)[i];
    } else {
      forall i | 0 <= i < |s| ensures Lower(Upper(s))[i] == Lower(s)[i] {
        assert s[i] != 'ſ';
      }
    }
  }

  /** `s.rfind(c)`: the last index holding `c`, or -1. */
  function LastIndexOf(s: string, c: char): (k: int)
    ensures -1 <= k < |s|
    ensures k >= 0 ==> s[k] == c
    ensures forall j :: k < j < |s| ==> s[j] != c
  {
    if s == [] then -1
    else if s[|s| - 1] == c then |s| - 1
    else LastIndexOf(s[..|s| - 1], c)
  }

  /** `s.split(sep)[-1]`: the text after the last `sep`, or all of `s`. */
  function LastSegment(s: string, sep: char): (r: string)
    ensures sep !in r
    ensures |r| <= |s| && r == s[|s| - |r|..]
    ensures |r| < |s| ==> s[|s| - |r| - 1] == sep
  {
    s[LastIndexOf(s, sep) + 1..]
  }

  /** `sep.join(parts)`. */
  function JoinWith(sep: string, parts: seq<string>): string
  {
    if parts == [] then ""
    else if |parts| == 1 then parts[0]
    else parts[0] + sep + JoinWith(sep, parts[1..])
  }

  /** The decimal digits of a natural number, most significant first. */
  function NatToString(n: nat): (s: string)
    ensures |s| > 0 && forall i :: 0 <= i < |s| ==> IsAsciiDigit(s[i])
    decreases n
  {
    var d := ['0' + (n % 10) as char];
    if n < 10 then d else NatToString(n / 10) + d
  }

  /** `str(n)` for an int. */
  function IntToString(n: int): string
  {
    if n < 0 then "-" + NatToString(-n) else NatToString(n)
  }

  /** The largest number of digits `int()` accepts (`sys.get_int_max_str_digits()`). */
  const MaxStrDigits: nat := 4300

  /** Decimal digits with single underscores between them, as `int()` accepts. */
  predicate WellFormedDigits(b: string)
  {
    && |b| > 0 && IsDecimal(b[0]) && IsDecimal(b[|b| - 1])
    && (forall i :: 0 <= i < |b| ==> IsDecimal(b[i]) || b[i] == '_')
    && (forall i :: 0 <= i < |b| - 1 ==> b[i] != '_' || b[i + 1] != '_')
  }

  function DigitCount(b: string): nat
  {
    if b == [] then 0
    else DigitCount(b[..|b| - 1]) + (if IsDecimal(b[|b| - 1]) then 1 else 0)
  }

  function DigitsValue(b: string): nat
  {
    if b == [] then 0
    else if IsDecimal(b[|b| - 1]) then DigitsValue(b[..|b| - 1]) * 10 + DecimalValue(b[|b| - 1])
    else DigitsValue(b[..|b| - 1])
  }

  /** `int(s)` in base 10: `None` where Python raises ValueError. */
  function ParseInt(s: string): Option<int>
  {
    var t := RStripBy(LStripBy(s, IsIntSpace), IsIntSpace);
    var signed := |t| > 0 && (t[0] == '+' || t[0] == '-');
    var body := if signed then t[1..] else t;
    var magnitude: int := DigitsValue(body);
    if WellFormedDigits(body) && DigitCount(body) <= MaxStrDigits then
      Some(if signed && t[0] == '-' then -magnitude else magnitude)
    else None
  }

  lemma AsciiDigitIsDecimal(c: char)
    requires IsAsciiDigit(c)
    ensures IsDecimal(c) && DecimalValue(c) == c as int - '0' as int
  {
  }

  lemma {:induction false} NatToStringValue(n: nat)
    ensures var s := NatToString(n);
            WellFormedDigits(s) && DigitsValue(s) == n && DigitCount(s) == |s|
    decreases n
  {
    var s := NatToString(n);
    var d := '0' + (n % 10) as char;
    AsciiDigitIsDecimal(d);
    if n >= 10 {
      var p := NatToString(n / 10);
      NatToStringValue(n / 10);
      assert s == p + [d] && s[..|s| - 1] == p;
      assert IsDecimal(s[0]) by { assert s[0] == p[0]; }
      assert forall i :: 0 <= i < |s| ==> IsDecimal(s[i]) by {
        forall i | 0 <= i < |s| ensures IsDecimal(s[i]) {
          if i < |p| { assert s[i] == p[i]; } else { assert s[i] == d; }
        }
      }
    }
  }

  /** Reading back the decimal text of a natural number gives the number. */
  lemma ParseNatToString(n: nat)
    requires |NatToString(n)| <= MaxStrDigits
    ensures ParseInt(NatToString(n)) == Some(n)
  {
    var s := NatToString(n);
    NatToStringValue(n);
    assert RStripBy(LStripBy(s, IsIntSpace), IsIntSpace) == s by {
      assert IsAsciiDigit(s[0]) && IsAsciiDigit(s[|s| - 1]);
      StripUnchanged(s, IsIntSpace);
    }
    assert s[0] != '+' && s[0] != '-' by { assert IsAsciiDigit(s[0]); }
  }
}
