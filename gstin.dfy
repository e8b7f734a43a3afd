/**
 * GSTIN check digit (Luhn mod N over the 36 symbols 0-9A-Z) and validation,
 * as in scripts/utils/gstin.py.
 */
module Gstin {
  import opened Common
  import opened Text

  /** The modulus N of Luhn mod N: the number of code points 48..57 and 65..90. */
  const Modulus: nat := 36

  /** The symbol of value `v`: code points 48..57 ('0'..'9') then 65..90 ('A'..'Z'). */
  function Symbol(v: nat): (c: char)
    requires v < Modulus
  {
    if v < 10 then ('0' as int + v) as char else ('A' as int + v - 10) as char
  }

  predicate InAlphabet(c: char)
  {
    IsAsciiDigit(c) || IsAsciiUpper(c)
  }

  /** `code_points.index(ord(c))`, or None where `index` raises ValueError. */
  function SymbolValue(c: char): (v: Option<nat>)
    ensures v.Some? <==> InAlphabet(c)
    ensures v.Some? ==> v.value < Modulus && Symbol(v.value) == c
  {
    if IsAsciiDigit(c) then Some(c as int - '0' as int)
    else if IsAsciiUpper(c) then Some(c as int - 'A' as int + 10)
    else None
  }

  /** The weight of the k-th character counted from the right, 0-based: 2, 1, 2, 1, ... */
  function Weight(k: nat): nat
  {
    if k % 2 == 0 then 2 else 1
  }

  /** `sum(divmod(d * w, 36))`: the contribution of one character (the weight is 1 or 2). */
  function Contribution(d: nat, w: nat): nat
    requires w == 1 || w == 2
  {
    var product := if w == 2 then d + d else d;
    product / Modulus + product % Modulus
  }

  predicate AllInAlphabet(s: string)
  {
    forall i :: 0 <= i < |s| ==> InAlphabet(s[i])
  }

  /** The total over the last `k` characters of `s`, each weighted by its position from the right. */
  function Total(s: string, k: nat): nat
    requires k <= |s| && AllInAlphabet(s)
  {
    if k == 0 then 0
    else Total(s, k - 1) + Contribution(SymbolValue(s[|s| - k]).value, Weight(k - 1))
  }

  /** The symbol that brings a total up to a multiple of 36. */
  function CheckSymbol(total: nat): (c: char)
    ensures InAlphabet(c)
    ensures (total + SymbolValue(c).value) % Modulus == 0
  {
    var v := (Modulus - total % Modulus) % Modulus;
    assert SymbolValue(Symbol(v)) == Some(v);
    Symbol(v)
  }

  /**
   * `calculate_check_digit`: scans the characters right to left, alternating
   * the factor 2, 1, 2, ..., and returns the symbol completing the total;
   * a character outside 0-9A-Z makes `index` raise ValueError.
   */
  method CalculateCheckDigit(s: string) returns (r: Result<char>)
    ensures r.Err? <==> !AllInAlphabet(s)
    ensures r.Err? ==> r.error == ValueError
    ensures r.Ok? ==> r.value == CheckSymbol(Total(s, |s|))
    ensures r.Ok? ==> InAlphabet(r.value) && (Total(s, |s|) + SymbolValue(r.value).value) % Modulus == 0
  {
    var factor := 1;
    var total := 0;
    var k := 0;
    while k < |s|
      invariant 0 <= k <= |s|
      invariant k == 0 ==> factor == 1
      invariant k > 0 ==> factor == Weight(k - 1)
      invariant AllInAlphabet(s[|s| - k..]) && total == Total(s[|s| - k..], k)
    {
      var c := s[|s| - 1 - k];
      var digit := SymbolValue(c);
      if digit.None? {
        assert !InAlphabet(s[|s| - 1 - k]);
        return Err(ValueError);
      }
      factor := if factor % 2 == 0 then 1 else 2;
      assert factor == Weight(k);
      total := total + Contribution(digit.value, factor);
      TotalSuffix(s, k);
      assert AllInAlphabet(s[|s| - (k + 1)..]) && total == Total(s[|s| - (k + 1)..], k + 1);
      k := k + 1;
    }
    assert s[|s| - k..] == s;
    r := Ok(CheckSymbol(total));
  }

  /** Extending the scanned suffix by one character adds that character's contribution. */
  lemma TotalSuffix(s: string, k: nat)
    requires k < |s| && InAlphabet(s[|s| - 1 - k])
    requires AllInAlphabet(s[|s| - k..])
    ensures AllInAlphabet(s[|s| - (k + 1)..])
    ensures Total(s[|s| - (k + 1)..], k + 1)
            == Total(s[|s| - k..], k) + Contribution(SymbolValue(s[|s| - 1 - k]).value, Weight(k))
  {
    var t := s[|s| - (k + 1)..];
    var u := s[|s| - k..];
    assert t[1..] == u;
    assert forall i :: 0 <= i < |t| ==> InAlphabet(t[i]) by {
      forall i | 0 <= i < |t| ensures InAlphabet(t[i]) {
        if i > 0 { assert t[i] == u[i - 1]; }
      }
    }
    TotalDropFirst(t, k);
  }

  /** The total of the last `k` characters does not depend on characters further left. */
  lemma {:induction false} TotalDropFirst(t: string, k: nat)
    requires k < |t| && AllInAlphabet(t)
    ensures AllInAlphabet(t[1..]) && Total(t, k) == Total(t[1..], k)
  {
    assert forall i :: 0 <= i < |t| - 1 ==> t[1..][i] == t[i + 1];
    if k > 0 {
      TotalDropFirst(t, k - 1);
      assert t[|t| - k] == t[1..][|t[1..]| - k];
    }
  }

  /** The input of `validate_gstin`: a `str`, or any other Python object. */
  datatype PyValue = Str(s: string) | NotAString

  /** One position of `^[0-9]{2}[A-Za-z]{5}\d{4}[A-Za-z]{1}[0-9A-Za-z]{1}[Zz]{1}[0-9A-Za-z]{1}$`. */
  predicate PatternAt(i: nat, c: char)
  {
    if i < 2 then IsAsciiDigit(c)
    else if i < 7 then IsAsciiLetter(c)
    else if i < 11 then IsDecimal(c)        // `\d` matches every Unicode decimal digit
    else if i == 11 then IsAsciiLetter(c)
    else if i == 12 then IsAsciiDigit(c) || IsAsciiLetter(c)
    else if i == 13 then c == 'Z' || c == 'z'
    else IsAsciiDigit(c) || IsAsciiLetter(c)
  }

  /** `re.match` of the GSTIN pattern on a string that has no trailing newline. */
  predicate MatchesPattern(g: string)
  {
    |g| == 15 && forall i :: 0 <= i < 15 ==> PatternAt(i, g[i])
  }

  /**
   * `validate_gstin`: a non-string or a stripped string not matching the
   * pattern is a ValidationError; otherwise the check digit of the first 14
   * characters is computed (which raises ValueError on a lower-case letter or a
   * non-ASCII digit) and must equal the last character.
   */
  method ValidateGstin(v: PyValue) returns (r: Result<string>)
    ensures v.NotAString? ==> r == Err(ValidationError)
    ensures v.Str? && !MatchesPattern(Strip(v.s)) ==> r == Err(ValidationError)
    ensures v.Str? && MatchesPattern(Strip(v.s)) ==>
              var g := Strip(v.s);
              r == if !AllInAlphabet(g[..14]) then Err(ValueError)
                   else if g[14] == CheckSymbol(Total(g[..14], 14)) then Ok(g)
                   else Err(ValidationError)
  {
    if v.NotAString? {
      return Err(ValidationError);
    }
    var g := Strip(v.s);
    if !MatchesPattern(g) {
      return Err(ValidationError);
    }
    var expected := CalculateCheckDigit(g[..14]);
    if expected.Err? {
      return Err(expected.error);
    }
    if g[14] != expected.value {
      return Err(ValidationError);
    }
    return Ok(g);
  }

  /**
   * `is_gstin_valid`: true when validation succeeds, false on ValidationError;
   * any other exception (here ValueError) propagates.
   */
  method IsGstinValid(v: PyValue) returns (r: Result<bool>)
    ensures r == Ok(true) <==> v.Str? && Accepted(Strip(v.s))
    ensures r == Err(ValueError) <==>
              v.Str? && MatchesPattern(Strip(v.s)) && !AllInAlphabet(Strip(v.s)[..14])
    ensures r.Ok? || r == Err(ValueError)
  {
    var validated := ValidateGstin(v);
    if v.Str? && MatchesPattern(Strip(v.s)) && AllInAlphabet(Strip(v.s)[..14]) {
      AcceptedMeansCheckSymbol(Strip(v.s));
    }
    if validated.Ok? {
      return Ok(true);
    }
    if validated.error == ValidationError {
      return Ok(false);
    }
    return Err(validated.error);
  }

  /** The strings validation accepts, stated without the algorithm's loop. */
  predicate Accepted(g: string)
  {
    MatchesPattern(g) && AllInAlphabet(g)
    && (Total(g[..14], 14) + SymbolValue(g[14]).value) % Modulus == 0
  }

  /**
   * Accepted GSTINs are exactly the pattern matches over 0-9A-Z whose check
   * symbol completes the weighted total to a multiple of 36.
   */
  lemma AcceptedMeansCheckSymbol(g: string)
    requires MatchesPattern(g) && AllInAlphabet(g[..14])
    ensures Accepted(g) <==> g[14] == CheckSymbol(Total(g[..14], 14))
  {
    var t := Total(g[..14], 14);
    var c := CheckSymbol(t);
    assert forall i :: 0 <= i < 14 ==> g[..14][i] == g[i];
    if Accepted(g) {
      var v := SymbolValue(g[14]).value;
      var w := SymbolValue(c).value;
      assert (t + v) % Modulus == 0 && (t + w) % Modulus == 0;
      assert v == w by { SameResidue(t, v, w); }
      assert Symbol(v) == g[14] && Symbol(w) == c;
    }
    if g[14] == c {
      assert InAlphabet(g[14]);
      assert AllInAlphabet(g) by {
        forall i | 0 <= i < |g| ensures InAlphabet(g[i]) {
          if i < 14 { assert g[i] == g[..14][i]; }
        }
      }
    }
  }

  /** A symbol value below 36 that completes a total to a multiple of 36 is determined by the total. */
  lemma SameResidue(t: nat, v: nat, w: nat)
    requires v < Modulus && w < Modulus
    requires (t + v) % Modulus == 0 && (t + w) % Modulus == 0
    ensures v == w
  {
    var r := t % Modulus;
    assert (r + v) % Modulus == 0 && (r + w) % Modulus == 0;
  }
}
