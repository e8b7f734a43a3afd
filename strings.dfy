/**
 * `camel_case_to_sentence`: splits a CamelCase name at its capital letters
 * and writes the words as a sentence ("TaxPayerDetails" becomes
 * "Tax payer details").
 */
module Strings {
  import opened Text

  /** The index of the first ASCII capital at or after `i`, or `|s|` when there is none. */
  function UpperFrom(s: string, i: nat): (k: nat)
    requires i <= |s|
    ensures i <= k <= |s|
    ensures k < |s| ==> IsAsciiUpper(s[k])
    decreases |s| - i
  {
    if i == |s| || IsAsciiUpper(s[i]) then i else UpperFrom(s, i + 1)
  }

  /** No capital lies between `i` and `UpperFrom(s, i)`. */
  lemma {:induction false} UpperFromSkipsLower(s: string, i: nat)
    requires i <= |s|
    ensures forall j :: i <= j < UpperFrom(s, i) ==> !IsAsciiUpper(s[j])
    decreases |s| - i
  {
    if i < |s| && !IsAsciiUpper(s[i]) {
      UpperFromSkipsLower(s, i + 1);
    }
  }

  /**
   * `re.findall(r"[A-Z][^A-Z]*", s[i..])`: every capital starts a word that
   * runs up to the next capital; text before the first capital is dropped.
   */
  function WordsFrom(s: string, i: nat): (words: seq<string>)
    requires i <= |s|
    decreases |s| - i
  {
    var start := UpperFrom(s, i);
    if start == |s| then []
    else
      var end := UpperFrom(s, start + 1);
      [s[start..end]] + WordsFrom(s, end)
  }

  /** The words of a whole name. */
  function Words(s: string): seq<string>
  {
    WordsFrom(s, 0)
  }

  /** A word of the split: one capital followed by non-capitals. */
  predicate IsWord(w: string)
  {
    |w| > 0 && IsAsciiUpper(w[0]) && forall i :: 1 <= i < |w| ==> !IsAsciiUpper(w[i])
  }

  function Concat(words: seq<string>): string
  {
    if words == [] then "" else words[0] + Concat(words[1..])
  }

  /** The number of ASCII capitals in `s` from index `i` on. */
  function CountUpperFrom(s: string, i: nat): nat
    requires i <= |s|
    decreases |s| - i
  {
    if i == |s| then 0 else (if IsAsciiUpper(s[i]) then 1 else 0) + CountUpperFrom(s, i + 1)
  }

  /** The number of ASCII capitals in `s`. */
  function CountUpper(s: string): nat
  {
    CountUpperFrom(s, 0)
  }

  /** Skipping to the next capital skips no capital. */
  lemma {:induction false} CountUpperSkip(s: string, i: nat)
    requires i <= |s|
    ensures CountUpperFrom(s, i) == CountUpperFrom(s, UpperFrom(s, i))
    decreases |s| - i
  {
    if i < |s| && !IsAsciiUpper(s[i]) {
      CountUpperSkip(s, i + 1);
    }
  }

  /** Every piece of the split is a word. */
  lemma {:induction false} WordsAreWords(s: string, i: nat)
    requires i <= |s|
    ensures forall k :: 0 <= k < |WordsFrom(s, i)| ==> IsWord(WordsFrom(s, i)[k])
    decreases |s| - i
  {
    var start := UpperFrom(s, i);
    if start < |s| {
      var end := UpperFrom(s, start + 1);
      var w := s[start..end];
      WordsAreWords(s, end);
      UpperFromSkipsLower(s, start + 1);
      assert IsWord(w) by {
        forall j | 1 <= j < |w| ensures !IsAsciiUpper(w[j]) {
          assert w[j] == s[start + j];
        }
      }
    }
  }

  /** The words put together give the input from its first capital on. */
  lemma {:induction false} WordsConcat(s: string, i: nat)
    requires i <= |s|
    ensures Concat(WordsFrom(s, i)) == s[UpperFrom(s, i)..]
    decreases |s| - i
  {
    var start := UpperFrom(s, i);
    if start < |s| {
      var end := UpperFrom(s, start + 1);
      WordsConcat(s, end);
      assert UpperFrom(s, end) == end;
      assert s[start..] == s[start..end] + s[end..];
    }
  }

  /** There is one word per capital letter. */
  lemma {:induction false} WordsCount(s: string, i: nat)
    requires i <= |s|
    ensures |WordsFrom(s, i)| == CountUpperFrom(s, i)
    decreases |s| - i
  {
    var start := UpperFrom(s, i);
    CountUpperSkip(s, i);
    if start < |s| {
      var end := UpperFrom(s, start + 1);
      assert CountUpperFrom(s, start) == 1 + CountUpperFrom(s, start + 1);
      CountUpperSkip(s, start + 1);
      WordsCount(s, end);
      assert WordsFrom(s, i) == [s[start..end]] + WordsFrom(s, end);
    } else {
      assert CountUpperFrom(s, start) == 0;
    }
  }

  /** `word.capitalize()` of a word starting with a capital: the capital, then the rest lower-cased. */
  function Capitalize(w: string): string
  {
    if w == [] then "" else [UpperChar(w[0])] + Lower(w[1..])
  }

  /** The first word capitalised, the others lower-cased. */
  function Formatted(words: seq<string>): (r: seq<string>)
    ensures |r| == |words|
    ensures forall i :: 0 <= i < |words| ==> r[i] == if i == 0 then Capitalize(words[i]) else Lower(words[i])
  {
    seq(|words|, i requires 0 <= i < |words| => if i == 0 then Capitalize(words[i]) else Lower(words[i]))
  }

  /** `camel_case_to_sentence`. */
  function CamelCaseToSentence(s: string): string
  {
    JoinWith(" ", Formatted(Words(s)))
  }

  /** The sentence is empty exactly when the input has no capital letter. */
  lemma SentenceEmptyIff(s: string)
    ensures CamelCaseToSentence(s) == "" <==> CountUpper(s) == 0
  {
    WordsAreWords(s, 0);
    WordsCount(s, 0);
    var f := Formatted(Words(s));
    if f != [] {
      assert IsWord(Words(s)[0]);
      assert |f[0]| > 0;
      JoinNonEmpty(f);
    }
  }

  lemma {:induction false} JoinNonEmpty(parts: seq<string>)
    requires parts != [] && |parts[0]| > 0
    ensures |JoinWith(" ", parts)| > 0
  {
  }

  /** The sentence starts with the first word's capital, unchanged. */
  lemma SentenceStartsWithCapital(s: string)
    requires CountUpper(s) > 0
    ensures var r := CamelCaseToSentence(s);
            |r| > 0 && r[0] == s[UpperFrom(s, 0)] && IsAsciiUpper(r[0])
  {
    WordsAreWords(s, 0);
    WordsCount(s, 0);
    WordsConcat(s, 0);
    var words := Words(s);
    var f := Formatted(words);
    var w := words[0];
    assert IsWord(w);
    assert Concat(words) == w + Concat(words[1..]);
    assert s[UpperFrom(s, 0)..][0] == w[0];
    assert f[0][0] == w[0];
    if |f| > 1 {
      assert JoinWith(" ", f) == f[0] + " " + JoinWith(" ", f[1..]);
    }
  }
}
