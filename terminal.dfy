/**
 * `format_text`: wraps a text in ANSI escape codes for bold and colour and
 * always closes it with the reset code.
 */
module Terminal {
  import opened Common

  const Bold: string := "\U{1b}[1m"
  const Reset: string := "\U{1b}[0m"

  /** The colour table: a colour name to its ANSI foreground code. */
  const Colours: map<string, string> := map[
    "red" := "\U{1b}[31m",
    "green" := "\U{1b}[32m",
    "yellow" := "\U{1b}[33m",
    "blue" := "\U{1b}[34m",
    "magenta" := "\U{1b}[35m",
    "cyan" := "\U{1b}[36m",
    "white" := "\U{1b}[37m"
  ]

  /** `COLOURS.get(colour, "")`, where an absent colour is `None`. */
  function ColourCode(colour: Option<string>): (code: string)
    ensures code == "" <==> colour.None? || colour.value !in Colours
    ensures code != "" ==> code == Colours[colour.value]
  {
    if colour.Some? && colour.value in Colours then Colours[colour.value] else ""
  }

  function BoldCode(bold: bool): (code: string)
    ensures code == "" <==> !bold
  {
    if bold then Bold else ""
  }

  /** Everything `format_text` puts in front of the text. */
  function Prefix(colour: Option<string>, bold: bool): string
  {
    BoldCode(bold) + ColourCode(colour)
  }

  /** `format_text(input, colour, bold)`. */
  function FormatText(input: string, colour: Option<string>, bold: bool): (r: string)
    ensures |r| == |Prefix(colour, bold)| + |input| + |Reset|
    ensures r[..|BoldCode(bold)|] == BoldCode(bold)
    ensures r[|BoldCode(bold)|..|Prefix(colour, bold)|] == ColourCode(colour)
    ensures r[|r| - |Reset|..] == Reset
  {
    BoldCode(bold) + ColourCode(colour) + input + Reset
  }

  /** The text sits unchanged between the codes, so it can be read back out of the result. */
  lemma FormatTextKeepsInput(input: string, colour: Option<string>, bold: bool)
    ensures var r := FormatText(input, colour, bold);
            r[|Prefix(colour, bold)|..|r| - |Reset|] == input
  {
    var r := FormatText(input, colour, bold);
    var p := Prefix(colour, bold);
    assert r == p + input + Reset;
    assert r[|p|..|r| - |Reset|] == (p + input + Reset)[|p|..|p| + |input|];
  }

  /** The prefix is empty, a bold code, a colour code or both, and starts with an escape when present. */
  lemma PrefixShape(colour: Option<string>, bold: bool)
    ensures var p := Prefix(colour, bold);
            (p == "" <==> !bold && ColourCode(colour) == "") &&
            (p != "" ==> p[0] == '\U{1b}') &&
            (bold ==> p[..|Bold|] == Bold)
  {
    var p := Prefix(colour, bold);
    if bold {
      assert p == Bold + ColourCode(colour);
    } else if ColourCode(colour) != "" {
      assert ColourCode(colour) in Colours.Values;
    }
  }

  /** The same codes around two texts give two different results when the texts differ. */
  lemma FormatTextInjective(a: string, b: string, colour: Option<string>, bold: bool)
    requires FormatText(a, colour, bold) == FormatText(b, colour, bold)
    ensures a == b
  {
    FormatTextKeepsInput(a, colour, bold);
    FormatTextKeepsInput(b, colour, bold);
  }
}
