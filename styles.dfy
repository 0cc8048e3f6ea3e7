/** Text attributes that are not colours: SGR parameters 1 to 9. */
module Styles {
  import opened Decimal
  import opened Sw
  import Colors

  const Bold: SW := SW(["1"])
  const Dim: SW := SW(["2"])
  const Italic: SW := SW(["3"])
  const Underline: SW := SW(["4"])
  const Blink: SW := SW(["5"])
  const BlinkFast: SW := SW(["6"])
  const Reverse: SW := SW(["7"])
  const Hidden: SW := SW(["8"])
  const Strikethrough: SW := SW(["9"])

  /** The attributes in the order of their codes. */
  const Attributes: seq<SW> :=
    [Bold, Dim, Italic, Underline, Blink, BlinkFast, Reverse, Hidden, Strikethrough]

  /** The attribute at position i holds the single code i + 1. */
  lemma AttributeCodes()
    ensures |Attributes| == 9
    ensures forall i :: 0 <= i < 9 ==> Attributes[i] == SW([Dec(i + 1)])
    ensures forall i :: 0 <= i < 9 ==> IsNumeric(Attributes[i]) && SgrParameters(Attributes[i]) == [i + 1]
  {
    forall i | 0 <= i < 9
      ensures Attributes[i] == SW([Dec(i + 1)])
      ensures IsNumeric(Attributes[i]) && SgrParameters(Attributes[i]) == [i + 1]
    {
      assert Dec(i + 1) == [DigitChar(i + 1)];
      SingleCodeReads(Attributes[i], i + 1);
    }
  }

  /** No two attributes share a code. */
  lemma AttributesDistinct()
    ensures forall i, j :: 0 <= i < j < |Attributes| ==> Attributes[i] != Attributes[j]
  {
    AttributeCodes();
    forall i, j | 0 <= i < j < 9 ensures Attributes[i] != Attributes[j] {
      assert SgrParameters(Attributes[i]) != SgrParameters(Attributes[j]);
    }
  }

  /** `(bold + underline)("Important")`. */
  lemma ImportantExample()
    ensures Add(Bold, Style(Underline)).Some?
    ensures Render(Add(Bold, Style(Underline)).value, ["Important"]) == "\U{1B}[1;4mImportant\U{1B}[0m"
  {
  }

  /** `red + bold + underline`, evaluated left to right, holds the codes 31, 1, 4. */
  lemma RedBoldUnderlineCodes()
    ensures Add(Colors.Red, Style(Bold)).Some?
    ensures Add(Add(Colors.Red, Style(Bold)).value, Style(Underline)).Some?
    ensures Add(Add(Colors.Red, Style(Bold)).value, Style(Underline)).value.code == ["31", "1", "4"]
  {
  }
}
