/**
 * Named colours: foreground SGR parameters 30 to 37 and 90 to 97,
 * background 40 to 47 and 100 to 107.
 */
module Colors {
  import opened Decimal
  import opened Sw

  // Standard foreground colours
  const Red: SW := SW(["31"])
  const Green: SW := SW(["32"])
  const Yellow: SW := SW(["33"])
  const Blue: SW := SW(["34"])
  const Magenta: SW := SW(["35"])
  const Cyan: SW := SW(["36"])
  const White: SW := SW(["37"])
  const Black: SW := SW(["30"])
  const Gray: SW := SW(["90"])

  // Bright foreground colours
  const BrightRed: SW := SW(["91"])
  const BrightGreen: SW := SW(["92"])
  const BrightYellow: SW := SW(["93"])
  const BrightBlue: SW := SW(["94"])
  const BrightMagenta: SW := SW(["95"])
  const BrightCyan: SW := SW(["96"])
  const BrightWhite: SW := SW(["97"])

  // Standard background colours
  const BgBlack: SW := SW(["40"])
  const BgRed: SW := SW(["41"])
  const BgGreen: SW := SW(["42"])
  const BgYellow: SW := SW(["43"])
  const BgBlue: SW := SW(["44"])
  const BgMagenta: SW := SW(["45"])
  const BgCyan: SW := SW(["46"])
  const BgWhite: SW := SW(["47"])
  const BgGray: SW := SW(["100"])

  // Bright background colours
  const BrightBgRed: SW := SW(["101"])
  const BrightBgGreen: SW := SW(["102"])
  const BrightBgYellow: SW := SW(["103"])
  const BrightBgBlue: SW := SW(["104"])
  const BrightBgMagenta: SW := SW(["105"])
  const BrightBgCyan: SW := SW(["106"])
  const BrightBgWhite: SW := SW(["107"])

  /** The foreground colours in SGR order: black to white, then gray and the bright ones. */
  const Foreground: seq<SW> :=
    [Black, Red, Green, Yellow, Blue, Magenta, Cyan, White,
     Gray, BrightRed, BrightGreen, BrightYellow, BrightBlue, BrightMagenta, BrightCyan, BrightWhite]

  /** The background colours, each at the position of its foreground counterpart. */
  const Background: seq<SW> :=
    [BgBlack, BgRed, BgGreen, BgYellow, BgBlue, BgMagenta, BgCyan, BgWhite,
     BgGray, BrightBgRed, BrightBgGreen, BrightBgYellow, BrightBgBlue, BrightBgMagenta, BrightBgCyan, BrightBgWhite]

  /** The foreground at position i holds the decimal text of 30 + i, or of 90 + (i - 8) from gray on. */
  lemma ForegroundTexts()
    ensures |Foreground| == 16
    ensures forall i :: 0 <= i < 8 ==> Foreground[i].code == [Dec(30 + i)]
    ensures forall i :: 8 <= i < 16 ==> Foreground[i].code == [Dec(90 + (i - 8))]
  {
    forall i | 0 <= i < 8 ensures Foreground[i].code == [Dec(30 + i)] {
      DecAppendDigit(3, i);
      assert 30 + i == 10 * 3 + i && Dec(3) == "3";
      assert Dec(30 + i) == ['3', DigitChar(i)];
    }
    forall i | 8 <= i < 16 ensures Foreground[i].code == [Dec(90 + (i - 8))] {
      DecAppendDigit(9, i - 8);
      assert 90 + (i - 8) == 10 * 9 + (i - 8) && Dec(9) == "9";
      assert Dec(90 + (i - 8)) == ['9', DigitChar(i - 8)];
    }
  }

  /** The background at position i holds the decimal text of 40 + i, or of 100 + (i - 8) from bg_gray on. */
  lemma BackgroundTexts()
    ensures |Background| == 16
    ensures forall i :: 0 <= i < 8 ==> Background[i].code == [Dec(40 + i)]
    ensures forall i :: 8 <= i < 16 ==> Background[i].code == [Dec(100 + (i - 8))]
  {
    forall i | 0 <= i < 8 ensures Background[i].code == [Dec(40 + i)] {
      DecAppendDigit(4, i);
      assert 40 + i == 10 * 4 + i && Dec(4) == "4";
      assert Dec(40 + i) == ['4', DigitChar(i)];
    }
    forall i | 8 <= i < 16 ensures Background[i].code == [Dec(100 + (i - 8))] {
      assert Dec(10) == "10";
      DecAppendDigit(10, i - 8);
      assert 100 + (i - 8) == 10 * 10 + (i - 8);
      assert Dec(100 + (i - 8)) == ['1', '0', DigitChar(i - 8)];
    }
  }

  /** The foreground at position i: 30 + i for the eight standard colours, 90 + (i - 8) for the rest. */
  lemma ForegroundCodes()
    ensures |Foreground| == 16
    ensures forall i :: 0 <= i < 16 ==>
      |Foreground[i].code| == 1 && IsNumeric(Foreground[i]) &&
      SgrParameters(Foreground[i]) == [if i < 8 then 30 + i else 90 + (i - 8)]
  {
    ForegroundTexts();
    forall i | 0 <= i < 16
      ensures IsNumeric(Foreground[i])
      ensures SgrParameters(Foreground[i]) == [if i < 8 then 30 + i else 90 + (i - 8)]
    {
      SingleCodeReads(Foreground[i], if i < 8 then 30 + i else 90 + (i - 8));
    }
  }

  /** The background at position i: 40 + i for the eight standard colours, 100 + (i - 8) for the rest. */
  lemma BackgroundCodes()
    ensures |Background| == 16
    ensures forall i :: 0 <= i < 16 ==>
      |Background[i].code| == 1 && IsNumeric(Background[i]) &&
      SgrParameters(Background[i]) == [if i < 8 then 40 + i else 100 + (i - 8)]
  {
    BackgroundTexts();
    forall i | 0 <= i < 16
      ensures IsNumeric(Background[i])
      ensures SgrParameters(Background[i]) == [if i < 8 then 40 + i else 100 + (i - 8)]
    {
      SingleCodeReads(Background[i], if i < 8 then 40 + i else 100 + (i - 8));
    }
  }

  /** Every background colour is its foreground counterpart plus 10. */
  lemma BackgroundIsForegroundPlusTen()
    ensures |Foreground| == |Background| == 16
    ensures forall i :: 0 <= i < 16 ==>
      |Foreground[i].code| == 1 && |Background[i].code| == 1 &&
      IsNumeric(Foreground[i]) && IsNumeric(Background[i]) &&
      SgrParameters(Background[i]) == [SgrParameters(Foreground[i])[0] + 10]
  {
    ForegroundCodes();
    BackgroundCodes();
  }

  /** `red("Error")`. */
  lemma ErrorExample()
    ensures Render(Red, ["Error"]) == "\U{1B}[31mError\U{1B}[0m"
  {
  }

  /** `red("a", "b", sep="-", reset=False)`: nothing follows the payload. */
  lemma SeparatorNoResetExample()
    ensures Render(Red, ["a", "b"], "-", false) == "\U{1B}[31ma-b"
  {
  }
}
