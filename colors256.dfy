/**
 * Colours of the 256-colour palette: SGR 38 (foreground) and 48
 * (background) with the selector 5 and a palette index.
 */
module Colors256 {
  import opened Wrappers
  import opened Decimal
  import opened Text
  import opened Sgr
  import opened Sw

  const ColorIndexError: Error := ValueError("Color index must be in range 0..255")

  /** Three parts joined by `;`. */
  lemma JoinThree(a: string, b: string, c: string)
    ensures Join(";", [a, b, c]) == a + ";" + b + ";" + c
  {
    var ps := [a, b, c];
    assert ps[2..] == [c];
    assert Join(";", ps[1..]) == b + ";" + c;
  }

  /** The decimal texts of selector, 5, color joined by `;`. */
  lemma PaletteJoin(prefix: string, selector: nat, color: nat)
    requires prefix == Dec(selector) + ";5;"
    ensures Join(";", DecimalTexts([selector, 5, color])) == prefix + Dec(color)
  {
    var ds := DecimalTexts([selector, 5, color]);
    assert ds == [Dec(selector), Dec(5), Dec(color)];
    JoinThree(Dec(selector), Dec(5), Dec(color));
    assert Dec(5) == "5";
    assert Dec(selector) + ";" + Dec(5) + ";" == prefix;
  }

  /** The code `<selector>;5;<color>` is read back as the parameters selector, 5, color. */
  lemma PaletteCode(prefix: string, selector: nat, color: nat)
    requires prefix == Dec(selector) + ";5;"
    ensures IsNumeric(SW([prefix + Dec(color)]))
    ensures SgrParameters(SW([prefix + Dec(color)])) == [selector, 5, color]
  {
    var code := prefix + Dec(color);
    PaletteJoin(prefix, selector, color);
    ParametersOfDecimals([selector, 5, color]);
    assert Join(";", SW([code]).code) == code;
  }

  /**
   * `custom_color(color)`, which builds a `Colors256`: the palette foreground
   * `38;5;<color>`, or ValueError when the index is outside 0..255.
   */
  function CustomColor(color: int): (r: Result<SW, Error>)
    ensures r.Ok? <==> 0 <= color <= 255
    ensures r.Err? ==> r.error == ColorIndexError
    ensures r.Ok? ==> r.value.code == ["38;5;" + Dec(color)]
  {
    if 0 <= color <= 255 then
      Ok(SW(["38;5;" + Dec(color)]))
    else
      Err(ColorIndexError)
  }

  /**
   * `custom_bg(color)`, which builds a `BgColors256`: the palette background
   * `48;5;<color>`, or ValueError when the index is outside 0..255.
   */
  function CustomBg(color: int): (r: Result<SW, Error>)
    ensures r.Ok? <==> 0 <= color <= 255
    ensures r.Err? ==> r.error == ColorIndexError
    ensures r.Ok? ==> r.value.code == ["48;5;" + Dec(color)]
  {
    if 0 <= color <= 255 then
      Ok(SW(["48;5;" + Dec(color)]))
    else
      Err(ColorIndexError)
  }

  /** A terminal reads `custom_color(color)` as the parameters 38, 5, color. */
  lemma CustomColorReadsBack(color: int)
    requires 0 <= color <= 255
    ensures IsNumeric(CustomColor(color).value)
    ensures SgrParameters(CustomColor(color).value) == [38, 5, color]
  {
    assert Dec(38) == "38";
    PaletteCode("38;5;", 38, color);
  }

  /** A terminal reads `custom_bg(color)` as the parameters 48, 5, color. */
  lemma CustomBgReadsBack(color: int)
    requires 0 <= color <= 255
    ensures IsNumeric(CustomBg(color).value)
    ensures SgrParameters(CustomBg(color).value) == [48, 5, color]
  {
    assert Dec(48) == "48";
    PaletteCode("48;5;", 48, color);
  }

  /** The palette background of an index is its foreground with 48 in place of 38. */
  lemma BgMatchesForeground(color: int)
    ensures CustomBg(color).Ok? == CustomColor(color).Ok?
    ensures CustomColor(color).Ok? ==>
      IsNumeric(CustomColor(color).value) && IsNumeric(CustomBg(color).value) &&
      SgrParameters(CustomBg(color).value) == [48] + SgrParameters(CustomColor(color).value)[1..]
  {
    if 0 <= color <= 255 {
      CustomColorReadsBack(color);
      CustomBgReadsBack(color);
    }
  }

  /** Distinct indices give distinct styles: the index can be read back from the style. */
  lemma CustomColorInjective(i: int, j: int)
    requires CustomColor(i).Ok? && CustomColor(j).Ok?
    requires CustomColor(i) == CustomColor(j)
    ensures i == j
  {
    CustomColorReadsBack(i);
    CustomColorReadsBack(j);
    assert SgrParameters(CustomColor(i).value)[2] == i;
  }

  /** The accepted range is 0..255 with both ends included. */
  lemma RangeIsInclusive()
    ensures CustomColor(0).Ok? && CustomColor(255).Ok?
    ensures CustomColor(-1) == Err(ColorIndexError) && CustomColor(256) == Err(ColorIndexError)
    ensures CustomBg(0).Ok? && CustomBg(255).Ok?
    ensures CustomBg(-1) == Err(ColorIndexError) && CustomBg(256) == Err(ColorIndexError)
  {
  }

  /** `custom_color(202)` holds the single code 38;5;202. */
  lemma CustomColor202()
    ensures CustomColor(202) == Ok(SW(["38;5;202"]))
  {
    var code := "38;5;" + Dec(202);
    assert code == "38;5;202" by {
      assert Dec(202) == "202";
    }
    assert CustomColor(202).value.code == [code];
  }

  /** `custom_color(202)("Orange text")`. */
  lemma OrangeTextExample()
    ensures CustomColor(202).Ok?
    ensures Render(CustomColor(202).value, ["Orange text"]) == "\U{1B}[38;5;202mOrange text\U{1B}[0m"
  {
    CustomColor202();
    assert Join(";", ["38;5;202"]) == "38;5;202";
  }
}
