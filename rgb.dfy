/**
 * Truecolour: SGR 38 (foreground) and 48 (background) with the selector 2
 * and three channels, red, green and blue.
 */
module Rgb {
  import opened Wrappers
  import opened Decimal
  import opened Text
  import opened Sgr
  import opened Sw
  import Styles

  const RgbError: Error := ValueError("RGB values must be in range 0..255")

  /** All three channels lie in 0..255. */
  predicate ChannelsInRange(r: int, g: int, b: int) {
    0 <= r <= 255 && 0 <= g <= 255 && 0 <= b <= 255
  }

  /** Five parts joined by `;`. */
  lemma JoinFive(a: string, b: string, c: string, d: string, e: string)
    ensures Join(";", [a, b, c, d, e]) == a + ";" + b + ";" + c + ";" + d + ";" + e
  {
    var ps := [a, b, c, d, e];
    assert ps[4..] == [e];
    assert Join(";", ps[3..]) == d + ";" + e;
    assert Join(";", ps[2..]) == c + ";" + d + ";" + e;
    assert Join(";", ps[1..]) == b + ";" + c + ";" + d + ";" + e;
  }

  /** The decimal texts of selector, 2, r, g, b joined by `;`. */
  lemma TruecolorJoin(prefix: string, selector: nat, r: nat, g: nat, b: nat)
    requires prefix == Dec(selector) + ";2;"
    ensures Join(";", DecimalTexts([selector, 2, r, g, b])) == prefix + Dec(r) + ";" + Dec(g) + ";" + Dec(b)
  {
    var ds := DecimalTexts([selector, 2, r, g, b]);
    assert ds == [Dec(selector), Dec(2), Dec(r), Dec(g), Dec(b)];
    JoinFive(Dec(selector), Dec(2), Dec(r), Dec(g), Dec(b));
    assert Dec(2) == "2";
    assert Dec(selector) + ";" + Dec(2) + ";" == prefix;
  }

  /** The code `<selector>;2;<r>;<g>;<b>` is read back as the parameters selector, 2, r, g, b. */
  lemma TruecolorCode(prefix: string, selector: nat, r: nat, g: nat, b: nat)
    requires prefix == Dec(selector) + ";2;"
    ensures IsNumeric(SW([prefix + Dec(r) + ";" + Dec(g) + ";" + Dec(b)]))
    ensures SgrParameters(SW([prefix + Dec(r) + ";" + Dec(g) + ";" + Dec(b)])) == [selector, 2, r, g, b]
  {
    var code := prefix + Dec(r) + ";" + Dec(g) + ";" + Dec(b);
    TruecolorJoin(prefix, selector, r, g, b);
    ParametersOfDecimals([selector, 2, r, g, b]);
    assert Join(";", SW([code]).code) == code;
  }

  /**
   * `rgb(r, g, b)`, which builds an `RGBColors`: the truecolour foreground
   * `38;2;<r>;<g>;<b>`, or ValueError when any channel is outside 0..255.
   */
  function Rgb(r: int, g: int, b: int): (res: Result<SW, Error>)
    ensures res.Ok? <==> ChannelsInRange(r, g, b)
    ensures res.Err? ==> res.error == RgbError
    ensures res.Ok? ==> res.value.code == ["38;2;" + Dec(r) + ";" + Dec(g) + ";" + Dec(b)]
  {
    if ChannelsInRange(r, g, b) then
      Ok(SW(["38;2;" + Dec(r) + ";" + Dec(g) + ";" + Dec(b)]))
    else
      Err(RgbError)
  }

  /**
   * `bg_rgb(r, g, b)`, which builds a `BgRGBColors`: the truecolour background
   * `48;2;<r>;<g>;<b>`, or ValueError when any channel is outside 0..255.
   */
  function BgRgb(r: int, g: int, b: int): (res: Result<SW, Error>)
    ensures res.Ok? <==> ChannelsInRange(r, g, b)
    ensures res.Err? ==> res.error == RgbError
    ensures res.Ok? ==> res.value.code == ["48;2;" + Dec(r) + ";" + Dec(g) + ";" + Dec(b)]
  {
    if ChannelsInRange(r, g, b) then
      Ok(SW(["48;2;" + Dec(r) + ";" + Dec(g) + ";" + Dec(b)]))
    else
      Err(RgbError)
  }

  /** A terminal reads `rgb(r, g, b)` as the parameters 38, 2, r, g, b: red, then green, then blue. */
  lemma RgbReadsBack(r: int, g: int, b: int)
    requires ChannelsInRange(r, g, b)
    ensures IsNumeric(Rgb(r, g, b).value)
    ensures SgrParameters(Rgb(r, g, b).value) == [38, 2, r, g, b]
  {
    assert Dec(38) == "38";
    TruecolorCode("38;2;", 38, r, g, b);
  }

  /** A terminal reads `bg_rgb(r, g, b)` as the parameters 48, 2, r, g, b: red, then green, then blue. */
  lemma BgRgbReadsBack(r: int, g: int, b: int)
    requires ChannelsInRange(r, g, b)
    ensures IsNumeric(BgRgb(r, g, b).value)
    ensures SgrParameters(BgRgb(r, g, b).value) == [48, 2, r, g, b]
  {
    assert Dec(48) == "48";
    TruecolorCode("48;2;", 48, r, g, b);
  }

  /** One channel out of range is enough to refuse, whichever it is. */
  lemma AnyChannelRefuses(r: int, g: int, b: int)
    requires r < 0 || r > 255 || g < 0 || g > 255 || b < 0 || b > 255
    ensures Rgb(r, g, b) == Err(RgbError) && BgRgb(r, g, b) == Err(RgbError)
  {
  }

  /** The channels can be read back from the style, red first: distinct colours give distinct styles. */
  lemma RgbInjective(r: int, g: int, b: int, r': int, g': int, b': int)
    requires Rgb(r, g, b).Ok? && Rgb(r, g, b) == Rgb(r', g', b')
    ensures r == r' && g == g' && b == b'
  {
    RgbReadsBack(r, g, b);
    RgbReadsBack(r', g', b');
    var ps := SgrParameters(Rgb(r, g, b).value);
    assert ps[2] == r && ps[3] == g && ps[4] == b;
  }

  /** `rgb(255, 80, 80)` holds the single code 38;2;255;80;80. */
  lemma Rgb255x80x80()
    ensures Rgb(255, 80, 80) == Ok(SW(["38;2;255;80;80"]))
  {
    var code := "38;2;" + Dec(255) + ";" + Dec(80) + ";" + Dec(80);
    assert code == "38;2;255;80;80" by {
      assert Dec(255) == "255" && Dec(80) == "80";
    }
    assert Rgb(255, 80, 80).value.code == [code];
  }

  /** `(rgb(255, 80, 80) + bold)("Error")`. */
  lemma ErrorExample()
    ensures Rgb(255, 80, 80).Ok?
    ensures Add(Rgb(255, 80, 80).value, Style(Styles.Bold)).Some?
    ensures Render(Add(Rgb(255, 80, 80).value, Style(Styles.Bold)).value, ["Error"])
         == "\U{1B}[38;2;255;80;80;1mError\U{1B}[0m"
  {
    Rgb255x80x80();
    var style := SW(["38;2;255;80;80", "1"]);
    assert Add(Rgb(255, 80, 80).value, Style(Styles.Bold)).value == style;
    assert Join(";", style.code) == "38;2;255;80;80;1";
  }

  /** What a terminal reads from `rgb(255, 80, 80) + bold`: 38, 2, 255, 80, 80, then 1. */
  lemma ErrorExampleParameters()
    ensures Rgb(255, 80, 80).Ok?
    ensures IsNumeric(Combine(Rgb(255, 80, 80).value, Styles.Bold))
    ensures SgrParameters(Combine(Rgb(255, 80, 80).value, Styles.Bold)) == [38, 2, 255, 80, 80, 1]
  {
    RgbReadsBack(255, 80, 80);
    Styles.AttributeCodes();
    assert Styles.Attributes[0] == Styles.Bold;
    CombineParameters(Rgb(255, 80, 80).value, Styles.Bold);
  }
}
