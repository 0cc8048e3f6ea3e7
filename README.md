# trgb in Dafny

A model of `trgb`, a small Python package that styles terminal text with
ANSI SELECT GRAPHIC RENDITION (SGR) escape sequences, `ESC [ params m`
(section 8.3.117 of ECMA-48, in the control-sequence syntax of section 5.4).

The package has one value type, `SW`. It is an ordered tuple of SGR
parameter codes such as `"31"` or `"38;5;202"`. Styles combine with `+`, and
calling a style on some text wraps that text in the escape prefix and, by
default, the reset sequence `ESC [ 0 m`. The rest of the package builds
styles:

- tables of named colours (`red`, `bg_red`, `bright_bg_white`, ...);
- tables of text attributes (`bold` ... `strikethrough`);
- range-checked factories for the 256-colour palette (`custom_color`,
  `custom_bg`) and for 24-bit colour (`rgb`, `bg_rgb`).

Every part of the package is pure, so every part of the model is pure:
datatypes, constants, functions and lemmas. The Python subclasses
(`Colors`, `BgColors`, `Styles`, `Colors256`, `RGBColors`, ...) add no
behaviour, and `+` always returns a plain `SW`. They all become the one
datatype `Sw.SW`. Its constructor stores exactly the given codes in the
given order. A style is a value, so combining or rendering it never
changes an operand, and rendering the same style on the same arguments
always gives the same string.

Modules, one per source file plus four helpers:

- `Sw` (`sw.py`): the `SW` datatype, `Add` and `RAdd` (`__add__`,
  `__radd__`), `Render` (`__call__`), `Reset`.
- `Colors256` (`colors256.py`), `Rgb` (`rgb.py`): the factories. A factory
  returns `Result<SW, Error>`, and `Err(ValueError(message))` stands for
  the `ValueError` the source raises, with the source's message.
- `Colors` (`colors.py`), `Styles` (`styles.py`): the constant tables.
- `Decimal`: `Dec`, the decimal text that an f-string writes for a
  non-negative `int`, and `Value`, which reads it back.
- `Text`: `Join` (Python's `str.join`), and `Split` on a character.
- `Sgr`: how a terminal reads the output, following ECMA-48. It reads a
  control sequence (CSI, parameter bytes, intermediate bytes, final byte)
  and the numeric parameters of its parameter string (section 5.4.2; an
  empty sub-string means the default, 0).
- `Wrappers`: `Option` and `Result`.

The `Sgr` reader is the independent reference for the output. The model
proves these things against it:

- For a style whose joined codes are parameter bytes (every style made of
  decimal codes and `;` is one), the rendered string reads back as one SGR
  sequence. Its parameter string is the joined codes, and what follows is
  exactly the payload plus the optional reset.
- A terminal reads each factory's code as the intended numbers:
  `38, 5, i` for `custom_color(i)`, and `38, 2, r, g, b` for
  `rgb(r, g, b)`, channels in that order.
- For two non-empty numeric styles, the parameters of `a + b` are those of
  `a` followed by those of `b`.
- Every background colour is its foreground counterpart plus 10.

## Model

| member | source | states |
|---|---|---|
| `Sw.Add` | trgb/src/trgb/sw.py:29-41 | `self + other` succeeds exactly when the operand is a style. The new style's codes are the left operand's codes followed by the right operand's. An operand that is not a style is declined (`None`, Python's `NotImplemented`); the style with no codes is a style and is combined. |
| `Sw.RAdd` | trgb/src/trgb/sw.py:43-58 | The reflected form succeeds exactly when the operand is a style. The other operand's codes come first, then `self`'s. Otherwise it is declined. |
| `Sw.RAddMirrorsAdd` | trgb/src/trgb/sw.py:43-58 | For two styles, the reflected evaluation `b.__radd__(a)` gives the same style as `a.__add__(b)`, and that combination always succeeds. |
| `Sw.CombineAssociative` | trgb/src/trgb/sw.py:39-40 | `(a + b) + c` and `a + (b + c)` are the same style. |
| `Sw.CombineIdentity` | trgb/src/trgb/sw.py:39-40 | The style with no codes is a left and right identity of combination. |
| `Sw.Render` | trgb/src/trgb/sw.py:60-82 | The output starts with `ESC [`. With no codes, it starts with `ESC [ m`. With `reset` it ends with `ESC [ 0 m`; without `reset` it ends with the payload, the arguments joined by `sep`. The defaults are `sep = ""` and `reset = true`. |
| `Sw.RenderReadsBack` | trgb/src/trgb/sw.py:78-82 | When the joined codes consist of parameter bytes (every numeric style does), a terminal reads the output as exactly one SGR control sequence (final byte `m`, no intermediate bytes). Its parameter string is the codes joined by `;`. The rest of the text is exactly the payload followed by the reset, or by nothing. |
| `Sw.ResetIsSgrZero` | trgb/src/trgb/sw.py:14 | `RESET` is the SGR sequence with the single parameter 0 and nothing after it. |
| `Sw.EmptyStyleMeansReset` | trgb/src/trgb/sw.py:79-80 | A style with no codes renders `ESC [ m`. A terminal reads that as the default parameter 0, the same as a reset. |
| `Sw.CombineParameters` | trgb/src/trgb/sw.py:29-41 | For two non-empty numeric styles, the parameters of `a + b` are those of `a` followed by those of `b`. |
| `Text.Join` | trgb/src/trgb/sw.py:78-79 | `sep.join(parts)`: empty for no parts, the part itself for one part, and the first part always leads. |
| `Text.JoinAppend` | trgb/src/trgb/sw.py:79 | Joining the codes of two non-empty lists puts exactly one `;` between the joins of each. |
| `Text.SplitJoin` | trgb/src/trgb/sw.py:79 | Splitting at `;` undoes the join when no part holds `;`. |
| `Decimal.Dec` | trgb/src/trgb/colors256.py:40 | The decimal text of a non-negative integer is canonical: non-empty, all digits, and no leading zero. |
| `Decimal.ValueOfDec` | trgb/src/trgb/colors256.py:40 | Reading back the decimal text of `n` gives `n`. |
| `Decimal.DecOfValue` | trgb/src/trgb/rgb.py:43 | Writing out the value of a canonical digit string gives that string back, so `Dec` writes each number in its one canonical form. |
| `Colors256.CustomColor` | trgb/src/trgb/colors256.py:28-56 | Succeeds exactly when `0 <= color <= 255`. It then holds the single code `"38;5;" + dec(color)`. Otherwise it gives `ValueError("Color index must be in range 0..255")` and no style. |
| `Colors256.CustomBg` | trgb/src/trgb/colors256.py:67-95 | Succeeds exactly when `0 <= color <= 255`. It then holds the single code `"48;5;" + dec(color)`. Otherwise it gives the same `ValueError` and no style. |
| `Colors256.CustomColorReadsBack` | trgb/src/trgb/colors256.py:38-40 | For an index in range, a terminal reads the style as the parameters 38, 5, index. |
| `Colors256.CustomBgReadsBack` | trgb/src/trgb/colors256.py:77-79 | For an index in range, a terminal reads the style as the parameters 48, 5, index. |
| `Colors256.BgMatchesForeground` | trgb/src/trgb/colors256.py:77-79 | The background factory accepts exactly the indices the foreground factory accepts. Its parameters are the foreground's with 48 in place of 38. |
| `Colors256.CustomColorInjective` | trgb/src/trgb/colors256.py:38-40 | Two indices that give the same style are equal. |
| `Colors256.RangeIsInclusive` | trgb/src/trgb/colors256.py:38-39 | Both factories accept 0 and 255 and refuse -1 and 256 with the `ValueError`. |
| `Colors256.OrangeTextExample` | trgb/src/trgb/colors256.py:54 | `custom_color(202)("Orange text")` is `ESC[38;5;202mOrange textESC[0m`. |
| `Rgb.Rgb` | trgb/src/trgb/rgb.py:28-61 | Succeeds exactly when all three channels are in 0..255; there is no partial acceptance. It then holds the single code `"38;2;r;g;b"`. Otherwise it gives `ValueError("RGB values must be in range 0..255")` and no style. |
| `Rgb.BgRgb` | trgb/src/trgb/rgb.py:72-105 | The same check as `Rgb`, with the single code `"48;2;r;g;b"` on success and the same `ValueError` otherwise. |
| `Rgb.RgbReadsBack` | trgb/src/trgb/rgb.py:40-43 | For channels in range, a terminal reads the style as the parameters 38, 2, r, g, b, with red, green and blue in that order. |
| `Rgb.BgRgbReadsBack` | trgb/src/trgb/rgb.py:84-87 | For channels in range, a terminal reads the style as the parameters 48, 2, r, g, b. |
| `Rgb.AnyChannelRefuses` | trgb/src/trgb/rgb.py:40-42 | One channel out of range, whichever it is, makes both factories give the `ValueError`. |
| `Rgb.RgbInjective` | trgb/src/trgb/rgb.py:40-43 | Two triples that give the same style are equal channel by channel. |
| `Rgb.ErrorExample` | trgb/src/trgb/rgb.py:13 | `(rgb(255, 80, 80) + bold)("Error")` is `ESC[38;2;255;80;80;1mErrorESC[0m`. |
| `Rgb.ErrorExampleParameters` | trgb/src/trgb/rgb.py:13 | A terminal reads `rgb(255, 80, 80) + bold` as the parameters 38, 2, 255, 80, 80, 1. |
| `Colors.ForegroundCodes` | trgb/src/trgb/colors.py:37-55 | Each foreground colour holds one code. Black..white are 30..37, and gray and bright_red..bright_white are 90..97. |
| `Colors.BackgroundCodes` | trgb/src/trgb/colors.py:77-95 | Each background colour holds one code. bg_black..bg_white are 40..47, and bg_gray and bright_bg_red..bright_bg_white are 100..107. |
| `Colors.BackgroundIsForegroundPlusTen` | trgb/src/trgb/colors.py:37-95 | Each background colour holds a single code equal to its foreground counterpart's plus 10. |
| `Colors.ErrorExample` | trgb/src/trgb/sw.py:75 | `red("Error")` is `ESC[31mErrorESC[0m`. |
| `Colors.SeparatorNoResetExample` | trgb/src/trgb/sw.py:60-82 | `red("a", "b", sep="-", reset=False)` is `ESC[31ma-b`; nothing follows the payload. |
| `Styles.AttributeCodes` | trgb/src/trgb/styles.py:39-48 | Each attribute holds one code: bold, dim, italic, underline, blink, blink_fast, reverse, hidden and strikethrough are 1..9 in that order. |
| `Styles.AttributesDistinct` | trgb/src/trgb/styles.py:40-48 | No two attributes are the same style. |
| `Styles.ImportantExample` | trgb/src/trgb/sw.py:76 | `(bold + underline)("Important")` is `ESC[1;4mImportantESC[0m`. |
| `Styles.RedBoldUnderlineCodes` | trgb/src/trgb/styles.py:12 | `red + bold + underline`, evaluated left to right, holds the codes 31, 1, 4. |

## Left out

- Python's operator dispatch is not modelled. In the source, a declined `__add__` falls back to the other operand's `__radd__`, and a `TypeError` follows when both decline. The model keeps the two methods and shows a declined combination as `None`.
- The `hasattr(other, "code")` check is modelled as a type check: the operand is a style or it is not. An unrelated object that happens to have a `code` attribute is not modelled.
- `map(str, args)` is not modelled: render arguments are already text, because Python's `str()` of arbitrary objects is outside the model.
- Factory inputs are integers. Python would also accept `True` or `1.5`, which pass the range check and are formatted as `True` or `1.5`. Those are outside the declared `int` parameters and are not modelled.
- Printing the result, and any terminal capability concerns, are I/O outside the package.
- `__init__.py` only re-exports names and is not part of this model.
