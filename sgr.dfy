/**
 * How a terminal reads what the styles produce: a control sequence in the
 * form of section 5.4 of ECMA-48 (CSI, parameter bytes, intermediate bytes,
 * final byte) and the numeric parameters of its parameter string
 * (section 5.4.2). A control sequence whose final byte is `m` and which has no
 * intermediate bytes is SELECT GRAPHIC RENDITION (section 8.3.117).
 */
module Sgr {
  import opened Wrappers
  import opened Decimal
  import opened Text

  /** ESCAPE, 01/11. */
  const Esc: char := '\U{1B}'

  /** The 7-bit code of CONTROL SEQUENCE INTRODUCER: ESC followed by 05/11 `[`. */
  const Csi: string := [Esc, '[']

  /** The final byte of SELECT GRAPHIC RENDITION, 06/13. */
  const SgrFinal: char := 'm'

  /** Parameter bytes are 03/00 to 03/15. */
  predicate IsParameterByte(c: char) {
    '0' <= c <= '?'
  }

  /** Intermediate bytes are 02/00 to 02/15. */
  predicate IsIntermediateByte(c: char) {
    ' ' <= c <= '/'
  }

  /** Final bytes are 04/00 to 07/14. */
  predicate IsFinalByte(c: char) {
    '@' <= c <= '~'
  }

  datatype ControlSequence = ControlSequence(parameters: string, intermediates: string, final: char)

  /** The length of the longest prefix of `s` whose characters all satisfy `p`. */
  function Run(s: string, p: char -> bool): (n: nat)
    ensures n <= |s|
    ensures forall i :: 0 <= i < n ==> p(s[i])
    ensures n < |s| ==> !p(s[n])
    decreases |s|
  {
    if s == [] || !p(s[0]) then 0 else 1 + Run(s[1..], p)
  }

  /** A run ends exactly where the first character that fails `p` stands. */
  lemma {:induction false} RunStopsAt(s: string, t: string, p: char -> bool)
    requires forall i :: 0 <= i < |s| ==> p(s[i])
    requires |t| > 0 && !p(t[0])
    ensures Run(s + t, p) == |s|
    decreases |s|
  {
    if s == [] {
      assert s + t == t;
    } else {
      assert (s + t)[0] == s[0] && (s + t)[1..] == s[1..] + t;
      RunStopsAt(s[1..], t, p);
    }
  }

  /**
   * Reads one control sequence at the start of `s`: the sequence and the text
   * after it, or None when `s` does not start with a complete one.
   */
  function ReadControlSequence(s: string): (r: Option<(ControlSequence, string)>)
    ensures r.Some? ==> |s| >= 2 && s[..2] == Csi
    ensures r.Some? ==> IsFinalByte(r.value.0.final)
  {
    if |s| < 2 || s[..2] != Csi then None
    else
      var body := s[2..];
      var p := Run(body, IsParameterByte);
      var rest := body[p..];
      var i := Run(rest, IsIntermediateByte);
      var tail := rest[i..];
      if tail == [] || !IsFinalByte(tail[0]) then None
      else Some((ControlSequence(body[..p], rest[..i], tail[0]), tail[1..]))
  }

  /** Reading back CSI, a run of parameter bytes and a final byte gives exactly those parts. */
  lemma ReadControlSequenceOf(params: string, final: char, after: string)
    requires IsParameterString(params)
    requires IsFinalByte(final)
    ensures ReadControlSequence(Csi + params + [final] + after)
         == Some((ControlSequence(params, "", final), after))
  {
    var s := Csi + params + [final] + after;
    assert s[..2] == Csi;
    var body := s[2..];
    assert body == params + ([final] + after);
    RunStopsAt(params, [final] + after, IsParameterByte);
    var rest := body[|params|..];
    assert rest == [final] + after;
    assert Run(rest, IsIntermediateByte) == 0;
    assert rest[0..] == rest && rest[..0] == "";
  }

  /** A parameter string: parameter bytes only (section 5.4). */
  predicate IsParameterString(s: string) {
    forall i :: 0 <= i < |s| ==> IsParameterByte(s[i])
  }

  /**
   * A parameter string made of decimal parameter sub-strings separated by
   * 03/11 `;` (section 5.4.2).
   */
  predicate IsNumericParameterString(s: string) {
    forall i :: 0 <= i < |s| ==> IsDigit(s[i]) || s[i] == ';'
  }

  /** Digits and `;` are parameter bytes, so a numeric parameter string is a parameter string. */
  lemma NumericIsParameterString(s: string)
    requires IsNumericParameterString(s)
    ensures IsParameterString(s)
  {
    forall i | 0 <= i < |s| ensures IsParameterByte(s[i]) {
      assert IsDigit(s[i]) || s[i] == ';';
    }
  }

  /** The pieces of a numeric parameter string are digit strings. */
  lemma {:induction false} NumericPieces(s: string)
    requires IsNumericParameterString(s)
    ensures forall i :: 0 <= i < |Split(s, ';')| ==> IsDigits(Split(s, ';')[i])
    decreases |s|
  {
    if s != [] {
      assert IsNumericParameterString(s[1..]) by {
        forall i | 0 <= i < |s| - 1 ensures IsDigit(s[1..][i]) || s[1..][i] == ';' {
          assert s[1..][i] == s[i + 1];
        }
      }
      NumericPieces(s[1..]);
      var rest := Split(s[1..], ';');
      if s[0] != ';' {
        var first := [s[0]] + rest[0];
        assert IsDigits(first) by {
          forall j | 0 <= j < |first| ensures IsDigit(first[j]) {
            if j > 0 { assert first[j] == rest[0][j - 1]; }
          }
        }
      }
    }
  }

  /**
   * The numeric values of a parameter string, one per sub-string; an empty
   * sub-string stands for the default value, which for SGR is 0.
   */
  function Parameters(s: string): (ps: seq<nat>)
    requires IsNumericParameterString(s)
    ensures |ps| == |Split(s, ';')|
  {
    NumericPieces(s);
    var pieces := Split(s, ';');
    seq(|pieces|, i requires 0 <= i < |pieces| => Value(pieces[i]))
  }

  /** The decimal texts of numbers joined by `;` form a numeric parameter string. */
  lemma {:induction false} DecimalsAreNumeric(ns: seq<nat>)
    ensures IsNumericParameterString(Join(";", DecimalTexts(ns)))
    decreases |ns|
  {
    if |ns| > 1 {
      DecimalsAreNumeric(ns[1..]);
      assert DecimalTexts(ns)[1..] == DecimalTexts(ns[1..]);
    }
  }

  /** The decimal text of each number, in order. */
  function DecimalTexts(ns: seq<nat>): (ds: seq<string>)
    ensures |ds| == |ns|
    ensures forall i :: 0 <= i < |ns| ==> ds[i] == Dec(ns[i])
  {
    seq(|ns|, i requires 0 <= i < |ns| => Dec(ns[i]))
  }

  /** A terminal reads back exactly the numbers whose decimal texts were joined by `;`. */
  lemma ParametersOfDecimals(ns: seq<nat>)
    requires |ns| >= 1
    ensures IsNumericParameterString(Join(";", DecimalTexts(ns)))
    ensures Parameters(Join(";", DecimalTexts(ns))) == ns
  {
    var ds := DecimalTexts(ns);
    DecimalsAreNumeric(ns);
    assert forall i :: 0 <= i < |ds| ==> ';' !in ds[i] by {
      forall i | 0 <= i < |ds| ensures ';' !in ds[i] {
        assert IsDigits(ds[i]);
      }
    }
    SplitJoin(ds, ';');
    assert [';'] == ";";
    forall i | 0 <= i < |ns| ensures Parameters(Join(";", ds))[i] == ns[i] {
      ValueOfDec(ns[i]);
    }
  }

  /** Two numeric parameter strings joined by `;` form one. */
  lemma NumericAround(u: string, v: string)
    requires IsNumericParameterString(u) && IsNumericParameterString(v)
    ensures IsNumericParameterString(u + [';'] + v)
  {
    var w := u + [';'] + v;
    forall i | 0 <= i < |w| ensures IsDigit(w[i]) || w[i] == ';' {
      if i < |u| { assert w[i] == u[i]; }
      else if i > |u| { assert w[i] == v[i - |u| - 1]; }
    }
  }

  /** The parameters on either side of a `;` are read separately, in order. */
  lemma ParametersAround(u: string, v: string)
    requires IsNumericParameterString(u) && IsNumericParameterString(v)
    ensures IsNumericParameterString(u + [';'] + v)
    ensures Parameters(u + [';'] + v) == Parameters(u) + Parameters(v)
  {
    NumericAround(u, v);
    NumericPieces(u);
    NumericPieces(v);
    var w := u + [';'] + v;
    SplitAround(u, v, ';');
    var pu, pv := Split(u, ';'), Split(v, ';');
    var a, b, c := Parameters(w), Parameters(u), Parameters(v);
    forall i | 0 <= i < |a| ensures a[i] == (b + c)[i] {
      if i < |pu| {
        assert Split(w, ';')[i] == pu[i];
      } else {
        assert Split(w, ';')[i] == pv[i - |pu|];
      }
    }
  }

  /** Joining two non-empty numeric lists: the parameters are those of each, in order. */
  lemma ParametersOfJoin(xs: seq<string>, ys: seq<string>)
    requires |xs| >= 1 && |ys| >= 1
    requires IsNumericParameterString(Join(";", xs))
    requires IsNumericParameterString(Join(";", ys))
    ensures IsNumericParameterString(Join(";", xs + ys))
    ensures Parameters(Join(";", xs + ys)) == Parameters(Join(";", xs)) + Parameters(Join(";", ys))
  {
    JoinAppend(";", xs, ys);
    assert ";" == [';'];
    ParametersAround(Join(";", xs), Join(";", ys));
  }
}
