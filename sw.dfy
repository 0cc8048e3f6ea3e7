/**
 * The style value: an ordered list of SGR parameter codes that can be
 * combined with `+` and applied to text, which wraps the text in
 * `ESC [ codes m` and, by default, the reset sequence `ESC [ 0 m`.
 */
module Sw {
  import opened Wrappers
  import opened Text
  import opened Sgr
  import opened Decimal

  /**
   * A style: SGR parameter codes without the leading `ESC [` and the
   * trailing `m`, such as "31" (red) or "38;5;202". A style is a value, so
   * combining or rendering it never changes it.
   */
  datatype SW = SW(code: seq<string>)

  /** The sequence written after styled text: SGR with parameter 0. */
  const Reset: string := "\U{1B}[0m"

  /** The exception the colour factories raise for an out-of-range input. */
  datatype Error = ValueError(message: string)

  /**
   * The other operand of `+`: a style, or a value that is not a style (it has
   * no `code` attribute) and so cannot be combined.
   */
  datatype Operand = Style(style: SW) | Foreign

  /** The style whose codes are those of `a` followed by those of `b`. */
  function Combine(a: SW, b: SW): (r: SW) {
    SW(a.code + b.code)
  }

  /** `self + other`: a new style, left operand's codes first; declined for an operand that is not a style. */
  function Add(self: SW, other: Operand): (r: Option<SW>)
    ensures r.Some? <==> other.Style?
    ensures r.Some? ==> r.value.code == self.code + other.style.code
  {
    match other
    case Style(s) => Some(Combine(self, s))
    case Foreign => None
  }

  /** `other + self` when `other` defers to `self`: the other operand's codes come first. */
  function RAdd(self: SW, other: Operand): (r: Option<SW>)
    ensures r.Some? <==> other.Style?
    ensures r.Some? ==> r.value.code == other.style.code + self.code
  {
    match other
    case Style(s) => Some(Combine(s, self))
    case Foreign => None
  }

  /** Both ways of evaluating `a + b` give the same style. */
  lemma RAddMirrorsAdd(a: SW, b: SW)
    ensures RAdd(b, Style(a)) == Add(a, Style(b))
    ensures Add(a, Style(b)).Some?
  {
  }

  /** `(a + b) + c` and `a + (b + c)` are the same style. */
  lemma CombineAssociative(a: SW, b: SW, c: SW)
    ensures Combine(Combine(a, b), c) == Combine(a, Combine(b, c))
  {
    assert (a.code + b.code) + c.code == a.code + (b.code + c.code);
  }

  /** The style without codes changes nothing it is combined with. */
  lemma CombineIdentity(a: SW)
    ensures Combine(SW([]), a) == a && Combine(a, SW([])) == a
  {
    assert [] + a.code == a.code && a.code + [] == a.code;
  }

  /**
   * `style(*args, sep=sep, reset=reset)`: the escape prefix `ESC [`, the codes
   * joined by `;`, `m`, the arguments joined by `sep`, then the reset
   * sequence when `reset` holds. Arguments are already text.
   */
  function Render(style: SW, args: seq<string>, sep: string := "", reset: bool := true): (r: string)
    ensures |r| >= 3 && r[..2] == Csi
    ensures style.code == [] ==> r[..3] == Csi + [SgrFinal]
    ensures reset ==> |r| >= |Reset| && r[|r| - |Reset|..] == Reset
    ensures !reset ==> |r| >= |Join(sep, args)| && r[|r| - |Join(sep, args)|..] == Join(sep, args)
  {
    var text := Join(sep, args);
    var codes := Join(";", style.code);
    var suffix := if reset then Reset else "";
    Csi + codes + [SgrFinal] + text + suffix
  }

  /** A style's codes form a numeric parameter string. */
  predicate IsNumeric(style: SW) {
    IsNumericParameterString(Join(";", style.code))
  }

  /**
   * When the joined codes are parameter bytes (digits, `;`, `:` and the like),
   * a terminal reads the rendered text as one SGR control sequence whose
   * parameter string is the joined codes, followed by the payload and the
   * optional reset. Numeric styles qualify (NumericIsParameterString); codes
   * are not checked when a style is built, so others need not.
   */
  lemma RenderReadsBack(style: SW, args: seq<string>, sep: string, reset: bool)
    requires IsParameterString(Join(";", style.code))
    ensures ReadControlSequence(Render(style, args, sep, reset))
         == Some((ControlSequence(Join(";", style.code), "", SgrFinal),
                  Join(sep, args) + (if reset then Reset else "")))
  {
    RenderLayout(style, args, sep, reset);
    ReadControlSequenceOf(Join(";", style.code), SgrFinal, Join(sep, args) + (if reset then Reset else ""));
  }

  /** The rendered text as control sequence, then everything after it. */
  lemma RenderLayout(style: SW, args: seq<string>, sep: string, reset: bool)
    ensures Render(style, args, sep, reset)
         == Csi + Join(";", style.code) + [SgrFinal] + (Join(sep, args) + (if reset then Reset else ""))
  {
    var head := Csi + Join(";", style.code) + [SgrFinal];
    var text := Join(sep, args);
    var suffix := if reset then Reset else "";
    assert head + text + suffix == head + (text + suffix) by {
      Regroup(head, text, suffix);
    }
  }

  /** Concatenation regroups; kept apart so the step sees no other facts. */
  lemma Regroup(h: string, t: string, x: string)
    ensures h + t + x == h + (t + x)
  {
  }

  /** The reset sequence is itself SGR with the single parameter 0. */
  lemma ResetIsSgrZero()
    ensures ReadControlSequence(Reset) == Some((ControlSequence("0", "", SgrFinal), ""))
    ensures Parameters("0") == [0]
  {
    assert Reset == Csi + "0" + [SgrFinal] + "";
    assert IsParameterString("0");
    ReadControlSequenceOf("0", SgrFinal, "");
    assert Dec(0) == "0";
    SingleCodeReads(SW(["0"]), 0);
  }

  /** The numeric SGR parameters a terminal reads from a style's codes. */
  function SgrParameters(style: SW): (ps: seq<nat>)
    requires IsNumeric(style)
    ensures |ps| >= 1
  {
    Parameters(Join(";", style.code))
  }

  /** A style with the single code `Dec(n)` is read as the one parameter n. */
  lemma SingleCodeReads(style: SW, n: nat)
    requires style.code == [Dec(n)]
    ensures IsNumeric(style) && SgrParameters(style) == [n]
  {
    assert DecimalTexts([n]) == style.code;
    ParametersOfDecimals([n]);
  }

  /**
   * A style without codes renders `ESC [ m`, which a terminal reads as the
   * default parameter 0: the same as the reset sequence.
   */
  lemma EmptyStyleMeansReset()
    ensures IsNumeric(SW([]))
    ensures SgrParameters(SW([])) == [0]
  {
  }

  /** The parameters of `a + b` are those of `a` followed by those of `b`. */
  lemma CombineParameters(a: SW, b: SW)
    requires a.code != [] && b.code != []
    requires IsNumeric(a) && IsNumeric(b)
    ensures IsNumeric(Combine(a, b))
    ensures SgrParameters(Combine(a, b)) == SgrParameters(a) + SgrParameters(b)
  {
    ParametersOfJoin(a.code, b.code);
  }
}
