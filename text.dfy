/**
 * Joining strings with a separator (Python's `sep.join(parts)`) and splitting
 * a string at a delimiter character, the inverse a terminal applies when it
 * reads a parameter string.
 */
module Text {

  /** `sep.join(parts)`: the parts in order, with `sep` between neighbours. */
  function Join(sep: string, parts: seq<string>): (r: string)
    ensures |parts| == 0 ==> r == ""
    ensures |parts| == 1 ==> r == parts[0]
    ensures |parts| >= 1 ==> |r| >= |parts[0]| && r[..|parts[0]|] == parts[0]
    decreases |parts|
  {
    if |parts| == 0 then ""
    else if |parts| == 1 then parts[0]
    else parts[0] + sep + Join(sep, parts[1..])
  }

  /** Joining two non-empty lists puts one separator between their joins. */
  lemma {:induction false} JoinAppend(sep: string, xs: seq<string>, ys: seq<string>)
    requires |xs| >= 1 && |ys| >= 1
    ensures Join(sep, xs + ys) == Join(sep, xs) + sep + Join(sep, ys)
    decreases |xs|
  {
    if |xs| > 1 {
      JoinAppend(sep, xs[1..], ys);
      assert (xs + ys)[1..] == xs[1..] + ys;
    }
  }

  /** The pieces of `s` between occurrences of `d`; there is always at least one. */
  function Split(s: string, d: char): (r: seq<string>)
    ensures |r| >= 1
    decreases |s|
  {
    if s == [] then [""]
    else
      var rest := Split(s[1..], d);
      if s[0] == d then [""] + rest else [[s[0]] + rest[0]] + rest[1..]
  }

  /** Split of a string that starts with the delimiter. */
  lemma SplitDelimiterFirst(s: string, d: char)
    ensures Split([d] + s, d) == [""] + Split(s, d)
  {
    assert ([d] + s)[1..] == s;
  }

  /** Split of a string that starts with another character: it joins the first piece. */
  lemma SplitOtherFirst(c: char, s: string, d: char)
    requires c != d
    ensures Split([c] + s, d) == [[c] + Split(s, d)[0]] + Split(s, d)[1..]
  {
    assert ([c] + s)[0] == c && ([c] + s)[1..] == s;
  }

  /** Splitting around one delimiter splits each side on its own. */
  lemma {:induction false} SplitAround(u: string, v: string, d: char)
    ensures Split(u + [d] + v, d) == Split(u, d) + Split(v, d)
    decreases |u|, 1
  {
    if u == [] {
      assert u + [d] + v == [d] + v;
      SplitDelimiterFirst(v, d);
    } else {
      SplitAroundAfter(u[0], u[1..], v, d);
      assert u == [u[0]] + u[1..];
    }
  }

  /** The induction step of SplitAround: one more character in front. */
  lemma {:induction false} SplitAroundAfter(c: char, tail: string, v: string, d: char)
    ensures Split([c] + tail + [d] + v, d) == Split([c] + tail, d) + Split(v, d)
    decreases |tail| + 1, 0
  {
    var w := tail + [d] + v;
    assert [c] + tail + [d] + v == [c] + w;
    SplitAround(tail, v, d);
    if c == d {
      DelimiterInFront(w, tail, Split(v, d), d);
    } else {
      OtherInFront(c, w, tail, Split(v, d), d);
    }
  }

  /** A leading delimiter adds an empty first piece on both sides of SplitAround. */
  lemma DelimiterInFront(w: string, tail: string, right: seq<string>, d: char)
    requires Split(w, d) == Split(tail, d) + right
    ensures Split([d] + w, d) == Split([d] + tail, d) + right
  {
    SplitDelimiterFirst(w, d);
    SplitDelimiterFirst(tail, d);
    assert [""] + (Split(tail, d) + right) == ([""] + Split(tail, d)) + right;
  }

  /** Another leading character joins the first piece on both sides of SplitAround. */
  lemma OtherInFront(c: char, w: string, tail: string, right: seq<string>, d: char)
    requires c != d
    requires Split(w, d) == Split(tail, d) + right
    ensures Split([c] + w, d) == Split([c] + tail, d) + right
  {
    var left := Split(tail, d);
    SplitOtherFirst(c, w, d);
    SplitOtherFirst(c, tail, d);
    assert (left + right)[0] == left[0];
    assert (left + right)[1..] == left[1..] + right;
    assert [[c] + left[0]] + (left[1..] + right) == ([[c] + left[0]] + left[1..]) + right;
  }

  /** A string without the delimiter is one piece. */
  lemma {:induction false} SplitWithout(s: string, d: char)
    requires d !in s
    ensures Split(s, d) == [s]
    decreases |s|
  {
    if s != [] {
      assert d !in s[1..] by {
        forall i | 0 <= i < |s| - 1 ensures s[1..][i] != d {
          assert s[1..][i] == s[i + 1];
        }
      }
      SplitWithout(s[1..], d);
      assert s == [s[0]] + s[1..];
    }
  }

  /** Splitting at the separator undoes a join when no part holds the separator. */
  lemma {:induction false} SplitJoin(parts: seq<string>, d: char)
    requires |parts| >= 1
    requires forall i :: 0 <= i < |parts| ==> d !in parts[i]
    ensures Split(Join([d], parts), d) == parts
    decreases |parts|
  {
    if |parts| == 1 {
      SplitWithout(parts[0], d);
    } else {
      SplitWithout(parts[0], d);
      SplitJoin(parts[1..], d);
      SplitAround(parts[0], Join([d], parts[1..]), d);
      assert parts == [parts[0]] + parts[1..];
    }
  }
}
