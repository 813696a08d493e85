/** String building blocks the modelled code gets from Python's str type:
    decimal rendering of integers (f-string interpolation, `%02d`-style padding),
    `str.join`, `str.startswith`, and reading back a run of decimal digits. */
module Text {

  predicate IsDigit(c: char) {
    '0' <= c <= '9'
  }

  predicate AllDigits(s: string) {
    forall i :: 0 <= i < |s| ==> IsDigit(s[i])
  }

  function DigitChar(d: nat): (c: char)
    requires d < 10
    ensures IsDigit(c)
  {
    ('0' as int + d) as char
  }

  function DigitValue(c: char): (d: nat)
    requires IsDigit(c)
    ensures d < 10 && DigitChar(d) == c
  {
    c as int - '0' as int
  }

  function Pow10(n: nat): (p: nat)
    ensures p >= 1
  {
    if n == 0 then 1 else 10 * Pow10(n - 1)
  }

  /** Decimal rendering of a natural number, as `str(n)` and `f"{n}"` produce it. */
  function NatToString(n: nat): (s: string)
    ensures |s| > 0 && AllDigits(s)
    decreases n
  {
    if n < 10 then [DigitChar(n)] else NatToString(n / 10) + [DigitChar(n % 10)]
  }

  /** The number a string of decimal digits denotes, most significant digit first. */
  function DigitsValue(s: string): nat
    requires AllDigits(s)
    decreases |s|
  {
    if s == [] then 0 else 10 * DigitsValue(s[..|s| - 1]) + DigitValue(s[|s| - 1])
  }

  lemma {:induction false} DigitsValueBound(s: string)
    requires AllDigits(s)
    ensures DigitsValue(s) < Pow10(|s|)
    decreases |s|
  {
    if s != [] {
      DigitsValueBound(s[..|s| - 1]);
    }
  }

  /** Reading back a rendered number gives the number. */
  lemma {:induction false} NatToStringRoundTrip(n: nat)
    ensures DigitsValue(NatToString(n)) == n
    decreases n
  {
    if n >= 10 {
      NatToStringRoundTrip(n / 10);
      var s := NatToString(n);
      assert s[..|s| - 1] == NatToString(n / 10);
    }
  }

  /** Distinct numbers render as distinct strings (so aliases `p0`, `p1`, ... never clash). */
  lemma NatToStringInjective(m: nat, n: nat)
    ensures NatToString(m) == NatToString(n) <==> m == n
  {
    NatToStringRoundTrip(m);
    NatToStringRoundTrip(n);
  }

  /** Zero-padded rendering in exactly `width` digits, as `%04d` / `%02d` give for n < 10^width. */
  function Fixed(n: nat, width: nat): (s: string)
    ensures |s| == width && AllDigits(s)
  {
    if width == 0 then "" else Fixed(n / 10, width - 1) + [DigitChar(n % 10)]
  }

  lemma {:induction false} FixedRoundTrip(n: nat, width: nat)
    requires n < Pow10(width)
    ensures DigitsValue(Fixed(n, width)) == n
  {
    if width > 0 {
      FixedRoundTrip(n / 10, width - 1);
      var s := Fixed(n, width);
      assert s[..|s| - 1] == Fixed(n / 10, width - 1);
    }
  }

  /** A fixed-width digit string is re-rendered unchanged from its value. */
  lemma {:induction false} DigitsRoundTrip(s: string)
    requires AllDigits(s)
    ensures Fixed(DigitsValue(s), |s|) == s
    decreases |s|
  {
    if s != [] {
      var init := s[..|s| - 1];
      DigitsRoundTrip(init);
      var v := DigitsValue(s);
      assert v / 10 == DigitsValue(init);
      assert v % 10 == DigitValue(s[|s| - 1]);
      assert s == init + [s[|s| - 1]];
    }
  }

  /** `sep.join(parts)`. */
  function Join(sep: string, parts: seq<string>): string
  {
    if |parts| == 0 then ""
    else if |parts| == 1 then parts[0]
    else parts[0] + sep + Join(sep, parts[1..])
  }

  lemma {:induction false} JoinAppend(sep: string, xs: seq<string>, ys: seq<string>)
    requires |xs| > 0 && |ys| > 0
    ensures Join(sep, xs + ys) == Join(sep, xs) + sep + Join(sep, ys)
    decreases |xs|
  {
    if |xs| == 1 {
      assert (xs + ys)[1..] == ys;
    } else {
      assert (xs + ys)[1..] == xs[1..] + ys;
      JoinAppend(sep, xs[1..], ys);
    }
  }

  lemma JoinTwo(sep: string, a: string, b: string)
    ensures Join(sep, [a, b]) == a + sep + b
  {
    assert [a, b][1..] == [b];
  }

  lemma JoinThree(sep: string, a: string, b: string, c: string)
    ensures Join(sep, [a, b, c]) == a + sep + b + sep + c
  {
    assert [a, b, c][1..] == [b, c];
    JoinTwo(sep, b, c);
  }

  /** Flattening of a sequence of groups, keeping group order and the order inside each group. */
  function Concat<T>(groups: seq<seq<T>>): (r: seq<T>)
  {
    if groups == [] then [] else Concat(groups[..|groups| - 1]) + groups[|groups| - 1]
  }

  /** Joining pre-joined non-empty groups with the same separator is joining the flattened items. */
  lemma {:induction false} JoinOfJoins(sep: string, groups: seq<seq<string>>, joined: seq<string>)
    requires |joined| == |groups|
    requires forall i :: 0 <= i < |groups| ==> |groups[i]| > 0 && joined[i] == Join(sep, groups[i])
    ensures Join(sep, joined) == Join(sep, Concat(groups))
    decreases |groups|
  {
    var n := |groups|;
    if n == 1 {
      assert groups[..0] == [];
      assert Concat(groups) == groups[0];
    } else if n > 1 {
      var init, initJoined := groups[..n - 1], joined[..n - 1];
      JoinOfJoins(sep, init, initJoined);
      ConcatNonEmpty(init);
      assert joined == initJoined + [joined[n - 1]];
      JoinAppend(sep, initJoined, [joined[n - 1]]);
      JoinAppend(sep, Concat(init), groups[n - 1]);
    }
  }

  lemma {:induction false} ConcatNonEmpty<T>(groups: seq<seq<T>>)
    requires |groups| > 0 && forall i :: 0 <= i < |groups| ==> |groups[i]| > 0
    ensures |Concat(groups)| > 0
  {
  }

  /** Flattening groups that all have `w` items gives `w` items per group. */
  lemma {:induction false} ConcatLength<T>(groups: seq<seq<T>>, w: nat)
    requires forall i :: 0 <= i < |groups| ==> |groups[i]| == w
    ensures |Concat(groups)| == w * |groups|
    decreases |groups|
  {
    if groups != [] {
      var n := |groups|;
      ConcatLength(groups[..n - 1], w);
      assert w * n == w * (n - 1) + w;
    }
  }

  /** Flattening groups that all have `w` items: item `k` of group `i` lands at `w * i + k`. */
  lemma {:induction false} ConcatAt<T>(groups: seq<seq<T>>, w: nat, i: nat, k: nat)
    requires forall j :: 0 <= j < |groups| ==> |groups[j]| == w
    requires i < |groups| && k < w
    ensures w * i + k < |Concat(groups)|
    ensures Concat(groups)[w * i + k] == groups[i][k]
    decreases |groups|
  {
    var n := |groups|;
    var init := groups[..n - 1];
    ConcatLength(init, w);
    assert Concat(groups) == Concat(init) + groups[n - 1];
    if i == n - 1 {
      assert w * i + k == |Concat(init)| + k;
    } else {
      ConcatAt(init, w, i, k);
      assert init[i] == groups[i];
    }
  }

  /** `s.startswith(prefix)`. */
  predicate StartsWith(s: string, prefix: string) {
    |prefix| <= |s| && s[..|prefix|] == prefix
  }
}
