/** Python's `float(text)` for the decimal notation a database returns for a numeric cell:
    an optional sign, then digits with at most one decimal point and at least one digit.
    The value is the exact rational the text denotes (no binary rounding). */
module Decimal {
  import opened Wrappers
  import opened Text

  /** Index of the first '.', or `|s|` when there is none. */
  function FindDot(s: string): (d: nat)
    ensures d <= |s|
    ensures forall i :: 0 <= i < d ==> s[i] != '.'
    ensures d < |s| ==> s[d] == '.'
  {
    if s == [] || s[0] == '.' then 0 else 1 + FindDot(s[1..])
  }

  /** Digits and at most one decimal point, with at least one digit somewhere. */
  predicate UnsignedNumeral(s: string) {
    && (forall i :: 0 <= i < |s| ==> IsDigit(s[i]) || s[i] == '.')
    && (forall i, j :: 0 <= i < j < |s| && s[i] == '.' ==> s[j] != '.')
    && (exists i :: 0 <= i < |s| && IsDigit(s[i]))
  }

  predicate IsSign(c: char) {
    c == '+' || c == '-'
  }

  /** The text `float` accepts in this model. */
  predicate Numeral(s: string) {
    UnsignedNumeral(s) || (|s| > 0 && IsSign(s[0]) && UnsignedNumeral(s[1..]))
  }

  /** The whole part and the fraction digits on either side of the first decimal point. */
  function WholePart(s: string): string {
    s[..FindDot(s)]
  }

  function FractionPart(s: string): string {
    var d := FindDot(s);
    if d < |s| then s[d + 1..] else ""
  }

  /** The number `whole.fraction` denotes. */
  function DecimalValue(whole: string, fraction: string): (v: real)
    requires AllDigits(whole) && AllDigits(fraction)
    ensures v >= 0.0
  {
    DigitsValue(whole) as real + DigitsValue(fraction) as real / Pow10(|fraction|) as real
  }

  function ParseUnsigned(s: string): (r: Result<real>)
    ensures r.Success? <==> UnsignedNumeral(s)
    ensures r.Failure? ==> r.error == ValueError
    ensures r.Success? ==> r.value >= 0.0
  {
    var whole, fraction := WholePart(s), FractionPart(s);
    SplitAtDot(s);
    if AllDigits(whole) && AllDigits(fraction) && |whole| + |fraction| > 0 then
      Success(DecimalValue(whole, fraction))
    else
      Failure(ValueError)
  }

  /** `float(s)`: a leading '-' negates, a leading '+' is dropped; anything else is a ValueError. */
  function ParseFloat(s: string): (r: Result<real>)
    ensures r.Success? <==> Numeral(s)
    ensures r.Failure? ==> r.error == ValueError
  {
    if |s| > 0 && IsSign(s[0]) then
      var m :- ParseUnsigned(s[1..]);
      Success(if s[0] == '-' then -m else m)
    else
      ParseUnsigned(s)
  }

  /** The split at the first decimal point accepts exactly the unsigned numerals. */
  lemma SplitAtDot(s: string)
    ensures AllDigits(WholePart(s)) && AllDigits(FractionPart(s)) && |WholePart(s)| + |FractionPart(s)| > 0
        <==> UnsignedNumeral(s)
  {
    var d := FindDot(s);
    var whole, fraction := WholePart(s), FractionPart(s);
    if AllDigits(whole) && AllDigits(fraction) && |whole| + |fraction| > 0 {
      forall i | 0 <= i < |s| ensures IsDigit(s[i]) || s[i] == '.' {
        if i < d {
          assert s[i] == whole[i];
        } else if i > d {
          assert s[i] == fraction[i - d - 1];
        }
      }
      forall i, j | 0 <= i < j < |s| && s[i] == '.' ensures s[j] != '.' {
        assert i >= d;
        assert j > d;
        assert s[j] == fraction[j - d - 1];
      }
      if |whole| > 0 {
        assert IsDigit(s[0]) by { assert s[0] == whole[0]; }
      } else {
        assert IsDigit(s[d + 1]) by { assert s[d + 1] == fraction[0]; }
      }
    }
    if UnsignedNumeral(s) {
      forall i | 0 <= i < |whole| ensures IsDigit(whole[i]) {
        assert whole[i] == s[i];
      }
      if d < |s| {
        forall i | 0 <= i < |fraction| ensures IsDigit(fraction[i]) {
          assert fraction[i] == s[d + 1 + i];
        }
      }
      var k :| 0 <= k < |s| && IsDigit(s[k]);
      if k < d {
        assert |whole| > 0;
      } else {
        assert k > d;
        assert |fraction| > 0;
      }
    }
  }

  /** Reading back a rendered natural number gives that number. */
  lemma ParseFloatOfNat(n: nat)
    ensures ParseFloat(NatToString(n)) == Success(n as real)
  {
    var s := NatToString(n);
    NoDotInDigits(s);
    assert WholePart(s) == s;
    NatToStringRoundTrip(n);
  }

  /** A whole number written with a zero fraction, as a database renders a whole double
      (`10.0`), reads back as that number. */
  lemma ParseFloatZeroFraction(n: nat, k: nat)
    ensures ParseFloat(NatToString(n) + "." + Fixed(0, k)) == Success(n as real)
  {
    var w, t := NatToString(n), Fixed(0, k);
    ParseFloatOfParts(w, t);
    NatToStringRoundTrip(n);
    FixedRoundTrip(0, k);
    ZeroFractionValue(w, t);
  }

  /** A fraction of zeros adds nothing to the whole part. */
  lemma ZeroFractionValue(w: string, t: string)
    requires AllDigits(w) && AllDigits(t) && DigitsValue(t) == 0
    ensures DecimalValue(w, t) == DigitsValue(w) as real
  {
    var p := Pow10(|t|) as real;
    assert 0 as real / p == 0.0;
  }

  /** The text `whole.fraction` reads as the number `DecimalValue` gives for its two digit runs. */
  lemma ParseFloatOfParts(w: string, t: string)
    requires |w| > 0 && AllDigits(w) && AllDigits(t)
    ensures ParseFloat(w + "." + t) == Success(DecimalValue(w, t))
  {
    var s := w + "." + t;
    SplitDecimal(w, t);
    assert !IsSign(s[0]) by { assert s[0] == w[0]; }
  }

  lemma SplitDecimal(w: string, t: string)
    requires AllDigits(w)
    ensures WholePart(w + "." + t) == w && FractionPart(w + "." + t) == t
  {
    var s := w + "." + t;
    NoDotInDigits(w);
    assert s[|w|] == '.';
    assert forall i :: 0 <= i < |w| ==> s[i] == w[i];
    FindDotAt(s, |w|);
    assert s[..|w|] == w;
    assert s[|w| + 1..] == t;
  }

  /** A leading minus sign negates the value of an unsigned numeral. */
  lemma ParseFloatNegative(s: string)
    requires UnsignedNumeral(s)
    ensures ParseFloat("-" + s).Success? && ParseFloat("-" + s).value == -ParseFloat(s).value
  {
    assert ("-" + s)[1..] == s;
    assert !IsSign(s[0]) by {
      assert IsDigit(s[0]) || s[0] == '.';
    }
  }

  lemma NoDotInDigits(s: string)
    requires AllDigits(s)
    ensures FindDot(s) == |s|
  {
    if FindDot(s) < |s| {
      assert IsDigit(s[FindDot(s)]);
    }
  }

  lemma FindDotAt(s: string, d: nat)
    requires d < |s| && s[d] == '.' && forall i :: 0 <= i < d ==> s[i] != '.'
    ensures FindDot(s) == d
  {
  }
}
