/** Decimal text and integers: the rendering a `bigint` or `BigNumber` gets from
    `toString()`, and the part of ethers' `utils.parseUnits` that the swap
    request relies on, turning a human-readable amount such as "1.5" into an
    integer count of the asset's smallest unit. */
module Decimal {
  import opened Wrappers

  predicate IsDigit(c: char) {
    '0' <= c <= '9'
  }

  predicate AllDigits(s: string) {
    forall k :: 0 <= k < |s| ==> IsDigit(s[k])
  }

  /** Every character of `s` is a digit or a '.'. */
  predicate DigitsAndPoints(s: string) {
    forall k :: 0 <= k < |s| && s[k] != '.' ==> IsDigit(s[k])
  }

  function DigitValue(c: char): (d: nat)
    requires IsDigit(c)
    ensures d < 10
  {
    c as int - '0' as int
  }

  function DigitChar(d: nat): (c: char)
    requires d < 10
    ensures IsDigit(c) && DigitValue(c) == d
  {
    ('0' as int + d) as char
  }

  function Pow10(n: nat): (r: nat)
    ensures r >= 1
  {
    if n == 0 then 1 else 10 * Pow10(n - 1)
  }

  lemma {:induction false} Pow10Add(a: nat, b: nat)
    ensures Pow10(a + b) == Pow10(a) * Pow10(b)
  {
    if b > 0 {
      Pow10Add(a, b - 1);
      calc {
        Pow10(a + b);
        10 * Pow10(a + b - 1);
        10 * (Pow10(a) * Pow10(b - 1));
        Pow10(a) * (10 * Pow10(b - 1));
      }
    }
  }

  /** The number a string of decimal digits denotes, most significant digit first. */
  function DigitsValue(s: string): nat
    requires AllDigits(s)
  {
    if s == [] then 0 else DigitsValue(s[..|s| - 1]) * 10 + DigitValue(s[|s| - 1])
  }

  /** `(x·p + y)·10 + d`, regrouped around the appended digit `d`. */
  lemma Regroup(x: nat, p: nat, y: nat, d: nat)
    ensures (x * p + y) * 10 + d == x * (10 * p) + (y * 10 + d)
  {
  }

  /** Reading the digits of `a` followed by those of `b` shifts `a` by |b| places. */
  lemma {:induction false} DigitsValueAppend(a: string, b: string)
    requires AllDigits(a) && AllDigits(b)
    ensures AllDigits(a + b)
    ensures DigitsValue(a + b) == DigitsValue(a) * Pow10(|b|) + DigitsValue(b)
  {
    if b == [] {
      assert a + b == a;
    } else {
      var b' := b[..|b| - 1];
      DigitsValueAppend(a, b');
      assert (a + b)[..|a + b| - 1] == a + b';
      assert (a + b)[|a + b| - 1] == b[|b| - 1];
      Regroup(DigitsValue(a), Pow10(|b'|), DigitsValue(b'), DigitValue(b[|b| - 1]));
    }
  }

  /** `toString()` of a non-negative `bigint`: its decimal digits without leading
      zeros. */
  function NatToDecimal(n: nat): (r: string)
    ensures |r| >= 1 && AllDigits(r)
    ensures DigitsValue(r) == n
    ensures r[0] == '0' ==> r == "0"
  {
    if n < 10 then
      [DigitChar(n)]
    else
      var prefix := NatToDecimal(n / 10);
      var r := prefix + [DigitChar(n % 10)];
      assert r[..|r| - 1] == prefix;
      r
  }

  /** Position of the first '.' in `s`, or |s| when there is none. */
  function IndexOfDot(s: string): (i: nat)
    ensures i <= |s|
    ensures forall k :: 0 <= k < i ==> s[k] != '.'
    ensures i < |s| ==> s[i] == '.'
  {
    if s == [] || s[0] == '.' then 0 else 1 + IndexOfDot(s[1..])
  }

  /** `utils.parseUnits(text, decimals)` on the amounts it is meant for: one or
      more digits, optionally followed by '.' and one or more digits, with at
      most `decimals` digits after the point. The result is the digits read as
      one integer and scaled by 10^(decimals - fraction length). Any other text
      is refused with None. */
  function ParseUnits(text: string, decimals: nat): (r: Option<nat>)
    ensures r.Some? ==> |text| >= 1 && IsDigit(text[0]) && IsDigit(text[|text| - 1])
    ensures r.Some? ==> DigitsAndPoints(text)
  {
    var i := IndexOfDot(text);
    var whole := text[..i];
    if !(|whole| >= 1 && AllDigits(whole)) then None
    else if i == |text| then Some(DigitsValue(whole) * Pow10(decimals))
    else
      var fraction := text[i + 1..];
      if |fraction| >= 1 && AllDigits(fraction) && |fraction| <= decimals then
        assert AllDigits(whole + fraction);
        Some(DigitsValue(whole + fraction) * Pow10(decimals - |fraction|))
      else None
  }

  /** An integer amount "N" parses to N * 10^decimals. */
  lemma ParseUnitsWhole(whole: string, decimals: nat)
    requires |whole| >= 1 && AllDigits(whole)
    ensures ParseUnits(whole, decimals) == Some(DigitsValue(whole) * Pow10(decimals))
  {
    assert IndexOfDot(whole) == |whole|;
    assert whole[..|whole|] == whole;
  }

  lemma {:induction false} IndexOfDotAfterDigits(whole: string, rest: string)
    requires AllDigits(whole)
    ensures IndexOfDot(whole + rest) == |whole| + IndexOfDot(rest)
  {
    if whole != [] {
      assert (whole + rest)[1..] == whole[1..] + rest;
      IndexOfDotAfterDigits(whole[1..], rest);
    } else {
      assert whole + rest == rest;
    }
  }

  /** "W.F" parses to W * 10^decimals + F * 10^(decimals - |F|) when F fits in
      `decimals` digits. */
  lemma ParseUnitsFraction(whole: string, fraction: string, decimals: nat)
    requires |whole| >= 1 && AllDigits(whole)
    requires |fraction| >= 1 && AllDigits(fraction) && |fraction| <= decimals
    ensures ParseUnits(whole + "." + fraction, decimals)
         == Some(DigitsValue(whole) * Pow10(decimals) + DigitsValue(fraction) * Pow10(decimals - |fraction|))
  {
    var text := whole + "." + fraction;
    DotSplit(whole, fraction);
    ParseUnitsSplit(text, whole, fraction, decimals);
    ScaledValue(whole, fraction, decimals);
  }

  /** Where the '.' of "W.F" stands, and what stands on either side of it. */
  lemma DotSplit(whole: string, fraction: string)
    requires AllDigits(whole)
    ensures var text := whole + "." + fraction;
      && IndexOfDot(text) == |whole| < |text|
      && text[..|whole|] == whole && text[|whole| + 1..] == fraction
  {
    var text := whole + "." + fraction;
    assert text == whole + ("." + fraction);
    IndexOfDotAfterDigits(whole, "." + fraction);
    assert text[..|whole|] == whole;
    assert text[|whole| + 1..] == fraction;
  }

  /** Text whose first '.' follows the digits `whole` and precedes
      `fraction`: it parses to the digits of both when the fraction is one to
      `decimals` digits, and is refused when the fraction is longer. */
  lemma ParseUnitsSplit(text: string, whole: string, fraction: string, decimals: nat)
    requires IndexOfDot(text) == |whole| < |text|
    requires text[..|whole|] == whole && text[|whole| + 1..] == fraction
    ensures |whole| >= 1 && AllDigits(whole) && |fraction| >= 1 && AllDigits(fraction) && |fraction| <= decimals
      ==> AllDigits(whole + fraction)
          && ParseUnits(text, decimals) == Some(DigitsValue(whole + fraction) * Pow10(decimals - |fraction|))
    ensures |fraction| > decimals ==> ParseUnits(text, decimals) == None
  {
    if AllDigits(whole) && AllDigits(fraction) {
      DigitsValueAppend(whole, fraction);
    }
  }

  lemma ScaledValue(whole: string, fraction: string, decimals: nat)
    requires AllDigits(whole) && AllDigits(fraction) && |fraction| <= decimals
    ensures AllDigits(whole + fraction)
    ensures DigitsValue(whole + fraction) * Pow10(decimals - |fraction|)
         == DigitsValue(whole) * Pow10(decimals) + DigitsValue(fraction) * Pow10(decimals - |fraction|)
  {
    var w, f := DigitsValue(whole), DigitsValue(fraction);
    var p, e := Pow10(|fraction|), Pow10(decimals - |fraction|);
    DigitsValueAppend(whole, fraction);
    assert DigitsValue(whole + fraction) == w * p + f;
    Pow10Add(decimals - |fraction|, |fraction|);
    assert Pow10(decimals) == e * p;
    Distribute(w, p, f, e);
  }

  lemma Distribute(w: nat, p: nat, f: nat, e: nat)
    ensures (w * p + f) * e == w * (e * p) + f * e
  {
  }

  /** More fraction digits than the asset has decimals is an error. */
  lemma ParseUnitsTooPrecise(whole: string, fraction: string, decimals: nat)
    requires AllDigits(whole)
    requires |fraction| > decimals
    ensures ParseUnits(whole + "." + fraction, decimals) == None
  {
    DotSplit(whole, fraction);
    ParseUnitsSplit(whole + "." + fraction, whole, fraction, decimals);
  }

  /** The decimal rendering of n, read back with `decimals` places, is n scaled by
      10^decimals. */
  lemma ParseUnitsOfRendering(n: nat, decimals: nat)
    ensures ParseUnits(NatToDecimal(n), decimals) == Some(n * Pow10(decimals))
  {
    ParseUnitsWhole(NatToDecimal(n), decimals);
  }
}
