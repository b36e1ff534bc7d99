/** Numbers as the quiz engine prints and compares them.

    Prices are whole cents, so every price is a natural number. A JavaScript
    number computed from prices is modelled by `Num`: the exact quotient where
    the engine divides by a non-zero price, and the infinities or NaN that a
    division by a zero price gives. Dates are whole day numbers; the text of a
    date is the decimal text of its day number. */
module Numbers {
  import opened Common

  predicate IsDigit(c: char)
  {
    '0' <= c <= '9'
  }

  predicate AllDigits(s: string)
  {
    forall i :: 0 <= i < |s| ==> IsDigit(s[i])
  }

  function DigitChar(d: nat): (c: char)
    requires d < 10
    ensures IsDigit(c) && c as int - '0' as int == d
  {
    ('0' as int + d) as char
  }

  /** Decimal text of a natural number, as `String(n)` renders it. */
  function NatText(n: nat): (s: string)
    ensures s != [] && AllDigits(s)
    ensures n < 10 <==> |s| == 1
  {
    if n < 10 then [DigitChar(n)] else NatText(n / 10) + [DigitChar(n % 10)]
  }

  /** The number a string of decimal digits denotes. */
  function DigitsValue(s: string): nat
    requires AllDigits(s)
  {
    if s == [] then 0 else 10 * DigitsValue(s[..|s| - 1]) + (s[|s| - 1] as int - '0' as int)
  }

  /** Reads the text of a day number back; `None` is an invalid date. */
  function ParseNat(s: string): Option<nat>
  {
    if s != [] && AllDigits(s) then Some(DigitsValue(s)) else None
  }

  lemma {:induction false} DigitsValueOfNatText(n: nat)
    ensures DigitsValue(NatText(n)) == n
  {
    if n >= 10 {
      var s := NatText(n);
      assert s[..|s| - 1] == NatText(n / 10);
      DigitsValueOfNatText(n / 10);
    }
  }

  /** Printing a day number and reading it back gives the same day. */
  lemma ParseNatText(n: nat)
    ensures ParseNat(NatText(n)) == Some(n)
  {
    DigitsValueOfNatText(n);
  }

  type Pos = n: nat | n > 0 witness 1

  /** A JavaScript number derived from prices: the exact quotient num / den
      where a double would stand, and the infinities and NaN that a division
      by zero gives. */
  datatype Num = Ratio(num: int, den: Pos) | PosInf | NegInf | NaN

  const Zero := Ratio(0, 1)

  /** JavaScript's `x > 0` (false for NaN). */
  predicate IsPositive(x: Num)
  {
    x == PosInf || (x.Ratio? && x.num > 0)
  }

  /** JavaScript's `x >= 0` (false for NaN). */
  predicate IsNonNegative(x: Num)
  {
    x == PosInf || (x.Ratio? && x.num >= 0)
  }

  /** `Math.abs(x)` */
  function Abs(x: Num): (a: Num)
    ensures x == NaN <==> a == NaN
    ensures a != NaN ==> IsNonNegative(a)
    ensures x.Ratio? ==> a.Ratio? && a.den == x.den && (a.num == x.num || a.num == -x.num)
  {
    match x
    case Ratio(n, d) => Ratio(if n < 0 then -n else n, d)
    case PosInf => PosInf
    case NegInf => PosInf
    case NaN => NaN
  }

  /** `((end - start) / start) * 100` for two prices. */
  function PercentChange(start: nat, end: nat): (p: Num)
    ensures p.Ratio? <==> start > 0
    ensures start > 0 ==> p.den == start && p.num == 100 * (end - start)
  {
    if start == 0 then
      (if end > 0 then PosInf else NaN)
    else
      Ratio(100 * (end - start), start)
  }

  /** The engine's `percentChange > 0` holds exactly when the price rose. */
  lemma RisesIffPositive(start: nat, end: nat)
    ensures IsPositive(PercentChange(start, end)) <==> end > start
  {
  }

  /** The engine's `percentChange >= 0` holds exactly when the price did not
      fall, except that two zero prices give NaN, which is not `>= 0`. */
  lemma NonNegativeIffNotFallen(start: nat, end: nat)
    ensures IsNonNegative(PercentChange(start, end)) <==> end >= start && end > 0
  {
  }

  /** `x.toFixed(2)` for |x| below 10^21. */
  function Fixed2(x: Num): (s: string)
    ensures x.Ratio? && x.num >= 0 ==> |s| >= 4 && s[|s| - 3] == '.'
  {
    match x
    case NaN => "NaN"
    case PosInf => "Infinity"
    case NegInf => "-Infinity"
    case Ratio(n, d) => if n < 0 then "-" + Fixed2Magnitude(-n, d) else Fixed2Magnitude(n, d)
  }

  /** The number of hundredths that `toFixed(2)` picks for n / d >= 0: the
      nearest, and the larger of two equally near. */
  function Hundredths(n: nat, d: Pos): nat
  {
    (200 * n + d) / (2 * d)
  }

  /** `Hundredths` picks the nearest count of hundredths, the larger of two
      equally near: h / 100 <= n / d + 1/200 < (h + 1) / 100. */
  lemma HundredthsRounds(n: nat, d: Pos)
    ensures var h := Hundredths(n, d);
      2 * d * h <= 200 * n + d < 2 * d * (h + 1)
  {
    DivBounds(200 * n + d, 2 * d);
  }

  lemma DivBounds(a: nat, b: Pos)
    ensures b * (a / b) <= a < b * (a / b + 1)
  {
  }

  function Fixed2Magnitude(n: nat, d: Pos): string
  {
    HundredthsText(Hundredths(n, d))
  }

  /** A count of hundredths printed with two digits after the point. */
  function HundredthsText(h: nat): (s: string)
    ensures |s| >= 4 && s[|s| - 3] == '.'
  {
    NatText(h / 100) + "." + [DigitChar(h % 100 / 10), DigitChar(h % 10)]
  }

  /** Read with its point removed, the text gives back the count. */
  lemma {:induction false} HundredthsTextReads(h: nat)
    ensures var s := HundredthsText(h);
      ParseNat(s[..|s| - 3] + s[|s| - 2..]) == Some(h)
  {
    var whole := NatText(h / 100);
    var d1, d2 := DigitChar(h % 100 / 10), DigitChar(h % 10);
    PointRemoved(whole, d1, d2);
    DigitsValueOfNatText(h / 100);
    DigitsValueSnoc(whole, d1);
    DigitsValueSnoc(whole + [d1], d2);
    assert whole + [d1] + [d2] == whole + [d1, d2];
    HundredthsDigits(h);
  }

  lemma PointRemoved(whole: string, d1: char, d2: char)
    ensures var s := whole + "." + [d1, d2];
      s[..|s| - 3] + s[|s| - 2..] == whole + [d1, d2]
  {
  }

  lemma DigitsValueSnoc(s: string, c: char)
    requires AllDigits(s) && IsDigit(c)
    ensures AllDigits(s + [c])
    ensures DigitsValue(s + [c]) == 10 * DigitsValue(s) + (c as int - '0' as int)
  {
    assert (s + [c])[..|s|] == s;
  }

  lemma HundredthsDigits(h: nat)
    ensures 10 * (10 * (h / 100) + h % 100 / 10) + h % 10 == h
  {
  }

  /** The text `x.toFixed(2)` prints for x = n / d >= 0, read with its point
      removed, is x rounded to hundredths. */
  lemma Fixed2Reads(n: nat, d: Pos)
    ensures var s := Fixed2(Ratio(n, d));
      && |s| >= 4
      && ParseNat(s[..|s| - 3] + s[|s| - 2..]) == Some(Hundredths(n, d))
  {
    HundredthsTextReads(Hundredths(n, d));
  }
}
