/** The decimal normal form the conformance suites compare numbers in (test/suites.c): ten significant
    digits, half up, trailing zeros stripped, in plain notation. */
module Decimal {
  import opened Text

  const NORM_DIGITS := 10
  const MAX_EXPONENT := 100000

  // The number a literal spells

  /** `digits` over ten to the `fraction`, times ten to the `exponent`. */
  datatype Literal = Literal(negative: bool, digits: string, fraction: nat, exponent: int)

  function DigitRun(t: string): (n: nat)
    ensures n <= |t|
    ensures AllDigits(t[..n])
    ensures n < |t| ==> !IsDigit(t[n])
  {
    if t != "" && IsDigit(t[0]) then 1 + DigitRun(t[1..]) else 0
  }

  predicate IsSign(t: string) {
    t != "" && (t[0] == '+' || t[0] == '-')
  }

  function SkipSign(t: string): string {
    if IsSign(t) then t[1..] else t
  }

  /** The exponent part, which runs to the end: its value, or None if there is something else. */
  function ParseExponent(t: string): Option<int> {
    if t == "" then Some(0)
    else if t[0] != 'e' && t[0] != 'E' then None
    else
      var u := SkipSign(t[1..]);
      var n := DigitRun(u);
      if n == 0 || n != |u| || DigitsValue(u[..n]) > MAX_EXPONENT then None
      else Some(if IsSign(t[1..]) && t[1] == '-' then 0 - DigitsValue(u[..n]) else DigitsValue(u[..n]))
  }

  /** The digits after the point, if there is a point, and what follows them. */
  function Fraction(t: string): (r: (string, string))
    ensures AllDigits(r.0)
  {
    if t != "" && t[0] == '.' then
      var u := t[1..];
      (u[..DigitRun(u)], u[DigitRun(u)..])
    else ("", t)
  }

  function ParseLiteral(s: string): (r: Option<Literal>)
    ensures r.Some? ==> AllDigits(r.value.digits) && r.value.digits != ""
  {
    var t := SkipSign(s);
    var n := DigitRun(t);
    var (fraction, rest) := Fraction(t[n..]);
    var exponent := ParseExponent(rest);
    if t[..n] + fraction == "" || exponent.None? then None
    else Some(Literal(IsSign(s) && s[0] == '-', t[..n] + fraction, |fraction|, exponent.value))
  }

  // Its normal form

  /** `d / p`, rounded to the nearest with halves away from zero. */
  function HalfUp(d: nat, p: nat): nat
    requires p > 0
  {
    d / p + if 2 * (d % p) >= p then 1 else 0
  }

  /** `m` over ten to the `scale` without trailing zeros. */
  function Strip(m: nat, scale: int): (r: (nat, int))
    requires m > 0
    ensures r.0 > 0 && r.0 % 10 != 0 && r.1 <= scale
    decreases m
  {
    if m % 10 == 0 then Strip(m / 10, scale - 1) else (m, scale)
  }

  /** `d` over ten to the `scale`, to ten significant digits. */
  function Normal(d: nat, scale: int): (r: (nat, int))
    requires d > 0
    ensures r.0 > 0 && r.0 % 10 != 0
  {
    var n := |Digits(d)|;
    if n <= NORM_DIGITS then Strip(d, scale)
    else
      var k := n - NORM_DIGITS;
      SignificantDigits(d);
      LeadingDigits(d, k);
      Strip(HalfUp(d, Pow10(k)), scale - k)
  }

  function Zeros(n: nat): (r: string)
    ensures |r| == n && AllDigits(r)
  {
    seq(n, i => '0')
  }

  /** Plain notation, with a digit before any point. */
  function ShowDigits(d: string, scale: int): string {
    if scale <= 0 then d + Zeros(-scale)
    else if |d| > scale then d[..|d| - scale] + "." + d[|d| - scale..]
    else "0." + Zeros(scale - |d|) + d
  }

  function Show(m: nat, scale: int): string {
    ShowDigits(Digits(m), scale)
  }

  function TextOf(l: Literal): string
    requires AllDigits(l.digits)
  {
    var d := DigitsValue(l.digits);
    if d == 0 then "0"
    else
      var (m, scale) := Normal(d, l.fraction - l.exponent);
      (if l.negative then "-" else "") + Show(m, scale)
  }

  /** plain_number. */
  function Plain(s: string): Option<string> {
    var l := ParseLiteral(s);
    if l.None? then None else Some(TextOf(l.value))
  }

  // Digits and numbers

  lemma {:induction false} SignificantDigits(d: nat)
    requires d > 0
    ensures Pow10(|Digits(d)| - 1) <= d < Pow10(|Digits(d)|)
  {
    if d >= 10 { SignificantDigits(d / 10); }
  }

  lemma {:induction false} LeadingDigits(d: nat, k: nat)
    requires d > 0 && k < |Digits(d)|
    ensures d / Pow10(k) > 0
  {
    SignificantDigits(d);
    Pow10Grows(k, |Digits(d)| - 1);
    QuotientPositive(d, Pow10(k));
  }

  lemma QuotientPositive(d: nat, p: nat)
    requires 0 < p <= d
    ensures d / p > 0
  {
    assert d == p * (d / p) + d % p;
  }

  lemma {:induction false} Pow10Grows(i: nat, j: nat)
    requires i <= j
    ensures Pow10(i) <= Pow10(j)
  {
    if i < j { Pow10Grows(i, j - 1); }
  }

  lemma {:induction false} Pow10Adds(i: nat, j: nat)
    ensures Pow10(i + j) == Pow10(i) * Pow10(j)
  {
    if i > 0 {
      Pow10Adds(i - 1, j);
      assert 10 * (Pow10(i - 1) * Pow10(j)) == 10 * Pow10(i - 1) * Pow10(j);
    }
  }

  lemma {:induction false} DigitsValueAppend(a: string, b: string)
    requires AllDigits(a) && AllDigits(b)
    ensures AllDigits(a + b) && DigitsValue(a + b) == DigitsValue(a) * Pow10(|b|) + DigitsValue(b)
  {
    if b == "" {
      assert a + b == a;
    } else {
      var n := |b| - 1;
      DigitsValueAppend(a, b[..n]);
      assert (a + b)[..|a| + n] == a + b[..n];
      Shift(DigitsValue(a), DigitsValue(b[..n]), Pow10(n));
    }
  }

  lemma Shift(x: nat, y: nat, p: nat)
    ensures 10 * (x * p + y) == x * (10 * p) + 10 * y
  {
  }

  lemma {:induction false} DigitsValueBound(s: string)
    requires AllDigits(s)
    ensures DigitsValue(s) < Pow10(|s|)
  {
    if s != "" { DigitsValueBound(s[..|s| - 1]); }
  }

  /** Digits without a leading zero are how their number is written. */
  lemma {:induction false} DigitsOfValue(s: string)
    requires AllDigits(s) && s != "" && s[0] != '0'
    ensures DigitsValue(s) > 0 && Digits(DigitsValue(s)) == s
  {
    var n := |s| - 1;
    if n == 0 {
      assert s[..0] == "";
    } else {
      DigitsOfValue(s[..n]);
      var v := DigitsValue(s);
      assert v / 10 == DigitsValue(s[..n]) && v % 10 == s[n] as int - '0' as int;
      assert s[..n] + [s[n]] == s;
    }
  }

  lemma {:induction false} ZerosValue(n: nat)
    ensures DigitsValue(Zeros(n)) == 0
  {
    if n > 0 {
      ZerosValue(n - 1);
      assert Zeros(n)[..n - 1] == Zeros(n - 1);
    }
  }

  // What the normal form means

  lemma {:induction false} StripKeepsValue(m: nat, scale: int)
    requires m > 0
    ensures var (r, s) := Strip(m, scale);
            s <= scale && m == r * Pow10(scale - s)
    decreases m
  {
    if m % 10 == 0 {
      StripKeepsValue(m / 10, scale - 1);
      var (r, s) := Strip(m, scale);
      assert r * (10 * Pow10(scale - 1 - s)) == 10 * (r * Pow10(scale - 1 - s));
    }
  }

  lemma HalfUpIsNearest(d: nat, p: nat)
    requires p > 0
    ensures var q := HalfUp(d, p);
            2 * d - p < 2 * (q * p) <= 2 * d + p
  {
    var (a, b) := (d / p, d % p);
    assert d == a * p + b;
    assert (a + 1) * p == a * p + p;
  }

  lemma {:induction false} NearestIsHalfUp(d: nat, p: nat, q: nat)
    requires p > 0 && 2 * d - p < 2 * (q * p) <= 2 * d + p
    ensures q == HalfUp(d, p)
  {
    var r := HalfUp(d, p);
    HalfUpIsNearest(d, p);
    if q < r {
      Apart(q, r, p);
    } else if r < q {
      Apart(r, q, p);
    }
  }

  lemma {:induction false} Apart(a: nat, b: nat, p: nat)
    requires a < b
    ensures a * p + p <= b * p
  {
    if a + 1 < b { Apart(a, b - 1, p); }
    assert b * p == (b - 1) * p + p;
  }

  /** Rounding to ten significant digits: with `n` digits there are `k` too many, and the `q` units of
      ten to the `k` kept are those nearest to the number, upwards from the half; without too many
      digits nothing is lost. The normal form is `q` without its trailing zeros. */
  lemma {:induction false} RoundsHalfUp(d: nat, scale: int)
    requires d > 0
    ensures var n := |Digits(d)|;
            var k := if n > NORM_DIGITS then n - NORM_DIGITS else 0;
            var (m, e) := Normal(d, scale);
            && m < Pow10(10) && m % 10 != 0 && e <= scale - k
            && var q := m * Pow10(scale - k - e);
               && 2 * d - Pow10(k) < 2 * (q * Pow10(k)) <= 2 * d + Pow10(k)
               && (if k == 0 then q == d else Pow10(9) <= q <= Pow10(10))
  {
    hide HalfUp, Digits, Strip, Pow10;
    var n := |Digits(d)|;
    SignificantDigits(d);
    if n <= NORM_DIGITS {
      StripKeepsValue(d, scale);
      StripIsShort(d, scale);
      Pow10Grows(n, 10);
      OneIsPow10();
    } else {
      var k := n - NORM_DIGITS;
      LeadingDigits(d, k);
      HalfUpIsNearest(d, Pow10(k));
      TenDigits(d, k);
      StripKeepsValue(HalfUp(d, Pow10(k)), scale - k);
      StripIsShort(HalfUp(d, Pow10(k)), scale - k);
      PowerEndsInZero(9);
    }
  }

  lemma OneIsPow10()
    ensures Pow10(0) == 1
  {
  }

  lemma PowerEndsInZero(k: nat)
    ensures Pow10(k + 1) % 10 == 0
  {
    var p := Pow10(k);
    assert Pow10(k + 1) == 10 * p;
    TimesTen(p);
  }

  lemma TimesTen(p: nat)
    ensures 10 * p % 10 == 0
  {
  }

  lemma {:induction false} StripIsShort(m: nat, scale: int)
    requires m > 0
    ensures Strip(m, scale).0 <= m
    decreases m
  {
    if m % 10 == 0 { StripIsShort(m / 10, scale - 1); }
  }

  lemma TenDigits(d: nat, k: nat)
    requires Pow10(k + 9) <= d < Pow10(k + 10)
    ensures Pow10(9) <= HalfUp(d, Pow10(k)) <= Pow10(10)
  {
    var p := Pow10(k);
    Pow10Adds(9, k);
    Pow10Adds(10, k);
    QuotientBetween(d, p, Pow10(9), Pow10(10));
  }

  lemma {:induction false} QuotientBetween(d: nat, p: nat, low: nat, high: nat)
    requires p > 0 && low * p <= d < high * p
    ensures low <= d / p < high
  {
    var q := d / p;
    assert d == q * p + d % p;
    if q < low {
      Apart(q, low, p);
    } else if q >= high {
      MulMonotone(high, q, p);
    }
  }

  lemma {:induction false} MulMonotone(a: nat, b: nat, p: nat)
    requires a <= b
    ensures a * p <= b * p
  {
    if a < b { Apart(a, b, p); }
  }

  // Equal numbers have one text

  lemma HalfUpScales(d: nat, p: nat)
    requires p > 0
    ensures HalfUp(10 * d, 10 * p) == HalfUp(d, p)
  {
    hide HalfUp;
    var q := HalfUp(d, p);
    HalfUpIsNearest(d, p);
    assert q * (10 * p) == 10 * (q * p);
    NearestIsHalfUp(10 * d, 10 * p, q);
  }

  lemma TenTimes(d: nat)
    requires d > 0
    ensures Digits(10 * d) == Digits(d) + "0"
  {
  }

  lemma HalfUpOfTen(d: nat)
    ensures HalfUp(10 * d, Pow10(1)) == d
  {
    assert Pow10(1) == 10 * Pow10(0) == 10;
  }

  lemma NormalScales(d: nat, scale: int)
    requires d > 0
    ensures Normal(10 * d, scale + 1) == Normal(d, scale)
  {
    hide HalfUp, Digits;
    TenTimes(d);
    var n := |Digits(d)|;
    if n == NORM_DIGITS {
      HalfUpOfTen(d);
    } else if n > NORM_DIGITS {
      HalfUpScales(d, Pow10(n - NORM_DIGITS));
    }
  }

  /** The normal form depends on the value alone: the same number over more decimal places has it too. */
  lemma {:induction false} NormalOfValue(d: nat, scale: int, j: nat)
    requires d > 0
    ensures d * Pow10(j) > 0 && Normal(d * Pow10(j), scale + j) == Normal(d, scale)
  {
    hide Normal;
    if j == 0 {
      assert d * Pow10(0) == d;
    } else {
      NormalOfValue(d, scale, j - 1);
      var x := d * Pow10(j - 1);
      assert d * Pow10(j) == 10 * x;
      NormalScales(x, scale + (j - 1));
    }
  }

  lemma NormalIsNormal(d: nat, scale: int)
    requires d > 0
    ensures var (m, e) := Normal(d, scale);
            m > 0 && Normal(m, e) == (m, e)
  {
    hide Normal, Digits, Pow10;
    var (m, e) := Normal(d, scale);
    RoundsHalfUp(d, scale);
    ShortIsNormal(m, e);
  }

  lemma ShortIsNormal(m: nat, e: int)
    requires 0 < m < Pow10(10) && m % 10 != 0
    ensures Normal(m, e) == (m, e)
  {
    hide Digits, Pow10;
    SignificantDigits(m);
    var n := |Digits(m)|;
    if n > 10 { Pow10Grows(10, n - 1); }
  }

  // Reading the text back

  lemma {:induction false} DigitRunStops(a: string, rest: string)
    requires AllDigits(a) && (rest == "" || !IsDigit(rest[0]))
    ensures DigitRun(a + rest) == |a|
  {
    if a == "" {
      assert a + rest == rest;
    } else {
      DigitRunStops(a[1..], rest);
      assert (a + rest)[1..] == a[1..] + rest;
    }
  }

  /** A sign, digits, and perhaps a point and more digits. */
  function Spelt(negative: bool, whole: string, fraction: string): string {
    (if negative then "-" else "") + (whole + if fraction == "" then "" else "." + fraction)
  }

  lemma SpeltIsRead(negative: bool, whole: string, fraction: string)
    requires AllDigits(whole) && whole != "" && AllDigits(fraction)
    ensures ParseLiteral(Spelt(negative, whole, fraction))
            == Some(Literal(negative, whole + fraction, |fraction|, 0))
  {
    hide DigitRun, Fraction, ParseExponent, AllDigits, DigitsValue;
    hide SkipSign, IsSign;
    FirstIsDigit(whole);
    var s := Spelt(negative, whole, fraction);
    var tail := if fraction == "" then "" else "." + fraction;
    var t := whole + tail;
    SignIsRead(negative, t);
    DigitRunStops(whole, tail);
    assert t[..|whole|] == whole && t[|whole|..] == tail;
    TailIsRead(fraction);
  }

  lemma SignIsRead(negative: bool, t: string)
    requires t != "" && IsDigit(t[0])
    ensures var s := (if negative then "-" else "") + t;
            SkipSign(s) == t && ((IsSign(s) && s[0] == '-') <==> negative)
  {
    if negative {
      assert ("-" + t)[1..] == t;
    } else {
      assert "" + t == t;
    }
  }

  lemma FirstIsDigit(s: string)
    requires AllDigits(s) && s != ""
    ensures IsDigit(s[0])
  {
  }

  lemma TailIsRead(fraction: string)
    requires AllDigits(fraction)
    ensures Fraction(if fraction == "" then "" else "." + fraction) == (fraction, "") && ParseExponent("") == Some(0)
  {
    if fraction != "" {
      var u := ("." + fraction)[1..];
      assert u == fraction == fraction + "";
      DigitRunStops(fraction, "");
    }
  }

  /** The digits of Show before and after its point. */
  function Parts(m: nat, scale: int): (r: (string, string))
    ensures AllDigits(r.0) && r.0 != "" && AllDigits(r.1)
  {
    var d := Digits(m);
    if scale <= 0 then (d + Zeros(-scale), "")
    else if |d| > scale then (d[..|d| - scale], d[|d| - scale..])
    else ("0", Zeros(scale - |d|) + d)
  }

  lemma ShowIsSpelt(negative: bool, m: nat, scale: int)
    ensures Spelt(negative, Parts(m, scale).0, Parts(m, scale).1) == (if negative then "-" else "") + Show(m, scale)
  {
    hide Digits;
    var (whole, fraction) := Parts(m, scale);
    if scale <= 0 {
      assert whole + "" == whole;
    } else {
      assert whole + ("." + fraction) == Show(m, scale);
    }
  }

  lemma PartsSpell(m: nat, scale: int)
    ensures var (whole, fraction) := Parts(m, scale);
            && |fraction| == (if scale <= 0 then 0 else scale)
            && AllDigits(whole + fraction)
            && DigitsValue(whole + fraction) == if scale <= 0 then m * Pow10(-scale) else m
  {
    hide Digits, DigitsValue, Pow10;
    var (whole, fraction) := Parts(m, scale);
    var d := Digits(m);
    DigitsRoundTrip(m);
    if scale <= 0 {
      ZerosValue(-scale);
      DigitsValueAppend(d, Zeros(-scale));
      assert whole + "" == whole;
    } else if |d| > scale {
      assert whole + fraction == d;
    } else {
      LeadingZeros(scale - |d|, d);
    }
  }

  /** What plain notation spells: the number, over as many decimal places as it has. */
  lemma {:induction false} ShowIsRead(negative: bool, m: nat, scale: int)
    ensures var l := ParseLiteral((if negative then "-" else "") + Show(m, scale));
            && l.Some? && l.value.negative == negative && l.value.exponent == 0
            && l.value.fraction == (if scale <= 0 then 0 else scale)
            && DigitsValue(l.value.digits) == if scale <= 0 then m * Pow10(-scale) else m
  {
    hide ParseLiteral, DigitsValue, Parts, Pow10, Show, Spelt;
    ShowIsSpelt(negative, m, scale);
    PartsSpell(m, scale);
    SpeltIsRead(negative, Parts(m, scale).0, Parts(m, scale).1);
  }

  lemma LeadingZeros(n: nat, d: string)
    requires AllDigits(d)
    ensures AllDigits("0" + (Zeros(n) + d)) && DigitsValue("0" + (Zeros(n) + d)) == DigitsValue(d)
  {
    hide DigitsValue, Pow10;
    assert "0" + (Zeros(n) + d) == Zeros(n + 1) + d;
    ZerosValue(n + 1);
    DigitsValueAppend(Zeros(n + 1), d);
  }

  // What plain_number promises

  /** The value, as far as its size goes, in units of ten to the minus `places`. */
  ghost predicate HasSize(l: Literal, units: nat, places: int)
    requires AllDigits(l.digits)
  {
    var scale := l.fraction - l.exponent;
    scale <= places && units == DigitsValue(l.digits) * Pow10(places - scale)
  }

  /** Two literals of the same value: over some common number of decimal places they count the same units,
      and unless that is none they have the same sign. */
  ghost predicate SameValue(a: Literal, b: Literal)
    requires AllDigits(a.digits) && AllDigits(b.digits)
  {
    && (exists units: nat, places: int :: HasSize(a, units, places) && HasSize(b, units, places))
    && (a.negative == b.negative || DigitsValue(a.digits) == 0)
  }

  lemma {:induction false} SizeIsNormal(l: Literal, units: nat, places: int)
    requires AllDigits(l.digits) && HasSize(l, units, places)
    ensures DigitsValue(l.digits) == 0 <==> units == 0
    ensures units > 0 ==> Normal(units, places) == Normal(DigitsValue(l.digits), l.fraction - l.exponent)
  {
    hide Normal, DigitsValue, Pow10;
    var (d, scale) := (DigitsValue(l.digits), l.fraction - l.exponent);
    if d > 0 { NormalOfValue(d, scale, places - scale); }
  }

  /** Literals of equal value have one text. */
  lemma {:induction false} EqualValuesOneText(a: Literal, b: Literal)
    requires AllDigits(a.digits) && AllDigits(b.digits) && SameValue(a, b)
    ensures TextOf(a) == TextOf(b)
  {
    hide Normal, DigitsValue, HasSize, Show;
    var units: nat, places: int :| HasSize(a, units, places) && HasSize(b, units, places);
    SizeIsNormal(a, units, places);
    SizeIsNormal(b, units, places);
  }

  /** The text read back is a literal of the rounded value: its own normal form is the text again. */
  lemma TextIsStable(l: Literal)
    requires AllDigits(l.digits)
    ensures Plain(TextOf(l)) == Some(TextOf(l))
  {
    hide Normal, ParseLiteral, DigitsValue, Show, Pow10;
    var d := DigitsValue(l.digits);
    if d == 0 {
      ZeroIsRead();
    } else {
      var (m, scale) := Normal(d, l.fraction - l.exponent);
      NormalIsNormal(d, l.fraction - l.exponent);
      ShowIsRead(l.negative, m, scale);
      if scale <= 0 {
        NormalOfValue(m, scale, -scale);
      }
    }
  }

  lemma ZeroIsRead()
    ensures Plain("0") == Some("0")
  {
    SpeltIsRead(false, "0", "");
    assert Spelt(false, "0", "") == "0";
    assert "0" + "" == "0";
    assert DigitsValue("0") == 10 * DigitsValue("0"[..0]) + 0;
  }

  /** And different texts are different rounded values. */
  lemma OneTextEqualValues(a: Literal, b: Literal)
    requires AllDigits(a.digits) && AllDigits(b.digits) && TextOf(a) == TextOf(b)
    ensures DigitsValue(a.digits) == 0 <==> DigitsValue(b.digits) == 0
    ensures DigitsValue(a.digits) > 0 ==>
              a.negative == b.negative
              && Normal(DigitsValue(a.digits), a.fraction - a.exponent)
                 == Normal(DigitsValue(b.digits), b.fraction - b.exponent)
  {
    hide Normal, ParseLiteral, DigitsValue, Show, Pow10;
    TextTells(a);
    TextTells(b);
  }

  /** The rounded value a text stands for: nothing for zero. */
  function Reading(s: string): Option<(bool, nat, int)> {
    var l := ParseLiteral(s);
    if l.None? || DigitsValue(l.value.digits) == 0 then None
    else
      var (m, e) := Normal(DigitsValue(l.value.digits), l.value.fraction - l.value.exponent);
      Some((l.value.negative, m, e))
  }

  lemma {:induction false} TextTells(l: Literal)
    requires AllDigits(l.digits)
    ensures var d := DigitsValue(l.digits);
            if d == 0 then Reading(TextOf(l)) == None
            else
              var (m, e) := Normal(d, l.fraction - l.exponent);
              Reading(TextOf(l)) == Some((l.negative, m, e))
  {
    hide Normal, ParseLiteral, DigitsValue, Show, Pow10;
    var d := DigitsValue(l.digits);
    if d == 0 {
      NothingToRead();
    } else {
      var (m, scale) := Normal(d, l.fraction - l.exponent);
      NormalIsNormal(d, l.fraction - l.exponent);
      ShowIsRead(l.negative, m, scale);
      if scale <= 0 { NormalOfValue(m, scale, -scale); }
    }
  }

  lemma NothingToRead()
    ensures Reading("0") == None
  {
    SpeltIsRead(false, "0", "");
    assert Spelt(false, "0", "") == "0";
    assert "0" + "" == "0";
    assert DigitsValue("0") == 10 * DigitsValue("0"[..0]) + 0;
  }
}
