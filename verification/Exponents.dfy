/** Which texts are numbers, part by part, and that an exponent is so many places further left or right
    (test/suites.c). */
module Exponents {
  import opened Text
  import opened Decimal

  /** A number as it is spelt: a sign, digits, a point with more digits, and an exponent. */
  datatype Spelling = Spelling(
    sign: string, whole: string, point: bool, fraction: string, mark: string, way: string, places: string)
  {
    predicate Good() {
      && (sign == "" || sign == "+" || sign == "-")
      && AllDigits(whole) && AllDigits(fraction) && whole + fraction != "" && (!point ==> fraction == "")
      && (mark == "" ==> way == "" && places == "")
      && (mark != "" ==>
            && (mark == "e" || mark == "E") && (way == "" || way == "+" || way == "-")
            && places != "" && AllDigits(places) && DigitsValue(places) <= 100000)
    }

    function Front(): string {
      whole + if point then "." + fraction else ""
    }

    function Back(): string {
      mark + (way + places)
    }

    function Text(): string {
      sign + (Front() + Back())
    }

    function Exponent(): int
      requires Good()
    {
      if mark == "" then 0 else if way == "-" then 0 - DigitsValue(places) else DigitsValue(places)
    }

    function Value(): Literal
      requires Good()
    {
      Literal(sign == "-", whole + fraction, |fraction|, Exponent())
    }
  }

  lemma StopsDigits(p: Spelling)
    requires p.Good()
    ensures p.Back() == "" || (!IsDigit(p.Back()[0]) && p.Back()[0] != '.')
  {
  }

  lemma FractionIs(t: string)
    ensures Fraction(t) == if t != "" && t[0] == '.' then
                             (t[1..][..DigitRun(t[1..])], t[1..][DigitRun(t[1..])..])
                           else ("", t)
  {
    hide DigitRun;
  }

  lemma PointIsRead(fraction: string, rest: string)
    requires AllDigits(fraction) && (rest == "" || !IsDigit(rest[0]))
    ensures Fraction("." + (fraction + rest)) == (fraction, rest)
  {
    hide DigitRun, Fraction, AllDigits, IsDigit;
    var t := "." + (fraction + rest);
    FractionIs(t);
    assert t[1..] == fraction + rest;
    DigitRunStops(fraction, rest);
    assert (fraction + rest)[..|fraction|] == fraction && (fraction + rest)[|fraction|..] == rest;
  }

  lemma FrontIsRead(p: Spelling)
    requires p.Good()
    ensures var t := p.Front() + p.Back();
            && DigitRun(t) == |p.whole| && t[..|p.whole|] == p.whole
            && Fraction(t[|p.whole|..]) == (p.fraction, p.Back())
  {
    hide DigitRun, AllDigits, IsDigit, Fraction, DigitsValue;
    var b := p.Back();
    StopsDigits(p);
    var after := if p.point then "." + (p.fraction + b) else b;
    assert p.Front() + b == p.whole + after;
    NoDigitThere(p.point, after, b);
    DigitRunStops(p.whole, after);
    assert (p.whole + after)[..|p.whole|] == p.whole && (p.whole + after)[|p.whole|..] == after;
    if p.point { PointIsRead(p.fraction, b); } else { FractionIs(after); }
  }

  lemma NoDigitThere(point: bool, after: string, b: string)
    requires if point then after != "" && after[0] == '.' else after == b
    requires b == "" || !IsDigit(b[0])
    ensures after == "" || !IsDigit(after[0])
  {
  }

  lemma SignedIsSkipped(sign: string, t: string)
    requires sign == "" || sign == "+" || sign == "-"
    requires t == "" || (t[0] != '+' && t[0] != '-')
    ensures SkipSign(sign + t) == t && ((IsSign(sign + t) && (sign + t)[0] == '-') <==> sign == "-")
  {
    if sign == "" { assert sign + t == t; } else { assert (sign + t)[1..] == t; }
  }

  lemma BackIsRead(p: Spelling)
    requires p.Good()
    ensures ParseExponent(p.Back()) == Some(p.Exponent())
  {
    hide DigitRun, DigitsValue;
    var b := p.Back();
    if p.mark != "" {
      assert b[1..] == p.way + p.places;
      FirstIsDigit(p.places);
      SignedIsSkipped(p.way, p.places);
      DigitRunStops(p.places, "");
      assert p.places + "" == p.places;
      assert p.places[..|p.places|] == p.places;
    }
  }

  lemma FrontIsUnsigned(p: Spelling)
    requires p.Good()
    ensures var t := p.Front() + p.Back(); t != "" && t[0] != '+' && t[0] != '-'
  {
    if p.whole != "" { FirstIsDigit(p.whole); }
  }

  /** Every such text is read as what it spells. */
  lemma {:induction false} SpellingIsRead(p: Spelling)
    requires p.Good()
    ensures ParseLiteral(p.Text()) == Some(p.Value())
  {
    hide DigitRun, Fraction, ParseExponent, AllDigits, DigitsValue, SkipSign, IsSign;
    var t := p.Front() + p.Back();
    FrontIsUnsigned(p);
    SignedIsSkipped(p.sign, t);
    FrontIsRead(p);
    BackIsRead(p);
  }

  lemma SignTaken(t: string) returns (sign: string)
    ensures (sign == "" || sign == "+" || sign == "-") && t == sign + SkipSign(t)
  {
    sign := if IsSign(t) then t[..1] else "";
  }

  lemma BackIsSpelt(t: string) returns (mark: string, way: string, places: string)
    requires ParseExponent(t).Some?
    ensures t == mark + (way + places)
    ensures mark == "" ==> way == "" && places == ""
    ensures mark != "" ==>
              && (mark == "e" || mark == "E") && (way == "" || way == "+" || way == "-")
              && places != "" && AllDigits(places) && DigitsValue(places) <= 100000
  {
    hide DigitRun, DigitsValue;
    if t == "" {
      mark, way, places := "", "", "";
    } else {
      mark := t[..1];
      way := SignTaken(t[1..]);
      places := SkipSign(t[1..]);
      assert places[..DigitRun(places)] == places;
      assert t == mark + t[1..];
    }
  }

  /** And no other text is read. */
  lemma {:induction false} OnlySpellingsAreRead(s: string) returns (p: Spelling)
    requires ParseLiteral(s).Some?
    ensures p.Good() && p.Text() == s
  {
    hide DigitRun, DigitsValue, ParseExponent, SkipSign, Fraction, AllDigits, Spelling.Text, Spelling.Good;
    var sign := SignTaken(s);
    var t := SkipSign(s);
    var n := DigitRun(t);
    var (whole, after) := (t[..n], t[n..]);
    var (fraction, rest) := Fraction(after);
    var mark, way, places := BackIsSpelt(rest);
    var point := after != "" && after[0] == '.';
    p := Spelling(sign, whole, point, fraction, mark, way, places);
    FrontIsSpelt(after);
    assert t == whole + after;
    assert whole + ((if point then "." + fraction else "") + rest)
           == (whole + if point then "." + fraction else "") + rest;
    GoodAndText(p, s);
  }

  lemma GoodAndText(p: Spelling, s: string)
    requires (p.sign == "" || p.sign == "+" || p.sign == "-") && AllDigits(p.whole) && AllDigits(p.fraction)
    requires p.whole + p.fraction != "" && (!p.point ==> p.fraction == "")
    requires p.mark == "" ==> p.way == "" && p.places == ""
    requires p.mark != "" ==>
               && (p.mark == "e" || p.mark == "E") && (p.way == "" || p.way == "+" || p.way == "-")
               && p.places != "" && AllDigits(p.places) && DigitsValue(p.places) <= 100000
    requires s == p.sign + ((p.whole + if p.point then "." + p.fraction else "") + (p.mark + (p.way + p.places)))
    ensures p.Good() && p.Text() == s
  {
    hide DigitsValue;
  }

  lemma FrontIsSpelt(t: string)
    ensures var (fraction, rest) := Fraction(t);
            && t == (if t != "" && t[0] == '.' then "." + fraction else "") + rest
            && ((t == "" || t[0] != '.') ==> fraction == "")
  {
    hide DigitRun;
  }

  // What an exponent does

  lemma PlainIs(p: Spelling)
    requires p.Good()
    ensures Plain(p.Text()) == Some(TextOf(p.Value()))
  {
    hide ParseLiteral, TextOf;
    SpellingIsRead(p);
  }

  /** Literals of one sign, one value of digits and one scale have one text. */
  lemma SameScale(a: Literal, b: Literal)
    requires AllDigits(a.digits) && AllDigits(b.digits) && DigitsValue(a.digits) == DigitsValue(b.digits)
    requires a.negative == b.negative && a.fraction - a.exponent == b.fraction - b.exponent
    ensures TextOf(a) == TextOf(b)
  {
    hide Normal, DigitsValue, Show;
  }

  lemma ZerosBehind(digits: string, n: nat)
    requires AllDigits(digits)
    ensures AllDigits(digits + Zeros(n)) && DigitsValue(digits + Zeros(n)) == DigitsValue(digits) * Pow10(n)
  {
    hide DigitsValue, Pow10;
    ZerosValue(n);
    DigitsValueAppend(digits, Zeros(n));
  }

  /** Zeros behind the digits are so many places. */
  lemma ZerosAreScale(negative: bool, digits: string, n: nat)
    requires AllDigits(digits)
    ensures AllDigits(digits + Zeros(n))
    ensures TextOf(Literal(negative, digits + Zeros(n), 0, 0)) == TextOf(Literal(negative, digits, 0, n))
  {
    hide DigitsValue, Pow10, TextOf;
    ZerosBehind(digits, n);
    var (a, b) := (Literal(negative, digits + Zeros(n), 0, 0), Literal(negative, digits, 0, n));
    assert HasSize(a, DigitsValue(digits) * Pow10(n), 0) by { OneIsPow10(); }
    assert HasSize(b, DigitsValue(digits) * Pow10(n), 0);
    if DigitsValue(digits) == 0 { assert 0 * Pow10(n) == 0; }
    EqualValuesOneText(a, b);
  }

  predicate IsSignText(sign: string) {
    sign == "" || sign == "+" || sign == "-"
  }

  /** So many places, spelt with any zeros in front. */
  predicate Says(places: string, k: nat) {
    places != "" && AllDigits(places) && DigitsValue(places) == k
  }

  /** An exponent of k moves the point k places to the right: over the digits behind it, and on over zeros. */
  lemma {:induction false} ExponentMovesRight(
      sign: string, whole: string, point: bool, fraction: string, mark: string, way: string, places: string, k: nat)
    requires IsSignText(sign) && AllDigits(whole) && AllDigits(fraction)
    requires whole + fraction != "" && (!point ==> fraction == "")
    requires (mark == "e" || mark == "E") && (way == "" || way == "+") && Says(places, k) && k <= 100000
    ensures var number := sign + (whole + (if point then "." + fraction else "") + (mark + (way + places)));
            Plain(number)
            == Plain(sign + if k >= |fraction| then whole + fraction + Zeros(k - |fraction|)
                            else whole + fraction[..k] + "." + fraction[k..])
  {
    hide DigitsValue, TextOf, Plain, Spelling.Text;
    var p := Spelling(sign, whole, point, fraction, mark, way, places);
    PlainIs(p);
    TextIs(p);
    var digits := whole + fraction;
    if k >= |fraction| {
      var n := k - |fraction|;
      ZerosBehind(digits, n);
      var q := Spelling(sign, digits + Zeros(n), false, "", "", "", "");
      assert digits + Zeros(n) + "" == digits + Zeros(n);
      PlainIs(q);
      TextIs(q);
      ZerosAreScale(sign == "-", digits, n);
      SameScale(p.Value(), Literal(sign == "-", digits, 0, n));
    } else {
      var q := Spelling(sign, whole + fraction[..k], true, fraction[k..], "", "", "");
      assert whole + fraction[..k] + fraction[k..] == digits;
      PlainIs(q);
      TextIs(q);
      SameScale(p.Value(), q.Value());
    }
  }

  lemma TextIs(p: Spelling)
    ensures p.Text() == p.sign + (p.whole + (if p.point then "." + p.fraction else "") + (p.mark + (p.way + p.places)))
    ensures p.mark == "" && p.way == "" && p.places == "" ==>
              p.Text() == p.sign + (p.whole + if p.point then "." + p.fraction else "")
    ensures p.mark == "" && p.way == "" && p.places == "" && p.point ==>
              p.Text() == p.sign + (p.whole + "." + p.fraction)
    ensures p.mark == "" && p.way == "" && p.places == "" && !p.point ==> p.Text() == p.sign + p.whole
  {
    assert p.whole + "" == p.whole;
    var front := p.whole + if p.point then "." + p.fraction else "";
    if p.mark == "" && p.way == "" && p.places == "" {
      assert front + "" == front;
      if p.point { assert front == p.whole + "." + p.fraction; }
    }
  }

  /** An exponent of minus k moves it k places to the left: the same digits with k more behind the point, zeros put
      in front where there are too few. */
  lemma {:induction false} ExponentMovesLeft(
      sign: string, whole: string, point: bool, fraction: string, mark: string, places: string, k: nat)
    requires IsSignText(sign) && AllDigits(whole) && AllDigits(fraction)
    requires whole + fraction != "" && (!point ==> fraction == "")
    requires (mark == "e" || mark == "E") && Says(places, k) && k <= 100000
    ensures var number := sign + (whole + (if point then "." + fraction else "") + (mark + ("-" + places)));
            Plain(number)
            == Plain(sign + if k < |whole| then whole[..|whole| - k] + "." + (whole[|whole| - k..] + fraction)
                            else "0" + "." + (Zeros(k - |whole|) + whole + fraction))
  {
    hide DigitsValue, TextOf, Plain, Spelling.Text;
    var p := Spelling(sign, whole, point, fraction, mark, "-", places);
    PlainIs(p);
    TextIs(p);
    var digits := whole + fraction;
    if k < |whole| {
      var n := |whole| - k;
      var q := Spelling(sign, whole[..n], true, whole[n..] + fraction, "", "", "");
      assert whole[..n] + (whole[n..] + fraction) == digits;
      PlainIs(q);
      TextIs(q);
      SameScale(p.Value(), q.Value());
    } else {
      var n := k - |whole|;
      var q := Spelling(sign, "0", true, Zeros(n) + whole + fraction, "", "", "");
      assert Zeros(n) + whole + fraction == Zeros(n) + digits;
      LeadingZeros(n, digits);
      PlainIs(q);
      TextIs(q);
      SameScale(p.Value(), q.Value());
    }
  }
}
