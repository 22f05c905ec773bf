/** plain_number and norm as the suites run them: digits in an array, rounded and carried in place
    (test/suites.c). */
module DecimalDigits {
  import opened Text
  import opened Decimal

  predicate AllNines(s: string) {
    forall i :: 0 <= i < |s| ==> s[i] == '9'
  }

  lemma {:induction false} NinesValue(s: string)
    requires AllNines(s)
    ensures DigitsValue(s) + 1 == Pow10(|s|)
  {
    if s != "" { NinesValue(s[..|s| - 1]); }
  }

  /** A carry into a digit below nine, with nines behind it. */
  lemma CarryValue(front: string, c: char, nines: string)
    requires AllDigits(front) && '0' <= c < '9' && AllNines(nines)
    ensures var up := front + [(c as int + 1) as char] + Zeros(|nines|);
            AllDigits(up) && AllDigits(front + [c] + nines)
            && DigitsValue(up) == DigitsValue(front + [c] + nines) + 1
  {
    hide DigitsValue, Pow10;
    var next := (c as int + 1) as char;
    NinesValue(nines);
    ZerosValue(|nines|);
    DigitsValueAppend(front + [next], Zeros(|nines|));
    DigitsValueAppend(front + [c], nines);
    LastDigit(front, next);
    LastDigit(front, c);
    var (x, p) := (DigitsValue(front + [c]), Pow10(|nines|));
    assert (x + 1) * p == x * p + p;
  }

  /** The nines at the end turned to zeros; what is left in front of them is untouched. */
  method CarryBack(digits: array<char>, start: nat, n: nat) returns (k: nat)
    requires start + n <= digits.Length
    modifies digits
    ensures k <= n
    ensures var was := old(digits[start..start + n]);
            && digits[start..start + n] == was[..k] + Zeros(n - k)
            && AllNines(was[k..]) && (k > 0 ==> was[k - 1] != '9')
  {
    ghost var was := digits[start..start + n];
    k := n;
    assert was[..n] == was && was[n..] == "";
    while k > 0 && digits[start + k - 1] == '9'
      invariant 0 <= k <= n
      invariant digits[start..start + k] == was[..k]
      invariant digits[start + k..start + n] == Zeros(n - k)
      invariant AllNines(was[k..])
    {
      assert was[..k][k - 1] == '9';
      digits[start + k - 1] := '0';
      k := k - 1;
      assert was[..k + 1][..k] == was[..k];
      assert was[k..] == ['9'] + was[k + 1..];
    }
    assert k > 0 ==> was[k - 1] == was[..k][k - 1];
    assert digits[start..start + n] == digits[start..start + k] + digits[start + k..start + n];
  }

  /** Adding one in the last place, the carry going back over nines: when every digit was a nine, a one
      and zeros are left, and it is a power of ten one digit longer. */
  method RoundUp(digits: array<char>, start: nat, n: nat) returns (longer: bool)
    requires n > 0 && start + n <= digits.Length
    requires AllDigits(digits[start..start + n]) && digits[start] != '0'
    modifies digits
    ensures longer == AllNines(old(digits[start..start + n]))
    ensures Rounded(old(digits[start..start + n]), digits[start..start + n])
  {
    hide DigitsValue, Pow10;
    ghost var was := digits[start..start + n];
    var k := CarryBack(digits, start, n);
    ghost var now := digits[start..start + n];
    if k > 0 {
      var c := digits[start + k - 1];
      assert c == now[k - 1] == was[k - 1];
      digits[start + k - 1] := (c as int + 1) as char;
      assert digits[start..start + n] == was[..k - 1] + [(c as int + 1) as char] + Zeros(n - k);
      CarriedOnce(was, k);
      longer := false;
    } else {
      digits[start] := '1';
      assert was[0..] == was;
      assert digits[start..start + n] == "1" + Zeros(n - 1);
      longer := true;
    }
  }

  /** One more in the last place. */
  predicate Rounded(was: string, now: string) {
    && |now| == |was| > 0 && AllDigits(was) && AllDigits(now) && now[0] != '0'
    && (if AllNines(was) then now == "1" + Zeros(|was| - 1) else DigitsValue(now) == DigitsValue(was) + 1)
  }

  lemma CarriedOnce(was: string, k: nat)
    requires 0 < k <= |was| && AllDigits(was) && was[0] != '0' && was[k - 1] != '9' && AllNines(was[k..])
    ensures Rounded(was, was[..k - 1] + [(was[k - 1] as int + 1) as char] + Zeros(|was| - k))
  {
    hide DigitsValue, Pow10;
    assert was == was[..k - 1] + [was[k - 1]] + was[k..];
    CarryValue(was[..k - 1], was[k - 1], was[k..]);
  }

  lemma {:induction false} DivMod(v: nat, a: nat, p: nat, b: nat)
    requires p > 0 && v == a * p + b && b < p
    ensures v / p == a && v % p == b
  {
    QuotientBetween(v, p, a, a + 1);
  }

  lemma HalfIsSeen(b: string)
    requires AllDigits(b) && b != ""
    ensures 2 * DigitsValue(b) >= Pow10(|b|) <==> b[0] >= '5'
  {
    hide DigitsValue, Pow10;
    assert b == [b[0]] + b[1..];
    DigitsValueAppend([b[0]], b[1..]);
    LastDigit("", b[0]);
    NoDigits();
    assert "" + [b[0]] == [b[0]];
    DigitsValueBound(b[1..]);
    TenMore(|b| - 1);
    HalfOfTen(b[0] as int - '0' as int, Pow10(|b| - 1), DigitsValue(b[1..]));
  }

  lemma HalfOfTen(c: nat, p: nat, r: nat)
    requires c < 10 && r < p
    ensures 2 * (c * p + r) >= 10 * p <==> c >= 5
  {
    if c >= 5 {
      MulMonotone(5, c, p);
    } else {
      MulMonotone(c, 4, p);
    }
  }

  lemma TenMore(k: nat)
    ensures Pow10(k + 1) == 10 * Pow10(k)
  {
  }

  /** The digits past the tenth decide the rounding by the first of them. */
  lemma {:induction false} RoundingDigit(s: string)
    requires AllDigits(s) && |s| > NORM_DIGITS
    ensures HalfUp(DigitsValue(s), Pow10(|s| - NORM_DIGITS))
            == DigitsValue(s[..NORM_DIGITS]) + if s[NORM_DIGITS] >= '5' then 1 else 0
  {
    hide DigitsValue, Pow10;
    var (a, b) := (s[..NORM_DIGITS], s[NORM_DIGITS..]);
    assert s == a + b;
    DigitsValueAppend(a, b);
    DigitsValueBound(b);
    HalfIsSeen(b);
    DivMod(DigitsValue(s), DigitsValue(a), Pow10(|b|), DigitsValue(b));
  }

  lemma OneAndZeros()
    ensures AllDigits("1" + Zeros(9)) && DigitsValue("1" + Zeros(9)) == Pow10(9)
  {
    hide DigitsValue, Pow10;
    DigitsValueAppend("1", Zeros(9));
    ZerosValue(9);
    LastDigit("", '1');
    NoDigits();
    assert "" + ['1'] == "1";
    assert 1 * Pow10(9) == Pow10(9);
  }

  /** Ten nines rounded up: a one and nine zeros, one decimal place fewer. */
  lemma OverflowStrips(scale: int)
    ensures Strip(Pow10(10), scale) == Strip(Pow10(9), scale - 1)
  {
    hide Pow10;
    TenMore(9);
    assert Pow10(10) % 10 == 0 && Pow10(10) / 10 == Pow10(9);
  }

  /** What rounding to ten digits leaves, with or without the carry off the end. */
  lemma RoundedStrips(s: string, kept: string, scale: int)
    requires AllDigits(s) && |s| > NORM_DIGITS && s[0] != '0'
    requires if s[NORM_DIGITS] >= '5' then Rounded(s[..NORM_DIGITS], kept) else kept == s[..NORM_DIGITS]
    ensures AllDigits(kept) && kept != "" && kept[0] != '0'
    ensures DigitsValue(s) > 0 && DigitsValue(kept) > 0
    ensures var longer := s[NORM_DIGITS] >= '5' && AllNines(s[..NORM_DIGITS]);
            Strip(DigitsValue(kept), scale - (|s| - NORM_DIGITS) - if longer then 1 else 0)
            == Normal(DigitsValue(s), scale)
  {
    hide DigitsValue, Pow10, HalfUp, Strip, Digits;
    DigitsOfValue(s);
    RoundingDigit(s);
    LeadingDigits(DigitsValue(s), |s| - NORM_DIGITS);
    HalfUpPositive(DigitsValue(s), Pow10(|s| - NORM_DIGITS));
    var a := s[..NORM_DIGITS];
    if s[NORM_DIGITS] >= '5' && AllNines(a) {
      NinesValue(a);
      OneAndZeros();
      OverflowStrips(scale - (|s| - NORM_DIGITS));
    }
    DigitsOfValue(kept);
  }

  lemma HalfUpPositive(d: nat, p: nat)
    requires p > 0 && d / p > 0
    ensures HalfUp(d, p) > 0
  {
  }

  /** Digits in place, to ten of them. */
  method ToTenDigits(digits: array<char>, start: nat, count: nat, places: int) returns (n: nat, scale: int)
    requires count > 0 && start + count <= digits.Length
    requires AllDigits(digits[start..start + count]) && digits[start] != '0'
    modifies digits
    ensures 0 < n && start + n <= digits.Length
    ensures var (was, now) := (old(digits[start..start + count]), digits[start..start + n]);
            && AllDigits(now) && now[0] != '0' && DigitsValue(was) > 0 && DigitsValue(now) > 0
            && (if count <= NORM_DIGITS then now == was && scale == places
                else Strip(DigitsValue(now), scale) == Normal(DigitsValue(was), places))
  {
    hide DigitsValue, Pow10, HalfUp, Strip, Digits, Normal, Rounded;
    ghost var was := digits[start..start + count];
    DigitsOfValue(was);
    n, scale := count, places;
    if n > NORM_DIGITS {
      var roundUp := digits[start + NORM_DIGITS] >= '5';
      scale := scale - (n - NORM_DIGITS);
      n := NORM_DIGITS;
      ghost var kept := digits[start..start + n];
      forall i | 0 <= i < n ensures kept[i] == was[i] {}
      assert was[..n] == kept;
      var longer := false;
      if roundUp { longer := RoundUp(digits, start, n); }
      if longer { scale := scale - 1; }
      RoundedStrips(was, digits[start..start + n], places);
    }
  }

  lemma LastIsZero(s: string, scale: int)
    requires AllDigits(s) && s != "" && s[0] != '0'
    ensures DigitsValue(s) > 0
    ensures |s| > 1 && s[|s| - 1] == '0' ==>
              DigitsValue(s[..|s| - 1]) > 0
              && Strip(DigitsValue(s), scale) == Strip(DigitsValue(s[..|s| - 1]), scale - 1)
    ensures !(|s| > 1 && s[|s| - 1] == '0') ==> Strip(DigitsValue(s), scale) == (DigitsValue(s), scale)
    ensures Digits(DigitsValue(s)) == s
  {
    hide Digits;
    DigitsOfValue(s);
    var front := s[..|s| - 1];
    if |s| > 1 {
      DigitsOfValue(front);
    } else {
      NoDigits();
      assert front == "";
    }
  }

  /** Trailing zeros dropped: the digits and the scale of the normal form. */
  method StripZeros(digits: array<char>, start: nat, count: nat, places: int) returns (n: nat, scale: int)
    requires count > 0 && start + count <= digits.Length
    requires AllDigits(digits[start..start + count]) && digits[start] != '0'
    ensures 0 < n <= count
    ensures DigitsValue(digits[start..start + count]) > 0
    ensures var (m, e) := Strip(DigitsValue(digits[start..start + count]), places);
            digits[start..start + n] == Digits(m) && scale == e
  {
    hide DigitsValue, Strip, Digits;
    ghost var s := digits[start..start + count];
    n, scale := count, places;
    LastIsZero(s, scale);
    while n > 1 && digits[start + n - 1] == '0'
      invariant 0 < n <= count
      invariant AllDigits(digits[start..start + n])
      invariant DigitsValue(digits[start..start + n]) > 0
      invariant Strip(DigitsValue(digits[start..start + n]), scale) == Strip(DigitsValue(s), places)
    {
      LastIsZero(digits[start..start + n], scale);
      assert digits[start..start + n][..n - 1] == digits[start..start + n - 1];
      n := n - 1;
      scale := scale - 1;
    }
    LastIsZero(digits[start..start + n], scale);
  }

  lemma RunStep(t: string)
    ensures DigitRun(t) == if t != "" && IsDigit(t[0]) then 1 + DigitRun(t[1..]) else 0
  {
  }

  /** A run of digits copied behind those already there. */
  method CopyDigits(s: string, from: nat, digits: array<char>, count: nat) returns (i: nat, n: nat)
    requires from <= |s| && count <= from && |s| <= digits.Length
    modifies digits
    ensures i == from + DigitRun(s[from..]) && from <= i <= |s| && n == count + (i - from)
    ensures digits[..n] == old(digits[..count]) + s[from..i]
  {
    hide DigitRun, IsDigit;
    i, n := from, count;
    while i < |s| && IsDigit(s[i])
      invariant from <= i <= |s| && n == count + (i - from)
      invariant digits[..n] == old(digits[..count]) + s[from..i]
      invariant DigitRun(s[from..]) == i - from + DigitRun(s[i..])
    {
      RunStep(s[i..]);
      digits[n] := s[i];
      assert s[i..][1..] == s[i + 1..];
      assert s[from..i + 1] == s[from..i] + [s[i]];
      n, i := n + 1, i + 1;
    }
    RunStep(s[i..]);
  }

  /** The digits of an exponent, the sum no longer kept once it is past the largest there is. */
  method ReadExponentDigits(s: string, from: nat) returns (i: nat, exponent: nat)
    requires from <= |s|
    ensures i == from + DigitRun(s[from..]) && i <= |s| && AllDigits(s[from..i])
    ensures DigitsValue(s[from..i]) <= MAX_EXPONENT ==> exponent == DigitsValue(s[from..i])
    ensures DigitsValue(s[from..i]) > MAX_EXPONENT ==> exponent > MAX_EXPONENT
  {
    hide DigitRun, DigitsValue, IsDigit, AllDigits;
    i, exponent := from, 0;
    NoDigits();
    NoneAreDigits();
    assert s[from..from] == "";
    while i < |s| && IsDigit(s[i])
      invariant from <= i <= |s| && AllDigits(s[from..i])
      invariant DigitRun(s[from..]) == i - from + DigitRun(s[i..])
      invariant DigitsValue(s[from..i]) <= MAX_EXPONENT ==> exponent == DigitsValue(s[from..i])
      invariant DigitsValue(s[from..i]) > MAX_EXPONENT ==> exponent > MAX_EXPONENT
    {
      RunStep(s[i..]);
      LastDigit(s[from..i], s[i]);
      DigitIsSmall(s[i]);
      assert s[from..i + 1] == s[from..i] + [s[i]];
      assert s[i..][1..] == s[i + 1..];
      if exponent <= MAX_EXPONENT { exponent := exponent * 10 + (s[i] as int - '0' as int); }
      i := i + 1;
    }
    RunStep(s[i..]);
  }

  lemma DigitIsSmall(c: char)
    requires IsDigit(c)
    ensures '0' <= c <= '9'
  {
  }

  lemma NoneAreDigits()
    ensures AllDigits("")
  {
  }

  /** The exponent part, to the end. */
  method ReadExponent(s: string, from: nat) returns (r: Option<int>)
    requires from <= |s|
    ensures r == ParseExponent(s[from..])
  {
    hide DigitsValue, DigitRun;
    var i := from;
    if i < |s| && (s[i] == 'e' || s[i] == 'E') {
      i := i + 1;
      assert s[from..][1..] == s[i..];
      var negative := false;
      if i < |s| && (s[i] == '+' || s[i] == '-') {
        negative := s[i] == '-';
        i := i + 1;
        assert s[i - 1..][1..] == s[i..];
      }
      assert s[i..] == SkipSign(s[from..][1..]);
      var end, exponent := ReadExponentDigits(s, i);
      assert s[i..end] == s[i..][..end - i];
      if end == i || exponent > MAX_EXPONENT || end != |s| { return None; }
      return Some(if negative then 0 - exponent else exponent);
    }
    return if i == |s| then Some(0) else None;
  }

  /** The digits before and after a point, one after the other in the array. */
  method ReadDigits(s: string, from: nat, digits: array<char>) returns (i: nat, count: nat, places: nat)
    requires from <= |s| <= digits.Length
    modifies digits
    ensures i <= |s| && count <= digits.Length
    ensures var n := DigitRun(s[from..]);
            var (fraction, rest) := Fraction(s[from..][n..]);
            && digits[..count] == s[from..][..n] + fraction && s[i..] == rest && places == |fraction|
  {
    hide DigitRun, AllDigits, IsDigit, Fraction;
    i, count := CopyDigits(s, from, digits, 0);
    Between(s, from, i);
    ghost var (whole, rest) := (s[from..i], s[i..]);
    FractionIs(rest);
    assert digits[..0] == "" && digits[..count] == "" + whole == whole;
    places := 0;
    if i < |s| && s[i] == '.' {
      ghost var point := i + 1;
      Between(s, i, point);
      var n;
      i, n := CopyDigits(s, i + 1, digits, count);
      places, count := n - count, n;
      Between(s, point, i);
      assert Fraction(rest) == (s[point..i], s[i..]);
      assert digits[..count] == whole + s[point..i];
    } else {
      assert Fraction(rest) == ("", rest);
      assert whole + "" == whole;
    }
  }

  lemma FractionIs(t: string)
    ensures Fraction(t) == if t != "" && t[0] == '.' then
                             (t[1..][..DigitRun(t[1..])], t[1..][DigitRun(t[1..])..])
                           else ("", t)
  {
    hide DigitRun;
  }

  lemma Between(s: string, from: nat, to: nat)
    requires from <= to <= |s|
    ensures s[from..][..to - from] == s[from..to] && s[from..][to - from..] == s[to..]
  {
  }

  /** The literal's own part of plain_number: its sign, its digits, and what they are over, or not a literal. */
  method ReadLiteral(s: string, digits: array<char>) returns (negative: bool, count: nat, scale: int, ok: bool)
    requires |s| <= digits.Length
    modifies digits
    ensures var l := ParseLiteral(s);
            && ok == l.Some?
            && (ok ==> && negative == l.value.negative
                       && count == |l.value.digits| <= digits.Length && digits[..count] == l.value.digits
                       && scale == l.value.fraction - l.value.exponent)
  {
    hide DigitsValue, DigitRun, ParseExponent, Fraction;
    var i := 0;
    negative := false;
    if i < |s| && (s[i] == '+' || s[i] == '-') {
      negative := s[i] == '-';
      i := i + 1;
    }
    assert s[i..] == SkipSign(s);
    count, scale, ok := 0, 0, false;
    var places;
    i, count, places := ReadDigits(s, i, digits);
    if count == 0 { return; }
    var exponent := ReadExponent(s, i);
    if exponent.None? { return; }
    scale, ok := places - exponent.value, true;
  }

  method AppendZeros(out: string, n: nat) returns (r: string)
    ensures r == out + Zeros(n)
  {
    r := out;
    var z := 0;
    while z < n
      invariant 0 <= z <= n
      invariant r == out + Zeros(z)
    {
      r := r + "0";
      z := z + 1;
    }
  }

  /** Plain notation put together from the digits. */
  method WritePlain(negative: bool, d: string, scale: int) returns (out: string)
    requires d != ""
    ensures out == (if negative then "-" else "") + ShowDigits(d, scale)
  {
    hide Zeros;
    var sign := if negative then "-" else "";
    if scale <= 0 {
      out := AppendZeros(sign + d, -scale);
      Join(sign, d, Zeros(-scale), "");
    } else if |d| > scale {
      var point := |d| - scale;
      out := sign + d[..point] + "." + d[point..];
      Join(sign, d[..point], ".", d[point..]);
    } else {
      out := AppendZeros(sign + "0.", scale - |d|);
      out := out + d;
      Join(sign, "0.", Zeros(scale - |d|), d);
    }
  }

  lemma Join(a: string, b: string, c: string, d: string)
    ensures a + b + c + d == a + (b + c + d)
    ensures a + b + c == a + (b + c)
  {
  }

  /** The text of the digits in the array: rounded, carried and stripped where they are. */
  method WriteNormal(digits: array<char>, count: nat, negative: bool, places: int) returns (out: string)
    requires count <= digits.Length && AllDigits(digits[..count])
    modifies digits
    ensures var d := DigitsValue(old(digits[..count]));
            if d == 0 then out == "0"
            else
              var (m, e) := Normal(d, places);
              out == (if negative then "-" else "") + Show(m, e)
  {
    hide DigitsValue, Normal, Strip, Digits, Pow10;
    ghost var was := digits[..count];
    var start := 0;
    while start < count && digits[start] == '0'
      invariant 0 <= start <= count
      invariant was[..start] == Zeros(start)
    {
      start := start + 1;
    }
    ZerosInFront(was, start);
    if start == count { return "0"; }
    assert digits[start..count] == was[start..];
    NormalOfFew(was[start..], places);
    var n, scale := ToTenDigits(digits, start, count - start, places);
    n, scale := StripZeros(digits, start, n, scale);
    out := WritePlain(negative, digits[start..start + n], scale);
  }

  /** plain_number. */
  method PlainNumber(s: string) returns (r: Option<string>)
    ensures r == Plain(s)
  {
    hide DigitsValue, Normal, ParseLiteral, Show;
    var digits := new char[|s| + 1];
    var negative, count, scale, ok := ReadLiteral(s, digits);
    if !ok { return None; }
    var out := WriteNormal(digits, count, negative, scale);
    return Some(out);
  }

  lemma ZerosInFront(s: string, start: nat)
    requires start <= |s| && AllDigits(s) && s[..start] == Zeros(start)
    ensures DigitsValue(s[start..]) == DigitsValue(s)
    ensures start == |s| ==> DigitsValue(s) == 0
  {
    hide DigitsValue, Pow10;
    assert s == s[..start] + s[start..];
    ZerosValue(start);
    DigitsValueAppend(s[..start], s[start..]);
    if start == |s| { NoDigits(); }
  }

  lemma {:induction false} NormalOfFew(s: string, scale: int)
    requires AllDigits(s) && s != "" && s[0] != '0'
    ensures DigitsValue(s) > 0
    ensures |s| <= NORM_DIGITS ==> Normal(DigitsValue(s), scale) == Strip(DigitsValue(s), scale)
  {
    hide DigitsValue, Strip, Digits;
    DigitsOfValue(s);
  }
}
