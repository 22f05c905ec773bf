/** Dates, times and timestamps read from cell text (src/results.c), and that they are what a bound
    parameter's text says (src/execute.c). */
module Temporal {
  import opened Text
  import opened Decimal
  import C = ChunkedBody
  import L = Literals

  /** sscanf's %<width>d: spaces, then a sign and digits within the width. */
  function ScanInt(t: string, width: nat): Option<(int, string)> {
    var u := C.SkipSpace(t);
    var signed := IsSign(u);
    var v := SkipSign(u);
    var room := if signed then width - 1 else width;
    var n := if DigitRun(v) < room then DigitRun(v) else room;
    if n <= 0 then None
    else Some((if signed && u[0] == '-' then 0 - DigitsValue(v[..n]) else DigitsValue(v[..n]), v[n..]))
  }

  /** A separator, and what follows it. */
  function After(t: string, c: char): Option<string> {
    if t != "" && t[0] == c then Some(t[1..]) else None
  }

  /** Three numbers with a separator between them. */
  function ScanThree(t: string, width: nat, c: char): Option<(int, int, int)> {
    var x := ScanInt(t, width);
    if x.None? || After(x.value.1, c).None? then None
    else
      var y := ScanInt(After(x.value.1, c).value, 2);
      if y.None? || After(y.value.1, c).None? then None
      else
        var z := ScanInt(After(y.value.1, c).value, 2);
        if z.None? then None else Some((x.value.0, y.value.0, z.value.0))
  }

  /** The cast to an unsigned 16-bit field. */
  function Unsigned(n: int): nat {
    n % 65536
  }

  /** parse_date_part. */
  function ReadDate(t: string): Option<L.CValue> {
    var r := ScanThree(t, 4, '-');
    if r.None? then None else Some(L.Date(r.value.0, Unsigned(r.value.1), Unsigned(r.value.2)))
  }

  function ReadTime(t: string): Option<L.CValue> {
    var r := ScanThree(t, 2, ':');
    if r.None? then None
    else Some(L.Time(Unsigned(r.value.0), Unsigned(r.value.1), Unsigned(r.value.2)))
  }

  /** Nanoseconds from the digits after a point: nine of them, those missing zeros. */
  function Nanoseconds(t: string): nat {
    var n := if DigitRun(t) < 9 then DigitRun(t) else 9;
    DigitsValue(t[..n]) * Pow10(9 - n)
  }

  /** What parse_time_part finds behind the eight bytes of a time. */
  function ReadFraction(t: string): nat
    requires |t| >= 8
  {
    if |t| > 8 && t[8] == '.' then Nanoseconds(t[9..]) else 0
  }

  /** The parts read are written out in full, so that what follows them is where the code looks for it. */
  predicate InFull(t: string) {
    && (ReadDate(t).Some? ==> |t| >= 10)
    && (ReadDate(t).Some? && |t| > 10 && (t[10] == ' ' || t[10] == 'T') && ReadTime(t[11..]).Some? ==> |t| >= 19)
  }

  /** parse_timestamp; an offset at the end is passed over. */
  function ReadTimestamp(t: string): Option<L.CValue>
    requires InFull(t)
  {
    var date := ReadDate(t);
    if date.None? then None
    else if |t| > 10 && (t[10] == ' ' || t[10] == 'T') then
      var time := ReadTime(t[11..]);
      if time.None? then None else Some(L.Timestamp(date.value, time.value, ReadFraction(t[11..])))
    else Some(L.Timestamp(date.value, L.Time(0, 0, 0), 0))
  }

  // Numbers of a fixed width

  lemma {:induction false} ZeroPadIs(digits: string, width: int)
    requires AllDigits(digits)
    ensures var r := L.ZeroPad(digits, width);
            && AllDigits(r) && DigitsValue(r) == DigitsValue(digits)
            && |r| == (if |digits| < width then width else |digits|)
            && (digits != "" ==> r != "")
    decreases width - |digits|
  {
    hide DigitsValue;
    if |digits| < width {
      ZeroInFront(digits);
      ZeroPadIs("0" + digits, width);
    }
  }

  lemma ZeroInFront(d: string)
    requires AllDigits(d)
    ensures AllDigits("0" + d) && DigitsValue("0" + d) == DigitsValue(d)
  {
    hide DigitsValue, Pow10;
    DigitsValueAppend("0", d);
    ZerosValue(1);
    assert Zeros(1) == "0";
    assert 0 * Pow10(|d|) == 0;
  }

  lemma {:induction false} DigitsAreFew(n: nat, width: nat)
    requires width > 0
    ensures |Digits(n)| <= width <==> n < Pow10(width)
  {
    hide Digits, Pow10;
    if n == 0 {
      ZeroIsOneDigit();
    } else {
      SignificantDigits(n);
      if |Digits(n)| <= width { Pow10Grows(|Digits(n)|, width); } else { Pow10Grows(width, |Digits(n)| - 1); }
    }
  }

  lemma ZeroIsOneDigit()
    ensures Digits(0) == "0"
  {
  }

  /** A number printed to a width: its digits, as many as the width where they are not more. */
  lemma PaddedIs(n: nat, width: nat)
    requires width > 0
    ensures var p := L.Padded(n, width);
            AllDigits(p) && p != "" && DigitsValue(p) == n && |p| >= width && (|p| == width <==> n < Pow10(width))
  {
    hide Digits, DigitsValue, Pow10, L.ZeroPad;
    ZeroPadIs(Digits(n), width);
    DigitsRoundTrip(n);
    DigitsAreFew(n, width);
  }

  lemma NoSpace(t: string)
    requires t != "" && !C.IsSpace(t[0])
    ensures C.SkipSpace(t) == t
  {
  }

  /** Digits that fill the width are read as they stand, whatever follows. */
  lemma FullWidthIsRead(p: string, tail: string)
    requires AllDigits(p) && p != ""
    ensures ScanInt(p + tail, |p|) == Some((DigitsValue(p), tail))
  {
    hide DigitsValue, DigitRun, C.SkipSpace, AllDigits;
    var t := p + tail;
    StartsWithDigit(t, p);
    NoSpace(t);
    RunIsLong(p, tail);
    assert t[..|p|] == p && t[|p|..] == tail;
  }

  lemma StartsWithDigit(t: string, p: string)
    requires AllDigits(p) && p != "" && t != "" && t[0] == p[0]
    ensures IsDigit(t[0]) && !C.IsSpace(t[0]) && !IsSign(t)
  {
  }

  lemma {:induction false} RunIsLong(p: string, tail: string)
    requires AllDigits(p)
    ensures DigitRun(p + tail) >= |p|
  {
    if p != "" {
      RunIsLong(p[1..], tail);
      assert (p + tail)[1..] == p[1..] + tail;
    }
  }

  /** No more is read than the width has room for. */
  lemma {:induction false} WidthIsBound(p: string, tail: string, width: nat)
    requires AllDigits(p) && p != "" && ScanInt(p + tail, width).Some?
    ensures 0 <= ScanInt(p + tail, width).value.0 < Pow10(width)
  {
    hide DigitsValue, C.SkipSpace, Pow10;
    var t := p + tail;
    StartsWithDigit(t, p);
    NoSpace(t);
    var n := if DigitRun(t) < width then DigitRun(t) else width;
    assert AllDigits(t[..n]);
    DigitsValueBound(t[..n]);
    Pow10Grows(n, width);
  }

  /** A year is read within -999 and 9999, however it is spelt. */
  lemma YearIsBound(t: string)
    requires ScanInt(t, 4).Some?
    ensures -999 <= ScanInt(t, 4).value.0 <= 9999
  {
    hide DigitsValue, C.SkipSpace, Pow10;
    var u := C.SkipSpace(t);
    var v := SkipSign(u);
    var room := if IsSign(u) then 3 else 4;
    var n := if DigitRun(v) < room then DigitRun(v) else room;
    assert AllDigits(v[..n]);
    DigitsValueBound(v[..n]);
    Pow10Grows(n, room);
    Thousands();
  }

  lemma Thousands()
    ensures Pow10(2) == 100 && Pow10(3) == 1000 && Pow10(4) == 10000 && Pow10(9) == 1000000000
  {
    assert Pow10(2) == 10 * Pow10(1) && Pow10(1) == 10 * Pow10(0);
    assert Pow10(9) == 10 * Pow10(8) && Pow10(8) == 10 * Pow10(7) && Pow10(7) == 10 * Pow10(6);
    assert Pow10(6) == 10 * Pow10(5) && Pow10(5) == 10 * Pow10(4);
  }

  /** The year of a date that fits its four bytes, sign included. */
  lemma YearIsRead(year: int, tail: string)
    requires -999 <= year <= 9999
    ensures |L.Padded(year, 4)| == 4 && ScanInt(L.Padded(year, 4) + tail, 4) == Some((year, tail))
  {
    hide DigitsValue, DigitRun, Pow10, C.SkipSpace, Digits, L.ZeroPad;
    Thousands();
    if year >= 0 {
      PaddedIs(year, 4);
      FullWidthIsRead(L.Padded(year, 4), tail);
    } else {
      PaddedIs(-year, 3);
      var p := L.Padded(-year, 3);
      assert L.Padded(year, 4) == "-" + p;
      var t := "-" + p + tail;
      assert t[1..] == p + tail;
      NoSpace(t);
      RunIsLong(p, tail);
      assert (p + tail)[..3] == p && (p + tail)[3..] == tail;
    }
  }

  // What a parameter says is what is read

  predicate FitsDate(v: L.CValue)
    requires v.Date?
  {
    -999 <= v.year <= 9999 && v.month < 100 && v.day < 100
  }

  predicate FitsTime(v: L.CValue)
    requires v.Time?
  {
    v.hour < 100 && v.minute < 100 && v.second < 100
  }

  /** The second and third number, once the first is read for what it is. */
  lemma {:induction false} TwoMore(a: string, x: int, width: nat, c: char, m: nat, d: nat, tail: string)
    requires !IsDigit(c)
    requires var rest := [c] + (L.Padded(m, 2) + ([c] + (L.Padded(d, 2) + tail)));
             ScanInt(a + rest, width) == Some((x, rest))
    ensures var r := ScanThree(a + ([c] + (L.Padded(m, 2) + ([c] + (L.Padded(d, 2) + tail)))), width, c);
            && (m < 100 && d < 100 ==> r == Some((x, m, d)))
            && (r.Some? ==> r.value.0 == x && 0 <= r.value.1 < 100
                            && (r.value.1 == m ==> 0 <= r.value.2 < 100))
  {
    hide ScanInt, L.Padded, Pow10, DigitsValue;
    Thousands();
    var (pm, pd) := (L.Padded(m, 2), L.Padded(d, 2));
    var third := pd + tail;
    var second := pm + ([c] + third);
    assert ([c] + second)[1..] == second && ([c] + third)[1..] == third;
    PaddedIs(m, 2);
    PaddedIs(d, 2);
    if ScanInt(second, 2).Some? { WidthIsBound(pm, [c] + third, 2); }
    if m < 100 {
      FullWidthIsRead(pm, [c] + third);
      if ScanInt(third, 2).Some? { WidthIsBound(pd, tail, 2); }
      if d < 100 { FullWidthIsRead(pd, tail); }
    }
  }

  lemma DateParts(v: L.CValue, tail: string)
    requires v.Date?
    ensures L.TemporalText(v) + tail
            == L.Padded(v.year, 4) + (['-'] + (L.Padded(v.month, 2) + (['-'] + (L.Padded(v.day, 2) + tail))))
  {
    hide L.Padded;
    Join5(L.Padded(v.year, 4), "-", L.Padded(v.month, 2), "-", L.Padded(v.day, 2), tail);
  }

  lemma Join5(a: string, b: string, c: string, d: string, e: string, f: string)
    ensures a + b + c + d + e + f == a + (b + (c + (d + (e + f))))
  {
  }

  /** A date is read from its own text exactly when its year fits four bytes and its month and day two. */
  lemma {:induction false} DateRoundTrip(v: L.CValue, tail: string)
    requires v.Date?
    ensures ReadDate(L.TemporalText(v) + tail) == Some(v) <==> FitsDate(v)
  {
    hide ScanInt, ScanThree, L.Padded, L.TemporalText;
    DateParts(v, tail);
    var t := L.TemporalText(v) + tail;
    if ReadDate(t).Some? {
      FirstOfThree(t, 4, '-');
      YearIsBound(t);
    }
    if -999 <= v.year <= 9999 {
      YearIsRead(v.year, ['-'] + (L.Padded(v.month, 2) + (['-'] + (L.Padded(v.day, 2) + tail))));
      TwoMore(L.Padded(v.year, 4), v.year, 4, '-', v.month, v.day, tail);
    }
  }

  lemma FirstOfThree(t: string, width: nat, c: char)
    requires ScanThree(t, width, c).Some?
    ensures ScanInt(t, width).Some? && ScanInt(t, width).value.0 == ScanThree(t, width, c).value.0
  {
  }

  lemma TimeParts(v: L.CValue, tail: string)
    requires v.Time?
    ensures L.TemporalText(v) + tail
            == L.Padded(v.hour, 2) + ([':'] + (L.Padded(v.minute, 2) + ([':'] + (L.Padded(v.second, 2) + tail))))
  {
    hide L.Padded;
    Join5(L.Padded(v.hour, 2), ":", L.Padded(v.minute, 2), ":", L.Padded(v.second, 2), tail);
  }

  /** And a time exactly when its parts fit two bytes each. */
  lemma {:induction false} TimeRoundTrip(v: L.CValue, tail: string)
    requires v.Time?
    ensures ReadTime(L.TemporalText(v) + tail) == Some(v) <==> FitsTime(v)
  {
    hide ScanInt, ScanThree, L.Padded, L.TemporalText, Pow10, DigitsValue;
    TimeParts(v, tail);
    Thousands();
    var t := L.TemporalText(v) + tail;
    var rest := [':'] + (L.Padded(v.minute, 2) + ([':'] + (L.Padded(v.second, 2) + tail)));
    var p := L.Padded(v.hour, 2);
    PaddedIs(v.hour, 2);
    if ReadTime(t).Some? {
      FirstOfThree(t, 2, ':');
      WidthIsBound(p, rest, 2);
    }
    if v.hour < 100 {
      FullWidthIsRead(p, rest);
      TwoMore(p, v.hour, 2, ':', v.minute, v.second, tail);
    }
  }

  lemma LengthsOfText(v: L.CValue)
    requires v.Date? || v.Time?
    ensures v.Date? && FitsDate(v) ==> |L.TemporalText(v)| == 10
    ensures v.Time? && FitsTime(v) ==> |L.TemporalText(v)| == 8
  {
    hide L.Padded, Pow10, DigitsValue;
    Thousands();
    if v.Date? && FitsDate(v) {
      YearIsRead(v.year, "");
      PaddedIs(v.month, 2);
      PaddedIs(v.day, 2);
    } else if v.Time? && FitsTime(v) {
      PaddedIs(v.hour, 2);
      PaddedIs(v.minute, 2);
      PaddedIs(v.second, 2);
    }
  }

  lemma NanosecondsAreRead(fraction: nat)
    ensures Nanoseconds(L.Padded(fraction, 9)) == fraction <==> fraction < Pow10(9)
  {
    hide L.Padded, DigitsValue, Pow10;
    var p := L.Padded(fraction, 9);
    PaddedIs(fraction, 9);
    DigitRunStops(p, "");
    assert p + "" == p;
    assert DigitRun(p) == |p| >= 9 && AllDigits(p[..9]);
    DigitsValueBound(p[..9]);
    One();
    assert DigitsValue(p[..9]) * 1 == DigitsValue(p[..9]);
    if |p| == 9 { assert p[..9] == p; }
  }

  lemma One()
    ensures Pow10(0) == 1
  {
  }

  predicate FitsTimestamp(v: L.CValue)
    requires v.Timestamp? && v.date.Date? && v.time.Time?
  {
    FitsDate(v.date) && FitsTime(v.time) && v.fraction < 1000000000
  }

  lemma TimestampParts(v: L.CValue)
    requires v.Timestamp? && v.date.Date? && v.time.Time?
    ensures var after := "." + L.Padded(v.fraction, 9);
            L.TemporalText(v) == L.TemporalText(v.date) + ("T" + (L.TemporalText(v.time) + after))
  {
    hide L.Padded;
    var (date, time, f) := (L.TemporalText(v.date), L.TemporalText(v.time), L.Padded(v.fraction, 9));
    assert date + "T" + time + "." + f == date + ("T" + (time + ("." + f)));
  }

  lemma PaddedIsWide(n: int, width: nat)
    requires width > 1
    ensures |L.Padded(n, width)| >= width
  {
    hide Digits, DigitsValue, L.ZeroPad;
    if n < 0 { ZeroPadIs(Digits(-n), width - 1); } else { ZeroPadIs(Digits(n), width); }
  }

  lemma TextIsLong(v: L.CValue)
    requires v.Timestamp? && v.date.Date? && v.time.Time?
    ensures |L.TemporalText(v)| >= 19
  {
    hide L.Padded;
    PaddedIsWide(v.date.year, 4);
    PaddedIsWide(v.date.month, 2);
    PaddedIsWide(v.date.day, 2);
    PaddedIsWide(v.time.hour, 2);
    PaddedIsWide(v.time.minute, 2);
    PaddedIsWide(v.time.second, 2);
  }

  /** A timestamp parameter's text is read back as the timestamp, to the nanosecond, exactly when every
      part fits the bytes it is printed in. */
  lemma {:induction false} TimestampRoundTrip(v: L.CValue)
    requires v.Timestamp? && v.date.Date? && v.time.Time?
    ensures InFull(L.TemporalText(v))
    ensures ReadTimestamp(L.TemporalText(v)) == Some(v) <==> FitsTimestamp(v)
  {
    hide ReadDate, ReadTime, L.TemporalText, Nanoseconds, L.Padded, Pow10;
    var after := "." + L.Padded(v.fraction, 9);
    var time := L.TemporalText(v.time) + after;
    var t := L.TemporalText(v);
    TextIsLong(v);
    TimestampParts(v);
    Thousands();
    DateRoundTrip(v.date, "T" + time);
    LengthsOfText(v.date);
    LengthsOfText(v.time);
    TimeRoundTrip(v.time, after);
    NanosecondsAreRead(v.fraction);
    if FitsDate(v.date) {
      assert t[10] == 'T' && t[11..] == time;
      if FitsTime(v.time) {
        assert time[8] == '.' && time[9..] == L.Padded(v.fraction, 9);
      }
    }
  }

  // What the engine renders is what is read

  /** A time of the engine: the eight bytes, any number of digits behind a point, and whatever follows. */
  function Rendered(date: L.CValue, sep: char, time: L.CValue, fraction: string, tail: string): string
    requires date.Date? && time.Time?
  {
    L.TemporalText(date)
    + ([sep] + (L.TemporalText(time) + ((if fraction == "" then "" else "." + fraction) + tail)))
  }

  /** What may follow a time: no more digits, and no point where there was none. */
  predicate EndsTime(fraction: string, tail: string) {
    tail == "" || (!IsDigit(tail[0]) && (fraction == "" ==> tail[0] != '.'))
  }

  lemma RenderedParts(date: L.CValue, sep: char, time: L.CValue, fraction: string, tail: string)
    requires date.Date? && time.Time? && FitsDate(date) && FitsTime(time)
    ensures var t := Rendered(date, sep, time, fraction, tail);
            var rest := L.TemporalText(time) + ((if fraction == "" then "" else "." + fraction) + tail);
            |t| >= 19 && t[10] == sep && t[11..] == rest && |rest| >= 8
            && rest[8..] == (if fraction == "" then "" else "." + fraction) + tail
            && ReadDate(t) == Some(date) && ReadTime(rest) == Some(time)
  {
    hide L.TemporalText, ReadDate, ReadTime;
    var end := (if fraction == "" then "" else "." + fraction) + tail;
    LengthsOfText(date);
    LengthsOfText(time);
    DateRoundTrip(date, [sep] + (L.TemporalText(time) + end));
    TimeRoundTrip(time, end);
  }

  /** The nanoseconds the digits of a fraction say: those past the ninth are worth nothing. */
  function FractionValue(fraction: string): nat
    requires AllDigits(fraction)
  {
    if |fraction| <= 9 then DigitsValue(fraction) * Pow10(9 - |fraction|) else DigitsValue(fraction[..9])
  }

  lemma FractionIsRead(fraction: string, tail: string)
    requires AllDigits(fraction) && (tail == "" || !IsDigit(tail[0]))
    ensures Nanoseconds(fraction + tail) == FractionValue(fraction)
  {
    hide DigitsValue, DigitRun, Pow10, IsDigit;
    var t := fraction + tail;
    DigitRunStops(fraction, tail);
    if |fraction| <= 9 {
      assert t[..|fraction|] == fraction;
    } else {
      assert t[..9] == fraction[..9];
      TimesOne(DigitsValue(t[..9]));
    }
  }

  lemma TimesOne(x: nat)
    ensures x * Pow10(0) == x
  {
    assert Pow10(0) == 1;
  }

  /** Every timestamp the engine renders, with a blank or a T between date and time, with or without a
      fraction of any length, and with or without an offset behind it, is read as the date, the time and the
      nanoseconds it says. */
  lemma {:induction false} EngineTextIsRead(
      date: L.CValue, sep: char, time: L.CValue, fraction: string, tail: string)
    requires date.Date? && time.Time? && FitsDate(date) && FitsTime(time) && (sep == ' ' || sep == 'T')
    requires AllDigits(fraction) && EndsTime(fraction, tail)
    ensures var t := Rendered(date, sep, time, fraction, tail);
            && InFull(t)
            && ReadTimestamp(t) == Some(L.Timestamp(date, time, FractionValue(fraction)))
  {
    hide L.TemporalText, ReadDate, ReadTime, Nanoseconds, Rendered, FractionValue;
    RenderedParts(date, sep, time, fraction, tail);
    var rest := Rendered(date, sep, time, fraction, tail)[11..];
    if fraction == "" {
      NoFraction();
      assert "" + tail == tail;
      assert |rest| > 8 ==> rest[8] == rest[8..][0];
    } else {
      FractionIsRead(fraction, tail);
      assert rest[8..] == "." + fraction + tail;
      assert rest[8] == '.' && rest[9..] == rest[8..][1..] == fraction + tail;
    }
  }

  /** A date alone is read as its midnight. */
  lemma {:induction false} DateAloneIsRead(date: L.CValue)
    requires date.Date? && FitsDate(date)
    ensures var t := L.TemporalText(date);
            InFull(t) && ReadTimestamp(t) == Some(L.Timestamp(date, L.Time(0, 0, 0), 0))
  {
    hide L.TemporalText, ReadDate, ReadTime;
    LengthsOfText(date);
    DateRoundTrip(date, "");
    assert L.TemporalText(date) + "" == L.TemporalText(date);
  }

  /** A date with something else behind it, too; with a blank or a T it needs a time. */
  lemma {:induction false} DateWithTail(date: L.CValue, c: char, rest: string)
    requires date.Date? && FitsDate(date)
    ensures var t := L.TemporalText(date) + ([c] + rest);
            && (c != ' ' && c != 'T' ==> InFull(t) && ReadTimestamp(t) == Some(L.Timestamp(date, L.Time(0, 0, 0), 0)))
            && ((c == ' ' || c == 'T') && ReadTime(rest) == None ==> InFull(t) && ReadTimestamp(t) == None)
  {
    hide L.TemporalText, ReadDate, ReadTime;
    LengthsOfText(date);
    DateRoundTrip(date, [c] + rest);
    var t := L.TemporalText(date) + ([c] + rest);
    assert t[10] == c && t[11..] == rest;
  }

  lemma NoFraction()
    ensures FractionValue("") == 0
  {
    hide Pow10;
    NoDigits();
    assert 0 * Pow10(9) == 0;
  }

  /** A fraction of ten digits, which thirty-two bits have room for, loses the last: it is read as a tenth. */
  lemma {:induction false} WideFractionIsATenth(v: L.CValue)
    requires v.Timestamp? && v.date.Date? && v.time.Time? && FitsDate(v.date) && FitsTime(v.time)
    requires Pow10(9) <= v.fraction < Pow10(10)
    ensures InFull(L.TemporalText(v))
    ensures ReadTimestamp(L.TemporalText(v)) == Some(v.(fraction := v.fraction / 10))
  {
    hide L.TemporalText, L.Padded, DigitsValue, Pow10, Digits, FractionValue, InFull, ReadTimestamp;
    var p := L.Padded(v.fraction, 9);
    PaddedIs(v.fraction, 9);
    TenDigitsPadded(v.fraction);
    TenthOf(p);
    TimestampParts(v);
    assert ("." + p) + "" == "." + p;
    assert Rendered(v.date, 'T', v.time, p, "") == L.TemporalText(v);
    EngineTextIsRead(v.date, 'T', v.time, p, "");
  }

  lemma TenthOf(p: string)
    requires AllDigits(p) && |p| == 10
    ensures FractionValue(p) == DigitsValue(p) / 10
  {
    hide DigitsValue;
    LastDigit(p[..9], p[9]);
    assert p[..9] + [p[9]] == p;
  }

  lemma TenDigitsPadded(n: nat)
    requires Pow10(9) <= n < Pow10(10)
    ensures |L.Padded(n, 9)| == 10
  {
    hide Digits, Pow10, L.ZeroPad;
    DigitsAreFew(n, 9);
    DigitsAreFew(n, 10);
    L.ZeroPadLength(Digits(n), 9);
  }

  /** For one: a thousand million nanoseconds are read as a hundred million. */
  lemma WideFraction()
    ensures var v := L.Timestamp(L.Date(2024, 1, 2), L.Time(3, 4, 5), 1000000000);
            && InFull(L.TemporalText(v))
            && ReadTimestamp(L.TemporalText(v)) == Some(v.(fraction := 100000000))
  {
    hide InFull, ReadTimestamp, L.TemporalText, Pow10;
    Thousands();
    L.Powers();
    WideFractionIsATenth(L.Timestamp(L.Date(2024, 1, 2), L.Time(3, 4, 5), 1000000000));
  }

  /** One digit with no digit behind it is read to any width. */
  lemma ShortNumber(c: char, tail: string, width: nat)
    requires IsDigit(c) && width >= 1 && (tail == "" || !IsDigit(tail[0]))
    ensures ScanInt([c] + tail, width) == Some((c as int - '0' as int, tail))
  {
    hide DigitsValue, C.SkipSpace, DigitRun;
    var t := [c] + tail;
    NoSpace(t);
    DigitRunStops([c], tail);
    NoDigits();
    LastDigit("", c);
    assert "" + [c] == [c];
    assert t[..1] == [c] && t[1..] == tail;
  }

  /** A date spelt short is read, and the code then looks for the time past the end of the text. */
  lemma {:induction false} ShortDate()
    ensures ReadDate("2024-1-2") == Some(L.Date(2024, 1, 2)) && !InFull("2024-1-2")
  {
    hide ScanInt, DigitsValue, ReadTime;
    assert "2024-1-2" == "2024" + "-1-2" && "-1-2"[1..] == "1-2" == ['1'] + "-2" && "-2"[1..] == "2" == ['2'] + "";
    FullWidthIsRead("2024", "-1-2");
    FourDigits();
    ShortNumber('1', "-2", 2);
    ShortNumber('2', "", 2);
    ThreeAre("2024-1-2", 2024, "-1-2", 1, "-2", 2, "");
  }

  lemma FourDigits()
    ensures AllDigits("2024") && DigitsValue("2024") == 2024
  {
    hide DigitsValue;
    NoDigits();
    assert "" + ['2'] == "2" && "2" + ['0'] == "20" && "20" + ['2'] == "202" && "202" + ['4'] == "2024";
    LastDigit("", '2');
    LastDigit("2", '0');
    LastDigit("20", '2');
    LastDigit("202", '4');
  }

  lemma ThreeAre(t: string, x: int, u: string, y: int, v: string, z: int, w: string)
    requires ScanInt(t, 4) == Some((x, u)) && u != "" && u[0] == '-'
    requires ScanInt(u[1..], 2) == Some((y, v)) && v != "" && v[0] == '-'
    requires ScanInt(v[1..], 2) == Some((z, w))
    ensures ScanThree(t, 4, '-') == Some((x, y, z))
  {
    hide ScanInt;
  }

  // The buffer a literal is printed into

  /** Every field as wide as its type allows. */
  predicate IsWidest(v: L.CValue)
    requires v.Timestamp? && v.date.Date? && v.time.Time?
  {
    && v.date.year <= -10000 && v.date.month >= 10000 && v.date.day >= 10000
    && v.time.hour >= 10000 && v.time.minute >= 10000 && v.time.second >= 10000
    && v.fraction >= 1000000000
  }

  lemma FieldIsWide(n: nat)
    requires n < 0x10000
    ensures |L.Padded(n, 2)| == 5 <==> n >= 10000
    ensures |L.Padded(n, 2)| <= 5
  {
    hide Digits, Pow10, L.ZeroPad;
    Thousands();
    L.FieldLength(n, 2);
    DigitsAreFew(n, 4);
    L.ZeroPadLength(Digits(n), 2);
  }

  lemma YearIsWide(year: int)
    requires -0x8000 <= year < 0x8000
    ensures |L.Padded(year, 4)| == 6 <==> year <= -10000
    ensures |L.Padded(year, 4)| <= 6
  {
    hide Digits, Pow10, L.ZeroPad;
    Thousands();
    L.YearLength(year);
    if year < 0 {
      DigitsAreFew(-year, 4);
      L.ZeroPadLength(Digits(-year), 3);
    } else {
      L.FieldLength(year, 4);
    }
  }

  lemma FractionIsWide(n: nat)
    requires n < 0x1_0000_0000
    ensures |L.Padded(n, 9)| == 10 <==> n >= 1000000000
    ensures |L.Padded(n, 9)| <= 10
  {
    hide Digits, Pow10, L.ZeroPad;
    Thousands();
    L.FieldLength(n, 9);
    DigitsAreFew(n, 9);
    L.ZeroPadLength(Digits(n), 9);
  }

  lemma WidestText(v: L.CValue)
    requires L.IsStruct(v) && v.Timestamp?
    ensures |L.TemporalText(v)| == 47 <==> IsWidest(v)
  {
    hide L.Padded;
    YearIsWide(v.date.year);
    FieldIsWide(v.date.month);
    FieldIsWide(v.date.day);
    FieldIsWide(v.time.hour);
    FieldIsWide(v.time.minute);
    FieldIsWide(v.time.second);
    FractionIsWide(v.fraction);
  }

  /** A temporal literal is cut by its buffer exactly when it is a timestamp with every field at its widest,
      and then by the last byte of its cast. */
  lemma {:induction false} OnlyTheWidestIsCut(v: L.CValue)
    requires L.IsStruct(v)
    ensures var front := "'" + L.TemporalText(v) + "'::";
            && (L.TemporalLiteral(v) == front + L.TemporalCast(v) <==> !(v.Timestamp? && IsWidest(v)))
            && (v.Timestamp? && IsWidest(v) ==> L.TemporalLiteral(v) == front + "TIMESTAMP_NT")
  {
    hide L.TemporalText, L.TemporalLiteral;
    L.TemporalLength(v);
    if v.Timestamp? { WidestText(v); }
    var cast := L.TemporalLiteralIs(v);
    var front := "'" + L.TemporalText(v) + "'::";
    assert |front + cast| == |front| + |cast|;
  }

  // The source's own loops

  /** The fraction: up to nine digits kept, any more passed over, the missing ones made up. */
  method ParseNanoseconds(t: string) returns (value: nat)
    ensures value == Nanoseconds(t)
  {
    hide DigitsValue, Pow10;
    value := 0;
    var digits := 0;
    NoDigits();
    while digits < 9 && digits < |t| && IsDigit(t[digits])
      invariant 0 <= digits <= 9 && digits <= |t| && AllDigits(t[..digits])
      invariant value == DigitsValue(t[..digits])
      invariant DigitRun(t) == digits + DigitRun(t[digits..])
    {
      LastDigit(t[..digits], t[digits]);
      assert t[..digits + 1] == t[..digits] + [t[digits]];
      assert t[digits..][1..] == t[digits + 1..];
      value := value * 10 + (t[digits] as int - '0' as int);
      digits := digits + 1;
    }
    ghost var kept := digits;
    One();
    assert value == DigitsValue(t[..kept]) * 1;
    while digits < 9
      invariant kept <= digits <= 9
      invariant value == DigitsValue(t[..kept]) * Pow10(digits - kept)
    {
      TenMore(DigitsValue(t[..kept]), digits - kept);
      value := value * 10;
      digits := digits + 1;
    }
  }

  lemma TenMore(x: nat, k: nat)
    ensures x * Pow10(k + 1) == x * Pow10(k) * 10
  {
    assert x * (10 * Pow10(k)) == x * Pow10(k) * 10;
  }

  method SkipSpaces(t: string, from: nat) returns (c: nat)
    requires from <= |t|
    ensures from <= c <= |t| && t[c..] == C.SkipSpace(t[from..])
  {
    hide C.IsSpace;
    c := from;
    while c < |t| && C.IsSpace(t[c])
      invariant from <= c <= |t|
      invariant C.SkipSpace(t[c..]) == C.SkipSpace(t[from..])
    {
      assert t[c..][1..] == t[c + 1..];
      c := c + 1;
    }
  }

  /** One number of sscanf: spaces, a sign, digits within the width. */
  method ScanNumber(t: string, from: nat, width: nat) returns (n: Option<int>, next: nat)
    requires from <= |t|
    ensures from <= next <= |t|
    ensures ScanInt(t[from..], width) == if n.None? then None else Some((n.value, t[next..]))
  {
    hide DigitsValue, DigitRun, C.SkipSpace, AllDigits, IsDigit;
    var c := SkipSpaces(t, from);
    ghost var u := t[c..];
    var room, negative := width, false;
    if c < |t| && (t[c] == '+' || t[c] == '-') {
      negative := t[c] == '-';
      c := c + 1;
      room := if room > 0 then room - 1 else 0;
      assert u[1..] == t[c..];
    }
    assert SkipSign(u) == t[c..];
    var value, end := ScanDigits(t, c, room);
    TakenAndLeft(t, c, end);
    if end == c { return None, from; }
    var signed: int := value;
    if negative { signed := -signed; }
    return Some(signed), end;
  }

  lemma TakenAndLeft(t: string, c: nat, end: nat)
    requires c <= end <= |t|
    ensures t[c..][..end - c] == t[c..end] && t[c..][end - c..] == t[end..]
  {
  }

  method ScanDigits(t: string, from: nat, room: nat) returns (value: nat, end: nat)
    requires from <= |t|
    ensures from <= end <= |t|
    ensures end - from == if DigitRun(t[from..]) < room then DigitRun(t[from..]) else room
    ensures AllDigits(t[from..end]) && value == DigitsValue(t[from..end])
  {
    hide DigitsValue, DigitRun, IsDigit, AllDigits;
    value, end := 0, from;
    NoDigits();
    assert t[from..from] == "";
    NoneAreDigits();
    while end - from < room && end < |t| && IsDigit(t[end])
      invariant from <= end <= |t| && end - from <= room
      invariant DigitRun(t[from..]) == end - from + DigitRun(t[end..])
      invariant AllDigits(t[from..end]) && value == DigitsValue(t[from..end])
    {
      DigitTaken(t, from, end);
      value := value * 10 + (t[end] as int - '0' as int);
      end := end + 1;
    }
    RunIs(t[end..]);
  }

  lemma NoneAreDigits()
    ensures AllDigits("")
  {
  }

  lemma DigitTaken(t: string, from: nat, end: nat)
    requires from <= end < |t| && IsDigit(t[end]) && AllDigits(t[from..end])
    ensures DigitRun(t[end..]) == 1 + DigitRun(t[end + 1..])
    ensures AllDigits(t[from..end + 1])
    ensures DigitsValue(t[from..end + 1]) == 10 * DigitsValue(t[from..end]) + (t[end] as int - '0' as int)
  {
    hide DigitsValue, DigitRun;
    RunIs(t[end..]);
    LastDigit(t[from..end], t[end]);
    assert t[from..end + 1] == t[from..end] + [t[end]];
    assert t[end..][1..] == t[end + 1..];
  }

  lemma RunIs(t: string)
    ensures DigitRun(t) == if t != "" && IsDigit(t[0]) then 1 + DigitRun(t[1..]) else 0
  {
  }

  /** sscanf with three numbers and a separator between them. */
  method ScanTriple(t: string, width: nat, c: char) returns (r: Option<(int, int, int)>)
    ensures r == ScanThree(t, width, c)
  {
    hide ScanInt;
    assert t[0..] == t;
    var x, i := ScanNumber(t, 0, width);
    if x.None? || i >= |t| || t[i] != c { return None; }
    assert t[i..][1..] == t[i + 1..];
    var y, j := ScanNumber(t, i + 1, 2);
    if y.None? || j >= |t| || t[j] != c { return None; }
    assert t[j..][1..] == t[j + 1..];
    var z, k := ScanNumber(t, j + 1, 2);
    return if z.None? then None else Some((x.value, y.value, z.value));
  }

  /** parse_time_part, where the fraction is asked for; it looks for the fraction at the eighth byte, and so reads
      past the terminator of a time spelt shorter. */
  method ParseTimePart(text: string) returns (time: Option<L.CValue>, fraction: nat, inside: bool)
    ensures inside <==> (ReadTime(text).Some? ==> |text| >= 8)
    ensures time == ReadTime(text)
    ensures inside && time.Some? ==> fraction == ReadFraction(text)
  {
    hide ScanThree;
    var r := ScanTriple(text, 2, ':');
    if r.None? { return None, 0, true; }
    time := Some(L.Time(Unsigned(r.value.0), Unsigned(r.value.1), Unsigned(r.value.2)));
    fraction, inside := 0, |text| >= 8;
    if |text| > 8 && text[8] == '.' { fraction := ParseNanoseconds(text[9..]); }
  }

  /** parse_timestamp, and whether it stayed inside the text. What it gives back for the text of a parameter is
      what the text says. */
  method ParseTimestamp(text: string) returns (r: Option<L.CValue>, inside: bool)
    ensures inside <==> InFull(text)
    ensures inside ==> r == ReadTimestamp(text)
    ensures forall v: L.CValue :: v.Timestamp? && v.date.Date? && v.time.Time? && text == L.TemporalText(v) ==>
              inside && (r == Some(v) <==> FitsTimestamp(v))
  {
    hide ReadTime, ReadFraction, ScanThree, FitsTimestamp;
    forall v: L.CValue | v.Timestamp? && v.date.Date? && v.time.Time? && text == L.TemporalText(v)
      ensures InFull(text) && (ReadTimestamp(text) == Some(v) <==> FitsTimestamp(v))
    {
      TimestampRoundTrip(v);
    }
    var d := ScanTriple(text, 4, '-');
    if d.None? { return None, true; }
    if |text| < 10 { return None, false; }
    var date := L.Date(d.value.0, Unsigned(d.value.1), Unsigned(d.value.2));
    var time, fraction := L.Time(0, 0, 0), 0;
    if |text| > 10 && (text[10] == ' ' || text[10] == 'T') {
      var read, f, within := ParseTimePart(text[11..]);
      if read.None? { return None, true; }
      if !within { return None, false; }
      time, fraction := read.value, f;
    }
    return Some(L.Timestamp(date, time, fraction)), true;
  }
}
