/** Numbers as the C library reads them where the driver asks it to: strtol in base 16 for the size of a chunk, strtoll
    in base 10 for a row count, and sscanf's %d of a given width for dates and times (sections 7.21.6.2 and 7.22.1.4 of
    C11). */
module CNumbers {
  import opened Text
  import opened Json
  import opened ChunkedBody
  import D = Decimal
  import C = Cursors
  import G = JsonGrammar
  import T = Temporal

  predicate IsBlanks(s: string) {
    forall i :: 0 <= i < |s| ==> s[i] in [' ', '\t', '\n', '\r', 0x0B as char, 0x0C as char]
  }

  predicate IsSignText(s: string) {
    s == "" || s == "+" || s == "-"
  }

  /** The digits spell the number, most significant first. */
  predicate Spells16(digits: string, n: nat) {
    if digits == "" then n == 0
    else G.IsHexDigit(digits[|digits| - 1], n % 16) && Spells16(digits[..|digits| - 1], n / 16)
  }

  predicate NoHexNext(t: string) {
    t != "" ==> t[0] !in "0123456789abcdefABCDEF"
  }

  lemma HexDigits(c: char)
    ensures c in "0123456789abcdefABCDEF" <==> HexValue(c) >= 0
  {
  }

  lemma BlanksAreSpace(c: char)
    ensures IsSpace(c) <==> IsBlanks([c])
  {
    assert [c][0] == c;
  }

  lemma {:induction false} BlanksSkipped(blanks: string, t: string)
    requires IsBlanks(blanks) && (t != "" ==> !IsBlanks(t[..1]))
    ensures SkipSpace(blanks + t) == t
  {
    hide IsSpace, IsBlanks;
    if blanks == "" {
      assert blanks + t == t;
      if t != "" {
        assert [t[0]] == t[..1];
        BlanksAreSpace(t[0]);
      }
    } else {
      assert (blanks + t)[1..] == blanks[1..] + t;
      BlanksFront(blanks);
      BlanksAreSpace(blanks[0]);
      BlanksSkipped(blanks[1..], t);
    }
  }

  lemma BlanksFront(blanks: string)
    requires IsBlanks(blanks) && blanks != ""
    ensures IsBlanks([blanks[0]]) && IsBlanks(blanks[1..])
  {
  }

  lemma {:induction false} HexRunSplit(front: string, sum: nat, t: string)
    requires forall i :: 0 <= i < |front| ==> HexValue(front[i]) >= 0
    ensures HexRun(front + t, sum) == HexRun(t, HexRun(front, sum))
  {
    hide HexValue;
    if front == "" {
      assert front + t == t;
    } else {
      assert (front + t)[1..] == front[1..] + t;
      HexRunSplit(front[1..], sum * 16 + HexValue(front[0]), t);
    }
  }

  lemma SpellingStep(digits: string, n: nat)
    requires Spells16(digits, n) && digits != ""
    ensures var (front, c) := (digits[..|digits| - 1], digits[|digits| - 1]);
            Spells16(front, n / 16) && HexValue(c) == n % 16 && digits == front + [c]
  {
    hide G.IsHexDigit, HexValue;
    G.HexIsRead(digits[|digits| - 1], n % 16);
  }

  lemma OneHexDigit(c: char, sum: nat)
    requires HexValue(c) >= 0
    ensures HexRun([c], sum) == sum * 16 + HexValue(c)
  {
    hide HexValue;
    assert [c][1..] == "";
  }

  lemma {:induction false} SpellingIsHex(digits: string, n: nat)
    requires Spells16(digits, n)
    ensures forall i :: 0 <= i < |digits| ==> HexValue(digits[i]) >= 0
    ensures HexRun(digits, 0) == n
  {
    hide HexValue, Spells16;
    if digits == "" {
      NothingSpelt(n);
    } else {
      hide HexRun;
      var (front, c) := (digits[..|digits| - 1], digits[|digits| - 1]);
      SpellingStep(digits, n);
      SpellingIsHex(front, n / 16);
      HexRunSplit(front, 0, [c]);
      OneHexDigit(c, n / 16);
    }
  }

  lemma NothingSpelt(n: nat)
    ensures Spells16("", n) <==> n == 0
  {
  }

  /** Blanks, a sign, a prefix and digits, whatever is not a digit behind them: the size of a chunk. */
  lemma {:induction false} Strtol16IsRead(
      blanks: string, sign: string, prefix: string, digits: string, n: nat, rest: string)
    requires IsBlanks(blanks) && IsSignText(sign) && prefix in ["", "0x", "0X"]
    requires Spells16(digits, n) && digits != "" && NoHexNext(rest)
    requires prefix == "" && digits == "0" && rest != "" ==> rest[0] != 'x' && rest[0] != 'X'
    ensures Strtol16(blanks + sign + prefix + digits + rest) == if sign == "-" then 0 - n else n as int
  {
    hide Strtol16, SkipSpace, HexRun, HexValue, Spells16, IsBlanks, IsSignText, NoHexNext;
    var tail := prefix + digits + rest;
    SpellingIsHex(digits, n);
    FirstIsPlain(prefix, digits, rest);
    assert blanks + sign + prefix + digits + rest == blanks + (sign + tail);
    SignBegins(sign, tail);
    BlanksSkipped(blanks, sign + tail);
    PrefixIsSkipped(prefix, digits, rest);
    HexRunEnds(digits, rest);
    SizeBehindBlanks(blanks + (sign + tail), sign, tail, digits + rest);
  }

  lemma SizeBehindBlanks(t: string, sign: string, v: string, w: string)
    requires IsSignText(sign) && v != "" && v[0] != '-' && v[0] != '+' && SkipSpace(t) == sign + v
    requires w == if |v| >= 2 && v[0] == '0' && (v[1] == 'x' || v[1] == 'X') then v[2..] else v
    ensures Strtol16(t) == if sign == "-" then 0 - HexRun(w, 0) else HexRun(w, 0) as int
  {
    hide SkipSpace, HexRun;
    if sign == "" { assert sign + v == v; } else { assert (sign + v)[1..] == v; }
  }

  lemma SignBegins(sign: string, tail: string)
    requires IsSignText(sign) && tail != "" && HexValue(tail[0]) >= 0
    ensures !IsBlanks((sign + tail)[..1])
    ensures (sign + tail)[0] == if sign == "" then tail[0] else sign[0]
  {
    assert (sign + tail)[..1][0] == (sign + tail)[0];
  }

  lemma FirstIsPlain(prefix: string, digits: string, rest: string)
    requires prefix in ["", "0x", "0X"] && digits != "" && HexValue(digits[0]) >= 0
    ensures var tail := prefix + digits + rest; HexValue(tail[0]) >= 0 && tail[0] != '-' && tail[0] != '+'
  {
    var tail := prefix + digits + rest;
    assert tail[0] == if prefix == "" then digits[0] else '0';
  }

  lemma PrefixIsSkipped(prefix: string, digits: string, rest: string)
    requires prefix in ["", "0x", "0X"] && digits != "" && NoHexNext(rest)
    requires forall i :: 0 <= i < |digits| ==> HexValue(digits[i]) >= 0
    requires prefix == "" && digits == "0" && rest != "" ==> rest[0] != 'x' && rest[0] != 'X'
    ensures var v := prefix + digits + rest;
            (if |v| >= 2 && v[0] == '0' && (v[1] == 'x' || v[1] == 'X') then v[2..] else v) == digits + rest
  {
    hide HexValue;
    var v := prefix + digits + rest;
    if prefix == "" {
      assert v == digits + rest;
      if |digits| > 1 { HexIsPlain(digits[1]); }
    } else {
      assert v == prefix + (digits + rest);
    }
  }

  lemma HexRunEnds(digits: string, rest: string)
    requires NoHexNext(rest) && forall i :: 0 <= i < |digits| ==> HexValue(digits[i]) >= 0
    ensures HexRun(digits + rest, 0) == HexRun(digits, 0)
  {
    hide HexValue;
    if rest != "" { HexDigits(rest[0]); }
    HexRunStops(digits, 0, rest);
  }

  /** Where there are no digits the size is nought. */
  lemma {:induction false} NoDigitsAreNought(blanks: string, sign: string, rest: string)
    requires IsBlanks(blanks) && IsSignText(sign) && NoHexNext(rest)
    requires sign == "" && rest != "" ==> !IsBlanks(rest[..1]) && rest[0] != '-' && rest[0] != '+'
    ensures Strtol16(blanks + sign + rest) == 0
  {
    hide SkipSpace, HexValue;
    assert blanks + sign + rest == blanks + (sign + rest);
    if rest != "" { HexDigits(rest[0]); }
    if sign == "" {
      assert sign + rest == rest;
    } else {
      assert (sign + rest)[1..] == rest && (sign + rest)[..1] == sign;
      assert sign[0] in ['+', '-'];
    }
    BlanksSkipped(blanks, sign + rest);
  }

  /** A row count: blanks, a sign and decimal digits, whatever is not a digit behind them, stopped at the ends of
      sixty-four bits. No digits count nothing. */
  lemma {:induction false} Strtoll10IsRead(blanks: string, sign: string, digits: string, rest: string)
    requires IsBlanks(blanks) && IsSignText(sign) && AllDigits(digits) && (rest != "" ==> !IsDigit(rest[0]))
    requires sign == "" && digits == "" && rest != "" ==> !IsBlanks(rest[..1]) && rest[0] != '-' && rest[0] != '+'
    ensures var n: int := DigitsValue(digits);
            C.Strtoll10(blanks + sign + digits + rest)
            == if sign == "-" then (if n > 0x7FFF_FFFF_FFFF_FFFF then -0x8000_0000_0000_0000 else -n)
               else if n > 0x7FFF_FFFF_FFFF_FFFF then 0x7FFF_FFFF_FFFF_FFFF
               else n
  {
    hide SkipSpace, DigitsValue;
    var tail := digits + rest;
    assert blanks + sign + digits + rest == blanks + (sign + tail);
    Begin10(sign, digits, rest);
    BlanksSkipped(blanks, sign + tail);
    if sign == "" { assert sign + tail == tail; } else { assert (sign + tail)[1..] == tail; }
    DigitsEnd(digits, rest);
  }

  lemma Begin10(sign: string, digits: string, rest: string)
    requires IsSignText(sign) && AllDigits(digits)
    requires sign == "" && digits == "" && rest != "" ==> !IsBlanks(rest[..1]) && rest[0] != '-' && rest[0] != '+'
    ensures var t := sign + (digits + rest);
            && (t != "" ==> !IsBlanks(t[..1]))
            && (sign == "" ==> t == "" || (t[0] != '-' && t[0] != '+'))
            && (sign != "" ==> t[0] == sign[0])
  {
    var t := sign + (digits + rest);
    if t != "" { assert t[..1][0] == t[0]; }
    if sign == "" && digits == "" { assert t == rest; }
  }

  lemma {:induction false} DigitsEnd(digits: string, rest: string)
    requires AllDigits(digits) && (rest != "" ==> !IsDigit(rest[0]))
    ensures var v := digits + rest; D.DigitRun(v) == |digits| && v[..|digits|] == digits
  {
    if digits == "" {
      assert digits + rest == rest;
    } else {
      DigitsEnd(digits[1..], rest);
      assert (digits + rest)[1..] == digits[1..] + rest;
    }
  }

  // Dates and times

  /** A number as sscanf reads one: blanks, a sign and digits. */
  datatype Figure = Figure(blanks: string, sign: string, digits: string)

  predicate IsFigure(f: Figure, width: nat) {
    && IsBlanks(f.blanks) && IsSignText(f.sign) && AllDigits(f.digits) && f.digits != ""
    && |f.sign| + |f.digits| <= width
  }

  function TextOf(f: Figure): string {
    f.blanks + f.sign + f.digits
  }

  function ValueOf(f: Figure): int
    requires AllDigits(f.digits)
  {
    if f.sign == "-" then 0 - DigitsValue(f.digits) else DigitsValue(f.digits)
  }

  /** What sixteen bits without a sign make of a number below nought. */
  function Wrapped(n: int): int {
    if n < 0 then 65536 + n else n
  }

  /** A figure within the width is read for what it says, the width full or no digit behind it. */
  lemma {:induction false} FigureIsScanned(f: Figure, tail: string, width: nat)
    requires IsFigure(f, width)
    requires |f.sign| + |f.digits| == width || tail == "" || !IsDigit(tail[0])
    ensures T.ScanInt(TextOf(f) + tail, width) == Some((ValueOf(f), tail))
  {
    hide SkipSpace, DigitsValue, IsBlanks, D.DigitRun, T.ScanInt;
    var v := f.digits + tail;
    assert TextOf(f) + tail == f.blanks + (f.sign + v);
    assert IsDigit(f.digits[0]);
    SignOrDigit(f.sign, v);
    BlanksSkipped(f.blanks, f.sign + v);
    T.RunIsLong(f.digits, tail);
    if tail == "" || !IsDigit(tail[0]) { DigitsEnd(f.digits, tail); }
    ScanBehindBlanks(f.blanks + (f.sign + v), f.sign, f.digits, tail, width);
  }

  lemma ScanBehindBlanks(t: string, sign: string, digits: string, tail: string, width: nat)
    requires IsSignText(sign) && SkipSpace(t) == sign + (digits + tail) && AllDigits(digits) && digits != ""
    requires |sign| + |digits| <= width && D.DigitRun(digits + tail) >= |digits|
    requires D.DigitRun(digits + tail) == |digits| || |sign| + |digits| == width
    ensures T.ScanInt(t, width)
            == Some((if sign == "-" then 0 - DigitsValue(digits) else DigitsValue(digits) as int, tail))
  {
    hide SkipSpace, DigitsValue, D.DigitRun;
    var v := digits + tail;
    assert IsDigit(v[0]);
    if sign == "" { assert sign + v == v; } else { assert (sign + v)[1..] == v; }
    assert v[..|digits|] == digits && v[|digits|..] == tail;
  }

  lemma SignOrDigit(sign: string, v: string)
    requires IsSignText(sign) && v != "" && IsDigit(v[0])
    ensures !IsBlanks((sign + v)[..1])
    ensures sign == "" ==> v[0] != '-' && v[0] != '+'
  {
    assert (sign + v)[..1][0] == (sign + v)[0];
  }

  lemma {:induction false} ThreeAreScanned(a: Figure, b: Figure, c: Figure, between: char, width: nat, tail: string)
    requires IsFigure(a, width) && IsFigure(b, 2) && IsFigure(c, 2) && !IsDigit(between)
    requires |c.sign| + |c.digits| == 2 || tail == "" || !IsDigit(tail[0])
    ensures T.ScanThree(TextOf(a) + [between] + TextOf(b) + [between] + TextOf(c) + tail, width, between)
            == Some((ValueOf(a), ValueOf(b), ValueOf(c)))
  {
    hide T.ScanInt, TextOf, ValueOf, IsFigure;
    var third := [between] + (TextOf(c) + tail);
    var second := [between] + (TextOf(b) + third);
    assert TextOf(a) + [between] + TextOf(b) + [between] + TextOf(c) + tail == TextOf(a) + second;
    FigureIsScanned(a, second, width);
    FigureIsScanned(b, third, 2);
    FigureIsScanned(c, tail, 2);
    assert second[1..] == TextOf(b) + third && third[1..] == TextOf(c) + tail;
  }

  /** A date spelt with any figures that fit, and a time; a number below nought wraps in its field of sixteen bits. */
  lemma {:induction false} FiguresAreRead(a: Figure, b: Figure, c: Figure, tail: string)
    requires IsFigure(b, 2) && IsFigure(c, 2)
    requires |c.sign| + |c.digits| == 2 || tail == "" || !IsDigit(tail[0])
    ensures IsFigure(a, 4) ==>
              var d := T.ReadDate(TextOf(a) + "-" + TextOf(b) + "-" + TextOf(c) + tail);
              && d.Some? && d.value.Date? && d.value.year == ValueOf(a)
              && d.value.month == Wrapped(ValueOf(b)) && d.value.day == Wrapped(ValueOf(c))
    ensures IsFigure(a, 2) ==>
              var t := T.ReadTime(TextOf(a) + ":" + TextOf(b) + ":" + TextOf(c) + tail);
              && t.Some? && t.value.Time? && t.value.hour == Wrapped(ValueOf(a))
              && t.value.minute == Wrapped(ValueOf(b)) && t.value.second == Wrapped(ValueOf(c))
  {
    hide T.ScanThree, TextOf, ValueOf, IsFigure;
    FigureIsSmall(b);
    FigureIsSmall(c);
    if IsFigure(a, 4) { ThreeAreScanned(a, b, c, '-', 4, tail); }
    if IsFigure(a, 2) {
      FigureIsSmall(a);
      ThreeAreScanned(a, b, c, ':', 2, tail);
    }
  }

  function Spelt(a: Figure, b: Figure, c: Figure, between: char): string {
    TextOf(a) + [between] + TextOf(b) + [between] + TextOf(c)
  }

  /** A date of less than ten bytes is read, and what follows it is looked for past the end of the text. */
  lemma {:induction false} ShortDateIsNotInFull(a: Figure, b: Figure, c: Figure)
    requires IsFigure(a, 4) && IsFigure(b, 2) && IsFigure(c, 2)
    requires |Spelt(a, b, c, '-')| <= 10
    ensures T.InFull(Spelt(a, b, c, '-')) <==> |Spelt(a, b, c, '-')| == 10
  {
    hide T.ReadDate, T.ReadTime, TextOf, IsFigure;
    FiguresAreRead(a, b, c, "");
    assert TextOf(a) + "-" + TextOf(b) + "-" + TextOf(c) + "" == Spelt(a, b, c, '-');
  }

  /** So is a time of less than eight bytes behind a date of ten. */
  lemma {:induction false} ShortTimeIsNotInFull(date: string, sep: char, a: Figure, b: Figure, c: Figure)
    requires |date| == 10 && (sep == ' ' || sep == 'T')
    requires IsFigure(a, 2) && IsFigure(b, 2) && IsFigure(c, 2)
    requires T.ReadDate(date + [sep] + Spelt(a, b, c, ':')).Some?
    ensures T.InFull(date + [sep] + Spelt(a, b, c, ':')) <==> |Spelt(a, b, c, ':')| >= 8
  {
    hide T.ReadDate, T.ReadTime, TextOf, IsFigure;
    FiguresAreRead(a, b, c, "");
    assert TextOf(a) + ":" + TextOf(b) + ":" + TextOf(c) + "" == Spelt(a, b, c, ':');
    var t := date + [sep] + Spelt(a, b, c, ':');
    assert t[11..] == Spelt(a, b, c, ':') && t[10] == sep;
  }

  lemma FigureIsSmall(f: Figure)
    requires IsFigure(f, 2)
    ensures -100 < ValueOf(f) < 100
  {
    hide DigitsValue, IsBlanks, Pow10;
    D.DigitsValueBound(f.digits);
    D.Pow10Grows(|f.digits|, 2);
    T.Thousands();
  }
}
