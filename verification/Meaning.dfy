/** What the literals of bound parameters mean, by a reader of SQL literals that knows nothing of how they are
    rendered: every parameter's literal is read back as the parameter (src/execute.c). */
module Meaning {
  import opened Text
  import L = Literals
  import D = Decimal

  /** What a literal says. A number is its digits over ten to the `fraction`, times ten to the `exponent`. */
  datatype SqlValue =
    | Null
    | Truth(on: bool)
    | Number(negative: bool, digits: string, fraction: nat, exponent: int)
    | Text(text: string)
    | Bytes(bytes: seq<L.Byte>)
    | Cast(text: string, as_: string)

  // The reader

  predicate IsGap(c: char) {
    c == ' ' || c == '\t'
  }

  function TrimFront(t: string): string {
    if t != "" && IsGap(t[0]) then TrimFront(t[1..]) else t
  }

  function TrimBack(t: string): string {
    if t != "" && IsGap(t[|t| - 1]) then TrimBack(t[..|t| - 1]) else t
  }

  /** An exponent, to the end. */
  function ReadExponent(t: string): Option<int> {
    if t == "" then Some(0)
    else if t[0] != 'e' && t[0] != 'E' then None
    else
      var negative := |t| > 1 && t[1] == '-';
      var u := if |t| > 1 && (t[1] == '-' || t[1] == '+') then t[2..] else t[1..];
      if u == "" || !AllDigits(u) then None else Some(if negative then 0 - DigitsValue(u) else DigitsValue(u))
  }

  /** Digits with perhaps a point among them: those before, those behind, and what follows. */
  function ReadDigits(u: string): (string, string, string) {
    var n := D.DigitRun(u);
    var v := u[n..];
    if v != "" && v[0] == '.' then
      var m := D.DigitRun(v[1..]);
      (u[..n], v[1..][..m], v[1..][m..])
    else (u[..n], "", v)
  }

  function Unsigned(t: string): string {
    if t != "" && (t[0] == '-' || t[0] == '+') then t[1..] else t
  }

  /** A number with blanks around it. */
  function ReadNumber(text: string): Option<SqlValue> {
    var t := TrimBack(TrimFront(text));
    var (whole, fraction, rest) := ReadDigits(Unsigned(t));
    if whole + fraction == "" || ReadExponent(rest).None? then None
    else Some(Number(t != "" && t[0] == '-', whole + fraction, |fraction|, ReadExponent(rest).value))
  }

  /** A string behind its opening quote, and what follows its closing one. */
  function ReadString(t: string): Option<(string, string)> {
    if t == "" then None
    else if t[0] == '\'' then
      if |t| > 1 && t[1] == '\'' then InFront('\'', ReadString(t[2..])) else Some(("", t[1..]))
    else if t[0] == '\\' then (if |t| > 1 then InFront(t[1], ReadString(t[2..])) else None)
    else InFront(t[0], ReadString(t[1..]))
  }

  function InFront(c: char, r: Option<(string, string)>): Option<(string, string)> {
    if r.None? then None else Some(([c] + r.value.0, r.value.1))
  }

  function Nibble(c: char): int {
    if '0' <= c <= '9' then c as int - '0' as int
    else if 'A' <= c <= 'F' then c as int - 'A' as int + 10
    else if 'a' <= c <= 'f' then c as int - 'a' as int + 10
    else -1
  }

  function ReadHex(t: string): Option<seq<L.Byte>> {
    if t == "" then Some([])
    else if |t| < 2 || Nibble(t[0]) < 0 || Nibble(t[1]) < 0 then None
    else
      var rest := ReadHex(t[2..]);
      if rest.None? then None else Some([16 * Nibble(t[0]) + Nibble(t[1])] + rest.value)
  }

  function ReadLiteral(t: string): Option<SqlValue> {
    if t == "NULL" then Some(Null)
    else if t == "TRUE" then Some(Truth(true))
    else if t == "FALSE" then Some(Truth(false))
    else if |t| >= 3 && t[0] == 'X' && t[1] == '\'' && t[|t| - 1] == '\'' then
      var bytes := ReadHex(t[2..|t| - 1]);
      if bytes.None? then None else Some(Bytes(bytes.value))
    else if t != "" && t[0] == '\'' then
      var r := ReadString(t[1..]);
      if r.None? then None
      else if r.value.1 == "" then Some(Text(r.value.0))
      else if |r.value.1| > 2 && r.value.1[..2] == "::" then Some(Cast(r.value.0, r.value.1[2..]))
      else None
    else if |t| >= 2 && t[0] == '(' && t[|t| - 1] == ')' then ReadNumber(t[1..|t| - 1])
    else ReadNumber(t)
  }

  // Numbers

  lemma {:induction false} TrimsAgree(t: string)
    ensures TrimFront(t) == L.SkipBlanks(t) && TrimBack(t) == L.DropBlanks(t)
    decreases |t|
  {
    if t != "" {
      TrimsAgree(t[1..]);
      TrimsAgree(t[..|t| - 1]);
    }
  }

  lemma {:induction false} RunsAgree(t: string)
    ensures L.SkipDigits(t) == t[D.DigitRun(t)..]
  {
    if t != "" {
      RunsAgree(t[1..]);
      if IsDigit(t[0]) { assert t[1..][D.DigitRun(t[1..])..] == t[D.DigitRun(t)..]; }
    }
  }

  lemma {:induction false} WholeRun(t: string)
    ensures AllDigits(t) <==> D.DigitRun(t) == |t|
  {
    if t != "" {
      WholeRun(t[1..]);
      if AllDigits(t) { assert IsDigit(t[0]); }
    }
  }

  lemma ExponentsAgree(t: string)
    ensures (t == "" || L.IsExponent(t)) <==> ReadExponent(t).Some?
  {
    hide DigitsValue;
    if t != "" {
      var u := L.SkipSign(t[1..]);
      RunsAgree(u);
      WholeRun(u);
      if |t| > 1 { assert t[1..][0] == t[1] && t[1..][1..] == t[2..]; }
    }
  }

  lemma DigitAmong(a: string, b: string)
    requires AllDigits(a) && AllDigits(b)
    ensures L.HasDigit(a) <==> a != ""
    ensures L.HasDigit(a + ("." + b)) <==> a + b != ""
  {
    if a != "" { assert IsDigit(a[0]) && (a + ("." + b))[0] == a[0]; }
    if b != "" { assert IsDigit(b[0]) && (a + ("." + b))[|a| + 1] == b[0]; }
  }

  lemma DecimalsAgree(u: string)
    ensures var (whole, fraction, rest) := ReadDigits(u);
            && AllDigits(whole) && AllDigits(fraction) && L.SkipDecimal(u) == rest
            && (u[..|u| - |rest|] == whole + ("." + fraction) || (u[..|u| - |rest|] == whole && fraction == ""))
  {
    hide D.DigitRun, L.SkipDigits, AllDigits, IsDigit;
    var n := D.DigitRun(u);
    var (a, v) := (u[..n], u[n..]);
    RunsAgree(u);
    assert u == a + v;
    if v != "" && v[0] == '.' {
      var more := v[1..];
      RunsAgree(more);
      var m := D.DigitRun(more);
      PointParts(a, v, more[..m], more[m..]);
    } else {
      FrontOf(a, v);
      NoneAreDigits();
    }
  }

  lemma NoneAreDigits()
    ensures AllDigits("")
  {
  }

  lemma FrontOf(a: string, w: string)
    ensures (a + w)[..|a + w| - |w|] == a
  {
  }

  lemma PointParts(a: string, v: string, f: string, w: string)
    requires v != "" && v[0] == '.' && v[1..] == f + w
    ensures (a + v)[..|a + v| - |w|] == a + ("." + f)
  {
    assert v == "." + (f + w);
    assert a + v == (a + ("." + f)) + w;
    FrontOf(a + ("." + f), w);
  }

  lemma DigitIsThere(u: string)
    ensures var (whole, fraction, rest) := ReadDigits(u);
            L.SkipDecimal(u) == rest && (L.HasDigit(u[..|u| - |rest|]) <==> whole + fraction != "")
  {
    hide L.SkipDecimal, L.HasDigit, AllDigits, ReadDigits;
    DecimalsAgree(u);
    var (whole, fraction, rest) := ReadDigits(u);
    DigitAmong(whole, fraction);
    if fraction == "" { assert whole + fraction == whole; }
  }

  /** A text is taken for a number exactly where it is one to read. */
  lemma {:induction false} NumbersAreRead(text: string)
    ensures L.NumericLiteral(text) <==> ReadNumber(text).Some?
  {
    hide L.SkipDecimal, L.HasDigit, L.IsExponent, ReadExponent, ReadDigits;
    hide TrimFront, TrimBack, L.SkipBlanks, L.DropBlanks;
    TrimsAgree(text);
    TrimsAgree(L.SkipBlanks(text));
    var u := Unsigned(TrimBack(TrimFront(text)));
    DigitIsThere(u);
    ExponentsAgree(ReadDigits(u).2);
  }

  /** The number is that integer. */
  predicate IsInteger(v: Option<SqlValue>, n: int) {
    && v.Some? && v.value.Number? && v.value.fraction == 0 && v.value.exponent == 0 && AllDigits(v.value.digits)
    && DigitsValue(v.value.digits) == (if n < 0 then -n else n) && v.value.negative == (n < 0)
  }

  lemma NoGaps(t: string)
    requires t != "" && !IsGap(t[0]) && !IsGap(t[|t| - 1])
    ensures TrimBack(TrimFront(t)) == t
  {
  }

  lemma DigitsAreRead(d: string)
    requires AllDigits(d)
    ensures ReadDigits(d) == (d, "", "")
  {
    hide D.DigitRun;
    WholeRun(d);
    assert d[|d|..] == "" && d[..|d|] == d;
  }

  lemma {:induction false} IntegerIsRead(n: int)
    ensures IsInteger(ReadNumber(Signed(n)), n)
  {
    hide Digits, ReadDigits, DigitsValue, TrimBack, TrimFront;
    var d := Digits(if n < 0 then -n else n);
    DigitsRoundTrip(if n < 0 then -n else n);
    FirstIsDigit(d);
    var t := Signed(n);
    assert if n < 0 then t == "-" + d && t[1..] == d else t == d;
    NoGaps(t);
    DigitsAreRead(d);
    assert d + "" == d;
  }

  lemma FirstIsDigit(d: string)
    requires AllDigits(d) && d != ""
    ensures IsDigit(d[0]) && IsDigit(d[|d| - 1])
  {
  }

  /** A number's literal, in parentheses or not, is read as the number's own text is. */
  lemma NumberTextIsRead(text: string)
    requires L.NumericLiteral(text)
    ensures ReadLiteral(L.NumberText(text)) == ReadNumber(text) && ReadNumber(text).Some?
  {
    hide L.NumericLiteral, ReadNumber, L.SkipBlanks, L.IsNumberByte;
    NumbersAreRead(text);
    L.NumericLiteralBytes(text);
    NotEmpty(text);
    NumberByteIsNoWord(text[0]);
    var t := L.NumberText(text);
    if t != text {
      assert t[1..|t| - 1] == text;
      assert t[0] == '(';
    }
  }

  lemma NotEmpty(text: string)
    requires ReadNumber(text).Some?
    ensures text != ""
  {
  }

  lemma NumberByteIsNoWord(c: char)
    requires L.IsNumberByte(c)
    ensures c !in {'N', 'T', 'F', 'X', '\'', '('}
  {
  }

  lemma SignedIsNumeric(n: int)
    ensures L.NumericLiteral(Signed(n))
  {
    hide ReadNumber, L.NumericLiteral, Signed;
    IntegerIsRead(n);
    NumbersAreRead(Signed(n));
  }

  lemma DigitsAreNumber(u: nat)
    ensures IsInteger(ReadLiteral(Digits(u)), u)
  {
    hide Digits, ReadNumber;
    IntegerIsRead(u);
    assert IsDigit(Digits(u)[0]);
  }

  // Strings and bytes

  lemma EscapeStep(c: char, text: string, tail: string)
    ensures L.Escape([c] + text) + tail
            == (if c == '\'' then "''" else if c == '\\' then "\\\\" else [c]) + (L.Escape(text) + tail)
  {
    assert ([c] + text)[1..] == text && ([c] + text)[..1] == [c];
  }

  lemma {:induction false} EscapeIsRead(text: string, rest: string)
    requires rest == "" || rest[0] != '\''
    ensures ReadString(L.Escape(text) + ("'" + rest)) == Some((text, rest))
  {
    hide ReadString, L.Escape;
    if text == "" {
      NothingIsRead(rest);
    } else {
      var (c, more) := (text[0], L.Escape(text[1..]) + ("'" + rest));
      EscapeIsRead(text[1..], rest);
      assert text == [c] + text[1..];
      EscapeStep(c, text[1..], "'" + rest);
      StepIsRead(c, more);
    }
  }

  lemma NothingIsRead(rest: string)
    requires rest == "" || rest[0] != '\''
    ensures ReadString(L.Escape("") + ("'" + rest)) == Some(("", rest))
  {
    assert "" + ("'" + rest) == "'" + rest && ("'" + rest)[1..] == rest;
  }

  lemma StepIsRead(c: char, more: string)
    ensures c == '\'' ==> ReadString("''" + more) == InFront(c, ReadString(more))
    ensures c == '\\' ==> ReadString("\\\\" + more) == InFront(c, ReadString(more))
    ensures c != '\'' && c != '\\' ==> ReadString([c] + more) == InFront(c, ReadString(more))
  {
    hide InFront;
    assert ("''" + more)[2..] == more;
    assert ("\\\\" + more)[2..] == more;
    assert ([c] + more)[1..] == more;
  }

  lemma StringIsRead(text: string, cast: string)
    ensures ReadLiteral(L.StringLiteral(text)) == Some(Text(text))
    ensures cast != "" ==> ReadLiteral(L.StringLiteral(text) + "::" + cast) == Some(Cast(text, cast))
  {
    hide L.Escape, ReadString, ReadNumber, ReadHex;
    EscapeIsRead(text, "");
    EscapeIsRead(text, "::" + cast);
    var t := L.StringLiteral(text);
    assert t[1..] == L.Escape(text) + ("'" + "");
    var u := t + "::" + cast;
    assert u[1..] == L.Escape(text) + ("'" + ("::" + cast));
    assert ("::" + cast)[..2] == "::" && ("::" + cast)[2..] == cast;
    assert t[0] == '\'' && u[0] == '\'';
  }

  lemma NibbleIsRead(n: int)
    requires 0 <= n < 16
    ensures Nibble(L.HexDigit(n)) == n
  {
  }

  lemma {:induction false} HexIsRead(bytes: seq<L.Byte>)
    ensures ReadHex(L.Hex(bytes)) == Some(bytes)
  {
    hide L.HexDigit, Nibble;
    if bytes != [] {
      var (b, more) := (bytes[0], L.Hex(bytes[1..]));
      HexIsRead(bytes[1..]);
      NibbleIsRead(b / 16);
      NibbleIsRead(b % 16);
      var pair := [L.HexDigit(b / 16), L.HexDigit(b % 16)];
      assert L.Hex(bytes) == pair + more && (pair + more)[2..] == more;
      assert bytes == [b] + bytes[1..];
    }
  }

  lemma BinaryIsRead(bytes: seq<L.Byte>)
    ensures ReadLiteral("X'" + L.Hex(bytes) + "'") == Some(Bytes(bytes))
  {
    hide L.Hex, ReadHex, ReadString, ReadNumber;
    HexIsRead(bytes);
    var t := "X'" + L.Hex(bytes) + "'";
    assert t[2..|t| - 1] == L.Hex(bytes) && t[0] == 'X' && t[1] == '\'' && t[|t| - 1] == '\'';
  }

  lemma TemporalIsRead(v: L.CValue)
    requires L.IsStruct(v)
    ensures var text := L.TemporalText(v);
            ReadLiteral(L.TemporalLiteral(v))
            == Some(Cast(text, if v.Date? then "DATE" else if v.Time? then "TIME"
                               else if |text| == 47 then "TIMESTAMP_NT" else "TIMESTAMP_NTZ"))
  {
    hide L.TemporalText, L.TemporalLiteral, L.Escape, ReadLiteral;
    var text := L.TemporalText(v);
    L.TemporalLength(v);
    var cast := L.TemporalLiteralIs(v);
    TemporalHasNoQuotes(v);
    L.EscapeNothing(text);
    StringIsRead(text, cast);
    assert "'" + text + "'::" + cast == "'" + text + "'" + "::" + cast;
  }

  lemma TemporalHasNoQuotes(v: L.CValue)
    requires L.IsStruct(v)
    ensures '\'' !in L.TemporalText(v) && '\\' !in L.TemporalText(v)
  {
    hide L.TemporalText;
    L.TemporalUnquoted(v);
  }

  // Parameters

  /** The text a character parameter stands for. */
  function Characters(buffer: string, indicator: int): string
    requires indicator <= |buffer| && (indicator >= 0 || indicator == -3)
  {
    if indicator == -3 then CString(buffer) else buffer[..indicator]
  }

  /** What a parameter is, said of the parameter alone: the value of its C type, taken as its SQL type where it is
      characters. */
  predicate Says(v: Option<SqlValue>, p: L.Param)
    requires L.WellBound(p) && (p.indicator >= 0 || p.indicator == -3 || p.indicator == -1 || p.value.NoBuffer?)
  {
    if p.indicator == -1 || p.value.NoBuffer? then v == Some(Null)
    else match p.value
      case SignedInt(n) => IsInteger(v, n)
      case UnsignedInt(u) => IsInteger(v, u)
      case Bit(on) => v == Some(Truth(on))
      case Binary(bytes) => v == Some(Bytes(if p.indicator >= 0 then bytes[..p.indicator] else []))
      case Date(_, _, _) => v == Some(Cast(L.TemporalText(p.value), "DATE"))
      case Time(_, _, _) => v == Some(Cast(L.TemporalText(p.value), "TIME"))
      case Timestamp(_, _, _) =>
        var text := L.TemporalText(p.value);
        v == Some(Cast(text, if |text| == 47 then "TIMESTAMP_NT" else "TIMESTAMP_NTZ"))
      case Printed(text) => if ReadNumber(text).Some? then v == ReadNumber(text) else v == None
      case Chars(buffer) =>
        SaysText(v, p.sqlType, Characters(buffer, p.indicator))
      case _ => false
  }

  /** Characters taken as their SQL type. */
  predicate SaysText(v: Option<SqlValue>, sqlType: L.SqlType, text: string) {
    match sqlType
    case NumericType => v.Some? && v == ReadNumber(text)
    case OtherType => v == Some(Text(text))
    case DateType => v == Some(Cast(text, "DATE"))
    case TimeType => v == Some(Cast(text, "TIME"))
    case TimestampType => v == Some(Cast(text, "TIMESTAMP_NTZ"))
  }

  /** Which parameters become a literal at all. */
  predicate IsAccepted(p: L.Param)
    requires L.WellBound(p)
  {
    && p.bound
    && (p.indicator == -1 || p.value.NoBuffer?
        || (&& (p.indicator >= 0 || p.indicator == -3) && !p.value.Wide? && !p.value.UnknownType?
            && (p.value.Chars? && p.sqlType.NumericType? ==>
                  ReadNumber(Characters(p.value.buffer, p.indicator)).Some?)))
  }

  /** Every parameter, of any C type, SQL type and indicator: it becomes a literal exactly where it is one the driver
      takes, and read back the literal is the parameter. */
  lemma {:induction false} LiteralSays(p: L.Param)
    requires L.WellBound(p)
    ensures L.Render(p).Success? <==> IsAccepted(p)
    ensures IsAccepted(p) ==> Says(ReadLiteral(L.Render(p).value), p)
  {
    hide ReadLiteral, ReadNumber, L.NumericLiteral, L.NumberText, L.StringLiteral, L.Hex, L.TemporalText,
      L.TemporalLiteral, Digits, Signed, L.RenderChars, L.IsStruct;
    WordsAreRead();
    if IsAccepted(p) && p.indicator != -1 {
      match p.value
      case SignedInt(n) =>
        IntegerIsRead(n);
        SignedIsNumeric(n);
        NumberTextIsRead(Signed(n));
      case UnsignedInt(u) => DigitsAreNumber(u);
      case Binary(bytes) => BinaryIsRead(if p.indicator >= 0 then bytes[..p.indicator] else []);
      case Date(_, _, _) | Time(_, _, _) | Timestamp(_, _, _) => TemporalIsRead(p.value);
      case Printed(text) => PrintedIsRead(text);
      case _ =>
    }
    if p.value.Chars? && (p.indicator >= 0 || p.indicator == -3) {
      CharsAreRead(p.sqlType, Characters(p.value.buffer, p.indicator));
    }
  }

  /** Why the others do not: no binding; data at execution or a default, which the driver does not take; any other
      length below nought; a C type it does not know or take; or characters bound as a number that are none. */
  lemma RefusalIs(p: L.Param)
    requires L.WellBound(p) && !IsAccepted(p)
    ensures L.Render(p) == L.Failure(
              if !p.bound then L.MissingBinding
              else if p.indicator == -2 || p.indicator == -5 || p.indicator <= -100 then L.NotSupported
              else if p.indicator < 0 && p.indicator != -3 then L.BadLength
              else if p.value.Wide? || p.value.UnknownType? then L.NotSupported
              else L.NotANumber)
  {
    hide ReadNumber, L.NumericLiteral, L.NumberText, L.StringLiteral, L.IsStruct, L.Hex, L.TemporalLiteral, Signed;
    if p.value.Chars? && (p.indicator >= 0 || p.indicator == -3) {
      CharsAreRead(p.sqlType, Characters(p.value.buffer, p.indicator));
    }
  }

  lemma WordsAreRead()
    ensures ReadLiteral("NULL") == Some(Null)
    ensures ReadLiteral("TRUE") == Some(Truth(true)) && ReadLiteral("FALSE") == Some(Truth(false))
  {
    hide ReadNumber, ReadString, ReadHex;
  }

  lemma PrintedIsRead(text: string)
    requires L.NumericLiteral(text) || text in {"inf", "-inf", "nan", "-nan"}
    ensures ReadLiteral(L.NumberText(text)) == if ReadNumber(text).Some? then ReadNumber(text) else None
  {
    hide L.NumericLiteral, ReadNumber, ReadLiteral, L.NumberText;
    NumbersAreRead(text);
    if L.NumericLiteral(text) { NumberTextIsRead(text); } else { WordIsNoNumber(text); }
  }

  lemma WordIsNoNumber(text: string)
    requires text in {"inf", "-inf", "nan", "-nan"}
    ensures ReadNumber(text) == None && ReadLiteral(L.NumberText(text)) == None
  {
    NoGaps(text);
    var u := if text[0] == '-' then text[1..] else text;
    assert D.DigitRun(u) == 0;
    var t := L.NumberText(text);
    if text[0] == '-' { assert t[1..|t| - 1] == text; }
  }

  lemma CharsAreRead(sqlType: L.SqlType, text: string)
    ensures L.RenderChars(sqlType, text).Success? <==> (sqlType.NumericType? ==> ReadNumber(text).Some?)
    ensures L.RenderChars(sqlType, text).Success? ==>
              SaysText(ReadLiteral(L.RenderChars(sqlType, text).value), sqlType, text)
  {
    hide ReadLiteral, ReadNumber, L.NumericLiteral, L.NumberText, L.StringLiteral;
    NumbersAreRead(text);
    if sqlType.NumericType? {
      if L.NumericLiteral(text) { NumberTextIsRead(text); }
    } else {
      StringIsRead(text, if sqlType.OtherType? then "" else L.CastTo(sqlType));
    }
  }
}
