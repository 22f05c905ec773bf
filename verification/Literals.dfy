/** Bound parameters rendered as SQL literals, and the binding itself (src/execute.c). */
module Literals {
  import opened Text
  import opened Scanner
  import opened Substitution

  type Byte = x: int | 0 <= x < 256

  /** The SQL types append_param_literal tells apart. */
  datatype SqlType = DateType | TimeType | TimestampType | NumericType | OtherType

  /** The bound C value, by the C type it is bound as. A character buffer may hold anything; `Printed`
      is a float or a double as printf writes it. */
  datatype CValue =
    | NoBuffer
    | Chars(buffer: string)
    | Wide
    | SignedInt(n: int)
    | UnsignedInt(u: nat)
    | Printed(text: string)
    | Bit(on: bool)
    | Binary(bytes: seq<Byte>)
    | Date(year: int, month: nat, day: nat)
    | Time(hour: nat, minute: nat, second: nat)
    | Timestamp(date: CValue, time: CValue, fraction: nat)
    | UnknownType

  datatype Param = Param(bound: bool, sqlType: SqlType, value: CValue, indicator: int)

  const SQL_NULL_DATA := -1
  const SQL_NTS := -3

  datatype BindError = MissingBinding | NotSupported | BadLength | NotANumber

  datatype Result<+T> = Success(value: T) | Failure(error: BindError) {
    predicate IsFailure() { Failure? }
    function PropagateFailure<U>(): Result<U> requires Failure? { Failure(error) }
    function Extract(): T requires Success? { value }
  }

  // Numbers

  predicate IsBlank(c: char) {
    c == ' ' || c == '\t'
  }

  function SkipBlanks(t: string): (r: string)
    ensures |r| <= |t|
  {
    if t != "" && IsBlank(t[0]) then SkipBlanks(t[1..]) else t
  }

  function DropBlanks(t: string): (r: string)
    ensures |r| <= |t|
  {
    if t != "" && IsBlank(t[|t| - 1]) then DropBlanks(t[..|t| - 1]) else t
  }

  function SkipDigits(t: string): (r: string)
    ensures |r| <= |t|
  {
    if t != "" && IsDigit(t[0]) then SkipDigits(t[1..]) else t
  }

  function SkipSign(t: string): string {
    if t != "" && (t[0] == '+' || t[0] == '-') then t[1..] else t
  }

  /** Digits, at most one point among them. */
  function SkipDecimal(t: string): (r: string)
    ensures |r| <= |t|
  {
    var u := SkipDigits(t);
    if u != "" && u[0] == '.' then SkipDigits(u[1..]) else u
  }

  predicate HasDigit(t: string) {
    exists i :: 0 <= i < |t| && IsDigit(t[i])
  }

  predicate IsExponent(t: string) {
    && t != "" && (t[0] == 'e' || t[0] == 'E')
    && SkipSign(t[1..]) != ""
    && SkipDigits(SkipSign(t[1..])) == ""
  }

  /** A SQL numeric literal: an optional sign, digits with at most one point, an optional exponent,
      with blanks allowed around it. */
  predicate NumericLiteral(text: string) {
    var t := SkipSign(DropBlanks(SkipBlanks(text)));
    var u := SkipDecimal(t);
    && HasDigit(t[..|t| - |u|])
    && (u == "" || IsExponent(u))
  }

  function NumberText(text: string): string {
    var t := SkipBlanks(text);
    if t != "" && t[0] == '-' then "(" + text + ")" else text
  }

  // Strings

  function Escape(text: string): string {
    if text == "" then ""
    else (if text[0] == '\'' then "''" else if text[0] == '\\' then "\\\\" else text[..1]) + Escape(text[1..])
  }

  function StringLiteral(text: string): string {
    "'" + Escape(text) + "'"
  }

  function HexDigit(n: int): char
    requires 0 <= n < 16
  {
    "0123456789ABCDEF"[n]
  }

  function Hex(bytes: seq<Byte>): string {
    if bytes == [] then "" else [HexDigit(bytes[0] / 16), HexDigit(bytes[0] % 16)] + Hex(bytes[1..])
  }

  // Dates and times

  function ZeroPad(digits: string, width: int): string
    decreases width - |digits|
  {
    if |digits| < width then ZeroPad("0" + digits, width) else digits
  }

  /** printf's %0<width>d. */
  function Padded(n: int, width: int): string {
    if n < 0 then "-" + ZeroPad(Digits(-n), width - 1) else ZeroPad(Digits(n), width)
  }

  /** The ISO text of a date, a time or a timestamp. */
  function TemporalText(v: CValue): string
    requires v.Date? || v.Time? || (v.Timestamp? && v.date.Date? && v.time.Time?)
  {
    match v
    case Date(year, month, day) => Padded(year, 4) + "-" + Padded(month, 2) + "-" + Padded(day, 2)
    case Time(hour, minute, second) => Padded(hour, 2) + ":" + Padded(minute, 2) + ":" + Padded(second, 2)
    case Timestamp(date, time, fraction) =>
      TemporalText(date) + "T" + TemporalText(time) + "." + Padded(fraction, 9)
  }

  function TemporalCast(v: CValue): string
    requires v.Date? || v.Time? || v.Timestamp?
  {
    if v.Date? then "DATE" else if v.Time? then "TIME" else "TIMESTAMP_NTZ"
  }

  function CastTo(sqlType: SqlType): string {
    match sqlType
    case DateType => "DATE"
    case TimeType => "TIME"
    case TimestampType => "TIMESTAMP_NTZ"
    case NumericType | OtherType => ""
  }

  /** A temporal literal as printed into its buffer of 64 bytes. */
  function TemporalLiteral(v: CValue): string
    requires v.Date? || v.Time? || (v.Timestamp? && v.date.Date? && v.time.Time?)
  {
    Fit("'" + TemporalText(v) + "'::" + TemporalCast(v), 64)
  }

  /** The bytes a character parameter stands for: up to the terminator for SQL_NTS, else as many as
      the indicator says. */
  function CharsOf(buffer: string, indicator: int): string
    requires 0 <= indicator <= |buffer| || indicator == SQL_NTS
  {
    if indicator == SQL_NTS then CString(buffer) else buffer[..indicator]
  }

  /** The fields of a date and a time have sixteen bits, the year's signed; a fraction has thirty-two. */
  predicate IsStruct(v: CValue) {
    match v
    case Date(year, month, day) => -0x8000 <= year < 0x8000 && month < 0x10000 && day < 0x10000
    case Time(hour, minute, second) => hour < 0x10000 && minute < 0x10000 && second < 0x10000
    case Timestamp(date, time, fraction) =>
      date.Date? && time.Time? && IsStruct(date) && IsStruct(time) && fraction < 0x1_0000_0000
    case _ => false
  }

  /** What the caller owes: an indicator that says no more than the buffer holds, a struct of the
      bound C type, and a float as printf writes one. */
  predicate WellBound(p: Param) {
    match p.value
    case Chars(buffer) => p.indicator <= |buffer|
    case Binary(bytes) => p.indicator <= |bytes|
    case Printed(text) => NumericLiteral(text) || text in {"inf", "-inf", "nan", "-nan"}
    case Date(_, _, _) | Time(_, _, _) | Timestamp(_, _, _) => IsStruct(p.value)
    case _ => true
  }

  function RenderChars(sqlType: SqlType, text: string): Result<string> {
    if sqlType.NumericType? then
      (if NumericLiteral(text) then Success(NumberText(text)) else Failure(NotANumber))
    else if sqlType.OtherType? then Success(StringLiteral(text))
    else Success(StringLiteral(text) + "::" + CastTo(sqlType))
  }

  /** The literal a bound parameter becomes. */
  function Render(p: Param): Result<string>
    requires WellBound(p)
  {
    if !p.bound then Failure(MissingBinding)
    else if p.indicator == SQL_NULL_DATA || p.value.NoBuffer? then Success("NULL")
    else if p.indicator == -2 || p.indicator <= -100 || p.indicator == -5 then Failure(NotSupported)
    else if p.indicator < 0 && p.indicator != SQL_NTS then Failure(BadLength)
    else match p.value
      case Chars(buffer) => RenderChars(p.sqlType, CharsOf(buffer, p.indicator))
      case SignedInt(n) => Success(NumberText(Signed(n)))
      case UnsignedInt(u) => Success(Digits(u))
      case Printed(text) => Success(NumberText(text))
      case Bit(on) => Success(if on then "TRUE" else "FALSE")
      case Binary(bytes) =>
        Success("X'" + Hex(bytes[..if p.indicator >= 0 then p.indicator else 0]) + "'")
      case Date(_, _, _) | Time(_, _, _) | Timestamp(_, _, _) =>
        Success(TemporalLiteral(p.value))
      case Wide | UnknownType => Failure(NotSupported)
      case NoBuffer => Success("NULL")
  }

  // Every literal may replace a placeholder

  /** Text without quotes, openings of comments or bodies, placeholders or cuts. */
  predicate Plain(t: string) {
    && (forall i :: 0 <= i < |t| ==> t[i] !in {'\'', '"', '/', '$', '?', ';'})
    && (forall i :: 0 <= i < |t| - 1 ==> !(t[i] == '-' && t[i + 1] == '-'))
  }

  lemma {:induction false} LastIsSuffix(t: string)
    requires t != ""
    ensures var l := Last(Scan(t)); 0 < |l| <= |t| && l == t[|t| - |l|..] && IsToken(l)
  {
    hide HeadLen;
    var n := HeadLen(t);
    HeadAtomic(t);
    if n < |t| {
      LastIsSuffix(t[n..]);
      var l := Last(Scan(t[n..]));
      assert Scan(t) == [t[..n]] + Scan(t[n..]);
      assert t[n..][|t| - n - |l|..] == t[|t| - |l|..];
    } else {
      assert t[n..] == "" && t[..n] == t;
      assert Scan(t) == [t] + Scan("");
    }
  }

  lemma {:induction false} TokenIsPart(t: string, x: string)
    requires x in Scan(t)
    ensures x != "" && exists i :: 0 <= i < |t| && t[i] == x[0]
  {
    var n := HeadLen(t);
    if x == t[..n] {
      assert t[0] == x[0];
    } else {
      TokenIsPart(t[n..], x);
      var i :| 0 <= i < |t[n..]| && t[n..][i] == x[0];
      assert t[n + i] == x[0];
    }
  }

  /** Plain text that ends in neither a dash nor in the middle of anything may be spliced. */
  lemma PlainIsSpliceable(t: string)
    requires Plain(t) && t != ""
    requires t[0] !in {'-', '*'} && t[|t| - 1] != '-'
    ensures Spliceable(t)
  {
    hide Scan, HeadLen;
    PlainHoldsNeither(t);
    LastIsSuffix(t);
    var l := Last(Scan(t));
    PlainSuffix(t, |t| - |l|);
    forall y: string | y != "" && !Hugs(y[0]) ensures Sealed(l, y) {
      PlainTokenSealed(l, y);
    }
  }

  lemma PlainHoldsNeither(t: string)
    requires Plain(t)
    ensures "?" !in Scan(t) && ";" !in Scan(t)
  {
    hide Scan, HeadLen;
    if "?" in Scan(t) { TokenIsPart(t, "?"); }
    if ";" in Scan(t) { TokenIsPart(t, ";"); }
  }

  lemma PlainSuffix(t: string, k: nat)
    requires Plain(t) && k < |t|
    ensures Plain(t[k..]) && t[k..][|t| - k - 1] == t[|t| - 1]
  {
    var l := t[k..];
    forall i | 0 <= i < |l| - 1 ensures !(l[i] == '-' && l[i + 1] == '-') {
      assert l[i] == t[k + i] && l[i + 1] == t[k + i + 1];
    }
  }

  lemma PlainTokenSealed(l: string, y: string)
    requires IsToken(l) && Plain(l) && l[|l| - 1] != '-'
    requires y != "" && !Hugs(y[0])
    ensures Sealed(l, y)
  {
    if OpeningOf(l).Line? {
      DashesAreNotPlain(l);
    } else if OpeningOf(l).Name? {
      assert l[1..] + "" == l[1..];
      NamesOnly(l[1..], "");
      NameRun(l[1..], y[..1]);
      assert (l + y[..1])[1..] == l[1..] + y[..1];
    }
  }

  lemma DashesAreNotPlain(t: string)
    requires |t| > 1 && t[0] == '-' && t[1] == '-'
    ensures !Plain(t)
  {
    var i := 0;
    assert t[i] == '-' && t[i + 1] == '-';
  }

  lemma {:induction false} NameRun(x: string, b: string)
    requires forall i :: 0 <= i < |x| ==> IsNameByte(x[i])
    requires b == "" || !IsNameByte(b[0])
    ensures NameRest(x + b) == |x|
  {
    if x == "" {
      assert x + b == b;
    } else {
      assert (x + b)[1..] == x[1..] + b;
      NameRun(x[1..], b);
    }
  }

  /** One escaped byte, stepped over by the scanner. */
  function EscapeByte(c: char): string {
    if c == '\'' then "''" else if c == '\\' then "\\\\" else [c]
  }

  lemma EscapeSteps(text: string)
    ensures Escape("") == ""
    ensures text != "" ==> Escape(text) == EscapeByte(text[0]) + Escape(text[1..])
  {
    if text != "" { assert text[..1] == [text[0]]; }
  }

  lemma EscapedByteRuns(c: char, rest: string)
    ensures StringRest(EscapeByte(c) + rest) == |EscapeByte(c)| + StringRest(rest)
  {
    var e := EscapeByte(c);
    assert (e + rest)[|e|..] == rest;
  }

  lemma {:induction false} EscapeRuns(text: string, tail: string)
    ensures StringRest(Escape(text) + tail) == |Escape(text)| + StringRest(tail)
  {
    hide Escape, EscapeByte, StringRest;
    EscapeSteps(text);
    if text == "" {
      assert "" + tail == tail;
    } else {
      var (e, more) := (EscapeByte(text[0]), Escape(text[1..]));
      assert e + more + tail == e + (more + tail);
      EscapeRuns(text[1..], tail);
      EscapedByteRuns(text[0], more + tail);
    }
  }

  /** A rendered string is one token whatever it holds, as long as no quote follows it. */
  lemma StringIsOneToken(text: string, y: string)
    requires y != "" && y[0] != '\''
    ensures IsToken(StringLiteral(text)) && Sealed(StringLiteral(text), y)
  {
    hide Escape, HeadLen, Scan, StringRest;
    var x := StringLiteral(text);
    EscapeRuns(text, "'");
    EscapeRuns(text, "'" + y[..1]);
    assert x[1..] == Escape(text) + "'";
    assert (x + y[..1])[1..] == Escape(text) + ("'" + y[..1]);
    StringHead(x, Escape(text) + "'");
    StringHead(x + y[..1], Escape(text) + ("'" + y[..1]));
    ClosingQuote(y);
  }

  /** What the inside of a string literal says: a backslash stands for the byte behind it, two quotes for one. */
  function Unescape(t: string): string {
    if t == "" then ""
    else if |t| > 1 && (t[0] == '\\' || (t[0] == '\'' && t[1] == '\'')) then t[1..2] + Unescape(t[2..])
    else t[..1] + Unescape(t[1..])
  }

  function StringValue(literal: string): string
    requires |literal| >= 2
  {
    Unescape(literal[1..|literal| - 1])
  }

  /** The literal of a text says that text, whatever it holds. */
  lemma {:induction false} StringSaysText(text: string)
    ensures StringValue(StringLiteral(text)) == text
  {
    var x := StringLiteral(text);
    assert x[1..|x| - 1] == Escape(text);
    EscapeIsUndone(text);
  }

  lemma {:induction false} EscapeIsUndone(text: string)
    ensures Unescape(Escape(text)) == text
  {
    if text != "" {
      var (c, more) := (text[0], Escape(text[1..]));
      EscapeIsUndone(text[1..]);
      assert text == [c] + text[1..];
      EscapedFirst(c, more);
      if c == '\'' { assert Escape(text) == "''" + more; }
      else if c == '\\' { assert Escape(text) == "\\\\" + more; }
      else { assert Escape(text) == [c] + more; }
    }
  }

  lemma EscapedFirst(c: char, more: string)
    ensures c == '\'' ==> Unescape("''" + more) == [c] + Unescape(more)
    ensures c == '\\' ==> Unescape("\\\\" + more) == [c] + Unescape(more)
    ensures c != '\'' && c != '\\' ==> Unescape([c] + more) == [c] + Unescape(more)
  {
    assert ("''" + more)[2..] == more && ("''" + more)[1..2] == "'";
    assert ("\\\\" + more)[2..] == more && ("\\\\" + more)[1..2] == "\\";
    assert ([c] + more)[1..] == more && ([c] + more)[..1] == [c];
  }

  lemma StringHead(x: string, rest: string)
    requires x != "" && x[0] == '\'' && x[1..] == rest
    ensures HeadLen(x) == 1 + StringRest(rest)
  {
    hide StringRest;
  }

  lemma ClosingQuote(y: string)
    requires y != "" && y[0] != '\''
    ensures StringRest("'") == 1 && StringRest("'" + y[..1]) == 1
  {
  }

  lemma WordIsToken(w: string, y: string)
    requires IsWord(w)
    requires y != "" && !IsNameByte(y[0])
    ensures IsToken(w) && Sealed(w, y)
  {
    NameRun(w[1..], "");
    assert w[1..] + "" == w[1..];
    NameRun(w[1..], y[..1]);
    assert (w + y[..1])[1..] == w[1..] + y[..1];
  }

  lemma {:induction false} ChainIsSpliceable(ts: seq<string>, text: string)
    requires ts != [] && Chain(ts) && text == Concat(ts)
    requires "?" !in ts && ";" !in ts && ts[0][0] !in {'-', '/', '*', '$'}
    requires forall y: string :: y != "" && !Hugs(y[0]) ==> Sealed(Last(ts), y)
    ensures Spliceable(text) && Scan(text) == ts
  {
    RescanExactly(ts);
    ConcatHead(ts);
    assert text[0] == text[..1][0] == ts[0][..1][0];
  }

  lemma StringIsSpliceable(text: string)
    ensures Spliceable(StringLiteral(text))
    ensures Scan(StringLiteral(text)) == [StringLiteral(text)]
  {
    var x := StringLiteral(text);
    StringIsOneToken(text, " ");
    assert Concat([x]) == x + "" == x;
    forall y: string | y != "" && !Hugs(y[0]) ensures Sealed(x, y) { StringIsOneToken(text, y); }
    ChainIsSpliceable([x], x);
  }

  lemma ConcatFour(a: string, b: string, c: string, d: string)
    ensures Concat([a, b, c, d]) == a + b + c + d
    ensures Concat([a, b]) == a + b
  {
    assert [a, b, c, d][1..] == [b, c, d] && [b, c, d][1..] == [c, d] && [c, d][1..] == [d];
    assert [a, b][1..] == [b] && [b][1..] == [] && [d][1..] == [];
    assert Concat([d]) == d + "" == d && Concat([b]) == b + "" == b;
    assert Concat([c, d]) == c + d;
    assert Concat([b, c, d]) == b + (c + d);
    assert a + (b + (c + d)) == a + b + c + d;
  }

  predicate IsWord(w: string) {
    w != "" && IsNameStart(w[0]) && forall i :: 0 <= i < |w| ==> IsNameByte(w[i])
  }

  lemma ColonIsToken(y: string)
    requires y != ""
    ensures IsToken(":") && Sealed(":", y)
  {
  }

  lemma CastIsSpliceable(text: string, cast: string)
    requires IsWord(cast)
    ensures Spliceable(StringLiteral(text) + "::" + cast)
  {
    var x := StringLiteral(text);
    var ts := [x, ":", ":", cast];
    hide Scan, HeadLen;
    StringIsOneToken(text, ":");
    ConcatFour(x, ":", ":", cast);
    assert x + ":" + ":" + cast == x + "::" + cast;
    WordIsToken(cast, " ");
    ColonIsToken(":");
    ColonIsToken(cast);
    assert cast != "?" && cast != ";";
    forall y: string | y != "" && !Hugs(y[0]) ensures Sealed(Last(ts), y) { WordIsToken(cast, y); }
    assert Chain(ts);
    ChainIsSpliceable(ts, x + "::" + cast);
  }

  lemma {:induction false} HexIsPlain(bytes: seq<Byte>)
    ensures |Hex(bytes)| == 2 * |bytes|
    ensures forall i :: 0 <= i < |Hex(bytes)| ==> IsDigit(Hex(bytes)[i]) || 'A' <= Hex(bytes)[i] <= 'F'
  {
    if bytes != [] { HexIsPlain(bytes[1..]); }
  }

  lemma {:induction false} EscapeNothing(text: string)
    requires '\'' !in text && '\\' !in text
    ensures Escape(text) == text
  {
    if text != "" {
      EscapeNothing(text[1..]);
      assert text == text[..1] + text[1..];
    }
  }

  lemma BinaryIsSpliceable(bytes: seq<Byte>)
    ensures Spliceable("X'" + Hex(bytes) + "'")
    ensures Scan("X'" + Hex(bytes) + "'") == ["X", "'" + Hex(bytes) + "'"]
  {
    hide Scan, Spliceable, Hex, Escape;
    HexIsPlain(bytes);
    EscapeNothing(Hex(bytes));
    PrefixedString(Hex(bytes));
    assert "X" + StringLiteral(Hex(bytes)) == "X'" + Hex(bytes) + "'";
  }

  lemma PrefixedString(text: string)
    ensures Spliceable("X" + StringLiteral(text))
    ensures Scan("X" + StringLiteral(text)) == ["X", StringLiteral(text)]
  {
    var x := StringLiteral(text);
    StringIsOneToken(text, " ");
    WordIsToken("X", x);
    ConcatFour("X", x, "", "");
    forall y: string | y != "" && !Hugs(y[0]) ensures Sealed(x, y) { StringIsOneToken(text, y); }
    ChainIsSpliceable(["X", x], "X" + x);
  }

  lemma {:induction false} SkipDigitsSplits(t: string) returns (d: string)
    ensures t == d + SkipDigits(t) && AllDigits(d)
  {
    if t != "" && IsDigit(t[0]) {
      d := SkipDigitsSplits(t[1..]);
      d := t[..1] + d;
    } else {
      d := "";
    }
  }

  lemma {:induction false} SkipBlanksSplits(t: string) returns (b: string)
    ensures t == b + SkipBlanks(t) && forall i :: 0 <= i < |b| ==> IsBlank(b[i])
  {
    hide IsBlank;
    if t != "" && IsBlank(t[0]) {
      var (c, more) := (t[0], t[1..]);
      var s := SkipBlanksSplits(more);
      b := [c] + s;
      assert t == [c] + more;
      assert [c] + (s + SkipBlanks(more)) == b + SkipBlanks(more);
    } else {
      b := "";
    }
  }

  lemma {:induction false} DropBlanksSplits(t: string) returns (b: string)
    ensures t == DropBlanks(t) + b && forall i :: 0 <= i < |b| ==> IsBlank(b[i])
  {
    if t != "" && IsBlank(t[|t| - 1]) {
      var (head, last) := (t[..|t| - 1], t[|t| - 1]);
      b := DropBlanksSplits(head);
      assert t == head + [last];
      assert DropBlanks(head) + b + [last] == DropBlanks(head) + (b + [last]);
      b := b + [last];
    } else {
      b := "";
    }
  }

  predicate IsNumberByte(c: char) {
    IsDigit(c) || c in {'+', '-', '.', 'e', 'E', ' ', '\t'}
  }

  /** Nothing but number bytes, and a dash only where a digit or a point follows. */
  predicate NumberBytes(t: string) {
    && (forall i :: 0 <= i < |t| ==> IsNumberByte(t[i]))
    && (forall i :: 0 <= i < |t| - 1 && t[i] == '-' ==> IsDigit(t[i + 1]) || t[i + 1] == '.')
    && (t != "" ==> t[|t| - 1] != '-')
  }

  lemma NumberBytesAppend(a: string, b: string)
    requires NumberBytes(a) && NumberBytes(b)
    ensures NumberBytes(a + b)
  {
  }

  /** A sign, and what it may stand before. */
  lemma SignedNumberBytes(t: string)
    requires NumberBytes(SkipSign(t)) && SkipSign(t) != ""
    requires IsDigit(SkipSign(t)[0]) || SkipSign(t)[0] == '.'
    ensures NumberBytes(t)
  {
    if SkipSign(t) != t {
      forall i | 0 <= i < |t| - 1 && t[i] == '-' ensures IsDigit(t[i + 1]) || t[i + 1] == '.' {
        assert t[i + 1] == t[1..][i];
        if i > 0 { assert t[i] == t[1..][i - 1]; }
      }
    }
  }

  lemma ExponentIsNumberBytes(u: string)
    requires IsExponent(u)
    ensures NumberBytes(u)
  {
    var v := SkipSign(u[1..]);
    var d := SkipDigitsSplits(v);
    assert d == v;
    SignedNumberBytes(u[1..]);
    NumberBytesAppend(u[..1], u[1..]);
    assert u == u[..1] + u[1..];
  }

  lemma DecimalSplits(t: string) returns (d: string)
    ensures t == d + SkipDecimal(t) && NumberBytes(d)
    ensures d != "" ==> IsDigit(d[0]) || d[0] == '.'
  {
    var u := SkipDigits(t);
    d := SkipDigitsSplits(t);
    if u != "" && u[0] == '.' {
      var f := SkipDigitsSplits(u[1..]);
      d := d + "." + f;
      assert u == "." + u[1..];
    }
  }

  lemma NumericLiteralBytes(text: string)
    requires NumericLiteral(text)
    ensures NumberBytes(text) && text != ""
  {
    var l := SkipBlanks(text);
    var m := DropBlanks(l);
    var t := SkipSign(m);
    var u := SkipDecimal(t);
    var lead := SkipBlanksSplits(text);
    var trail := DropBlanksSplits(l);
    var d := DecimalSplits(t);
    assert t[..|t| - |u|] == d;
    if u != "" { ExponentIsNumberBytes(u); }
    NumberBytesAppend(d, u);
    assert t[0] == d[0];
    SignedNumberBytes(m);
    NumberBytesAppend(m, trail);
    NumberBytesAppend(lead, l);
  }

  /** Number text never opens a comment, not even after a minus: a leading dash goes in parentheses. */
  lemma NumberIsSpliceable(text: string)
    requires NumericLiteral(text)
    ensures Spliceable(NumberText(text))
  {
    NumericLiteralBytes(text);
    var lead := SkipBlanksSplits(text);
    NumberBytesSpliceable(text, SkipBlanks(text) != "" && SkipBlanks(text)[0] == '-');
  }

  lemma NumberBytesSpliceable(text: string, wrap: bool)
    requires NumberBytes(text) && text != ""
    requires text[0] == '-' ==> wrap
    ensures Spliceable(if wrap then "(" + text + ")" else text)
  {
    var n := if wrap then "(" + text + ")" else text;
    if wrap {
      forall i | 0 <= i < |n| ensures n[i] !in {'\'', '"', '/', '$', '?', ';'} {
        if 0 < i < |n| - 1 { assert n[i] == text[i - 1]; }
      }
      forall i | 0 <= i < |n| - 1 ensures !(n[i] == '-' && n[i + 1] == '-') {
        if 0 < i < |n| - 2 { assert n[i] == text[i - 1] && n[i + 1] == text[i]; }
      }
    }
    PlainIsSpliceable(n);
  }

  /** What snprintf writes for an integer is number bytes. */
  lemma SignedIsSpliceable(n: int)
    ensures Spliceable(NumberText(Signed(n)))
  {
    var t := Signed(n);
    assert SkipBlanks(t) == t;
    NumberBytesSpliceable(t, t[0] == '-');
  }

  predicate Unquoted(t: string) {
    forall i :: 0 <= i < |t| ==> t[i] != '\'' && t[i] != '\\'
  }

  lemma {:induction false} ZeroPadUnquoted(d: string, width: int)
    requires Unquoted(d)
    ensures Unquoted(ZeroPad(d, width))
    decreases width - |d|
  {
    if |d| < width { ZeroPadUnquoted("0" + d, width); }
  }

  lemma PaddedUnquoted(n: int, width: int)
    ensures Unquoted(Padded(n, width))
  {
    if n < 0 { ZeroPadUnquoted(Digits(-n), width - 1); } else { ZeroPadUnquoted(Digits(n), width); }
  }

  lemma TemporalUnquoted(v: CValue)
    requires v.Date? || v.Time? || (v.Timestamp? && v.date.Date? && v.time.Time?)
    ensures Unquoted(TemporalText(v))
  {
    match v
    case Date(year, month, day) => PaddedUnquoted(year, 4); PaddedUnquoted(month, 2); PaddedUnquoted(day, 2);
    case Time(hour, minute, second) => PaddedUnquoted(hour, 2); PaddedUnquoted(minute, 2); PaddedUnquoted(second, 2);
    case Timestamp(date, time, fraction) =>
      TemporalUnquoted(date);
      TemporalUnquoted(time);
      PaddedUnquoted(fraction, 9);
  }

  lemma UnquotedCast(text: string, cast: string)
    requires Unquoted(text) && IsWord(cast)
    ensures Spliceable("'" + text + "'::" + cast)
  {
    EscapeNothing(text);
    CastIsSpliceable(text, cast);
    assert "'" + text + "'::" + cast == StringLiteral(text) + "::" + cast;
  }

  lemma {:induction false} ZeroPadLength(d: string, width: int)
    ensures |ZeroPad(d, width)| == if |d| < width then width else |d|
    decreases width - |d|
  {
    if |d| < width { ZeroPadLength("0" + d, width); }
  }

  /** A field of sixteen bits takes five bytes at most, the signed year six, and a fraction ten. */
  lemma FieldLength(n: nat, width: nat)
    ensures n < 0x10000 && width <= 5 ==> |Padded(n, width)| <= 5
    ensures n < 0x1_0000_0000 && width <= 10 ==> |Padded(n, width)| <= 10
  {
    hide Digits, ZeroPad;
    ZeroPadLength(Digits(n), width);
    Powers();
    if n < 0x1_0000_0000 { DigitsFit(n, 10); }
    if n < 0x10000 { DigitsFit(n, 5); }
  }

  lemma Powers()
    ensures Pow10(5) == 100000 && Pow10(10) == 10000000000
  {
    assert Pow10(2) == 10 * Pow10(1) && Pow10(1) == 10 * Pow10(0);
    assert Pow10(5) == 10 * Pow10(4) && Pow10(4) == 10 * Pow10(3) && Pow10(3) == 10 * Pow10(2);
    assert Pow10(10) == 10 * Pow10(9) && Pow10(9) == 10 * Pow10(8) && Pow10(8) == 10 * Pow10(7);
    assert Pow10(7) == 10 * Pow10(6) && Pow10(6) == 10 * Pow10(5);
  }

  lemma YearLength(year: int)
    requires -0x8000 <= year < 0x8000
    ensures |Padded(year, 4)| <= 6
  {
    hide Digits, ZeroPad;
    if year < 0 {
      FieldLength(-year, 3);
      assert Padded(year, 4) == "-" + Padded(-year, 3);
    } else {
      FieldLength(year, 4);
    }
  }

  lemma TemporalLength(v: CValue)
    requires IsStruct(v)
    ensures v.Date? ==> |TemporalText(v)| <= 18
    ensures v.Time? ==> |TemporalText(v)| <= 17
    ensures v.Timestamp? ==> |TemporalText(v)| <= 47
  {
    hide Padded;
    match v
    case Date(year, month, day) =>
      YearLength(year);
      FieldLength(month, 2);
      FieldLength(day, 2);
    case Time(hour, minute, second) =>
      FieldLength(hour, 2);
      FieldLength(minute, 2);
      FieldLength(second, 2);
    case Timestamp(date, time, fraction) =>
      TemporalLength(date);
      TemporalLength(time);
      FieldLength(fraction, 9);
  }

  /** The buffer holds every temporal literal but the widest timestamp, which loses its last byte: what is
      left is still a literal and a cast. */
  lemma TemporalLiteralIs(v: CValue) returns (cast: string)
    requires IsStruct(v)
    ensures TemporalLiteral(v) == "'" + TemporalText(v) + "'::" + cast
    ensures cast == (if |TemporalText(v)| == 47 then "TIMESTAMP_NT" else TemporalCast(v)) && IsWord(cast)
  {
    hide TemporalText;
    TemporalLength(v);
    var front := "'" + TemporalText(v) + "'::";
    var whole := front + TemporalCast(v);
    assert |front| == |TemporalText(v)| + 4;
    if |TemporalText(v)| == 47 {
      cast := TemporalCast(v)[..12];
      assert cast == "TIMESTAMP_NT";
      assert whole[..63] == front + cast;
    } else {
      cast := TemporalCast(v);
    }
  }

  lemma TemporalIsSpliceable(v: CValue)
    requires IsStruct(v)
    ensures Spliceable(TemporalLiteral(v))
  {
    hide Spliceable, TemporalText, TemporalLiteral;
    TemporalUnquoted(v);
    var cast := TemporalLiteralIs(v);
    UnquotedCast(TemporalText(v), cast);
  }

  lemma {:induction false} WordIsSpliceable(w: string)
    requires w in {"NULL", "TRUE", "FALSE"}
    ensures Spliceable(w)
  {
    PlainIsSpliceable(w);
  }

  lemma DigitsAreSpliceable(n: nat)
    ensures Spliceable(Digits(n))
  {
    PlainIsSpliceable(Digits(n));
  }

  lemma CharsAreSpliceable(sqlType: SqlType, text: string)
    requires RenderChars(sqlType, text).Success?
    ensures Spliceable(RenderChars(sqlType, text).value)
  {
    if sqlType.NumericType? { NumberIsSpliceable(text); }
    else if sqlType.OtherType? { StringIsSpliceable(text); }
    else { CastIsSpliceable(text, CastTo(sqlType)); }
  }

  lemma PrintedIsSpliceable(text: string)
    requires NumericLiteral(text) || text in {"inf", "-inf", "nan", "-nan"}
    ensures Spliceable(NumberText(text))
  {
    hide Scan, Spliceable, NumericLiteral;
    if NumericLiteral(text) { NumberIsSpliceable(text); }
    else {
      assert SkipBlanks(text) == text;
      PlainIsSpliceable(NumberText(text));
    }
  }

  /** Whatever is bound, and however, the literal it becomes may replace a placeholder. */
  lemma {:induction false} RenderedIsSpliceable(p: Param)
    requires WellBound(p) && Render(p).Success?
    ensures Spliceable(Render(p).value)
  {
    hide Spliceable, Plain, RenderChars, CharsOf, TemporalText, NumberText, NumericLiteral, Digits, Hex;
    if p.indicator == SQL_NULL_DATA || p.value.NoBuffer? {
      WordIsSpliceable("NULL");
    } else {
      match p.value
      case Chars(buffer) => CharsAreSpliceable(p.sqlType, CharsOf(buffer, p.indicator));
      case SignedInt(n) => SignedIsSpliceable(n);
      case UnsignedInt(u) => DigitsAreSpliceable(u);
      case Printed(text) => PrintedIsSpliceable(text);
      case Bit(on) => WordIsSpliceable(if on then "TRUE" else "FALSE");
      case Binary(bytes) => BinaryIsSpliceable(bytes[..if p.indicator >= 0 then p.indicator else 0]);
      case Date(_, _, _) | Time(_, _, _) | Timestamp(_, _, _) =>
        TemporalIsSpliceable(p.value);
    }
  }

  // NUL bytes

  /** The one kind of parameter whose literal has a NUL: text of a given length that is not a number. */
  predicate HoldsNul(p: Param)
    requires WellBound(p)
  {
    p.value.Chars? && !p.sqlType.NumericType? && p.indicator >= 0 && !NulFree(p.value.buffer[..p.indicator])
  }

  lemma {:induction false} EscapeNulFree(text: string)
    ensures NulFree(Escape(text)) <==> NulFree(text)
  {
    hide Escape, EscapeByte;
    EscapeSteps(text);
    if text != "" {
      EscapeNulFree(text[1..]);
      EscapeByteNulFree(text[0]);
      assert text == [text[0]] + text[1..];
    }
  }

  lemma EscapeByteNulFree(c: char)
    ensures NulFree(EscapeByte(c)) <==> c != '\0'
  {
  }

  lemma NumberNulFree(text: string)
    requires NumericLiteral(text) || text in {"inf", "-inf", "nan", "-nan"}
    ensures NulFree(NumberText(text))
  {
    hide NumericLiteral, SkipBlanks;
    if NumericLiteral(text) { NumericLiteralBytes(text); }
    assert NulFree(text);
    assert NulFree("(" + text + ")");
  }

  lemma DigitsNulFree(n: nat)
    ensures NulFree(Digits(n))
  {
    hide Digits;
    assert forall i :: 0 <= i < |Digits(n)| ==> IsDigit(Digits(n)[i]);
  }

  lemma SignedNulFree(n: int)
    ensures NulFree(NumberText(Signed(n)))
  {
    hide Digits, SkipBlanks;
    DigitsNulFree(if n < 0 then -n else n);
    assert NulFree(Signed(n)) && NulFree("(" + Signed(n) + ")");
  }

  lemma {:induction false} ZeroPadNulFree(d: string, width: int)
    requires NulFree(d)
    ensures NulFree(ZeroPad(d, width))
    decreases width - |d|
  {
    if |d| < width { ZeroPadNulFree("0" + d, width); }
  }

  lemma PaddedNulFree(n: int, width: int)
    ensures NulFree(Padded(n, width))
  {
    hide Digits, ZeroPad;
    DigitsNulFree(if n < 0 then -n else n);
    ZeroPadNulFree(Digits(if n < 0 then -n else n), if n < 0 then width - 1 else width);
  }

  lemma TemporalNulFree(v: CValue)
    requires IsStruct(v)
    ensures NulFree(TemporalText(v))
  {
    hide Padded;
    match v
    case Date(year, month, day) => PaddedNulFree(year, 4); PaddedNulFree(month, 2); PaddedNulFree(day, 2);
    case Time(hour, minute, second) => PaddedNulFree(hour, 2); PaddedNulFree(minute, 2); PaddedNulFree(second, 2);
    case Timestamp(date, time, fraction) =>
      TemporalNulFree(date);
      TemporalNulFree(time);
      PaddedNulFree(fraction, 9);
  }

  lemma TemporalLiteralNulFree(v: CValue)
    requires IsStruct(v)
    ensures NulFree(TemporalLiteral(v))
  {
    hide TemporalText, TemporalLiteral;
    TemporalNulFree(v);
    var cast := TemporalLiteralIs(v);
  }

  lemma CharsNulFree(sqlType: SqlType, text: string)
    requires RenderChars(sqlType, text).Success?
    ensures NulFree(RenderChars(sqlType, text).value) <==> sqlType.NumericType? || NulFree(text)
  {
    hide Escape, NumericLiteral;
    if sqlType.NumericType? {
      NumberNulFree(text);
    } else {
      EscapeNulFree(text);
      assert NulFree(CastTo(sqlType));
    }
  }

  lemma BinaryNulFree(bytes: seq<Byte>)
    ensures NulFree("X'" + Hex(bytes) + "'")
  {
    hide Hex;
    HexIsPlain(bytes);
  }

  /** Whatever is bound, its literal has a NUL exactly when it is such a parameter. */
  lemma {:induction false} LiteralNulFree(p: Param)
    requires WellBound(p) && Render(p).Success?
    ensures NulFree(Render(p).value) <==> !HoldsNul(p)
  {
    hide RenderChars, NumberText, NumericLiteral, Hex, TemporalLiteral, Digits, Signed, NulFree;
    NulFreeWords();
    if p.indicator != SQL_NULL_DATA && !p.value.NoBuffer? {
      match p.value
      case Chars(buffer) => CharsNulFree(p.sqlType, CharsOf(buffer, p.indicator));
      case SignedInt(n) => SignedNulFree(n);
      case UnsignedInt(u) => DigitsNulFree(u);
      case Printed(text) => NumberNulFree(text);
      case Bit(on) =>
      case Binary(bytes) => BinaryNulFree(bytes[..if p.indicator >= 0 then p.indicator else 0]);
      case Date(_, _, _) | Time(_, _, _) | Timestamp(_, _, _) => TemporalLiteralNulFree(p.value);
    }
  }

  lemma NulFreeWords()
    ensures NulFree("NULL") && NulFree("TRUE") && NulFree("FALSE")
  {
  }
}
