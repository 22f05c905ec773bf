/** Binding the parameters of a statement: every code placeholder becomes the literal of its
    parameter (src/execute.c). */
module Binding {
  import opened Text
  import opened Scanner
  import opened Substitution
  import opened Literals

  /** The text substitute_params builds from the tokens of a statement. */
  function Substituted(ts: seq<string>, params: seq<Param>): Result<string>
    requires forall i :: 0 <= i < |params| ==> WellBound(params[i])
    decreases ts
  {
    if ts == [] then Success("")
    else if ts[0] == "?" then
      if params == [] then Failure(MissingBinding)
      else
        var lit :- Render(params[0]);
        var rest :- Substituted(ts[1..], params[1..]);
        Success(lit + rest)
    else
      var rest :- Substituted(ts[1..], params);
      Success(ts[0] + rest)
  }

  /** The literals of the parameters that `ts` uses. */
  function LiteralsOf(ts: seq<string>, params: seq<Param>): (r: seq<string>)
    requires forall i :: 0 <= i < |params| ==> WellBound(params[i])
    requires Substituted(ts, params).Success?
    ensures |r| == Placeholders(ts) <= |params|
    ensures forall i :: 0 <= i < |r| ==> Render(params[i]) == Success(r[i])
    decreases ts
  {
    if ts == [] then []
    else if ts[0] == "?" then [Render(params[0]).value] + LiteralsOf(ts[1..], params[1..])
    else LiteralsOf(ts[1..], params)
  }

  lemma {:induction false} SubstitutedIsSplice(ts: seq<string>, params: seq<Param>)
    requires forall i :: 0 <= i < |params| ==> WellBound(params[i])
    requires Substituted(ts, params).Success?
    ensures Substituted(ts, params).value == Splice(ts, LiteralsOf(ts, params))
    decreases ts
  {
    if ts == [] {
    } else if ts[0] == "?" {
      SubstitutedIsSplice(ts[1..], params[1..]);
      assert LiteralsOf(ts, params)[1..] == LiteralsOf(ts[1..], params[1..]);
    } else {
      SubstitutedIsSplice(ts[1..], params);
    }
  }

  lemma {:induction false} LiteralsAreSpliceable(ts: seq<string>, params: seq<Param>)
    requires forall i :: 0 <= i < |params| ==> WellBound(params[i])
    requires Substituted(ts, params).Success?
    ensures forall i :: 0 <= i < |LiteralsOf(ts, params)| ==>
              LiteralsOf(ts, params)[i] != "" && Spliceable(LiteralsOf(ts, params)[i])
  {
    var lits := LiteralsOf(ts, params);
    forall i | 0 <= i < |lits| ensures lits[i] != "" && Spliceable(lits[i]) {
      RenderedIsSpliceable(params[i]);
    }
  }

  /** The bound statement scans as the statement did, each placeholder now the tokens of its literal,
      exactly when every junction holds; separated placeholders guarantee that, whatever is bound. */
  lemma {:induction false} BindingPreservesScan(sql: string, params: seq<Param>)
    requires forall i :: 0 <= i < |params| ==> WellBound(params[i])
    requires Substituted(Scan(sql), params).Success?
    ensures var ts, lits := Scan(sql), LiteralsOf(Scan(sql), params);
            var bound := Substituted(ts, params).value;
            && (forall i :: 0 <= i < |lits| ==> lits[i] != "")
            && (Scan(bound) == Replaced(ts, lits) <==> JunctionsHold("", ts, lits))
            && (Separated(ts) ==> Scan(bound) == Replaced(ts, lits) && Placeholders(Scan(bound)) == 0)
  {
    var ts, lits := Scan(sql), LiteralsOf(Scan(sql), params);
    LiteralsAreSpliceable(ts, params);
    SubstitutedIsSplice(ts, params);
    SubstitutionPreservesScan(sql, lits);
    if Separated(ts) {
      ScanIsChain(sql);
      SeparationSuffices("", ts, lits);
      NoPlaceholderRemains(ts, lits);
    }
  }

  // The statement goes on as a C string, so a NUL byte inside a literal cuts it short.

  lemma {:induction false} NulFreeSplice(ts: seq<string>, lits: seq<string>)
    requires Placeholders(ts) == |lits|
    requires forall i :: 0 <= i < |ts| ==> NulFree(ts[i])
    ensures NulFree(Splice(ts, lits)) <==> forall i :: 0 <= i < |lits| ==> NulFree(lits[i])
    decreases ts
  {
    if ts == [] {
    } else if ts[0] == "?" {
      NulFreeSplice(ts[1..], lits[1..]);
      assert Splice(ts, lits) == lits[0] + Splice(ts[1..], lits[1..]);
      assert forall i :: 0 < i < |lits| ==> lits[i] == lits[1..][i - 1];
      assert forall i :: 0 <= i < |lits| - 1 ==> lits[1..][i] == lits[i + 1];
    } else {
      NulFreeSplice(ts[1..], lits);
    }
  }

  lemma {:induction false} TokensNulFree(t: string)
    requires NulFree(t)
    ensures forall i :: 0 <= i < |Scan(t)| ==> NulFree(Scan(t)[i])
  {
    if t != "" { TokensNulFree(t[HeadLen(t)..]); }
  }

  /** What the engine is sent is the whole bound statement exactly when no parameter the statement uses is
      text of a given length with a NUL in it. */
  lemma {:induction false} SentWhole(sql: string, params: seq<Param>)
    requires NulFree(sql)
    requires forall i :: 0 <= i < |params| ==> WellBound(params[i])
    requires Substituted(Scan(sql), params).Success?
    ensures Placeholders(Scan(sql)) <= |params|
    ensures var bound := Substituted(Scan(sql), params).value;
            CString(bound) == bound <==> forall i :: 0 <= i < Placeholders(Scan(sql)) ==> !HoldsNul(params[i])
  {
    hide Substituted, LiteralsOf, Render, HoldsNul, Scan, NulFree, Placeholders, WellBound, Splice;
    SubstitutedIsSplice(Scan(sql), params);
    TokensNulFree(sql);
    var lits := LiteralsOf(Scan(sql), params);
    NulFreeSplice(Scan(sql), lits);
    forall i | 0 <= i < |lits| ensures NulFree(lits[i]) <==> !HoldsNul(params[i]) { LiteralNulFree(params[i]); }
  }

  /** One such parameter: of a three-byte text with a NUL in the middle, the engine is sent neither the end
      nor the closing quote. */
  lemma CutAtNul()
    ensures var p := Param(true, OtherType, Chars("a\0b"), 3);
            && WellBound(p) && HoldsNul(p)
            && Substituted(Scan("?"), [p]) == Success("'a\0b'") && CString("'a\0b'") == "'a"
  {
    hide Render, Substituted, Scan, HoldsNul, CString;
    var p := Param(true, OtherType, Chars("a\0b"), 3);
    NulParameter(p);
    OnePlaceholder(p, "'a\0b'");
    CutText();
  }

  lemma NulParameter(p: Param)
    requires p == Param(true, OtherType, Chars("a\0b"), 3)
    ensures WellBound(p) && HoldsNul(p) && Render(p) == Success("'a\0b'")
  {
    hide StringLiteral;
    var t := "a\0b";
    assert t[..3] == t && t[1] == '\0';
    EscapeNul();
  }

  lemma OnePlaceholder(p: Param, lit: string)
    requires WellBound(p) && Render(p) == Success(lit)
    ensures Substituted(Scan("?"), [p]) == Success(lit)
  {
    hide Render, WellBound;
    var ts := Scan("?");
    assert HeadLen("?") == 1 && "?"[..1] == "?" && "?"[1..] == "";
    assert ts == ["?"] + Scan("") == ["?"];
    assert ts[1..] == [] && [p][1..] == [] && Substituted([], []) == Success("");
    assert lit + "" == lit;
  }

  lemma EscapeNul()
    ensures StringLiteral("a\0b") == "'a\0b'"
  {
    hide Escape;
    var t := "a\0b";
    assert t[0] == 'a' && t[1] == '\0' && t[2] == 'b';
    EscapeNothing(t);
  }

  lemma CutText()
    ensures CString("'a\0b'") == "'a"
  {
    assert "'a\0b'"[1..] == "a\0b'" && "a\0b'"[1..] == "\0b'";
    assert CString("a\0b'") == "a";
  }

  // The source's own loops.

  method CountPlaceholders(sql: string) returns (count: nat)
    requires NulFree(sql)
    ensures count == Placeholders(Scan(sql))
  {
    hide HeadLen, OpeningOf;
    count := 0;
    var c: nat := 0;
    assert sql[0..] == sql;
    while c < |sql|
      invariant 0 <= c <= |sql|
      invariant count + Placeholders(Scan(sql[c..])) == Placeholders(Scan(sql))
      decreases |sql| - c
    {
      StepPlaceholders(sql, c);
      var past := SkipNonPlaceholder(sql, c);
      if past != -1 {
        c := past;
        continue;
      }
      if sql[c] == '?' {
        count := count + 1;
      }
      c := c + 1;
    }
  }

  lemma StepScan(s: string, c: nat)
    requires c < |s|
    ensures var n := HeadLen(s[c..]);
            && Scan(s[c..]) == [s[c..c + n]] + Scan(s[c + n..])
            && (OpeningOf(s[c..]).Code? ==> n == 1)
  {
    hide HeadLen, OpeningOf;
    var n := HeadLen(s[c..]);
    CodeIsOneByte(s[c..]);
    assert s[c..][..n] == s[c..c + n] && s[c..][n..] == s[c + n..];
  }

  lemma CodeIsOneByte(t: string)
    requires t != ""
    ensures OpeningOf(t).Code? ==> HeadLen(t) == 1
  {
  }

  lemma {:induction false} StepPlaceholders(s: string, c: nat)
    requires c < |s|
    ensures var n := HeadLen(s[c..]);
            && (OpeningOf(s[c..]).Code? ==> n == 1)
            && Placeholders(Scan(s[c..])) ==
               (if OpeningOf(s[c..]).Code? && s[c] == '?' then 1 else 0) + Placeholders(Scan(s[c + n..]))
  {
    hide HeadLen, Scan;
    StepScan(s, c);
    var n, ts := HeadLen(s[c..]), Scan(s[c..]);
    assert ts[0] == s[c..c + n] && ts[1..] == Scan(s[c + n..]);
    if !OpeningOf(s[c..]).Code? { StretchIsNoPlaceholder(s[c..]); }
  }

  lemma StretchIsNoPlaceholder(t: string)
    requires t != "" && !OpeningOf(t).Code?
    ensures t[..HeadLen(t)] != "?" && t[..HeadLen(t)] != ";"
  {
    assert t[..HeadLen(t)][0] == t[0];
  }

  /** is_numeric_literal, index by index. */
  method IsNumericLiteral(text: string) returns (yes: bool)
    ensures yes <==> NumericLiteral(text)
  {
    hide SkipBlanks, DropBlanks, SkipDigits, SkipDecimal, IsExponent, HasDigit;
    var i, end := TrimBlanks(text);
    ghost var m := text[i..end];
    if i == end {
      NothingToSkip();
      return false;
    }
    if text[i] == '+' || text[i] == '-' { i := i + 1; }
    ghost var t, from := text[i..end], i;
    assert SkipSign(m) == t;
    var digits: nat;
    i, digits := DecimalRun(text, i, end);
    Slices(text, from, i, end);
    if digits == 0 { return false; }
    yes := ExponentOrEnd(text, i, end);
  }

  lemma Slices(text: string, a: nat, b: nat, c: nat)
    requires a <= b <= c <= |text|
    ensures text[a..c][..|text[a..c]| - |text[b..c]|] == text[a..b]
  {
  }

  /** What may come after the digits: nothing, or a complete exponent. */
  method ExponentOrEnd(text: string, start: nat, end: nat) returns (yes: bool)
    requires start <= end <= |text|
    ensures yes <==> start == end || IsExponent(text[start..end])
  {
    hide SkipDigits;
    var i := start;
    if i < end && (text[i] == 'e' || text[i] == 'E') {
      ghost var u := text[i..end];
      i := i + 1;
      assert u[1..] == text[i..end];
      if i < end && (text[i] == '+' || text[i] == '-') { i := i + 1; }
      assert SkipSign(u[1..]) == text[i..end];
      var exponentDigits: nat;
      i, exponentDigits := DigitRun(text, i, end);
      if exponentDigits == 0 { return false; }
    }
    return i == end;
  }

  lemma NothingToSkip()
    ensures SkipSign("") == "" && SkipDecimal("") == "" && !HasDigit("")
  {
  }

  lemma BlankSteps(t: string)
    ensures t != "" ==> SkipBlanks(t) == if IsBlank(t[0]) then SkipBlanks(t[1..]) else t
    ensures t != "" ==> DropBlanks(t) == if IsBlank(t[|t| - 1]) then DropBlanks(t[..|t| - 1]) else t
    ensures t == "" ==> SkipBlanks(t) == t && DropBlanks(t) == t
  {
  }

  method TrimBlanks(text: string) returns (i: nat, end: nat)
    ensures i <= end <= |text|
    ensures text[i..end] == DropBlanks(SkipBlanks(text))
  {
    hide IsBlank, SkipBlanks, DropBlanks;
    i, end := 0, |text|;
    assert text[0..] == text;
    while i < end && IsBlank(text[i])
      invariant 0 <= i <= end
      invariant SkipBlanks(text[i..]) == SkipBlanks(text)
    {
      BlankSteps(text[i..]);
      assert text[i..][1..] == text[i + 1..];
      i := i + 1;
    }
    BlankSteps(text[i..]);
    assert text[i..end] == text[i..];
    while end > i && IsBlank(text[end - 1])
      invariant i <= end <= |text|
      invariant DropBlanks(text[i..end]) == DropBlanks(text[i..])
    {
      BlankSteps(text[i..end]);
      assert text[i..end][..end - i - 1] == text[i..end - 1];
      end := end - 1;
    }
    BlankSteps(text[i..end]);
  }

  method DecimalRun(text: string, start: nat, end: nat) returns (i: nat, digits: nat)
    requires start <= end <= |text|
    ensures start <= i <= end
    ensures SkipDecimal(text[start..end]) == text[i..end]
    ensures digits > 0 <==> HasDigit(text[start..i])
  {
    hide SkipDigits, HasDigit;
    i, digits := DigitRun(text, start, end);
    DigitsBetween(text, start, i, i);
    if i < end && text[i] == '.' {
      ghost var u, point := text[i..end], i;
      assert u[1..] == text[i + 1..end];
      var more: nat;
      i, more := DigitRun(text, i + 1, end);
      DigitsBetween(text, start, point, i);
      digits := digits + more;
    }
  }

  /** Digits up to `point`, then one other byte, then digits up to `i`. */
  lemma DigitsBetween(text: string, start: nat, point: nat, i: nat)
    requires start <= point <= i <= |text|
    requires forall k :: start <= k < point ==> IsDigit(text[k])
    requires forall k :: point < k < i ==> IsDigit(text[k])
    requires point < i ==> !IsDigit(text[point])
    ensures HasDigit(text[start..i]) <==> point > start || i > point + 1
  {
    var t := text[start..i];
    if point > start { assert IsDigit(t[0]); }
    if i > point + 1 { assert IsDigit(t[point + 1 - start]); }
  }

  method DigitRun(text: string, start: nat, end: nat) returns (i: nat, digits: nat)
    requires start <= end <= |text|
    ensures start <= i <= end && digits == i - start
    ensures SkipDigits(text[start..end]) == text[i..end]
    ensures forall k :: start <= k < i ==> IsDigit(text[k])
    ensures i < end ==> !IsDigit(text[i])
  {
    i, digits := start, 0;
    while i < end && IsDigit(text[i])
      invariant start <= i <= end && digits == i - start
      invariant SkipDigits(text[start..end]) == SkipDigits(text[i..end])
      invariant forall k :: start <= k < i ==> IsDigit(text[k])
    {
      assert text[i..end][1..] == text[i + 1..end];
      i, digits := i + 1, digits + 1;
    }
  }

  method AppendNumber(buf: string, text: string) returns (r: string)
    ensures r == buf + NumberText(text)
  {
    var i := 0;
    while i < |text| && IsBlank(text[i])
      invariant 0 <= i <= |text|
      invariant SkipBlanks(text[i..]) == SkipBlanks(text)
    {
      assert text[i..][1..] == text[i + 1..];
      i := i + 1;
    }
    assert SkipBlanks(text) == text[i..];
    if i == |text| || text[i] != '-' {
      return buf + text;
    }
    r := buf + "(";
    r := r + text;
    r := r + ")";
  }

  method AppendStringLiteral(buf: string, text: string) returns (r: string)
    ensures r == buf + StringLiteral(text)
  {
    r := buf + "'";
    var i := 0;
    while i < |text|
      invariant 0 <= i <= |text|
      invariant r + Escape(text[i..]) == buf + "'" + Escape(text)
    {
      var c := text[i];
      assert text[i..][1..] == text[i + 1..] && text[i..][..1] == [c];
      if c == '\'' || c == '\\' {
        r := r + [if c == '\'' then '\'' else '\\', c];
      } else {
        r := r + [c];
      }
      i := i + 1;
    }
    assert r + "" == r;
    r := r + "'";
  }

  method AppendBinaryLiteral(buf: string, bytes: seq<Byte>) returns (r: string)
    ensures r == buf + "X'" + Hex(bytes) + "'"
  {
    r := buf + "X'";
    var i := 0;
    while i < |bytes|
      invariant 0 <= i <= |bytes|
      invariant r + Hex(bytes[i..]) == buf + "X'" + Hex(bytes)
    {
      assert bytes[i..][1..] == bytes[i + 1..];
      r := r + [HexDigit(bytes[i] / 16), HexDigit(bytes[i] % 16)];
      i := i + 1;
    }
    r := r + "'";
  }

  /** append_param_literal: the buffer with the literal appended, or why there is none. */
  method AppendParamLiteral(buf: string, p: Param) returns (r: Result<string>)
    requires WellBound(p)
    ensures Render(p).Failure? ==> r == Failure(Render(p).error)
    ensures Render(p).Success? ==> r == Success(buf + Render(p).value)
  {
    if !p.bound { return Failure(MissingBinding); }
    if p.indicator == SQL_NULL_DATA || p.value.NoBuffer? { return Success(buf + "NULL"); }
    if p.indicator < 0 && p.indicator != SQL_NTS {
      return Failure(if p.indicator == -2 || p.indicator <= -100 || p.indicator == -5
                     then NotSupported else BadLength);
    }
    var out: string;
    match p.value
    case Chars(buffer) =>
      var text := CharsOf(buffer, p.indicator);
      if p.sqlType.NumericType? {
        var number := IsNumericLiteral(text);
        if !number { return Failure(NotANumber); }
        out := AppendNumber(buf, text);
        return Success(out);
      }
      out := AppendStringLiteral(buf, text);
      if p.sqlType.OtherType? { return Success(out); }
      assert out + "::" + CastTo(p.sqlType) == buf + (StringLiteral(text) + "::" + CastTo(p.sqlType));
      return Success(out + "::" + CastTo(p.sqlType));
    case SignedInt(n) =>
      out := AppendNumber(buf, Signed(n));
      return Success(out);
    case UnsignedInt(u) => return Success(buf + Digits(u));
    case Printed(text) =>
      out := AppendNumber(buf, text);
      return Success(out);
    case Bit(on) => return Success(buf + if on then "TRUE" else "FALSE");
    case Binary(bytes) =>
      var length := if p.indicator >= 0 then p.indicator else 0;
      out := AppendBinaryLiteral(buf, bytes[..length]);
      assert out == buf + ("X'" + Hex(bytes[..length]) + "'");
      return Success(out);
    case Date(_, _, _) | Time(_, _, _) | Timestamp(_, _, _) =>
      return Success(buf + Fit("'" + TemporalText(p.value) + "'::" + TemporalCast(p.value), 64));
    case Wide | UnknownType => return Failure(NotSupported);
    case NoBuffer => return Success(buf + "NULL");
  }

  /** `r` with `buf` put before a success. */
  function After(buf: string, r: Result<string>): Result<string> {
    if r.Success? then Success(buf + r.value) else r
  }

  /** substitute_params: one pass over the statement, appending as it goes. */
  method SubstituteParams(sql: string, params: seq<Param>) returns (r: Result<string>)
    requires NulFree(sql)
    requires forall i :: 0 <= i < |params| ==> WellBound(params[i])
    ensures r == Substituted(Scan(sql), params)
  {
    hide HeadLen, OpeningOf, Scan, WellBound, Render;
    var buf := "";
    var paramIndex := 0;
    var c: nat := 0;
    assert sql[0..] == sql && params[0..] == params;
    AfterNothing(Substituted(Scan(sql), params));
    while c < |sql|
      invariant 0 <= c <= |sql| && paramIndex <= |params|
      invariant After(buf, Substituted(Scan(sql[c..]), params[paramIndex..])) == Substituted(Scan(sql), params)
      decreases |sql| - c
    {
      ghost var n := HeadLen(sql[c..]);
      StepScan(sql, c);
      ghost var rest := Scan(sql[c + n..]);
      ghost var ts := Scan(sql[c..]);
      assert ts[0] == sql[c..c + n] && ts[1..] == rest;
      var past := SkipNonPlaceholder(sql, c);
      assert sql[c..][..n] == sql[c..c + n];
      if past != -1 {
        StretchIsNoPlaceholder(sql[c..]);
        AfterAfter(buf, sql[c..past], Substituted(rest, params[paramIndex..]));
        buf := buf + sql[c..past];
        c := past;
        continue;
      }
      if sql[c] == '?' {
        assert ts[0] == "?";
        if paramIndex >= |params| { return Failure(MissingBinding); }
        assert params[paramIndex..][1..] == params[paramIndex + 1..];
        var appended := AppendParamLiteral(buf, params[paramIndex]);
        if appended.Failure? { return Failure(appended.error); }
        AfterAfter(buf, Render(params[paramIndex]).value, Substituted(rest, params[paramIndex + 1..]));
        buf := appended.value;
        paramIndex := paramIndex + 1;
        c := c + 1;
        continue;
      }
      assert ts[0] == [sql[c]] && ts[0] != "?";
      AfterAfter(buf, sql[c..c + 1], Substituted(rest, params[paramIndex..]));
      buf := buf + [sql[c]];
      c := c + 1;
    }
    assert buf + "" == buf;
    return Success(buf);
  }

  lemma AfterNothing(r: Result<string>)
    ensures After("", r) == r
  {
    if r.Success? { assert "" + r.value == r.value; }
  }

  lemma AfterAfter(a: string, b: string, r: Result<string>)
    ensures After(a + b, r) == After(a, After(b, r))
  {
    if r.Success? { assert a + b + r.value == a + (b + r.value); }
  }
}
