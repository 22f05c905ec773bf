/** Connection strings as people write them: semicolons and blanks between the fields, values in braces, blanks around a
    port (src/connect.c, src/util.c). */
module ConnFields {
  import opened Text
  import opened ConnString

  /** A field with what stands in front of it, and whether its value is in braces, with anything up to the next
      semicolon behind them. */
  datatype Written = Written(gap: string, field: Field, braced: bool, behind: string)

  predicate IsGap(s: string) {
    forall i :: 0 <= i < |s| ==> s[i] == ';' || s[i] == ' '
  }

  predicate IsWritten(w: Written) {
    && IsGap(w.gap)
    && w.field.name != "" && '=' !in w.field.name && w.field.name[0] != ';' && w.field.name[0] != ' '
    && if w.braced then '}' !in w.field.value && ';' !in w.behind
       else ';' !in w.field.value && (w.field.value != "" ==> w.field.value[0] != '{') && w.behind == ""
  }

  function ValueText(w: Written): string {
    if w.braced then "{" + w.field.value + "}" + w.behind else w.field.value
  }

  function TextOf(ws: seq<Written>): string {
    if ws == [] then ""
    else ws[0].gap + (ws[0].field.name + "=" + (ValueText(ws[0]) + TextOf(ws[1..])))
  }

  /** A semicolon at least between one field and the next. */
  predicate AreWritten(ws: seq<Written>) {
    && (forall i :: 0 <= i < |ws| ==> IsWritten(ws[i]))
    && forall i :: 1 <= i < |ws| ==> ws[i].gap != "" && ws[i].gap[0] == ';'
  }

  function Named(ws: seq<Written>, key: string): Option<string> {
    if ws == [] then None
    else if Upper(ws[0].field.name) == Upper(key) then Some(ws[0].field.value)
    else Named(ws[1..], key)
  }

  lemma {:induction false} GapIsSkipped(gap: string, t: string, key: string)
    requires IsGap(gap)
    ensures Get(gap + t, key) == Get(t, key)
  {
    hide Find, Value, Next, Upper;
    if gap == "" {
      assert gap + t == t;
    } else {
      assert (gap + t)[1..] == gap[1..] + t;
      GapIsSkipped(gap[1..], t, key);
    }
  }

  /** From the next semicolon on. */
  function FromSemicolon(t: string): string {
    t[Find(t, ';')..]
  }

  lemma BehindBrace(behind: string, tail: string)
    requires ';' !in behind && EndsField(tail)
    ensures FromSemicolon("}" + behind + tail) == tail
  {
    var front := "}" + behind;
    assert ';' !in front;
    FindFirst(front, ';', tail);
    assert (front + tail)[|front|..] == tail;
  }

  lemma BracedIsTaken(value: string, rest: string)
    requires '}' !in value && rest != "" && rest[0] == '}'
    ensures Value("{" + value + rest) == (value, rest)
  {
    assert ("{" + value + rest)[1..] == value + rest;
    FindFirst(value, '}', rest);
    assert (value + rest)[..|value|] == value && (value + rest)[|value|..] == rest;
  }

  lemma NextBehindBrace(rest: string)
    requires rest != "" && rest[0] == '}' && EndsField(FromSemicolon(rest))
    ensures Next(rest) == Next(FromSemicolon(rest))
  {
    hide Find;
  }

  lemma BracedValue(value: string, behind: string, tail: string)
    requires '}' !in value && ';' !in behind && EndsField(tail)
    ensures var (got, rest) := Value("{" + value + "}" + behind + tail);
            got == value && Next(rest) == Next(tail)
  {
    hide Find, Next, Value, FromSemicolon;
    var rest := "}" + behind + tail;
    assert "{" + value + "}" + behind + tail == "{" + value + rest;
    BracedIsTaken(value, rest);
    BehindBrace(behind, tail);
    NextBehindBrace(rest);
  }

  lemma PlainValue(value: string, tail: string)
    requires ';' !in value && (value != "" ==> value[0] != '{') && EndsField(tail)
    ensures Value(value + tail) == (value, tail)
  {
    hide Value;
    CleanIsRead(value, tail);
  }

  lemma {:induction false} ValueIsRead(w: Written, tail: string)
    requires IsWritten(w) && EndsField(tail)
    ensures var (got, rest) := Value(ValueText(w) + tail); got == w.field.value && Next(rest) == Next(tail)
  {
    hide Value, Next;
    if w.braced { BracedValue(w.field.value, w.behind, tail); } else { PlainValue(w.field.value, tail); }
  }

  lemma TailEnds(ws: seq<Written>, end: string)
    requires AreWritten(ws) && ws != [] && IsGap(end) && EndsField(end)
    ensures EndsField(TextOf(ws[1..]) + end) && AreWritten(ws[1..])
  {
    hide IsWritten, ValueText;
    if |ws| == 1 {
      assert TextOf(ws[1..]) + end == end;
    } else {
      assert ws[1..][0] == ws[1];
    }
  }

  /** A string of fields, however they are set apart and whichever values are in braces, says of a key what the first
      field of that name says, in any letter case. */
  lemma {:induction false} FieldsAreSaid(ws: seq<Written>, end: string, key: string)
    requires AreWritten(ws) && IsGap(end) && EndsField(end)
    ensures Get(TextOf(ws) + end, key) == Named(ws, key)
  {
    hide Get, Value, Next, Upper, IsWritten, ValueText, EndsField, AreWritten, IsGap;
    if ws == [] {
      GapIsSkipped(end, "", key);
      NothingThere(key);
      assert TextOf(ws) + end == end && end + "" == end;
    } else {
      var (w, tail) := (ws[0], TextOf(ws[1..]) + end);
      TailEnds(ws, end);
      FirstIsWritten(ws);
      FieldsAreSaid(ws[1..], end, key);
      var v := ValueText(w) + tail;
      Regroup(w.gap, w.field.name, ValueText(w), TextOf(ws[1..]), end);
      GapIsSkipped(w.gap, w.field.name + "=" + v, key);
      ValueIsRead(w, tail);
      FieldStep(w.field.name, v, key);
      SeparatorIsSkipped(tail, key);
    }
  }

  lemma FirstIsWritten(ws: seq<Written>)
    requires AreWritten(ws) && ws != []
    ensures IsWritten(ws[0]) && IsGap(ws[0].gap) && IsName(ws[0].field.name)
  {
  }

  lemma Regroup(a: string, b: string, c: string, d: string, e: string)
    ensures a + (b + "=" + (c + d)) + e == a + (b + "=" + (c + (d + e)))
  {
  }

  lemma {:induction false} FieldStep(name: string, v: string, key: string)
    requires IsName(name)
    ensures Get(name + "=" + v, key)
            == if Upper(name) == Upper(key) then Some(Value(v).0) else Get(Next(Value(v).1), key)
  {
    hide Find, Value, Next, SkipSeparators, Upper;
    NameIsRead(name, v);
  }

  // Ports

  predicate IsPadded(s: string) {
    forall i :: 0 <= i < |s| ==> s[i] == ' ' || s[i] == '\t'
  }

  lemma {:induction false} FrontIsStripped(a: string, t: string)
    requires IsPadded(a) && (t == "" || !IsPadded(t[..1]))
    ensures StripFront(a + t) == t
  {
    if a == "" {
      assert a + t == t;
      if t != "" { assert t[..1][0] == t[0]; }
    } else {
      assert (a + t)[1..] == a[1..] + t;
      FrontIsStripped(a[1..], t);
    }
  }

  lemma {:induction false} BackIsStripped(t: string, b: string)
    requires IsPadded(b) && (t == "" || !IsPadded(t[|t| - 1..]))
    ensures StripBack(t + b) == t
  {
    if b == "" {
      assert t + b == t;
      if t != "" { assert t[|t| - 1..][0] == t[|t| - 1]; }
    } else {
      assert (t + b)[..|t + b| - 1] == t + b[..|b| - 1];
      BackIsStripped(t, b[..|b| - 1]);
    }
  }

  /** Digits with blanks around them are the port they spell, where it is one. */
  lemma {:induction false} PaddedPort(a: string, digits: string, b: string)
    requires IsPadded(a) && IsPadded(b) && AllDigits(digits) && digits != ""
    ensures var n := DigitsValue(digits);
            Port(Some(a + digits + b)) == if 1 <= n <= 65535 then n as int else -1
  {
    hide StripFront, StripBack, DigitsValue;
    assert a + digits + b == a + (digits + b);
    assert (digits + b)[..1][0] == digits[0] && digits[|digits| - 1..][0] == digits[|digits| - 1];
    FrontIsStripped(a, digits + b);
    BackIsStripped(digits, b);
  }

  lemma {:induction false} FrontWas(t: string) returns (a: string)
    ensures IsPadded(a) && t == a + StripFront(t)
  {
    a := "";
    if t != "" && IsPadding(t[0]) {
      a := FrontWas(t[1..]);
      a := [t[0]] + a;
    }
  }

  lemma {:induction false} BackWas(t: string) returns (b: string)
    ensures IsPadded(b) && t == StripBack(t) + b
  {
    b := "";
    if t != "" && IsPadding(t[|t| - 1]) {
      b := BackWas(t[..|t| - 1]);
      b := b + [t[|t| - 1]];
    }
  }

  /** Nothing else is a port. */
  lemma {:induction false} OnlyPaddedPorts(text: string) returns (a: string, digits: string, b: string)
    requires Port(Some(text)) != -1
    ensures IsPadded(a) && IsPadded(b) && AllDigits(digits) && digits != "" && text == a + digits + b
    ensures 1 <= Port(Some(text)) == DigitsValue(digits) <= 65535
  {
    hide StripFront, StripBack, DigitsValue;
    a := FrontWas(text);
    b := BackWas(StripFront(text));
    digits := StripBack(StripFront(text));
    assert text == a + (digits + b) == a + digits + b;
  }
}
