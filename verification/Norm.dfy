/** The form the conformance suites compare values in (test/suites.c). */
module Norm {
  import opened Text
  import opened Decimal
  import opened DecimalDigits

  /** A byte trimming takes off. */
  predicate IsTrimmed(c: char) {
    c as int <= 0x20
  }

  function TrimFront(s: string): (r: string)
    ensures r == "" || !IsTrimmed(r[0])
  {
    if s != "" && IsTrimmed(s[0]) then TrimFront(s[1..]) else s
  }

  function TrimBack(s: string): (r: string)
    ensures |r| <= |s| && r == s[..|r|]
    ensures r == "" || !IsTrimmed(r[|r| - 1])
  {
    if s != "" && IsTrimmed(s[|s| - 1]) then TrimBack(s[..|s| - 1]) else s
  }

  function Trim(s: string): string {
    TrimBack(TrimFront(s))
  }

  /** norm: a null or nothing, the words, a number in its normal form, or the text itself. */
  function NormText(raw: Option<string>): string {
    if raw.None? then "NULL"
    else
      var b := Trim(raw.value);
      if b == "" || Upper(b) == "NULL" then "NULL"
      else if Upper(b) == "TRUE" then "TRUE"
      else if Upper(b) == "FALSE" then "FALSE"
      else if Plain(b).Some? then Plain(b).value
      else b
  }

  /** No blank at either end. */
  predicate Tight(s: string) {
    s != "" && !IsTrimmed(s[0]) && !IsTrimmed(s[|s| - 1])
  }

  lemma TightIsTrimmed(s: string)
    requires Tight(s)
    ensures Trim(s) == s
  {
  }

  lemma TrimIsTight(s: string)
    ensures Trim(s) == "" || Tight(Trim(s))
  {
    var f := TrimFront(s);
    var r := TrimBack(f);
    assert r == f[..|r|];
  }

  /** A normal form starts with its sign or a digit, and ends with a digit. */
  lemma NumberIsTight(l: Literal)
    requires AllDigits(l.digits)
    ensures var t := TextOf(l);
            Tight(t) && (t[0] == '-' || IsDigit(t[0]))
  {
    hide Normal, DigitsValue, Digits;
    var d := DigitsValue(l.digits);
    if d > 0 {
      var (m, e) := Normal(d, l.fraction - l.exponent);
      ShownIsTight(Digits(m), e);
    }
  }

  lemma ShownIsTight(d: string, scale: int)
    requires AllDigits(d) && d != ""
    ensures var t := ShowDigits(d, scale);
            t != "" && IsDigit(t[0]) && IsDigit(t[|t| - 1])
  {
  }

  lemma WordsAreNotNumbers(t: string)
    requires t != "" && (t[0] == '-' || IsDigit(t[0]))
    ensures Upper(t) != "NULL" && Upper(t) != "TRUE" && Upper(t) != "FALSE"
  {
    assert Upper(t)[0] == t[0];
  }

  lemma WordsStay()
    ensures NormText(Some("NULL")) == "NULL" && NormText(Some("TRUE")) == "TRUE" && NormText(Some("FALSE")) == "FALSE"
  {
    hide Plain;
    TightIsTrimmed("NULL");
    TightIsTrimmed("TRUE");
    TightIsTrimmed("FALSE");
    assert Upper("NULL") == "NULL" && Upper("TRUE") == "TRUE" && Upper("FALSE") == "FALSE";
  }

  /** Nothing but control bytes and blanks. */
  predicate IsBlank(s: string) {
    forall i :: 0 <= i < |s| ==> s[i] <= ' '
  }

  lemma {:induction false} FrontIsTrimmed(a: string, s: string)
    requires IsBlank(a) && (s != "" ==> s[0] > ' ')
    ensures TrimFront(a + s) == s
  {
    if a == "" {
      assert a + s == s;
    } else {
      assert (a + s)[1..] == a[1..] + s;
      FrontIsTrimmed(a[1..], s);
    }
  }

  lemma {:induction false} BackIsTrimmed(s: string, b: string)
    requires IsBlank(b) && (s != "" ==> s[|s| - 1] > ' ')
    ensures TrimBack(s + b) == s
  {
    if b == "" {
      assert s + b == s;
    } else {
      assert (s + b)[..|s + b| - 1] == s + b[..|b| - 1];
      BackIsTrimmed(s, b[..|b| - 1]);
    }
  }

  /** What a text between blanks is normalised to. */
  lemma {:induction false} NormIs(a: string, s: string, b: string)
    requires IsBlank(a) && IsBlank(b) && (s != "" ==> s[0] > ' ' && s[|s| - 1] > ' ')
    ensures NormText(Some(a + s + b))
            == if s == "" || Upper(s) == "NULL" then "NULL"
               else if Upper(s) == "TRUE" then "TRUE"
               else if Upper(s) == "FALSE" then "FALSE"
               else if Plain(s).Some? then Plain(s).value
               else s
  {
    hide Plain, TrimFront, TrimBack, IsBlank;
    assert a + s + b == a + (s + b);
    if s == "" {
      assert a + s + b == a + b && s + b == b;
      BlankIsTrimmed(a, b);
    } else {
      FrontIsTrimmed(a, s + b);
      BackIsTrimmed(s, b);
    }
  }

  lemma BlankIsTrimmed(a: string, b: string)
    requires IsBlank(a) && IsBlank(b)
    ensures Trim(a + b) == ""
  {
    FrontIsTrimmed(a + b, "");
    assert a + b + "" == a + b;
  }

  /** Normalising what has been normalised changes nothing. */
  lemma {:induction false} NormIsStable(raw: Option<string>)
    ensures NormText(Some(NormText(raw))) == NormText(raw)
  {
    hide Plain, Trim, Upper, Tight;
    WordsStay();
    var n := NormText(raw);
    if n != "NULL" && n != "TRUE" && n != "FALSE" {
      var b := Trim(raw.value);
      TrimIsTight(raw.value);
      if Plain(b).Some? {
        NumberStays(b);
      } else {
        TightIsTrimmed(b);
      }
    }
  }

  lemma {:induction false} NumberStays(b: string)
    requires Plain(b).Some?
    ensures NormText(Some(Plain(b).value)) == Plain(b).value
  {
    hide TextOf, ParseLiteral, Trim, Upper;
    var l := ParseLiteral(b).value;
    var t := TextOf(l);
    NumberIsTight(l);
    TightIsTrimmed(t);
    WordsAreNotNumbers(t);
    TextIsStable(l);
  }

  /** norm, its two ends moving inwards over the bytes. */
  method Normalise(raw: Option<string>) returns (r: string)
    ensures r == NormText(raw)
  {
    hide Plain;
    if raw.None? { return "NULL"; }
    var s := raw.value;
    var b, e := 0, |s|;
    while b < e && IsTrimmed(s[b])
      invariant 0 <= b <= e
      invariant TrimFront(s[b..]) == TrimFront(s)
    {
      assert s[b..][1..] == s[b + 1..];
      b := b + 1;
    }
    assert s[b..] == TrimFront(s) == s[b..e];
    while e > b && IsTrimmed(s[e - 1])
      invariant b <= e <= |s|
      invariant TrimBack(s[b..e]) == Trim(s)
    {
      assert s[b..e][..e - b - 1] == s[b..e - 1];
      e := e - 1;
    }
    var text := s[b..e];
    assert text == Trim(s);
    if text == "" || Upper(text) == "NULL" { return "NULL"; }
    if Upper(text) == "TRUE" { return "TRUE"; }
    if Upper(text) == "FALSE" { return "FALSE"; }
    var number := PlainNumber(text);
    return if number.Some? then number.value else text;
  }
}
