/** Bytes and C strings.

  A C string is a `string` holding the bytes before the terminator, so it has no '\0' of its own,
  and reading the terminator is reading one past its end. */
module Text {

  datatype Option<+T> = None | Some(value: T)

  /** A C string as the source handles one: no byte is the terminator. */
  predicate NulFree(s: string) {
    '\0' !in s
  }

  /** What C sees of some bytes: up to the first terminator, or all of them. */
  function CString(s: string): (r: string)
    ensures NulFree(r) && |r| <= |s| && r == s[..|r|]
    ensures NulFree(s) <==> r == s
    ensures |r| < |s| ==> s[|r|] == '\0'
  {
    if s == "" || s[0] == '\0' then "" else [s[0]] + CString(s[1..])
  }

  /** What C sees of `s` is `r`: it comes first, has no terminator in it, and one or the end behind it. */
  lemma {:induction false} CStringIs(s: string, r: string)
    ensures CString(s) == r <==> NulFree(r) && r <= s && (|r| == |s| || s[|r|] == '\0')
  {
    if s != "" && r != "" && s[0] == r[0] && s[0] != '\0' {
      CStringIs(s[1..], r[1..]);
      assert s == [s[0]] + s[1..] && r == [r[0]] + r[1..];
    }
  }

  /** Every character stands for one byte. */
  predicate IsBytes(s: string) {
    forall i :: 0 <= i < |s| ==> (s[i] as int) < 256
  }

  predicate IsDigit(c: char) {
    '0' <= c <= '9'
  }

  predicate AllDigits(s: string) {
    forall i :: 0 <= i < |s| ==> IsDigit(s[i])
  }

  predicate IsLetter(c: char) {
    'A' <= c <= 'Z' || 'a' <= c <= 'z'
  }

  function UpperChar(c: char): char {
    if 'a' <= c <= 'z' then (c as int - 'a' as int + 'A' as int) as char else c
  }

  function Upper(s: string): (r: string)
    ensures |r| == |s|
    ensures forall i :: 0 <= i < |s| ==> r[i] == UpperChar(s[i])
  {
    seq(|s|, i requires 0 <= i < |s| => UpperChar(s[i]))
  }

  /** Folding touches the small letters and nothing else. */
  lemma LettersFold(c: char)
    ensures UpperChar(c) as int == if 97 <= c as int <= 122 then c as int - 32 else c as int
  {
  }

  function Concat(parts: seq<string>): string {
    if parts == [] then "" else parts[0] + Concat(parts[1..])
  }

  lemma {:induction false} ConcatAppend(a: seq<string>, b: seq<string>)
    ensures Concat(a + b) == Concat(a) + Concat(b)
  {
    if a == [] {
      assert a + b == b;
    } else {
      ConcatAppend(a[1..], b);
      assert (a + b)[1..] == a[1..] + b;
      assert a[0] + (Concat(a[1..]) + Concat(b)) == a[0] + Concat(a[1..]) + Concat(b);
    }
  }

  /** What fits a fixed buffer with its terminator: snprintf's cut. */
  function Fit(s: string, room: nat): (r: string)
    ensures |r| == if |s| < room then |s| else if room == 0 then 0 else room - 1
    ensures r == s[..|r|]
  {
    if |s| < room then s else if room == 0 then "" else s[..room - 1]
  }

  function Pow10(k: nat): (r: nat)
    ensures r > 0
  {
    if k == 0 then 1 else 10 * Pow10(k - 1)
  }

  /** printf's %lu of a natural number. */
  function Digits(n: nat): (r: string)
    ensures r != ""
    ensures AllDigits(r)
    ensures r[0] == '0' ==> n == 0
  {
    if n < 10 then [('0' as int + n) as char] else Digits(n / 10) + [('0' as int + n % 10) as char]
  }

  /** The number a run of decimal digits spells. */
  function DigitsValue(s: string): nat
    requires AllDigits(s)
  {
    if s == "" then 0 else 10 * DigitsValue(s[..|s| - 1]) + (s[|s| - 1] as int - '0' as int)
  }

  lemma {:induction false} DigitsFit(n: nat, k: nat)
    requires k > 0 && n < Pow10(k)
    ensures |Digits(n)| <= k
  {
    if n >= 10 {
      assert Pow10(1) == 10 * Pow10(0) == 10;
      DigitsFit(n / 10, k - 1);
    }
  }

  lemma LastDigit(front: string, c: char)
    requires AllDigits(front) && IsDigit(c)
    ensures AllDigits(front + [c]) && DigitsValue(front + [c]) == 10 * DigitsValue(front) + (c as int - '0' as int)
  {
    assert (front + [c])[..|front|] == front;
  }

  lemma NoDigits()
    ensures DigitsValue("") == 0
  {
  }

  lemma {:induction false} DigitsRoundTrip(n: nat)
    ensures DigitsValue(Digits(n)) == n
  {
    var r := Digits(n);
    if n < 10 {
      assert r[..0] == "";
      assert DigitsValue(r) == 10 * DigitsValue("") + n;
    } else {
      DigitsRoundTrip(n / 10);
      assert r[..|r| - 1] == Digits(n / 10);
    }
  }

  /** printf's %ld. */
  function Signed(n: int): (r: string)
    ensures r != ""
  {
    if n < 0 then "-" + Digits(-n) else Digits(n)
  }
}
