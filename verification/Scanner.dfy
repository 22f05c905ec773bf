/** The one scanner that decides which bytes of a statement are code (src/execute.c, session.c). */
module Scanner {
  import opened Text

  predicate IsNameStart(c: char) {
    IsLetter(c) || c == '_'
  }

  predicate IsNameByte(c: char) {
    IsLetter(c) || IsDigit(c) || c == '_' || c == '$'
  }

  // How far each construct runs. All of them count the bytes from `t`, the text after the opening
  // of the construct, to just past its end; an unterminated construct runs to the end of the text.

  function NameRest(t: string): (n: nat)
    ensures n <= |t|
  {
    if t == "" || !IsNameByte(t[0]) then 0 else 1 + NameRest(t[1..])
  }

  /** A single-quoted string: a backslash escapes the next byte, '' is a doubled quote. */
  function StringRest(t: string): (n: nat)
    ensures n <= |t|
    ensures n == 0 <==> t == ""
  {
    if t == "" then 0
    else if t[0] == '\\' && |t| > 1 then 2 + StringRest(t[2..])
    else if t[0] == '\'' then (if |t| > 1 && t[1] == '\'' then 2 + StringRest(t[2..]) else 1)
    else 1 + StringRest(t[1..])
  }

  /** A quoted identifier: "" is a doubled quote and nothing else is special. */
  function QuotedRest(t: string): (n: nat)
    ensures n <= |t|
    ensures n == 0 <==> t == ""
  {
    if t == "" then 0
    else if t[0] == '"' then (if |t| > 1 && t[1] == '"' then 2 + QuotedRest(t[2..]) else 1)
    else 1 + QuotedRest(t[1..])
  }

  predicate IsLineEnd(c: char) {
    c == '\r' || c == '\n'
  }

  function LineRest(t: string): (n: nat)
    ensures n <= |t|
    ensures n == 0 <==> t == ""
  {
    if t == "" then 0 else if IsLineEnd(t[0]) then 1 else 1 + LineRest(t[1..])
  }

  /** Up to and past the first `a` followed by `b`. */
  function PairRest(t: string, a: char, b: char): (n: nat)
    ensures n <= |t|
    ensures n == 0 <==> t == ""
  {
    if |t| < 2 then |t|
    else if t[0] == a && t[1] == b then 2
    else 1 + PairRest(t[1..], a, b)
  }

  /** What a stretch of text that is not code begins with. */
  datatype Opening = Name | Str | Quoted | Line | Block | Body | Code

  function OpeningOf(t: string): Opening
    requires t != ""
  {
    if IsNameStart(t[0]) then Name
    else if t[0] == '\'' then Str
    else if t[0] == '"' then Quoted
    else if |t| > 1 && t[0] == '-' && t[1] == '-' then Line
    else if |t| > 1 && t[0] == '/' && t[1] == '/' then Line
    else if |t| > 1 && t[0] == '/' && t[1] == '*' then Block
    else if |t| > 1 && t[0] == '$' && t[1] == '$' then Body
    else Code
  }

  function OpeningLen(o: Opening): nat {
    match o
    case Name | Str | Quoted | Code => 1
    case Line | Block | Body => 2
  }

  function RestLen(o: Opening, t: string): (n: nat)
    ensures n <= |t|
  {
    match o
    case Name => NameRest(t)
    case Str => StringRest(t)
    case Quoted => QuotedRest(t)
    case Line => LineRest(t)
    case Block => PairRest(t, '*', '/')
    case Body => PairRest(t, '$', '$')
    case Code => 0
  }

  /** The length of the token at the head of `t`: a stretch that is not code, or one byte of it. */
  function HeadLen(t: string): (n: nat)
    requires t != ""
    ensures 0 < n <= |t|
  {
    var o := OpeningOf(t);
    OpeningLen(o) + RestLen(o, t[OpeningLen(o)..])
  }

  /** The text cut into tokens. */
  function Scan(t: string): (r: seq<string>)
    ensures forall x <- r :: x != ""
    ensures r == [] <==> t == ""
  {
    if t == "" then [] else [t[..HeadLen(t)]] + Scan(t[HeadLen(t)..])
  }

  /** `x` scans as one token. */
  predicate IsToken(x: string) {
    x != "" && HeadLen(x) == |x|
  }

  /** `x` still ends where it did when the first byte of `y` follows it. */
  predicate Sealed(x: string, y: string) {
    x != "" && y != "" && HeadLen(x + y[..1]) == |x|
  }

  /** A sequence of tokens whose neighbours leave each other alone. */
  predicate Chain(ts: seq<string>) {
    && (forall i :: 0 <= i < |ts| ==> IsToken(ts[i]))
    && (forall i :: 0 <= i < |ts| - 1 ==> Sealed(ts[i], ts[i + 1]))
  }

  // One byte of lookahead is all the scanner has: what follows that byte does not matter.

  lemma {:induction false} NameLookahead(x: string, b: string)
    requires b != ""
    ensures NameRest(x + b) == |x| <==> NameRest(x + b[..1]) == |x|
  {
    if x == "" {
      assert x + b == b && x + b[..1] == b[..1];
    } else {
      assert (x + b)[1..] == x[1..] + b && (x + b[..1])[1..] == x[1..] + b[..1];
      NameLookahead(x[1..], b);
    }
  }

  lemma Drops(x: string, b: string, n: nat)
    requires b != "" && n <= |x|
    ensures (x + b)[n..] == x[n..] + b && (x + b[..1])[n..] == x[n..] + b[..1]
  {
  }

  lemma {:induction false} StringLookahead(x: string, b: string)
    requires b != ""
    ensures StringRest(x + b) == |x| <==> StringRest(x + b[..1]) == |x|
  {
    if |x| > 0 {
      Drops(x, b, 1);
      StringLookahead(x[1..], b);
      if |x| > 1 {
        Drops(x, b, 2);
        StringLookahead(x[2..], b);
      }
    }
  }

  lemma {:induction false} QuotedLookahead(x: string, b: string)
    requires b != ""
    ensures QuotedRest(x + b) == |x| <==> QuotedRest(x + b[..1]) == |x|
  {
    if |x| > 0 {
      Drops(x, b, 1);
      QuotedLookahead(x[1..], b);
      if |x| > 1 {
        Drops(x, b, 2);
        QuotedLookahead(x[2..], b);
      }
    }
  }

  lemma {:induction false} LineLookahead(x: string, b: string)
    requires b != ""
    ensures LineRest(x + b) == |x| <==> x != "" && LineRest(x + "?") == |x|
  {
    if |x| > 0 {
      assert (x + b)[1..] == x[1..] + b && (x + "?")[1..] == x[1..] + "?";
      LineLookahead(x[1..], b);
    }
  }

  lemma {:induction false} PairLookahead(x: string, b: string, p: char, q: char)
    requires b != "" && q != '?'
    ensures PairRest(x + b, p, q) == |x| <==> x != "" && PairRest(x + "?", p, q) == |x|
  {
    if |x| > 0 {
      assert (x + b)[1..] == x[1..] + b && (x + "?")[1..] == x[1..] + "?";
      PairLookahead(x[1..], b, p, q);
    }
  }

  lemma Lookahead(o: Opening, x: string, b: string)
    requires b != ""
    ensures RestLen(o, x + b) == |x| <==> RestLen(o, x + b[..1]) == |x|
  {
    match o
    case Name => NameLookahead(x, b);
    case Str => StringLookahead(x, b);
    case Quoted => QuotedLookahead(x, b);
    case Line => LineLookahead(x, b); LineLookahead(x, b[..1]);
    case Block => PairLookahead(x, b, '*', '/'); PairLookahead(x, b[..1], '*', '/');
    case Body => PairLookahead(x, b, '$', '$'); PairLookahead(x, b[..1], '$', '$');
    case Code =>
  }

  /** The scanner never looks further than one byte past a token. */
  lemma OneByteLookahead(x: string, b: string)
    requires x != "" && b != ""
    ensures HeadLen(x + b) == |x| <==> Sealed(x, b)
  {
    var o, o' := OpeningOf(x + b), OpeningOf(x + b[..1]);
    assert o == o';
    var k := OpeningLen(o);
    if k <= |x| {
      assert (x + b)[k..] == x[k..] + b && (x + b[..1])[k..] == x[k..] + b[..1];
      Lookahead(o, x[k..], b);
    }
  }

  // A token cut out of a text is still one token.

  lemma TakeDrop(t: string, k: nat, n: nat)
    requires k <= n <= |t|
    ensures t[..n][k..] == t[k..][..n - k]
  {
  }

  lemma {:induction false} NameAtomic(t: string)
    ensures NameRest(t[..NameRest(t)]) == NameRest(t)
  {
    var n := NameRest(t);
    if n >= 1 {
      TakeDrop(t, 1, n);
      NameAtomic(t[1..]);
    }
  }

  lemma {:induction false} StringAtomic(t: string)
    ensures StringRest(t[..StringRest(t)]) == StringRest(t)
  {
    var n := StringRest(t);
    if n >= 1 {
      TakeDrop(t, 1, n);
      StringAtomic(t[1..]);
      if n >= 2 {
        TakeDrop(t, 2, n);
        StringAtomic(t[2..]);
      }
    }
  }

  lemma {:induction false} QuotedAtomic(t: string)
    ensures QuotedRest(t[..QuotedRest(t)]) == QuotedRest(t)
  {
    var n := QuotedRest(t);
    if n >= 1 {
      TakeDrop(t, 1, n);
      QuotedAtomic(t[1..]);
      if n >= 2 {
        TakeDrop(t, 2, n);
        QuotedAtomic(t[2..]);
      }
    }
  }

  lemma {:induction false} LineAtomic(t: string)
    ensures LineRest(t[..LineRest(t)]) == LineRest(t)
  {
    var n := LineRest(t);
    if n >= 1 {
      TakeDrop(t, 1, n);
      LineAtomic(t[1..]);
    }
  }

  lemma {:induction false} PairAtomic(t: string, a: char, b: char)
    ensures PairRest(t[..PairRest(t, a, b)], a, b) == PairRest(t, a, b)
  {
    var n := PairRest(t, a, b);
    if n >= 1 {
      TakeDrop(t, 1, n);
      PairAtomic(t[1..], a, b);
    }
  }

  lemma RestAtomic(o: Opening, t: string)
    ensures RestLen(o, t[..RestLen(o, t)]) == RestLen(o, t)
  {
    hide NameRest, StringRest, QuotedRest, LineRest, PairRest;
    match o
    case Name => NameAtomic(t);
    case Str => StringAtomic(t);
    case Quoted => QuotedAtomic(t);
    case Line => LineAtomic(t);
    case Block => PairAtomic(t, '*', '/');
    case Body => PairAtomic(t, '$', '$');
    case Code =>
  }

  lemma HeadAtomic(t: string)
    requires t != ""
    ensures IsToken(t[..HeadLen(t)])
  {
    var o, n := OpeningOf(t), HeadLen(t);
    var k := OpeningLen(o);
    RestAtomic(o, t[k..]);
    assert t[..n][k..] == t[k..][..n - k];
    assert OpeningOf(t[..n]) == o;
  }

  /** Scanning loses nothing, and its tokens form a chain. */
  lemma {:induction false} ScanIsChain(t: string)
    ensures Concat(Scan(t)) == t
    ensures Chain(Scan(t))
  {
    if t != "" {
      var n := HeadLen(t);
      var x, b := t[..n], t[n..];
      assert t == x + b;
      ScanIsChain(b);
      HeadAtomic(t);
      if b != "" {
        OneByteLookahead(x, b);
        assert Scan(b)[0][..1] == b[..1];
      }
    }
  }

  lemma {:induction false} ConcatHead(ts: seq<string>)
    requires ts != [] && ts[0] != ""
    ensures Concat(ts) != "" && Concat(ts)[..1] == ts[0][..1]
  {
  }

  /** Putting tokens side by side and scanning again gives the same tokens exactly when every one is
      a token by itself and is left alone by its neighbour. */
  lemma {:induction false} RescanExactly(ts: seq<string>)
    requires forall i :: 0 <= i < |ts| ==> ts[i] != ""
    ensures Scan(Concat(ts)) == ts <==> Chain(ts)
  {
    ScanIsChain(Concat(ts));
    if ts != [] && Chain(ts) {
      var x, b := ts[0], Concat(ts[1..]);
      RescanExactly(ts[1..]);
      assert Chain(ts[1..]);
      if |ts| > 1 {
        ConcatHead(ts[1..]);
        assert Sealed(x, ts[1]);
        assert b[..1] == ts[1][..1];
        OneByteLookahead(x, b);
      } else {
        assert x + b == x;
      }
      assert HeadLen(x + b) == |x|;
      assert (x + b)[..|x|] == x && (x + b)[|x|..] == b;
      assert ts == [x] + ts[1..];
    }
  }

  // The scanner as the source writes it.

  /** skip_non_placeholder: the index just past the stretch that opens at `c`, or -1 when `c` is
      code. Reading index |s| is reading the terminator. */
  method SkipNonPlaceholder(s: string, c: nat) returns (past: int)
    requires NulFree(s) && c < |s|
    ensures OpeningOf(s[c..]).Code? <==> past == -1
    ensures past != -1 ==> past == c + HeadLen(s[c..])
  {
    var ch := s[c];
    var next := if c + 1 < |s| then s[c + 1] else '\0';
    assert s[c..][1..] == s[c + 1..];
    if IsLetter(ch) || ch == '_' {
      past := NameEnd(s, c + 1);
    } else if ch == '\'' {
      past := StringEnd(s, c + 1);
    } else if ch == '"' {
      past := QuotedEnd(s, c + 1);
    } else if (ch == '-' && next == '-') || (ch == '/' && next == '/') {
      assert s[c..][2..] == s[c + 2..];
      past := LineEnd(s, c + 2);
    } else if ch == '/' && next == '*' {
      assert s[c..][2..] == s[c + 2..];
      past := FindPair(s, c + 2, '*', '/');
    } else if ch == '$' && next == '$' {
      assert s[c..][2..] == s[c + 2..];
      past := FindPair(s, c + 2, '$', '$');
    } else {
      past := -1;
    }
  }

  method NameEnd(s: string, start: nat) returns (p: nat)
    requires start <= |s|
    ensures p == start + NameRest(s[start..])
  {
    p := start;
    while p < |s| && IsNameByte(s[p])
      invariant start <= p <= |s|
      invariant p + NameRest(s[p..]) == start + NameRest(s[start..])
    {
      assert s[p..][1..] == s[p + 1..];
      p := p + 1;
    }
  }

  method StringEnd(s: string, start: nat) returns (p: nat)
    requires start <= |s|
    ensures p == start + StringRest(s[start..])
  {
    p := start;
    while p < |s|
      invariant start <= p <= |s|
      invariant p + StringRest(s[p..]) == start + StringRest(s[start..])
    {
      assert s[p..][1..] == s[p + 1..];
      if p + 1 < |s| { assert s[p..][2..] == s[p + 2..]; }
      if s[p] == '\\' && p + 1 < |s| {
        p := p + 2;
      } else if s[p] == '\'' {
        if p + 1 == |s| || s[p + 1] != '\'' { return p + 1; }
        p := p + 2;
      } else {
        p := p + 1;
      }
    }
  }

  method QuotedEnd(s: string, start: nat) returns (p: nat)
    requires start <= |s|
    ensures p == start + QuotedRest(s[start..])
  {
    p := start;
    while p < |s|
      invariant start <= p <= |s|
      invariant p + QuotedRest(s[p..]) == start + QuotedRest(s[start..])
    {
      assert s[p..][1..] == s[p + 1..];
      if p + 1 < |s| { assert s[p..][2..] == s[p + 2..]; }
      if s[p] == '"' {
        if p + 1 == |s| || s[p + 1] != '"' { return p + 1; }
        p := p + 2;
      } else {
        p := p + 1;
      }
    }
  }

  /** Past the first line feed or carriage return: strcspn, then one byte more. */
  method LineEnd(s: string, start: nat) returns (p: nat)
    requires start <= |s|
    ensures p == start + LineRest(s[start..])
  {
    p := start;
    while p < |s| && s[p] != '\r' && s[p] != '\n'
      invariant start <= p <= |s|
      invariant p + LineRest(s[p..]) == start + LineRest(s[start..])
    {
      assert s[p..][1..] == s[p + 1..];
      p := p + 1;
    }
    p := if p < |s| then p + 1 else p;
  }

  /** strstr for a two-byte needle: the index past the first match, or the end of the text. */
  method FindPair(s: string, start: nat, a: char, b: char) returns (p: nat)
    requires start <= |s|
    ensures p == start + PairRest(s[start..], a, b)
  {
    p := start;
    while p + 1 < |s| && !(s[p] == a && s[p + 1] == b)
      invariant start <= p <= |s|
      invariant p + PairRest(s[p..], a, b) == start + PairRest(s[start..], a, b)
    {
      assert s[p..][1..] == s[p + 1..];
      p := p + 1;
    }
    p := if p + 1 < |s| then p + 2 else |s|;
  }
}
