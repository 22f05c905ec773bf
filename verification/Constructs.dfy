/** What is one token, construct by construct, said of the text itself (src/execute.c, fl_sql_skip). Between them
    the constructs are all there is, so they fix the scanner. */
module Constructs {
  import opened Text
  import opened Scanner

  // Bytes

  predicate StartsName(c: char) {
    'a' <= c <= 'z' || 'A' <= c <= 'Z' || c == '_'
  }

  predicate GoesOnName(c: char) {
    StartsName(c) || '0' <= c <= '9' || c == '$'
  }

  lemma ScanStep(t: string, n: nat)
    requires t != "" && n == HeadLen(t)
    ensures Scan(t) == [t[..n]] + Scan(t[n..])
  {
  }

  lemma Opened(t: string, o: Opening, rest: string, n: nat)
    requires t != "" && OpeningOf(t) == o && OpeningLen(o) <= |t| && t[OpeningLen(o)..] == rest && n == RestLen(o, rest)
    ensures Scan(t) == [t[..OpeningLen(o) + n]] + Scan(t[OpeningLen(o) + n..])
  {
    hide Scan, OpeningOf, RestLen;
    HeadIs(t, o, rest);
    ScanStep(t, OpeningLen(o) + n);
  }

  lemma HeadIs(t: string, o: Opening, rest: string)
    requires t != "" && OpeningOf(t) == o && OpeningLen(o) <= |t| && t[OpeningLen(o)..] == rest
    ensures HeadLen(t) == OpeningLen(o) + RestLen(o, rest)
  {
    hide OpeningOf, RestLen;
  }

  /** A text with something in front and something behind. */
  lemma Framed(open: string, body: string, close: string, tail: string)
    ensures var (t, n) := (open + body + close + tail, |open| + |body| + |close|);
            && t[|open|..] == body + (close + tail)
            && t[..n] == open + body + close && t[n..] == tail
  {
  }

  // Names

  lemma {:induction false} NameRuns(w: string, tail: string)
    requires forall i :: 0 <= i < |w| ==> GoesOnName(w[i])
    requires tail == "" || !GoesOnName(tail[0])
    ensures NameRest(w + tail) == |w|
  {
    if w == "" {
      assert w + tail == tail;
    } else {
      NameRuns(w[1..], tail);
      assert (w + tail)[1..] == w[1..] + tail;
    }
  }

  /** A letter or an underscore, and as many letters, digits, underscores and dollars as follow. */
  lemma NameIsOneToken(c: char, w: string, tail: string)
    requires StartsName(c) && forall i :: 0 <= i < |w| ==> GoesOnName(w[i])
    requires tail == "" || !GoesOnName(tail[0])
    ensures Scan([c] + w + tail) == [[c] + w] + Scan(tail)
  {
    hide Scan, NameRest;
    var t := [c] + w + tail;
    assert t == [c] + (w + tail) && t[1..] == w + tail;
    NameRuns(w, tail);
    Opened(t, Name, w + tail, |w|);
    assert t[..1 + |w|] == [c] + w && t[1 + |w|..] == tail;
  }

  // Strings and quoted identifiers

  /** One step inside a string: a byte that is neither quote nor backslash, a backslash with the byte behind it, or
      two quotes. */
  predicate IsStringPart(x: string) {
    || (|x| == 1 && x[0] != '\'' && x[0] != '\\')
    || (|x| == 2 && x[0] == '\\')
    || x == "''"
  }

  lemma {:induction false} StringRuns(parts: seq<string>, tail: string)
    requires forall i :: 0 <= i < |parts| ==> IsStringPart(parts[i])
    ensures StringRest(Concat(parts) + tail) == |Concat(parts)| + StringRest(tail)
  {
    if parts == [] {
      assert Concat(parts) + tail == tail;
    } else {
      var (x, more) := (parts[0], Concat(parts[1..]) + tail);
      StringRuns(parts[1..], tail);
      assert Concat(parts) + tail == x + more;
      assert (x + more)[|x|..] == more;
    }
  }

  /** A quote, such steps, and a quote that no quote follows. */
  lemma StringIsOneToken(parts: seq<string>, tail: string)
    requires forall i :: 0 <= i < |parts| ==> IsStringPart(parts[i])
    requires tail == "" || tail[0] != '\''
    ensures Scan("'" + Concat(parts) + "'" + tail) == ["'" + Concat(parts) + "'"] + Scan(tail)
  {
    hide Scan, StringRest, Concat, IsStringPart;
    var body := Concat(parts);
    Framed("'", body, "'", tail);
    StringRuns(parts, "'" + tail);
    StringEnds(tail);
    Opened("'" + body + "'" + tail, Str, body + ("'" + tail), |body| + 1);
  }

  lemma StringEnds(tail: string)
    requires tail == "" || tail[0] != '\''
    ensures StringRest("'" + tail) == 1
  {
  }

  lemma Behind(open: string, body: string)
    ensures (open + body)[|open|..] == body
  {
  }

  /** One nobody closes runs to the end, a last backslash included. */
  lemma OpenStringRunsOut(parts: seq<string>, last: string)
    requires forall i :: 0 <= i < |parts| ==> IsStringPart(parts[i])
    requires last == "" || last == "\\"
    ensures Scan("'" + (Concat(parts) + last)) == ["'" + (Concat(parts) + last)]
  {
    hide Scan, StringRest, Concat, IsStringPart;
    var body := Concat(parts) + last;
    var t := "'" + body;
    Behind("'", body);
    StringRuns(parts, last);
    RestsAreEmpty();
    LastBackslash();
    Opened(t, Str, body, |body|);
    EndsThere(t, |body| + 1);
  }

  lemma LastBackslash()
    ensures StringRest("\\") == 1
  {
  }

  lemma RestsAreEmpty()
    ensures StringRest("") == 0 && QuotedRest("") == 0 && LineRest("") == 0
    ensures forall a: char, b: char :: PairRest("", a, b) == 0
  {
  }

  lemma EndsThere(t: string, n: nat)
    requires n == |t|
    ensures t[..n] == t && Scan(t[n..]) == []
  {
  }

  predicate IsQuotedPart(x: string) {
    (|x| == 1 && x[0] != '"') || x == "\"\""
  }

  lemma {:induction false} QuotedRuns(parts: seq<string>, tail: string)
    requires forall i :: 0 <= i < |parts| ==> IsQuotedPart(parts[i])
    ensures QuotedRest(Concat(parts) + tail) == |Concat(parts)| + QuotedRest(tail)
  {
    if parts == [] {
      assert Concat(parts) + tail == tail;
    } else {
      var (x, more) := (parts[0], Concat(parts[1..]) + tail);
      QuotedRuns(parts[1..], tail);
      assert Concat(parts) + tail == x + more;
      assert (x + more)[|x|..] == more;
    }
  }

  /** A quoted identifier, in which nothing but two quotes is special. */
  lemma QuotedIsOneToken(parts: seq<string>, tail: string)
    requires forall i :: 0 <= i < |parts| ==> IsQuotedPart(parts[i])
    requires tail == "" || tail[0] != '"'
    ensures Scan("\"" + Concat(parts) + "\"" + tail) == ["\"" + Concat(parts) + "\""] + Scan(tail)
  {
    hide Scan, QuotedRest, Concat, IsQuotedPart;
    var body := Concat(parts);
    Framed("\"", body, "\"", tail);
    QuotedRuns(parts, "\"" + tail);
    QuotedEnds(tail);
    Opened("\"" + body + "\"" + tail, Quoted, body + ("\"" + tail), |body| + 1);
  }

  lemma QuotedEnds(tail: string)
    requires tail == "" || tail[0] != '"'
    ensures QuotedRest("\"" + tail) == 1
  {
  }

  lemma OpenQuotedRunsOut(parts: seq<string>)
    requires forall i :: 0 <= i < |parts| ==> IsQuotedPart(parts[i])
    ensures Scan("\"" + Concat(parts)) == ["\"" + Concat(parts)]
  {
    hide Scan, QuotedRest, Concat, IsQuotedPart;
    var body := Concat(parts);
    var t := "\"" + body;
    Behind("\"", body);
    assert body == body + "";
    QuotedRuns(parts, "");
    RestsAreEmpty();
    Opened(t, Quoted, body, |body|);
    EndsThere(t, |body| + 1);
  }

  // Comments and bodies

  lemma {:induction false} LineRuns(b: string, tail: string)
    requires '\r' !in b && '\n' !in b
    ensures LineRest(b + tail) == |b| + LineRest(tail)
  {
    if b == "" {
      assert b + tail == tail;
    } else {
      LineRuns(b[1..], tail);
      assert (b + tail)[1..] == b[1..] + tail;
    }
  }

  /** Two dashes or two slashes, and everything up to and with the line's end, be that a line feed or a carriage
      return. */
  lemma LineIsOneToken(mark: string, b: string, end: char, tail: string)
    requires (mark == "--" || mark == "//") && '\r' !in b && '\n' !in b && (end == '\r' || end == '\n')
    ensures Scan(mark + b + [end] + tail) == [mark + b + [end]] + Scan(tail)
    ensures Scan(mark + b) == [mark + b]
  {
    hide Scan, LineRest;
    var t := mark + b + [end] + tail;
    assert t == mark + (b + ([end] + tail)) && t[2..] == b + ([end] + tail);
    LineRuns(b, [end] + tail);
    LineEnds(end, tail);
    Opened(t, Line, b + ([end] + tail), |b| + 1);
    assert t[..|b| + 3] == mark + b + [end] && t[|b| + 3..] == tail;
    var u := mark + b;
    Behind(mark, b);
    assert b == b + "";
    LineRuns(b, "");
    RestsAreEmpty();
    Opened(u, Line, b, |b|);
    EndsThere(u, |b| + 2);
  }

  lemma LineEnds(end: char, tail: string)
    requires end == '\r' || end == '\n'
    ensures LineRest([end] + tail) == 1
  {
  }

  predicate PairAt(t: string, i: int, a: char, z: char) {
    0 <= i < |t| - 1 && t[i] == a && t[i + 1] == z
  }

  /** The pair comes at the end of `b` and not before, nor across it. */
  predicate ComesAt(b: string, a: char, z: char) {
    forall i :: 0 <= i < |b| ==> !PairAt(b + [a, z], i, a, z)
  }

  predicate ComesNever(b: string, a: char, z: char) {
    forall i :: 0 <= i < |b| - 1 ==> !PairAt(b, i, a, z)
  }

  lemma {:induction false} PairRuns(b: string, a: char, z: char, tail: string)
    requires ComesAt(b, a, z)
    ensures PairRest(b + [a, z] + tail, a, z) == |b| + 2
  {
    var t := b + [a, z] + tail;
    if b == "" {
      assert t == [a, z] + tail && t[0] == a && t[1] == z;
    } else {
      assert !PairAt(b + [a, z], 0, a, z);
      assert t[0] == (b + [a, z])[0] && t[1] == (b + [a, z])[1];
      forall i | 0 <= i < |b[1..]| ensures !PairAt(b[1..] + [a, z], i, a, z) {
        assert !PairAt(b + [a, z], i + 1, a, z);
      }
      PairRuns(b[1..], a, z, tail);
      assert t[1..] == b[1..] + [a, z] + tail;
    }
  }

  lemma {:induction false} PairRunsOut(b: string, a: char, z: char)
    requires ComesNever(b, a, z)
    ensures PairRest(b, a, z) == |b|
  {
    if |b| >= 2 {
      assert !PairAt(b, 0, a, z);
      forall i | 0 <= i < |b[1..]| - 1 ensures !PairAt(b[1..], i, a, z) { assert !PairAt(b, i + 1, a, z); }
      PairRunsOut(b[1..], a, z);
    }
  }

  lemma PairOpened(t: string, o: Opening, open: string, a: char, z: char, b: string, tail: string)
    requires |open| == 2 && t == open + b + [a, z] + tail
    requires (o.Block? && a == '*' && z == '/') || (o.Body? && a == '$' && z == '$')
    requires OpeningOf(t) == o && ComesAt(b, a, z)
    ensures Scan(t) == [open + b + [a, z]] + Scan(tail)
  {
    hide Scan, PairRest, OpeningOf, ComesAt;
    var rest := b + [a, z] + tail;
    assert t == open + rest && t[2..] == rest;
    PairRuns(b, a, z, tail);
    Opened(t, o, rest, |b| + 2);
    assert t[..|b| + 4] == open + b + [a, z] && t[|b| + 4..] == tail;
  }

  /** A block comment ends at the first star and slash behind its opening. */
  lemma BlockIsOneToken(b: string, tail: string)
    requires ComesAt(b, '*', '/')
    ensures Scan("/*" + b + "*/" + tail) == ["/*" + b + "*/"] + Scan(tail)
  {
    hide Scan, ComesAt;
    var t := "/*" + b + "*/" + tail;
    assert t[0] == '/' && t[1] == '*';
    PairOpened(t, Block, "/*", '*', '/', b, tail);
  }

  /** A body ends at the first two dollars behind its opening. */
  lemma BodyIsOneToken(b: string, tail: string)
    requires ComesAt(b, '$', '$')
    ensures Scan("$$" + b + "$$" + tail) == ["$$" + b + "$$"] + Scan(tail)
  {
    hide Scan, ComesAt;
    var t := "$$" + b + "$$" + tail;
    assert t[0] == '$' && t[1] == '$';
    PairOpened(t, Body, "$$", '$', '$', b, tail);
  }

  /** Either runs to the end where it is not closed. */
  lemma OpenPairsRunOut(b: string)
    ensures ComesNever(b, '*', '/') ==> Scan("/*" + b) == ["/*" + b]
    ensures ComesNever(b, '$', '$') ==> Scan("$$" + b) == ["$$" + b]
  {
    hide Scan, PairRest, ComesNever;
    var (t, u) := ("/*" + b, "$$" + b);
    assert t[0] == '/' && t[1] == '*' && u[0] == '$' && u[1] == '$' && t[2..] == b && u[2..] == b;
    if ComesNever(b, '*', '/') {
      PairRunsOut(b, '*', '/');
      Opened(t, Block, b, |b|);
      EndsThere(t, |b| + 2);
    }
    if ComesNever(b, '$', '$') {
      PairRunsOut(b, '$', '$');
      Opened(u, Body, b, |b|);
      EndsThere(u, |b| + 2);
    }
  }

  // Code

  /** Nothing opens with this byte where that text follows it. */
  predicate OpensNothing(c: char, tail: string) {
    && !StartsName(c) && c != '\'' && c != '"'
    && (tail != "" ==>
          && !(c == '-' && tail[0] == '-') && !(c == '/' && (tail[0] == '/' || tail[0] == '*'))
          && !(c == '$' && tail[0] == '$'))
  }

  /** Every other byte is code, and a token by itself. */
  lemma CodeIsOneToken(c: char, tail: string)
    requires OpensNothing(c, tail)
    ensures Scan([c] + tail) == [[c]] + Scan(tail)
  {
    hide Scan;
    var t := [c] + tail;
    assert t[1..] == tail && t[..1] == [c];
    if tail != "" { assert t[1] == tail[0]; }
    Opened(t, Code, tail, 0);
  }
}
