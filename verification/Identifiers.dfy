/** Names as SQL identifiers: quoting them (src/util.c) and reading them back from a USE statement
    (src/execute.c). */
module Identifiers {
  import opened Text
  import opened Scanner
  import opened Literals

  /** A name that stands in SQL without quotes. */
  predicate IsBare(name: string) {
    && name != ""
    && IsNameStart(name[0])
    && forall i :: 1 <= i < |name| ==> IsNameByte(name[i])
  }

  function DoubleQuotes(t: string): string {
    if t == "" then "" else (if t[0] == '"' then "\"\"" else t[..1]) + DoubleQuotes(t[1..])
  }

  /** Every quote comes in pairs. */
  predicate QuotesPaired(t: string) {
    if t == "" then true
    else if t[0] != '"' then QuotesPaired(t[1..])
    else |t| > 1 && t[1] == '"' && QuotesPaired(t[2..])
  }

  /** One quote for each pair, everything else as it is. */
  function Undouble(t: string): string {
    if t == "" then ""
    else if |t| > 1 && t[0] == '"' && t[1] == '"' then "\"" + Undouble(t[2..])
    else t[..1] + Undouble(t[1..])
  }

  function Interior(name: string): string
    requires |name| >= 2
  {
    name[1..|name| - 1]
  }

  predicate IsQuoted(name: string) {
    |name| >= 2 && name[0] == '"' && name[|name| - 1] == '"' && QuotesPaired(Interior(name))
  }

  /** What fl_strbuf_append_ident appends for a non-empty name. */
  function Ident(name: string): string {
    if IsQuoted(name) || IsBare(name) then name else "\"" + DoubleQuotes(name) + "\""
  }

  /** The object the engine finds under that identifier: quotes keep a name as it is, a bare name is
      folded. */
  function Denoted(name: string): string {
    if IsQuoted(name) then Undouble(Interior(name))
    else if IsBare(name) then Upper(name)
    else name
  }

  lemma {:induction false} UndoubleDoubled(t: string)
    ensures Undouble(DoubleQuotes(t)) == t
    ensures QuotesPaired(DoubleQuotes(t))
  {
    if t != "" {
      UndoubleDoubled(t[1..]);
      var d := DoubleQuotes(t);
      if t[0] == '"' { assert d[2..] == DoubleQuotes(t[1..]); }
      else { assert d[1..] == DoubleQuotes(t[1..]); }
      assert t == t[..1] + t[1..];
    }
  }

  /** Paired quotes are exactly what doubling produces. */
  lemma {:induction false} PairedIsDoubled(t: string)
    requires QuotesPaired(t)
    ensures DoubleQuotes(Undouble(t)) == t
  {
    if t != "" {
      if t[0] == '"' {
        PairedIsDoubled(t[2..]);
        var u := Undouble(t);
        assert u[1..] == Undouble(t[2..]);
        assert t == "\"\"" + t[2..];
      } else {
        PairedIsDoubled(t[1..]);
        var u := Undouble(t);
        assert u[1..] == Undouble(t[1..]) && u[..1] == t[..1];
        assert t == t[..1] + t[1..];
      }
    }
  }

  /** Doubling and undoubling quotes are inverse to each other on exactly the texts a quoted identifier may
      hold: an identifier that is quoted already is the one way to quote the name it denotes. */
  lemma QuotedIsCanonical(name: string)
    ensures Undouble(DoubleQuotes(name)) == name && QuotesPaired(DoubleQuotes(name))
    ensures IsQuoted(name) ==> name == "\"" + DoubleQuotes(Denoted(name)) + "\""
  {
    hide DoubleQuotes, Undouble, QuotesPaired;
    UndoubleDoubled(name);
    if IsQuoted(name) {
      PairedIsDoubled(Interior(name));
      assert name == "\"" + Interior(name) + "\"";
    }
  }

  lemma {:induction false} DoubleQuotesNulFree(t: string)
    requires NulFree(t)
    ensures NulFree(DoubleQuotes(t))
  {
    if t != "" { DoubleQuotesNulFree(t[1..]); }
  }

  // One token

  lemma {:induction false} PairedRuns(t: string, tail: string)
    requires QuotesPaired(t)
    ensures QuotedRest(t + tail) == |t| + QuotedRest(tail)
  {
    if t == "" {
      assert t + tail == tail;
    } else if t[0] == '"' {
      PairedRuns(t[2..], tail);
      assert (t + tail)[2..] == t[2..] + tail;
    } else {
      PairedRuns(t[1..], tail);
      assert (t + tail)[1..] == t[1..] + tail;
    }
  }

  lemma PairedIsOneToken(t: string, y: string)
    requires QuotesPaired(t)
    requires y != "" && y[0] != '"'
    ensures IsToken("\"" + t + "\"") && Sealed("\"" + t + "\"", y)
  {
    var x := "\"" + t + "\"";
    PairedRuns(t, "\"");
    PairedRuns(t, "\"" + y[..1]);
    assert x[1..] == t + "\"";
    assert (x + y[..1])[1..] == t + ("\"" + y[..1]);
    QuotedHead(x, t + "\"");
    QuotedHead(x + y[..1], t + ("\"" + y[..1]));
    QuoteEnds(y);
  }

  lemma QuotedHead(x: string, rest: string)
    requires x != "" && x[0] == '"' && x[1..] == rest
    ensures HeadLen(x) == 1 + QuotedRest(rest)
  {
  }

  lemma QuoteEnds(y: string)
    requires y != "" && y[0] != '"'
    ensures QuotedRest("\"") == 1 && QuotedRest("\"" + y[..1]) == 1
  {
  }

  /** Whatever the name holds, the scanner reads its identifier as exactly one token, and it cannot
      reach into what follows unless that could continue an identifier. */
  lemma IdentIsOneToken(name: string)
    requires name != ""
    ensures Scan(Ident(name)) == [Ident(name)]
    ensures forall y: string :: y != "" && !IsNameByte(y[0]) && y[0] != '"' ==> Sealed(Ident(name), y)
  {
    var x := Ident(name);
    IdentToken(name, " ");
    forall y: string | y != "" && !IsNameByte(y[0]) && y[0] != '"' ensures Sealed(x, y) {
      IdentToken(name, y);
    }
    assert Concat([x]) == x + Concat([]) == x;
    RescanExactly([x]);
  }

  lemma IdentToken(name: string, y: string)
    requires name != ""
    requires y != "" && !IsNameByte(y[0]) && y[0] != '"'
    ensures IsToken(Ident(name)) && Sealed(Ident(name), y)
  {
    hide HeadLen, Scan;
    if IsQuoted(name) {
      PairedIsOneToken(Interior(name), y);
      assert name == "\"" + Interior(name) + "\"";
    } else if IsBare(name) {
      WordIsToken(name, y);
    } else {
      UndoubleDoubled(name);
      PairedIsOneToken(DoubleQuotes(name), y);
    }
  }

  // Tracking

  datatype Tracking = Untracked | Database(name: string) | Schema(name: string)

  predicate StartsNoCase(s: string, prefix: string) {
    |s| >= |prefix| && Upper(s[..|prefix|]) == Upper(prefix)
  }

  predicate IsSpace4(c: char) {
    c == ' ' || c == '\t' || c == '\n' || c == '\r'
  }

  function DropLeading4(s: string): string {
    if s != "" && IsSpace4(s[0]) then DropLeading4(s[1..]) else s
  }

  function DropSpaces(s: string): string {
    if s != "" && s[0] == ' ' then DropSpaces(s[1..]) else s
  }

  predicate IsTrailer(c: char) {
    c == ';' || c == ' ' || c == '\n' || c == '\r'
  }

  function DropTrailers(s: string): string {
    if s != "" && IsTrailer(s[|s| - 1]) then DropTrailers(s[..|s| - 1]) else s
  }

  /** The name behind USE DATABASE or USE SCHEMA, as the connection will report it. */
  function TrackedName(s: string): string
    requires s != ""
  {
    if |s| >= 2 && s[0] == '"' && s[|s| - 1] == '"' then Undouble(Interior(s)) else Upper(s)
  }

  function Tracked(sql: string): Tracking {
    var s := DropLeading4(sql);
    if StartsNoCase(s, "USE DATABASE ") then
      var rest := DropTrailers(DropSpaces(s[13..]));
      if rest == "" then Untracked else Database(TrackedName(rest))
    else if StartsNoCase(s, "USE SCHEMA ") then
      var rest := DropTrailers(DropSpaces(s[11..]));
      if rest == "" then Untracked else Schema(TrackedName(rest))
    else Untracked
  }

  /** Blanks, tabs and line ends in front of a statement are passed over. */
  lemma {:induction false} LeadingIsSkipped(gap: string, sql: string)
    requires forall i :: 0 <= i < |gap| ==> gap[i] in " \t\n\r"
    ensures Tracked(gap + sql) == Tracked(sql)
  {
    hide TrackedName, DropSpaces, DropTrailers, StartsNoCase;
    LeadingIsDropped(gap, sql);
  }

  lemma {:induction false} LeadingIsDropped(gap: string, sql: string)
    requires forall i :: 0 <= i < |gap| ==> gap[i] in " \t\n\r"
    ensures DropLeading4(gap + sql) == DropLeading4(sql)
  {
    if gap == "" {
      assert gap + sql == sql;
    } else {
      assert (gap + sql)[1..] == gap[1..] + sql;
      LeadingIsDropped(gap[1..], sql);
    }
  }

  lemma IdentEnds(name: string)
    requires name != ""
    ensures var x := Ident(name);
            && x != ""
            && DropSpaces(x) == x && DropTrailers(x) == x
            && TrackedName(x) == Denoted(name)
  {
    var x := Ident(name);
    if IsQuoted(name) {
    } else if IsBare(name) {
      assert IsNameByte(x[|x| - 1]);
      assert x[0] != '"';
    } else {
      UndoubleDoubled(name);
      assert Interior(x) == DoubleQuotes(name);
    }
  }

  /** The statement the driver puts a scope on with is tracked as the name it came from. */
  lemma {:induction false} IdentifierRoundTrip(name: string)
    requires name != ""
    ensures Tracked("USE DATABASE " + Ident(name)) == Database(Denoted(name))
    ensures Tracked("USE SCHEMA " + Ident(name)) == Schema(Denoted(name))
  {
    hide Ident, Denoted, DropTrailers, DropSpaces, TrackedName;
    IdentEnds(name);
    var d, s := "USE DATABASE ", "USE SCHEMA ";
    var x, y := d + Ident(name), s + Ident(name);
    assert DropLeading4(x) == x && DropLeading4(y) == y;
    assert x[..13] == d && x[13..] == Ident(name);
    assert y[..11] == s && y[11..] == Ident(name);
    assert Upper(y[..11])[4] == 'S' && Upper(d)[4] == 'D';
  }

  /** Nothing in a name can end its USE statement, open another, or hide the rest. */
  lemma UseStatementTokens(verb: string, kind: string, name: string)
    requires IsWord(verb) && IsWord(kind) && name != ""
    ensures Scan(verb + " " + kind + " " + Ident(name)) == [verb, " ", kind, " ", Ident(name)]
  {
    hide HeadLen, Scan;
    var x := Ident(name);
    var ts := [verb, " ", kind, " ", x];
    WordIsToken(verb, " ");
    WordIsToken(kind, " ");
    IdentToken(name, " ");
    SpaceIsToken(kind);
    SpaceIsToken(x);
    ConcatFour(" ", kind, " ", x);
    assert ts[1..] == [" ", kind, " ", x];
    assert verb + (" " + kind + " " + x) == verb + " " + kind + " " + x;
    RescanExactly(ts);
  }

  lemma SpaceIsToken(y: string)
    requires y != ""
    ensures IsToken(" ") && Sealed(" ", y)
  {
  }

  // The source's own loops

  method IdentIsBare(name: string) returns (yes: bool)
    ensures yes <==> IsBare(name)
  {
    if name == "" { return false; }
    if !(IsLetter(name[0]) || name[0] == '_') { return false; }
    var c := 1;
    while c < |name|
      invariant 1 <= c <= |name|
      invariant forall i :: 1 <= i < c ==> IsNameByte(name[i])
    {
      if !IsNameByte(name[c]) { return false; }
      c := c + 1;
    }
    return true;
  }

  method IdentIsQuoted(name: string) returns (yes: bool)
    ensures yes <==> IsQuoted(name)
  {
    var length := |name|;
    if length < 2 || name[0] != '"' || name[length - 1] != '"' { return false; }
    var i := 1;
    while i + 1 < length
      invariant 1 <= i < length
      invariant QuotesPaired(name[i..length - 1]) == QuotesPaired(Interior(name))
    {
      ghost var rest := name[i..length - 1];
      assert rest[1..] == name[i + 1..length - 1];
      if name[i] != '"' { i := i + 1; continue; }
      if i + 2 < length && name[i + 1] == '"' {
        assert rest[2..] == name[i + 2..length - 1];
        i := i + 2;
        continue;
      }
      return false;
    }
    return true;
  }

  /** fl_strbuf_append_ident; None is its refusal of an empty name. */
  method AppendIdent(buf: string, name: string) returns (r: Option<string>)
    ensures r == if name == "" then None else Some(buf + Ident(name))
  {
    if name == "" { return None; }
    var quoted := IdentIsQuoted(name);
    var bare := IdentIsBare(name);
    if quoted || bare { return Some(buf + name); }
    var out := buf + "\"";
    var c := 0;
    while c < |name|
      invariant 0 <= c <= |name|
      invariant out + DoubleQuotes(name[c..]) == buf + "\"" + DoubleQuotes(name)
    {
      assert name[c..][1..] == name[c + 1..] && name[c..][..1] == [name[c]];
      if name[c] == '"' { out := out + "\""; }
      out := out + [name[c]];
      c := c + 1;
    }
    assert out + "" == out;
    assert out + "\"" == buf + ("\"" + DoubleQuotes(name) + "\"");
    return Some(out + "\"");
  }

  /** The name-reading half of track_context. */
  method ReadTrackedName(rest: string) returns (name: string)
    requires rest != ""
    ensures name == TrackedName(rest)
  {
    if rest[0] == '"' && |rest| >= 2 && rest[|rest| - 1] == '"' {
      name := ReadQuoted(rest);
    } else {
      name := "";
      var i := 0;
      while i < |rest|
        invariant 0 <= i <= |rest| && |name| == i
        invariant forall k :: 0 <= k < i ==> name[k] == UpperChar(rest[k])
      {
        name := name + [UpperChar(rest[i])];
        i := i + 1;
      }
      assert name == Upper(rest);
    }
  }

  /** Undoubles the interior quotes; the pair test may look at the closing quote, which changes
      nothing, because either way the byte kept is a quote. */
  method ReadQuoted(rest: string) returns (name: string)
    requires |rest| >= 2 && rest[|rest| - 1] == '"'
    ensures name == Undouble(Interior(rest))
  {
    hide Undouble, Interior;
    var length := |rest|;
    name := "";
    var i := 1;
    InteriorIs(rest);
    UndoubleSteps("");
    ghost var tail := Interior(rest);
    while i + 1 < length
      invariant 1 <= i <= length
      invariant tail == if i < length then rest[i..length - 1] else ""
      invariant name + Undouble(tail) == Undouble(Interior(rest))
    {
      ghost var before := tail;
      var pair := rest[i] == '"' && rest[i + 1] == '"';
      if pair { i := i + 1; }
      name := name + [rest[i]];
      i := i + 1;
      tail := if i < length then rest[i..length - 1] else "";
      assert before[0] == rest[i - 1];
      UndoubleSteps(before);
      if |before| > 1 && pair { assert before[2..] == tail; } else { assert before[1..] == tail; }
    }
    assert name + "" == name;
  }

  lemma InteriorIs(s: string)
    requires |s| >= 2
    ensures Interior(s) == s[1..|s| - 1]
  {
  }

  lemma UndoubleSteps(t: string)
    ensures t == "" ==> Undouble(t) == ""
    ensures t != "" ==>
              Undouble(t) == [t[0]] + Undouble(if |t| > 1 && t[0] == '"' && t[1] == '"' then t[2..] else t[1..])
  {
  }

  /** track_context up to the slot it writes: which of the two, and with what. */
  method TrackContext(sql: string) returns (t: Tracking)
    ensures t == Tracked(sql)
  {
    var c := 0;
    while c < |sql| && IsSpace4(sql[c])
      invariant 0 <= c <= |sql|
      invariant DropLeading4(sql[c..]) == DropLeading4(sql)
    {
      assert sql[c..][1..] == sql[c + 1..];
      c := c + 1;
    }
    var s := sql[c..];
    var database := StartsNoCase(s, "USE DATABASE ");
    if !database && !StartsNoCase(s, "USE SCHEMA ") { return Untracked; }
    var rest := ReadRest(s[if database then 13 else 11..]);
    if rest == "" { return Untracked; }
    var name := ReadTrackedName(rest);
    return if database then Database(name) else Schema(name);
  }

  method ReadRest(s: string) returns (rest: string)
    ensures rest == DropTrailers(DropSpaces(s))
  {
    var c := 0;
    while c < |s| && s[c] == ' '
      invariant 0 <= c <= |s|
      invariant DropSpaces(s[c..]) == DropSpaces(s)
    {
      assert s[c..][1..] == s[c + 1..];
      c := c + 1;
    }
    rest := s[c..];
    var length := |rest|;
    assert rest[..length] == rest;
    while length > 0 && IsTrailer(rest[length - 1])
      invariant 0 <= length <= |rest|
      invariant DropTrailers(rest[..length]) == DropTrailers(rest)
    {
      assert rest[..length][..length - 1] == rest[..length - 1];
      length := length - 1;
    }
    rest := rest[..length];
  }
}
