/** The database a request moves its session to, read from its tokens, and what the driver shows for it
    (src/execute.c, src/connect.c). */
module UseTargets {
  import opened Text
  import opened Scanner
  import opened Literals
  import opened Identifiers
  import opened SessionNote

  // Where a request leads

  /** Whitespace, or a comment. */
  predicate IsTriviaToken(x: string) {
    x != "" && ((|x| == 1 && IsSpace(x[0])) || OpensComment(x))
  }

  function Significant(ts: seq<string>): seq<string> {
    if ts == [] then [] else (if IsTriviaToken(ts[0]) then [] else [ts[0]]) + Significant(ts[1..])
  }

  predicate IsIdentifier(x: string) {
    IsBare(x) || IsQuoted(x)
  }

  /** One statement moves the session where it is USE DATABASE and an identifier, whatever its spelling. */
  function TargetOf(words: seq<string>): Option<string> {
    if |words| == 3 && Upper(words[0]) == "USE" && Upper(words[1]) == "DATABASE" && IsIdentifier(words[2]) then
      Some(Denoted(words[2]))
    else None
  }

  /** The last statement that moves it. */
  function LastTarget(statements: seq<seq<string>>): Option<string> {
    if statements == [] then None
    else
      var later := LastTarget(statements[1..]);
      if later.Some? then later else TargetOf(Significant(statements[0]))
  }

  /** The database a request that succeeds leaves its session in, if it moves it: what the statements that are
      code say, not what the text begins with. */
  function MovesTo(sql: string): Option<string> {
    LastTarget(Statements(Scan(sql)))
  }

  /** A statement that may move the session in a way not read here: CREATE or DROP of a database, or a USE of
      anything but one database or one schema. */
  predicate MovesOtherwise(statement: seq<string>) {
    var words, tokens := LeadingWords(Concat(statement), WORD_LIMIT), Significant(statement);
    && words != [] && TargetOf(tokens).None?
    && ((words[0] in ["CREATE", "DROP"] && ObjectKind(words) == "DATABASE")
        || (words[0] == "USE" && !(|tokens| == 3 && Upper(tokens[1]) == "SCHEMA" && IsIdentifier(tokens[2]))))
  }

  /** Nothing in the request moves the session but what MovesTo reads. */
  predicate MovesAsRead(sql: string) {
    forall s <- Statements(Scan(sql)) :: !MovesOtherwise(s)
  }

  /** The words of the first statement, and where the later ones lead. */
  function First(ts: seq<string>): seq<string> {
    Significant(Statements(ts)[0])
  }

  function Later(ts: seq<string>): Option<string> {
    LastTarget(Statements(ts)[1..])
  }

  lemma MovesToIs(sql: string)
    ensures MovesTo(sql) == if Later(Scan(sql)).Some? then Later(Scan(sql)) else TargetOf(First(Scan(sql)))
  {
  }

  lemma OneMore(x: string, ts: seq<string>)
    ensures x != ";" ==>
              && First([x] + ts) == (if IsTriviaToken(x) then [] else [x]) + First(ts)
              && Later([x] + ts) == Later(ts)
    ensures x == ";" ==>
              First([x] + ts) == []
              && Later([x] + ts) == if Later(ts).Some? then Later(ts) else TargetOf(First(ts))
  {
    assert ([x] + ts)[1..] == ts;
    var rest := Statements(ts);
    if x == ";" {
      assert Statements([x] + ts) == [[]] + rest && ([[]] + rest)[1..] == rest;
    } else {
      var first := [x] + rest[0];
      assert Statements([x] + ts) == [first] + rest[1..];
      assert ([first] + rest[1..])[1..] == rest[1..] && first[1..] == rest[0];
    }
  }

  // Scanning from the front

  /** A byte of whitespace or a semicolon is a token by itself. */
  lemma ByteIsToken(c: char, t: string)
    requires IsSpace4(c) || c == ';'
    ensures Scan([c] + t) == [[c]] + Scan(t)
    ensures IsTriviaToken([c]) <==> c != ';'
  {
    hide Scan;
    var u := [c] + t;
    assert u[..1] == [c] && u[1..] == t;
    CodeHead(u);
    assert OpeningOf([c]).Code?;
    ScanStep(u);
  }

  lemma CodeHead(t: string)
    requires t != "" && OpeningOf(t).Code?
    ensures HeadLen(t) == 1
  {
  }

  lemma ScanStep(t: string)
    requires t != ""
    ensures Scan(t) == [t[..HeadLen(t)]] + Scan(t[HeadLen(t)..])
  {
  }

  /** A token in front of what does not touch it. */
  lemma TokenFirst(x: string, t: string)
    requires x != "" && (if t == "" then IsToken(x) else Sealed(x, t))
    ensures Scan(x + t) == [x] + Scan(t)
  {
    hide Scan, HeadLen, Sealed;
    if t == "" { assert x + t == x; } else { OneByteLookahead(x, t); }
    assert (x + t)[..|x|] == x && (x + t)[|x|..] == t;
    ScanStep(x + t);
  }

  lemma WordFirst(w: string, t: string)
    requires IsWord(w)
    ensures Scan(w + " " + t) == [w, " "] + Scan(t)
    ensures !IsTriviaToken(w) && w != ";"
  {
    hide Scan, HeadLen, Sealed;
    assert w + " " + t == w + (" " + t);
    WordIsToken(w, " " + t);
    TokenFirst(w, " " + t);
    ByteIsToken(' ', t);
    assert [w] + ([" "] + Scan(t)) == [w, " "] + Scan(t);
  }

  /** A word and a blank in front are one word more. */
  lemma WordInFront(w: string, t: string)
    requires IsWord(w)
    ensures First(Scan(w + " " + t)) == [w] + First(Scan(t)) && Later(Scan(w + " " + t)) == Later(Scan(t))
  {
    hide Scan, First, Later;
    WordFirst(w, t);
    ByteIsToken(' ', t);
    assert [w, " "] + Scan(t) == [w] + ([" "] + Scan(t));
    OneMore(w, [" "] + Scan(t));
    OneMore(" ", Scan(t));
    assert [] + First(Scan(t)) == First(Scan(t));
  }

  lemma BlankInFront(t: string)
    ensures First(Scan(" " + t)) == First(Scan(t)) && Later(Scan(" " + t)) == Later(Scan(t))
  {
    hide Scan, First, Later;
    ByteIsToken(' ', t);
    OneMore(" ", Scan(t));
    assert [] + First(Scan(t)) == First(Scan(t));
  }

  /** USE DATABASE in any letter case. */
  predicate IsUseDatabase(head: string) {
    |head| == 13 && Upper(head) == "USE DATABASE "
  }

  lemma HeadWords(head: string)
    requires IsUseDatabase(head)
    ensures head == head[..3] + " " + (head[4..12] + " ")
    ensures Upper(head[..3]) == "USE" && Upper(head[4..12]) == "DATABASE"
    ensures IsWord(head[..3]) && IsWord(head[4..12])
  {
    var u := "USE DATABASE ";
    forall i | 0 <= i < 13 ensures UpperChar(head[i]) == u[i] { assert Upper(head)[i] == u[i]; }
    assert u[..3] == "USE" && u[4..12] == "DATABASE";
    forall i | 0 <= i < 13 && i != 3 && i != 12 ensures IsLetter(head[i]) { assert IsLetter(u[i]); }
    assert head[3] == ' ' && head[12] == ' ';
  }

  /** Behind USE DATABASE the scan is that of the rest, and the first statement has two words more. */
  lemma BehindUse(head: string, text: string)
    requires IsUseDatabase(head)
    ensures Later(Scan(head + text)) == Later(Scan(text))
    ensures First(Scan(head + text)) == [head[..3], head[4..12]] + First(Scan(text))
  {
    hide Scan, First, Later, IsWord;
    HeadWords(head);
    var (a, b) := (head[..3], head[4..12]);
    assert head + text == a + " " + (b + " " + text);
    WordInFront(a, b + " " + text);
    WordInFront(b, text);
    assert [a] + ([b] + First(Scan(text))) == [a, b] + First(Scan(text));
  }

  lemma {:induction false} LeadingIsSkipped(sql: string)
    ensures Later(Scan(sql)) == Later(Scan(DropLeading4(sql)))
    ensures First(Scan(sql)) == First(Scan(DropLeading4(sql)))
  {
    hide Scan, First, Later;
    if sql != "" && IsSpace4(sql[0]) {
      LeadingIsSkipped(sql[1..]);
      assert sql == [sql[0]] + sql[1..];
      ByteIsToken(sql[0], sql[1..]);
      OneMore([sql[0]], Scan(sql[1..]));
      assert [] + First(Scan(sql[1..])) == First(Scan(sql[1..]));
    }
  }

  // The target is a token of the text

  lemma {:induction false} SignificantIsPart(ts: seq<string>, x: string)
    requires x in Significant(ts)
    ensures x in ts
  {
    if ts[0] != x { SignificantIsPart(ts[1..], x); }
  }

  lemma {:induction false} StatementIsPart(ts: seq<string>, i: nat, x: string)
    requires i < |Statements(ts)| && x in Statements(ts)[i]
    ensures x in ts
  {
    if ts != [] {
      var rest := Statements(ts[1..]);
      if ts[0] == ";" {
        if i > 0 { StatementIsPart(ts[1..], i - 1, x); }
      } else if i > 0 {
        assert ([[ts[0]] + rest[0]] + rest[1..])[i] == rest[i];
        StatementIsPart(ts[1..], i, x);
      } else if x != ts[0] {
        StatementIsPart(ts[1..], 0, x);
      }
    }
  }

  lemma {:induction false} LastTargetIsPart(statements: seq<seq<string>>) returns (i: nat, x: string)
    requires LastTarget(statements).Some?
    ensures i < |statements| && x in statements[i] && IsIdentifier(x)
    ensures LastTarget(statements) == Some(Denoted(x))
  {
    hide IsIdentifier, Denoted;
    if LastTarget(statements[1..]).Some? {
      i, x := LastTargetIsPart(statements[1..]);
      i := i + 1;
    } else {
      i, x := 0, Significant(statements[0])[2];
      SignificantIsPart(statements[0], x);
    }
  }

  /** Whatever a USE DATABASE moves to is the name of an identifier among the tokens behind it. */
  lemma {:induction false} TargetIsToken(head: string, text: string) returns (x: string)
    requires IsUseDatabase(head) && MovesTo(head + text).Some?
    ensures x in Scan(text) && IsIdentifier(x) && MovesTo(head + text) == Some(Denoted(x))
  {
    hide Scan, IsIdentifier, Denoted, IsUseDatabase, Significant;
    BehindUse(head, text);
    MovesToIs(head + text);
    var ts := Scan(text);
    if Later(ts).Some? {
      var i;
      i, x := LastTargetIsPart(Statements(ts)[1..]);
      StatementIsPart(ts, i + 1, x);
    } else {
      x := First(ts)[0];
      SignificantIsPart(Statements(ts)[0], x);
      StatementIsPart(ts, 0, x);
    }
  }

  lemma {:induction false} TokenInside(t: string, x: string) returns (a: string, b: string)
    requires x in Scan(t)
    ensures t == a + x + b
  {
    hide HeadLen;
    var n := HeadLen(t);
    if x == t[..n] {
      a, b := "", t[n..];
    } else {
      a, b := TokenInside(t[n..], x);
      assert t == t[..n] + (a + x + b) == t[..n] + a + x + b;
      a := t[..n] + a;
    }
  }

  lemma DenotedIsShort(x: string)
    requires IsIdentifier(x)
    ensures |Denoted(x)| <= |x| && (IsQuoted(x) ==> |Denoted(x)| <= |x| - 2)
  {
    hide Undouble, QuotesPaired;
    if IsQuoted(x) { UndoubleShortens(Interior(x)); }
  }

  lemma {:induction false} UndoubleShortens(t: string)
    ensures |Undouble(t)| <= |t|
  {
    if t != "" {
      UndoubleShortens(t[1..]);
      if |t| > 1 { UndoubleShortens(t[2..]); }
    }
  }

  // A name with whitespace in front and trailers behind

  lemma {:induction false} TrailersMoveNothing(tail: string)
    requires forall i :: 0 <= i < |tail| ==> IsTrailer(tail[i])
    ensures First(Scan(tail)) == [] && Later(Scan(tail)) == None
  {
    hide Scan, First, Later;
    if tail == "" {
      NothingThere();
    } else {
      TrailersMoveNothing(tail[1..]);
      assert tail == [tail[0]] + tail[1..];
      ByteIsToken(tail[0], tail[1..]);
      OneMore([tail[0]], Scan(tail[1..]));
    }
  }

  lemma NothingThere()
    ensures First(Scan("")) == [] && Later(Scan("")) == None
  {
    var none: seq<string> := [];
    assert Scan("") == none && Statements(none) == [none] && [none][1..] == [];
  }

  lemma IdentifierFirst(x: string, tail: string)
    requires IsIdentifier(x)
    requires tail == "" || (!IsNameByte(tail[0]) && tail[0] != '"')
    ensures Scan(x + tail) == [x] + Scan(tail)
    ensures !IsTriviaToken(x) && x != ";"
  {
    hide Scan, HeadLen, Sealed, QuotesPaired;
    assert Ident(x) == x;
    IdentToken(x, if tail == "" then " " else tail);
    TokenFirst(x, tail);
  }

  lemma {:induction false} SpacesSkipped(text: string)
    ensures Later(Scan(text)) == Later(Scan(DropSpaces(text)))
    ensures First(Scan(text)) == First(Scan(DropSpaces(text)))
  {
    hide Scan, First, Later;
    if text != "" && text[0] == ' ' {
      SpacesSkipped(text[1..]);
      assert text == [text[0]] + text[1..];
      ByteIsToken(text[0], text[1..]);
      OneMore([text[0]], Scan(text[1..]));
      assert [] + First(Scan(text[1..])) == First(Scan(text[1..]));
    }
  }

  lemma {:induction false} TrailersAreDropped(t: string) returns (tail: string)
    ensures t == DropTrailers(t) + tail && forall i :: 0 <= i < |tail| ==> IsTrailer(tail[i])
  {
    if t != "" && IsTrailer(t[|t| - 1]) {
      var (front, last) := (t[..|t| - 1], t[|t| - 1]);
      tail := TrailersAreDropped(front);
      assert t == front + [last];
      assert DropTrailers(front) + tail + [last] == DropTrailers(front) + (tail + [last]);
      tail := tail + [last];
    } else {
      tail := "";
    }
  }

  /** One identifier between blanks and trailers is what the request moves to. */
  lemma {:induction false} IdentifierIsTarget(head: string, text: string)
    requires IsUseDatabase(head)
    requires IsIdentifier(DropTrailers(DropSpaces(text)))
    ensures MovesTo(head + text) == Some(Denoted(DropTrailers(DropSpaces(text))))
  {
    hide Scan, First, Later, IsIdentifier, Denoted, DropTrailers, DropSpaces, IsUseDatabase, MovesTo;
    var x := DropTrailers(DropSpaces(text));
    BehindUse(head, text);
    HeadWords(head);
    SpacesSkipped(text);
    var tail := TrailersAreDropped(DropSpaces(text));
    TrailersMoveNothing(tail);
    IdentifierFirst(x, tail);
    OneMore(x, Scan(tail));
    assert First(Scan(text)) == [x] + [];
    MovesToIs(head + text);
    assert [head[..3], head[4..12]] + [x] == [head[..3], head[4..12], x];
  }

  // The catalog attribute

  /** The attribute's own statement, cut to its buffer, moves to the name the attribute keeps exactly when the
      name is an identifier in upper case without quotes, short enough for the buffer. */
  lemma {:induction false} AttributeMoves(name: string)
    ensures MovesTo(Fit("USE DATABASE " + name, 600)) == Some(name)
            <==> IsBare(name) && Upper(name) == name && |name| <= 586
  {
    hide MovesTo, Scan, IsBare, Upper, DropTrailers, DropSpaces, Fit;
    var head := "USE DATABASE ";
    assert Upper(head) == head;
    var text := if |name| <= 586 then name else name[..586];
    UseFits(name);
    if MovesTo(head + text) == Some(name) {
      var x := TargetIsToken(head, text);
      var a, b := TokenInside(text, x);
      DenotedIsShort(x);
      assert a == "" && b == "" && |text| == |name|;
      assert a + x + b == x;
    }
    if IsBare(name) && Upper(name) == name && |name| <= 586 {
      BareEnds(name);
      IdentifierIsTarget(head, text);
    }
  }

  lemma BareEnds(name: string)
    requires IsBare(name)
    ensures DropTrailers(DropSpaces(name)) == name && !IsQuoted(name)
  {
    assert IsNameByte(name[|name| - 1]);
  }

  lemma UseFits(name: string)
    ensures var sql := "USE DATABASE " + name;
            if |name| <= 586 then Fit(sql, 600) == sql else Fit(sql, 600) == "USE DATABASE " + name[..586]
  {
    var sql := "USE DATABASE " + name;
    if |name| > 586 { assert sql[..599] == "USE DATABASE " + name[..586]; }
  }

  /** Two names the attribute keeps though the session is elsewhere: behind the first the rest is a comment,
      and the second is two statements. */
  lemma AttributeIsMisled()
    ensures MovesTo(Fit("USE DATABASE " + "A--X", 600)) == Some("A")
    ensures MovesTo(Fit("USE DATABASE " + "A; SELECT 1", 600)) == Some("A")
  {
    hide Scan, First, Later, MovesTo, Fit, Denoted, Upper;
    var head := "USE DATABASE ";
    HeadIsUse();
    UseFits("A--X");
    UseFits("A; SELECT 1");
    LetterA();
    CommentBehind();
    StatementBehind();
    BehindUse(head, "A--X");
    BehindUse(head, "A; SELECT 1");
    MovesToIs(head + "A--X");
    MovesToIs(head + "A; SELECT 1");
    HeadWords(head);
    assert [head[..3], head[4..12]] + ["A"] == [head[..3], head[4..12], "A"];
  }

  lemma HeadIsUse()
    ensures IsUseDatabase("USE DATABASE ")
  {
    assert Upper("USE DATABASE ") == "USE DATABASE ";
  }

  lemma LetterA()
    ensures IsIdentifier("A") && Denoted("A") == "A"
  {
    assert Upper("A") == "A";
  }

  lemma CommentBehind()
    ensures First(Scan("A--X")) == ["A"] && Later(Scan("A--X")) == None
  {
    hide Scan, First, Later;
    LetterA();
    assert "A--X" == "A" + "--X";
    IdentifierFirst("A", "--X");
    CommentToken();
    assert "--X" == "--X" + "";
    TokenFirst("--X", "");
    OneMore("A", ["--X"] + Scan(""));
    OneMore("--X", Scan(""));
    NothingThere();
  }

  lemma CommentToken()
    ensures IsToken("--X") && IsTriviaToken("--X")
  {
    var t := "--X";
    assert t[2..] == "X" && LineRest("X") == 1 + LineRest("");
  }

  lemma StatementBehind()
    ensures First(Scan("A; SELECT 1")) == ["A"] && Later(Scan("A; SELECT 1")) == None
  {
    hide Scan, First, Later;
    LetterA();
    assert "A; SELECT 1" == "A" + "; SELECT 1";
    IdentifierFirst("A", "; SELECT 1");
    assert "; SELECT 1" == [';'] + " SELECT 1" && " SELECT 1" == " " + "SELECT 1";
    ByteIsToken(';', " SELECT 1");
    OneMore("A", [";"] + Scan(" SELECT 1"));
    OneMore(";", Scan(" SELECT 1"));
    BlankInFront("SELECT 1");
    assert "SELECT 1" == "SELECT" + " " + "1";
    WordInFront("SELECT", "1");
    DigitOne();
    SelectIsNoUse(First(Scan("1")));
  }

  lemma DigitOne()
    ensures Later(Scan("1")) == None
  {
    hide Scan, First, Later;
    CodeHead("1");
    assert "1" == "1" + "";
    TokenFirst("1", "");
    OneMore("1", Scan(""));
    NothingThere();
  }

  lemma SelectIsNoUse(more: seq<string>)
    ensures TargetOf(["SELECT"] + more) == None
  {
    assert |Upper("SELECT")| == 6;
  }

  // The tracked name

  /** What tracking reads as the name behind USE DATABASE. */
  function ReadAs(text: string): string {
    DropTrailers(DropSpaces(text))
  }

  lemma {:induction false} SpacesInFront(a: string, x: string) returns (c: string)
    requires x != "" && x[0] != ' '
    ensures DropSpaces(a + x) == c + x
  {
    if a != "" && a[0] == ' ' {
      assert (a + x)[1..] == a[1..] + x;
      c := SpacesInFront(a[1..], x);
    } else {
      c := a;
      if a == "" { assert a + x == x; }
    }
  }

  lemma {:induction false} TrailersBehind(x: string, b: string)
    requires x != "" && !IsTrailer(x[|x| - 1])
    ensures DropTrailers(x + b) == x + DropTrailers(b)
  {
    if b == "" {
      assert x + b == x;
    } else if IsTrailer(b[|b| - 1]) {
      assert (x + b)[..|x + b| - 1] == x + b[..|b| - 1];
      TrailersBehind(x, b[..|b| - 1]);
    }
  }

  lemma IdentifierEnds(x: string)
    requires IsIdentifier(x)
    ensures x != "" && x[0] != ' ' && !IsTrailer(x[|x| - 1])
  {
    if IsBare(x) { assert IsNameByte(x[|x| - 1]); }
  }

  /** An identifier among the tokens is not cut into by what tracking drops at the ends. */
  lemma {:induction false} TokenIsRead(a: string, x: string, b: string) returns (c: string, d: string)
    requires IsIdentifier(x)
    ensures ReadAs(a + x + b) == c + x + d
  {
    hide IsIdentifier, DropTrailers, DropSpaces;
    IdentifierEnds(x);
    assert a + x + b == a + (x + b);
    c := SpacesInFront(a, x + b);
    assert c + (x + b) == (c + x) + b;
    assert (c + x)[|c + x| - 1] == x[|x| - 1];
    TrailersBehind(c + x, b);
    d := DropTrailers(b);
  }

  lemma {:induction false} OneMoreByte(c: char, t: string)
    ensures |Undouble(t)| <= |Undouble([c] + t)| <= 1 + |Undouble(t)|
    decreases |t|
  {
    var u := [c] + t;
    assert u[1..] == t;
    if t != "" {
      assert t == [t[0]] + t[1..];
      OneMoreByte(t[0], t[1..]);
      assert u[2..] == t[1..];
      if |t| > 1 {
        assert t[1..] == [t[1]] + t[2..];
        OneMoreByte(t[1], t[2..]);
      }
    }
  }

  /** Undoubling more text gives no less. */
  lemma {:induction false} MoreInFront(a: string, t: string)
    ensures |Undouble(a + t)| >= |Undouble(t)|
  {
    if a == "" {
      assert a + t == t;
    } else {
      MoreInFront(a[1..], t);
      assert a + t == [a[0]] + (a[1..] + t);
      OneMoreByte(a[0], a[1..] + t);
    }
  }

  lemma {:induction false} PairedInFront(p: string, t: string)
    requires QuotesPaired(p)
    ensures |Undouble(p + t)| == |Undouble(p)| + |Undouble(t)|
  {
    if p == "" {
      assert p + t == t;
    } else if p[0] == '"' {
      PairedInFront(p[2..], t);
      assert (p + t)[2..] == p[2..] + t;
    } else {
      PairedInFront(p[1..], t);
      assert (p + t)[1..] == p[1..] + t;
    }
  }

  lemma {:induction false} QuoteInFront(p: string)
    requires QuotesPaired(p)
    ensures |Undouble("\"" + p)| == 1 + |Undouble(p)|
  {
    var u := "\"" + p;
    assert u[1..] == p;
    if p != "" && p[0] == '"' {
      QuoteInFront(p[2..]);
      assert u[2..] == p[1..] == "\"" + p[2..];
    }
  }

  lemma SomethingIsLeft(t: string)
    ensures t != "" ==> Undouble(t) != ""
  {
  }

  lemma MoreBeforeByte(a: string, t: string)
    requires a != "" && t != "" && t[0] != '"'
    ensures |Undouble(a + t)| >= 1 + |Undouble(t)|
  {
    var (front, c) := (a[..|a| - 1], a[|a| - 1]);
    assert a + t == front + ([c] + t);
    assert ([c] + t)[1..] == t && ([c] + t)[1] == t[0];
    MoreInFront(front, [c] + t);
  }

  /** Text without quotes is left alone, whatever is around it. */
  lemma BareInside(a: string, x: string, b: string)
    requires '"' !in x && x != ""
    ensures |Undouble(a + x + b)| == |x| ==> a == "" && b == ""
  {
    hide Undouble, QuotesPaired;
    Unquoted(x);
    PairedInFront(x, b);
    assert a + x + b == a + (x + b);
    MoreInFront(a, x + b);
    SomethingIsLeft(b);
    if a != "" {
      assert (x + b)[0] == x[0];
      MoreBeforeByte(a, x + b);
    }
  }

  lemma {:induction false} Unquoted(x: string)
    requires '"' !in x
    ensures QuotesPaired(x) && Undouble(x) == x
  {
    if x != "" {
      Unquoted(x[1..]);
      assert x == x[..1] + x[1..];
    }
  }

  lemma QuotedInside(c: string, p: string, d: string)
    requires QuotesPaired(p)
    requires (c == "" && d != "") || (c != "" && c[0] == '"')
    ensures var inside := if d == "" then c[1..] + ("\"" + p)
                          else if c == "" then p + ("\"" + d[..|d| - 1])
                          else c[1..] + ("\"" + p + ("\"" + d[..|d| - 1]));
            |Undouble(inside)| > |Undouble(p)|
  {
    hide Undouble, QuotesPaired;
    if d == "" {
      MoreInFront(c[1..], "\"" + p);
      QuoteInFront(p);
    } else {
      var z := "\"" + d[..|d| - 1];
      SomethingIsLeft(z);
      PairedInFront(p, z);
      if c != "" {
        assert "\"" + p + z == "\"" + (p + z);
        MoreInFront("\"", p + z);
        MoreInFront(c[1..], "\"" + p + z);
      }
    }
  }

  predicate LooksQuoted(s: string) {
    |s| >= 2 && s[0] == '"' && s[|s| - 1] == '"'
  }

  /** Tracking more than one identifier gives another name than that identifier's, unless all of it is one. */
  lemma {:induction false} WiderIsMisread(c: string, x: string, d: string)
    requires IsIdentifier(x)
    requires TrackedName(c + x + d) == Denoted(x)
    ensures IsIdentifier(c + x + d)
  {
    hide Undouble, QuotesPaired, Upper;
    var rest := c + x + d;
    DenotedIsShort(x);
    if c == "" && d == "" {
      assert rest == x;
    } else if !LooksQuoted(rest) {
      assert false;
    } else if IsQuoted(x) {
      var p := Interior(x);
      assert x == "\"" + p + "\"";
      if c != "" { assert rest[0] == c[0]; }
      if d == "" {
        assert Interior(rest) == c[1..] + ("\"" + p);
      } else if c == "" {
        assert Interior(rest) == p + ("\"" + d[..|d| - 1]);
      } else {
        assert Interior(rest) == c[1..] + ("\"" + p + ("\"" + d[..|d| - 1]));
      }
      QuotedInside(c, p, d);
    } else {
      BareHasNoQuotes(x);
      assert c != "" && d != "";
      assert Interior(rest) == c[1..] + x + d[..|d| - 1];
      BareInside(c[1..], x, d[..|d| - 1]);
      assert "" + x + "" == x;
      Unquoted(x);
    }
  }

  lemma BareHasNoQuotes(x: string)
    requires IsBare(x)
    ensures '"' !in x && x != ""
  {
  }

  /** Behind USE DATABASE, in any letter case and with whitespace in front, tracking reads the database the
      request moves to exactly where all it reads, blanks and trailers dropped, is one identifier. */
  lemma {:induction false} TrackedTruly(sql: string)
    requires StartsNoCase(DropLeading4(sql), "USE DATABASE ")
    ensures var text := DropLeading4(sql)[13..];
            Tracked(sql).Database? && MovesTo(sql) == Some(Tracked(sql).name) <==> IsIdentifier(ReadAs(text))
  {
    hide Scan, First, Later, DropTrailers, DropSpaces, TrackedName, IsIdentifier, Denoted, DropLeading4, Upper;
    var s := DropLeading4(sql);
    var (head, text) := (s[..13], s[13..]);
    SameHead(head);
    assert s == head + text;
    LeadingIsSkipped(sql);
    MovesToIs(sql);
    MovesToIs(s);
    BehindTracked(sql);
    var rest := ReadAs(text);
    if IsIdentifier(rest) {
      IdentifierIsTarget(head, text);
      IdentifierIsRead(rest);
    } else if rest != "" && MovesTo(s) == Some(TrackedName(rest)) {
      var x := TargetIsToken(head, text);
      var a, b := TokenInside(text, x);
      var c, d := TokenIsRead(a, x, b);
      WiderIsMisread(c, x, d);
    }
  }

  lemma SameHead(head: string)
    requires |head| == 13 && Upper(head) == Upper("USE DATABASE ")
    ensures IsUseDatabase(head)
  {
    HeadIsUse();
  }

  lemma BehindTracked(sql: string)
    requires StartsNoCase(DropLeading4(sql), "USE DATABASE ")
    ensures var rest := ReadAs(DropLeading4(sql)[13..]);
            Tracked(sql) == if rest == "" then Untracked else Database(TrackedName(rest))
  {
    hide DropTrailers, DropSpaces, TrackedName, DropLeading4, Upper;
  }

  lemma IdentifierIsRead(x: string)
    requires IsIdentifier(x)
    ensures x != "" && TrackedName(x) == Denoted(x)
  {
    hide Upper, Undouble, QuotesPaired;
    if IsBare(x) { BareOrQuoted(x); }
  }

  lemma BareOrQuoted(x: string)
    requires IsBare(x)
    ensures x[0] != '"' && !IsQuoted(x)
  {
  }

  lemma {:induction false} OnlyTrailers(tail: string)
    ensures DropTrailers(tail) == "" <==> forall i :: 0 <= i < |tail| ==> IsTrailer(tail[i])
  {
    if tail != "" && IsTrailer(tail[|tail| - 1]) {
      var front := tail[..|tail| - 1];
      OnlyTrailers(front);
      if DropTrailers(tail) != "" {
        var i :| 0 <= i < |front| && !IsTrailer(front[i]);
        assert !IsTrailer(tail[i]);
      }
    }
  }

  /** The identifier the driver would quote a name to, and whatever the application puts behind it: tracked as
      the name the engine knows exactly where nothing but trailers follows. */
  lemma TailIsTracked(name: string, tail: string)
    requires name != ""
    ensures Tracked("USE DATABASE " + Ident(name) + tail) == Database(Denoted(name))
            <==> forall i :: 0 <= i < |tail| ==> IsTrailer(tail[i])
  {
    hide Ident, DropTrailers, DropSpaces, TrackedName, IsIdentifier, Denoted, DropLeading4, IsTrailer;
    var x := Ident(name);
    var sql := "USE DATABASE " + x + tail;
    IdentIsIdentifier(name);
    IdentifierEnds(x);
    NothingLeads(sql);
    assert sql[..13] == "USE DATABASE " && sql[13..] == x + tail;
    BehindTracked(sql);
    var c := SpacesInFront("", x + tail);
    assert "" + (x + tail) == x + tail;
    NoSpaces(x + tail);
    TrailersBehind(x, tail);
    OnlyTrailers(tail);
    var d := DropTrailers(tail);
    IdentifierIsRead(x);
    if d == "" {
      assert x + d == x;
    } else if TrackedName(x + d) == Denoted(x) {
      LongerIsMisread(x, d);
    }
  }

  lemma NothingLeads(sql: string)
    requires sql != "" && sql[0] == 'U'
    ensures DropLeading4(sql) == sql
  {
  }

  lemma NoSpaces(t: string)
    requires t != "" && t[0] != ' '
    ensures DropSpaces(t) == t
  {
  }

  lemma IdentIsIdentifier(name: string)
    requires name != ""
    ensures IsIdentifier(Ident(name)) && Denoted(Ident(name)) == Denoted(name)
  {
    hide Undouble, DoubleQuotes, QuotesPaired, Upper;
    if !IsQuoted(name) && !IsBare(name) {
      UndoubleDoubled(name);
      assert Interior(Ident(name)) == DoubleQuotes(name);
    }
  }

  lemma LongerIsMisread(x: string, d: string)
    requires IsIdentifier(x) && d != ""
    ensures TrackedName(x + d) != Denoted(x)
  {
    hide Undouble, QuotesPaired, Upper;
    var rest := x + d;
    DenotedIsShort(x);
    if LooksQuoted(rest) {
      assert rest[0] == x[0];
      if IsQuoted(x) {
        var p := Interior(x);
        assert Interior(rest) == p + ("\"" + d[..|d| - 1]);
        QuotedInside("", p, d);
      } else {
        BareHasNoQuotes(x);
      }
    }
  }

  /** A request of two statements is tracked as one long name, and a USE spelt with two blanks not at all. */
  lemma TrackingIsMisled()
    ensures Tracked("USE DATABASE A; SELECT 1") == Database("A; SELECT 1")
    ensures MovesTo("USE DATABASE A; SELECT 1") == Some("A")
    ensures Tracked("USE  DATABASE A") == Untracked && MovesTo("USE  DATABASE A") == Some("A")
  {
    hide Scan, MovesTo, Denoted, DropTrailers, DropSpaces, TrackedName, Upper, IsIdentifier;
    AttributeIsMisled();
    UseFits("A; SELECT 1");
    TwoBlanks();
    LongName();
    var sql := "USE DATABASE " + "A; SELECT 1";
    assert sql == "USE DATABASE A; SELECT 1";
    NothingLeads(sql);
    assert sql[..13] == "USE DATABASE " && sql[13..] == "A; SELECT 1";
    BehindTracked(sql);
  }

  lemma LongName()
    ensures ReadAs("A; SELECT 1") == "A; SELECT 1" && TrackedName("A; SELECT 1") == "A; SELECT 1"
  {
    assert Upper("A; SELECT 1") == "A; SELECT 1";
  }

  lemma TwoBlanks()
    ensures Tracked("USE  DATABASE A") == Untracked && MovesTo("USE  DATABASE A") == Some("A")
  {
    hide Scan, First, Later, MovesTo, Denoted, DropLeading4, IsIdentifier, Tracked;
    var sql := "USE  DATABASE A";
    BlankIsNoKeyword(sql);
    assert sql == "USE" + " " + " DATABASE A" && " DATABASE A" == " " + "DATABASE A";
    assert "DATABASE A" == "DATABASE" + " " + "A";
    WordInFront("USE", " DATABASE A");
    BlankInFront("DATABASE A");
    WordInFront("DATABASE", "A");
    LetterA();
    assert "A" == "A" + "";
    IdentifierFirst("A", "");
    NothingThere();
    OneMore("A", Scan(""));
    MovesToIs(sql);
    assert ["USE"] + (["DATABASE"] + (["A"] + [])) == ["USE", "DATABASE", "A"];
    UseWords();
  }

  lemma UseWords()
    ensures Upper("USE") == "USE" && Upper("DATABASE") == "DATABASE"
  {
  }

  lemma BlankIsNoKeyword(sql: string)
    requires |sql| > 4 && sql[0] == 'U' && sql[4] == ' '
    ensures Tracked(sql) == Untracked
  {
    hide DropTrailers, DropSpaces, TrackedName;
    NothingLeads(sql);
    if |sql| >= 13 { assert Upper(sql[..13])[4] == ' '; }
    if |sql| >= 11 { assert Upper(sql[..11])[4] == ' '; }
    assert Upper("USE DATABASE ")[4] == 'D' && Upper("USE SCHEMA ")[4] == 'S';
  }
}
