/** The driver's own statements as the scanner and the classifier see them (src/session.c, src/proto.c): each
    is one statement, and each would be noted, which is why the driver never lets them be. */
module OwnStatements {
  import opened Text
  import opened Scanner
  import opened Literals
  import opened Identifiers
  import opened Protocol
  import opened SessionNote

  lemma {:induction false} OneStatement(ts: seq<string>)
    requires ";" !in ts
    ensures Statements(ts) == [ts]
  {
    if ts != [] {
      OneStatement(ts[1..]);
      assert ts == [ts[0]] + ts[1..];
      assert [ts][1..] == [];
    }
  }

  /** The words of a request that is one statement decide what is noted of it. */
  lemma NotedAlone(b: SessionNote.Book, sql: string, autocommit: bool)
    requires ";" !in Scan(sql)
    ensures Statements(Scan(sql)) == [Scan(sql)] && Concat(Scan(sql)) == sql
    ensures Note(b, sql, autocommit) == NoteWords(b, LeadingWords(sql, WORD_LIMIT), autocommit)
  {
    hide Scan, LeadingWords, NoteWords, Statements;
    var ts := Scan(sql);
    OneStatement(ts);
    ScanIsChain(sql);
    NothingNoted(NoteWords(b, LeadingWords(sql, WORD_LIMIT), autocommit), autocommit);
    assert [ts][1..] == [];
  }

  lemma NothingNoted(b: SessionNote.Book, autocommit: bool)
    ensures NoteStatements(b, [], autocommit) == b
  {
  }

  /** A word in upper case, alone or in front of a blank, is the first word. */
  lemma FirstWord(w: string, rest: string, limit: nat)
    requires IsKeyword(w) && |w| < WORD_LENGTH && Upper(w) == w && limit > 0
    requires rest == "" || rest[0] == ' '
    ensures LeadingWords(w + rest, limit)
            == [w] + LeadingWords(if rest == "" then "" else rest[1..], limit - 1)
  {
    hide Upper, HeadLen;
    WordIsRead(w, rest, limit);
    assert Folded(w) == w;
    if rest != "" { BlankIsSkipped(rest, limit - 1); }
  }

  lemma BlankIsSkipped(rest: string, limit: nat)
    requires rest != "" && rest[0] == ' '
    ensures LeadingWords(rest, limit) == LeadingWords(rest[1..], limit)
  {
    hide HeadLen;
    if limit == 0 { NoMoreWords(rest[1..], 0); }
  }

  lemma UseTokens(kind: string, name: string)
    requires name != "" && (kind == "DATABASE" || kind == "SCHEMA")
    ensures ";" !in Scan("USE " + kind + " " + Ident(name))
  {
    hide Scan, Ident;
    UseStatementTokens("USE", kind, name);
    assert "USE" + " " + kind + " " + Ident(name) == "USE " + kind + " " + Ident(name);
    IdentIsNoCut(name);
  }

  lemma IdentIsNoCut(name: string)
    requires name != ""
    ensures Ident(name) != ";"
  {
    hide DoubleQuotes;
  }

  lemma UseWords(kind: string, name: string)
    ensures var words := LeadingWords("USE " + kind + " " + Ident(name), WORD_LIMIT);
            words != [] && words[0] == "USE"
  {
    hide LeadingWords, Ident;
    assert Upper("USE") == "USE";
    var rest := " " + kind + " " + Ident(name);
    assert "USE" + rest == "USE " + kind + " " + Ident(name);
    FirstWord("USE", rest, WORD_LIMIT);
  }

  /** The scope statements: one statement each, tracked as the name the engine knows, and noted. */
  lemma {:induction false} UseIsNoted(name: string)
    requires name != ""
    ensures forall sql :: sql == UseDatabase(name) || sql == UseSchema(name) ==>
              && ";" !in Scan(sql) && TouchesSession(LeadingWords(sql, WORD_LIMIT))
              && LeadingWords(sql, WORD_LIMIT) != [] && LeadingWords(sql, WORD_LIMIT)[0] == "USE"
    ensures Tracked(UseDatabase(name)) == Database(Denoted(name)) && Tracked(UseSchema(name)) == Schema(Denoted(name))
  {
    hide LeadingWords, Scan, Ident, Tracked;
    IdentifierRoundTrip(name);
    UseTokens("DATABASE", name);
    UseTokens("SCHEMA", name);
    UseWords("DATABASE", name);
    UseWords("SCHEMA", name);
    assert "USE " + "DATABASE" + " " + Ident(name) == UseDatabase(name);
    assert "USE " + "SCHEMA" + " " + Ident(name) == UseSchema(name);
  }

  lemma SessionIsNoModifier()
    ensures "SESSION" !in MODIFIERS
  {
  }

  lemma AlterSession(words: seq<string>)
    requires |words| >= 2 && words[0] == "ALTER" && words[1] == "SESSION"
    ensures TouchesSession(words)
  {
    hide MODIFIERS;
    SessionIsNoModifier();
    assert Modifiers(words[1..]) == [];
  }

  lemma AlterWords(rest: string)
    ensures var words := LeadingWords("ALTER SESSION " + rest, WORD_LIMIT);
            |words| >= 2 && words[0] == "ALTER" && words[1] == "SESSION"
  {
    hide LeadingWords;
    assert Upper("ALTER") == "ALTER" && Upper("SESSION") == "SESSION";
    var tail := " SESSION " + rest;
    assert "ALTER" + tail == "ALTER SESSION " + rest;
    FirstWord("ALTER", tail, WORD_LIMIT);
    assert tail[1..] == "SESSION" + (" " + rest);
    FirstWord("SESSION", " " + rest, WORD_LIMIT - 1);
  }

  /** The mirror statements: one statement each, and noted. */
  lemma ModeIsNoted(sql: string)
    requires sql == AUTOCOMMIT_ON || sql == AUTOCOMMIT_OFF
    ensures Plain(sql) && ";" !in Scan(sql) && TouchesSession(LeadingWords(sql, WORD_LIMIT))
    ensures var words := LeadingWords(sql, WORD_LIMIT);
            |words| > 1 && words[0] == "ALTER" && words[1] == "SESSION"
  {
    hide LeadingWords, Scan, TouchesSession;
    ModeText(sql);
    PlainHoldsNeither(sql);
    var rest := sql[14..];
    assert sql == "ALTER SESSION " + rest;
    AlterWords(rest);
    AlterSession(LeadingWords(sql, WORD_LIMIT));
  }

  /** Letters, blanks and an equals sign. */
  predicate IsCalm(t: string) {
    forall i :: 0 <= i < |t| ==> IsLetter(t[i]) || t[i] == ' ' || t[i] == '='
  }

  lemma CalmIsPlain(t: string)
    requires IsCalm(t)
    ensures Plain(t)
  {
  }

  lemma ModeText(sql: string)
    requires sql == AUTOCOMMIT_ON || sql == AUTOCOMMIT_OFF
    ensures Plain(sql) && |sql| > 14 && sql[..14] == "ALTER SESSION " && sql[|sql| - 1] == 'E' && sql[0] == 'A'
  {
    hide Plain, IsCalm;
    ModesAreCalm();
    CalmIsPlain(sql);
  }

  lemma ModesAreCalm()
    ensures IsCalm(AUTOCOMMIT_ON) && IsCalm(AUTOCOMMIT_OFF)
  {
  }
}
