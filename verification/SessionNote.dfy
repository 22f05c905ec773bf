/** What a statement leaves on the engine session, read from its leading words (src/session.c). */
module SessionNote {
  import opened Text
  import opened Scanner
  import opened Substitution
  import opened Literals
  import opened Binding

  const WORD_LIMIT: nat := 16
  const WORD_LENGTH := 32

  // Leading words

  predicate IsSpace(c: char) {
    c in {' ', '\t', '\n', '\r', 0x0C as char, 0x0B as char}
  }

  predicate OpensComment(t: string)
    requires t != ""
  {
    OpeningOf(t).Line? || OpeningOf(t).Block?
  }

  /** A word as it is kept: cut to the room there is, upper-cased. */
  function Folded(w: string): string {
    Upper(if |w| < WORD_LENGTH then w else w[..WORD_LENGTH - 1])
  }

  /** Up to `limit` words at the front of a statement, with whitespace and comments between them. */
  function LeadingWords(t: string, limit: nat): seq<string>
    decreases |t|
  {
    if t == "" || limit == 0 then []
    else if IsSpace(t[0]) then LeadingWords(t[1..], limit)
    else if OpensComment(t) then LeadingWords(t[HeadLen(t)..], limit)
    else if !IsNameByte(t[0]) then []
    else [Folded(t[..NameRest(t)])] + LeadingWords(t[NameRest(t)..], limit - 1)
  }

  // The classifier

  const MODIFIERS: seq<string> := [
    "OR", "REPLACE", "TRANSIENT", "TEMPORARY", "TEMP", "VOLATILE", "LOCAL", "GLOBAL", "SECURE",
    "IF", "NOT", "EXISTS", "PUBLIC", "PRIVATE", "ICEBERG", "DYNAMIC", "HYBRID", "EVENT",
    "RECURSIVE", "MATERIALIZED", "EXTERNAL"]

  const TEMPORARY: seq<string> := ["TEMPORARY", "TEMP", "VOLATILE"]

  /** The modifiers that follow the verb. */
  function Modifiers(words: seq<string>): (r: seq<string>)
    ensures |r| <= |words|
  {
    if words == [] || words[0] !in MODIFIERS then [] else [words[0]] + Modifiers(words[1..])
  }

  /** The first word after the verb that is not a modifier, or "". */
  function ObjectKind(words: seq<string>): string
    requires words != []
  {
    var rest := words[1..][|Modifiers(words[1..])|..];
    if rest == [] then "" else rest[0]
  }

  predicate TouchesSession(words: seq<string>) {
    && words != []
    && var verb := words[0];
       || verb in ["USE", "SET", "UNSET"]
       || (verb == "ALTER" && ObjectKind(words) == "SESSION")
       || (verb in ["CREATE", "DROP"] && ObjectKind(words) in ["DATABASE", "SCHEMA"])
       || (verb == "CREATE" && exists m <- Modifiers(words[1..]) :: m in TEMPORARY)
  }

  datatype Effect = Opens | Ends | Neither

  function TransactionEffect(words: seq<string>): Effect {
    if words == [] then Neither
    else if words[0] == "BEGIN" then
      if |words| == 1 || words[1] in ["TRANSACTION", "WORK", "NAME"] then Opens else Neither
    else if words[0] == "START" && |words| > 1 && words[1] == "TRANSACTION" then Opens
    else if words[0] in ["COMMIT", "ROLLBACK"] then Ends
    else Neither
  }

  /** What the driver keeps about the session behind a connection. */
  datatype Book = Book(dirty: bool, inTransaction: bool)

  function NoteWords(b: Book, words: seq<string>, autocommit: bool): Book {
    if words == [] then b
    else Book(
      b.dirty || TouchesSession(words),
      match TransactionEffect(words)
      case Opens => true
      case Ends => false
      case Neither => b.inTransaction || !autocommit)
  }

  // Statements

  /** The statements of a request: its tokens, cut at every semicolon that is code. */
  function Statements(ts: seq<string>): (r: seq<seq<string>>)
    ensures r != []
  {
    if ts == [] then [[]]
    else
      var rest := Statements(ts[1..]);
      if ts[0] == ";" then [[]] + rest else [[ts[0]] + rest[0]] + rest[1..]
  }

  function NoteStatements(b: Book, statements: seq<seq<string>>, autocommit: bool): Book
    decreases statements
  {
    if statements == [] then b
    else
      NoteStatements(NoteWords(b, LeadingWords(Concat(statements[0]), WORD_LIMIT), autocommit),
                     statements[1..], autocommit)
  }

  /** fl_session_note: every statement of a request that succeeded, in order. */
  function Note(b: Book, sql: string, autocommit: bool): Book {
    NoteStatements(b, Statements(Scan(sql)), autocommit)
  }

  /** A statement never takes back that the session was touched. */
  lemma {:induction false} DirtyStays(b: Book, statements: seq<seq<string>>, autocommit: bool)
    requires b.dirty
    ensures NoteStatements(b, statements, autocommit).dirty
    decreases statements
  {
    if statements != [] {
      DirtyStays(NoteWords(b, LeadingWords(Concat(statements[0]), WORD_LIMIT), autocommit),
                 statements[1..], autocommit);
    }
  }

  // Splitting agrees with binding

  /** Every statement with its own share of the literals. */
  function ReplacedStatements(statements: seq<seq<string>>, lits: seq<string>): seq<seq<string>>
    requires PlaceholdersIn(statements) <= |lits|
  {
    if statements == [] then []
    else [Replaced(statements[0], lits)]
         + ReplacedStatements(statements[1..], lits[Placeholders(statements[0])..])
  }

  function PlaceholdersIn(statements: seq<seq<string>>): nat {
    if statements == [] then 0 else Placeholders(statements[0]) + PlaceholdersIn(statements[1..])
  }

  lemma {:induction false} StatementsKeepPlaceholders(ts: seq<string>)
    ensures PlaceholdersIn(Statements(ts)) == Placeholders(ts)
  {
    if ts != [] {
      StatementsKeepPlaceholders(ts[1..]);
      var rest := Statements(ts[1..]);
      if ts[0] == ";" {
        assert ([[]] + rest)[1..] == rest;
      } else {
        var first := [ts[0]] + rest[0];
        assert first[1..] == rest[0];
        assert ([first] + rest[1..])[1..] == rest[1..];
      }
    }
  }

  lemma {:induction false} StatementsPrefix(a: seq<string>, b: seq<string>)
    requires ";" !in a
    ensures Statements(a + b) == [a + Statements(b)[0]] + Statements(b)[1..]
  {
    if a == [] {
      assert a + b == b && a + Statements(b)[0] == Statements(b)[0];
    } else {
      StatementsPrefix(a[1..], b);
      assert (a + b)[1..] == a[1..] + b;
      assert [a[0]] + (a[1..] + Statements(b)[0]) == a + Statements(b)[0];
    }
  }

  /** Literals without code semicolons neither add a cut nor remove one: each statement of the bound
      request is the same statement with its own placeholders replaced. */
  lemma {:induction false} CutsAgree(ts: seq<string>, lits: seq<string>)
    requires Placeholders(ts) <= |lits|
    requires forall i :: 0 <= i < |lits| ==> ";" !in Scan(lits[i])
    ensures PlaceholdersIn(Statements(ts)) <= |lits|
    ensures Statements(Replaced(ts, lits)) == ReplacedStatements(Statements(ts), lits)
    decreases ts
  {
    StatementsKeepPlaceholders(ts);
    if ts == [] {
      assert [[]] + ReplacedStatements([], lits) == [[]];
    } else {
      StatementsKeepPlaceholders(ts[1..]);
      var rest := Statements(ts[1..]);
      if ts[0] == "?" {
        CutsAgree(ts[1..], lits[1..]);
        var first := [ts[0]] + rest[0];
        assert first[1..] == rest[0];
        assert ([first] + rest[1..])[1..] == rest[1..];
        StatementsPrefix(Scan(lits[0]), Replaced(ts[1..], lits[1..]));
        assert lits[1..][Placeholders(rest[0])..] == lits[Placeholders(first)..];
      } else if ts[0] == ";" {
        CutsAgree(ts[1..], lits);
        assert ([[]] + rest)[1..] == rest && lits[0..] == lits;
        assert ([";"] + Replaced(ts[1..], lits))[1..] == Replaced(ts[1..], lits);
      } else {
        CutsAgree(ts[1..], lits);
        var first := [ts[0]] + rest[0];
        assert first[1..] == rest[0];
        assert ([first] + rest[1..])[1..] == rest[1..];
        StatementsPrefix([ts[0]], Replaced(ts[1..], lits));
      }
    }
  }

  /** What the session bookkeeping reads as the statements of a bound request is what the statement
      was cut into before binding. */
  lemma {:induction false} SplittingAgreesWithBinding(sql: string, params: seq<Param>)
    requires forall i :: 0 <= i < |params| ==> WellBound(params[i])
    requires Substituted(Scan(sql), params).Success?
    requires Separated(Scan(sql))
    ensures var lits := LiteralsOf(Scan(sql), params);
            && PlaceholdersIn(Statements(Scan(sql))) <= |lits|
            && Statements(Scan(Substituted(Scan(sql), params).value))
               == ReplacedStatements(Statements(Scan(sql)), lits)
  {
    BindingPreservesScan(sql, params);
    LiteralsAreSpliceable(Scan(sql), params);
    CutsAgree(Scan(sql), LiteralsOf(Scan(sql), params));
  }

  // Spelling: case, whitespace and comments do not matter

  /** One byte of whitespace, or one complete comment. */
  predicate IsGap(x: string) {
    x != "" && ((|x| == 1 && IsSpace(x[0])) || (OpensComment(x) && Sealed(x, "?")))
  }

  predicate IsTrivia(gaps: seq<string>) {
    forall i :: 0 <= i < |gaps| ==> IsGap(gaps[i])
  }

  predicate IsKeyword(w: string) {
    w != "" && forall i :: 0 <= i < |w| ==> IsNameByte(w[i])
  }

  /** Words with trivia before each of them, and whatever follows. */
  function Spelled(gaps: seq<seq<string>>, words: seq<string>, rest: string): string
    requires |gaps| == |words|
  {
    if words == [] then rest
    else Concat(gaps[0]) + words[0] + Spelled(gaps[1..], words[1..], rest)
  }

  lemma GapIsSkipped(x: string, t: string, limit: nat)
    requires IsGap(x) && limit > 0
    ensures LeadingWords(x + t, limit) == LeadingWords(t, limit)
  {
    if IsSpace(x[0]) && |x| == 1 {
      assert (x + t)[1..] == t;
    } else {
      assert !IsSpace(x[0]);
      CommentEnds(x, t);
      assert (x + t)[|x|..] == t;
    }
  }

  lemma CommentEnds(x: string, t: string)
    requires x != "" && OpensComment(x) && Sealed(x, "?")
    ensures OpensComment(x + t) && HeadLen(x + t) == |x|
  {
    var u := x + "?"[..1];
    assert u[2..] == x[2..] + "?" && (x + t)[2..] == x[2..] + t;
    if t == "" {
      HeadAtomic(u);
      assert u[..|x|] == x && x + t == x;
    } else if OpeningOf(x).Line? {
      LineLookahead(x[2..], t);
    } else {
      PairLookahead(x[2..], t, '*', '/');
    }
  }

  lemma {:induction false} TriviaIsSkipped(gaps: seq<string>, t: string, limit: nat)
    requires IsTrivia(gaps) && limit > 0
    ensures LeadingWords(Concat(gaps) + t, limit) == LeadingWords(t, limit)
  {
    if gaps == [] {
      assert Concat(gaps) + t == t;
    } else {
      assert Concat(gaps) + t == gaps[0] + (Concat(gaps[1..]) + t);
      GapIsSkipped(gaps[0], Concat(gaps[1..]) + t, limit);
      TriviaIsSkipped(gaps[1..], t, limit);
    }
  }

  lemma GapStartsNoName(gaps: seq<string>, t: string)
    requires IsTrivia(gaps) && gaps != []
    ensures Concat(gaps) + t != "" && !IsNameByte((Concat(gaps) + t)[0])
  {
    assert Concat(gaps) == gaps[0] + Concat(gaps[1..]);
    assert IsGap(gaps[0]);
  }

  lemma WordIsRead(w: string, t: string, limit: nat)
    requires IsKeyword(w) && limit > 0
    requires t == "" || !IsNameByte(t[0])
    ensures LeadingWords(w + t, limit) == [Folded(w)] + LeadingWords(t, limit - 1)
  {
    var u := w + t;
    NameRun(w, t);
    assert u[..|w|] == w && u[|w|..] == t;
    assert IsNameByte(u[0]) && !IsSpace(u[0]);
    assert !OpensComment(u);
  }

  function FoldAll(words: seq<string>): seq<string> {
    if words == [] then [] else [Folded(words[0])] + FoldAll(words[1..])
  }

  /** The leading words of a spelling are the words folded, then those of the rest. */
  lemma {:induction false} SpelledWords(gaps: seq<seq<string>>, words: seq<string>, rest: string, limit: nat)
    requires |gaps| == |words| <= limit
    requires forall i :: 0 <= i < |gaps| ==> IsTrivia(gaps[i]) && (i > 0 ==> gaps[i] != [])
    requires forall i :: 0 <= i < |words| ==> IsKeyword(words[i])
    requires rest == "" || !IsNameByte(rest[0])
    ensures LeadingWords(Spelled(gaps, words, rest), limit)
            == FoldAll(words) + LeadingWords(rest, limit - |words|)
  {
    hide LeadingWords, HeadLen, Concat, Folded, IsGap;
    if words == [] {
      assert FoldAll(words) + LeadingWords(rest, limit) == LeadingWords(rest, limit);
    } else {
      var tail := Spelled(gaps[1..], words[1..], rest);
      var t := words[0] + tail;
      assert Spelled(gaps, words, rest) == Concat(gaps[0]) + t;
      TriviaIsSkipped(gaps[0], t, limit);
      if |words| > 1 {
        var after := words[1] + Spelled(gaps[1..][1..], words[1..][1..], rest);
        assert tail == Concat(gaps[1]) + after;
        GapStartsNoName(gaps[1], after);
      }
      WordIsRead(words[0], tail, limit);
      SpelledWords(gaps[1..], words[1..], rest, limit - 1);
    }
  }

  lemma UpperFolds(w: string, v: string)
    requires Upper(w) == Upper(v)
    ensures Folded(w) == Folded(v)
  {
    assert |w| == |v|;
    var a, b := Folded(w), Folded(v);
    forall i | 0 <= i < |a| ensures a[i] == b[i] { assert Upper(w)[i] == Upper(v)[i]; }
  }

  lemma {:induction false} FoldAllSame(words: seq<string>, words': seq<string>)
    requires |words| == |words'|
    requires forall i :: 0 <= i < |words| ==> Upper(words[i]) == Upper(words'[i])
    ensures FoldAll(words) == FoldAll(words')
  {
    if words != [] {
      UpperFolds(words[0], words'[0]);
      FoldAllSame(words[1..], words'[1..]);
    }
  }

  /** Two statements that spell the same leading words differently leave the same on the session. */
  lemma {:induction false} SpellingDoesNotMatter(
      gaps: seq<seq<string>>, words: seq<string>, gaps': seq<seq<string>>, words': seq<string>,
      rest: string, b: Book, autocommit: bool)
    requires |gaps| == |words| == |gaps'| == |words'| <= WORD_LIMIT
    requires forall i :: 0 <= i < |gaps| ==> IsTrivia(gaps[i]) && (i > 0 ==> gaps[i] != [])
    requires forall i :: 0 <= i < |gaps'| ==> IsTrivia(gaps'[i]) && (i > 0 ==> gaps'[i] != [])
    requires forall i :: 0 <= i < |words| ==>
               IsKeyword(words[i]) && IsKeyword(words'[i]) && Upper(words[i]) == Upper(words'[i])
    requires rest == "" || !IsNameByte(rest[0])
    ensures NoteWords(b, LeadingWords(Spelled(gaps, words, rest), WORD_LIMIT), autocommit)
            == NoteWords(b, LeadingWords(Spelled(gaps', words', rest), WORD_LIMIT), autocommit)
  {
    hide *;
    SpelledWords(gaps, words, rest, WORD_LIMIT);
    SpelledWords(gaps', words', rest, WORD_LIMIT);
    FoldAllSame(words, words');
  }

  // The source's own loops

  lemma {:induction false} LineClipped(t: string, m: nat)
    requires m <= |t|
    ensures LineRest(t[..m]) == if LineRest(t) <= m then LineRest(t) else m
  {
    if m > 0 {
      assert t[..m][1..] == t[1..][..m - 1];
      LineClipped(t[1..], m - 1);
    }
  }

  lemma {:induction false} BlockClipped(t: string, m: nat)
    requires m <= |t|
    ensures PairRest(t[..m], '*', '/') == if PairRest(t, '*', '/') <= m then PairRest(t, '*', '/') else m
  {
    if m > 0 {
      assert t[..m][1..] == t[1..][..m - 1];
      BlockClipped(t[1..], m - 1);
    }
  }

  /** A comment of the whole text, seen from inside a statement of it. */
  lemma CommentClipped(t: string, m: nat)
    requires 0 < m <= |t| && OpensComment(t)
    requires m == |t| || t[m] == ';'
    ensures OpensComment(t[..m])
    ensures HeadLen(t[..m]) == if HeadLen(t) <= m then HeadLen(t) else m
  {
    assert t[..m][2..] == t[2..][..m - 2];
    if OpeningOf(t).Line? { LineClipped(t[2..], m - 2); } else { BlockClipped(t[2..], m - 2); }
  }

  /** What is left of a statement that ends at `end`; nothing once the scanner is past it. */
  function Left(sql: string, c: nat, end: nat): string
    requires end <= |sql|
  {
    if c <= end then sql[c..end] else ""
  }

  lemma LeftIs(sql: string, c: nat, end: nat)
    requires end <= |sql|
    ensures c < end ==> Left(sql, c, end) != "" && Left(sql, c, end)[0] == sql[c]
    ensures c < end ==> Left(sql, c, end) == sql[c..end] && Left(sql, c, end)[1..] == Left(sql, c + 1, end)
    ensures c >= end ==> Left(sql, c, end) == ""
  {
  }

  lemma LeftAfter(sql: string, c: nat, n: nat, end: nat)
    requires c <= end <= |sql|
    ensures Left(sql, c + n, end) == if c + n <= end then sql[c..end][n..] else ""
  {
  }

  /** Past a comment: the scanner reads the whole text, and may end up beyond the statement. */
  method SkipComment(sql: string, c: nat, end: nat) returns (past: nat)
    requires NulFree(sql) && c < end <= |sql| && (end == |sql| || sql[end] == ';')
    requires OpensComment(sql[c..end])
    ensures past > c && Left(sql, past, end) == sql[c..end][HeadLen(sql[c..end])..]
  {
    hide HeadLen, OpeningOf, NulFree;
    SeenFromStatement(sql, c, end);
    var n := SkipNonPlaceholder(sql, c);
    past := n;
    LeftAfter(sql, c, n - c, end);
  }

  /** leading_words: the scanner reads on past `end`, the words do not. */
  method ReadLeadingWords(sql: string, start: nat, end: nat) returns (words: seq<string>)
    requires NulFree(sql) && start <= end <= |sql|
    requires end == |sql| || sql[end] == ';'
    ensures words == LeadingWords(sql[start..end], WORD_LIMIT)
  {
    hide *;
    words := [];
    var c: nat := start;
    ghost var all := LeadingWords(sql[start..end], WORD_LIMIT);
    LeftAfter(sql, start, 0, end);
    assert sql[start..end][0..] == sql[start..end];
    while c < end && |words| < WORD_LIMIT
      invariant start <= c && |words| <= WORD_LIMIT
      invariant words + LeadingWords(Left(sql, c, end), WORD_LIMIT - |words|) == all
      decreases end - c
    {
      ghost var t, limit := sql[c..end], WORD_LIMIT - |words|;
      LeftIs(sql, c, end);
      SeenFromStatement(sql, c, end);
      StepWords(t, limit);
      if IsSpace(sql[c]) {
        c := c + 1;
        continue;
      }
      if (sql[c] == '-' && c + 1 < |sql| && sql[c + 1] == '-')
         || (sql[c] == '/' && c + 1 < |sql| && (sql[c + 1] == '/' || sql[c + 1] == '*')) {
        c := SkipComment(sql, c, end);
        continue;
      }
      if !IsNameByte(sql[c]) {
        assert words + [] == words;
        return;
      }
      ghost var from := c;
      var word;
      c, word := ReadWord(sql, c, end);
      LeftAfter(sql, from, c - from, end);
      assert t[..c - from] == sql[from..c];
      AppendWord(words, word, LeadingWords(Left(sql, c, end), limit - 1));
      words := words + [word];
    }
    LeftIs(sql, c, end);
    NoMoreWords(Left(sql, c, end), WORD_LIMIT - |words|);
    assert words + [] == words;
  }

  lemma AppendWord(words: seq<string>, word: string, more: seq<string>)
    ensures words + ([word] + more) == words + [word] + more
  {
  }

  lemma NoMoreWords(t: string, limit: nat)
    ensures t == "" || limit == 0 ==> LeadingWords(t, limit) == []
  {
  }

  lemma StepWords(t: string, limit: nat)
    requires t != "" && limit > 0
    ensures IsSpace(t[0]) ==> LeadingWords(t, limit) == LeadingWords(t[1..], limit)
    ensures !IsSpace(t[0]) && OpensComment(t) ==> LeadingWords(t, limit) == LeadingWords(t[HeadLen(t)..], limit)
    ensures !IsSpace(t[0]) && !OpensComment(t) && !IsNameByte(t[0]) ==> LeadingWords(t, limit) == []
    ensures IsNameByte(t[0]) && !OpensComment(t) ==>
              LeadingWords(t, limit) == [Folded(t[..NameRest(t)])] + LeadingWords(t[NameRest(t)..], limit - 1)
  {
    hide HeadLen;
  }

  /** Where a comment opens in a statement is where one opens in the whole text. */
  lemma SeenFromStatement(sql: string, c: nat, end: nat)
    requires c < end <= |sql|
    requires end == |sql| || sql[end] == ';'
    ensures var t, u := sql[c..end], sql[c..];
            var comment := (sql[c] == '-' && c + 1 < |sql| && sql[c + 1] == '-')
               || (sql[c] == '/' && c + 1 < |sql| && (sql[c + 1] == '/' || sql[c + 1] == '*'));
            && (comment <==> OpensComment(t))
            && (comment ==> !OpeningOf(u).Code?)
            && (comment ==> HeadLen(t) == if HeadLen(u) <= end - c then HeadLen(u) else end - c)
  {
    var t, u := sql[c..end], sql[c..];
    assert t == u[..end - c];
    if OpensComment(u) { CommentClipped(u, end - c); }
  }

  method ReadWord(sql: string, start: nat, end: nat) returns (c: nat, word: string)
    requires start < end <= |sql| && IsNameByte(sql[start])
    ensures start < c <= end && c - start == NameRest(sql[start..end])
    ensures word == Folded(sql[start..c])
  {
    c, word := start, "";
    while c < end && IsNameByte(sql[c])
      invariant start <= c <= end
      invariant c - start + NameRest(sql[c..end]) == NameRest(sql[start..end])
      invariant |word| == if c - start < WORD_LENGTH then c - start else WORD_LENGTH - 1
      invariant forall i :: 0 <= i < |word| ==> word[i] == UpperChar(sql[start + i])
    {
      assert sql[c..end][1..] == sql[c + 1..end];
      if |word| + 1 < WORD_LENGTH {
        word := word + [UpperChar(sql[c])];
      }
      c := c + 1;
    }
    assert word == Folded(sql[start..c]);
  }

  /** note_statement on the flags of the connection. */
  method NoteStatement(b: Book, sql: string, start: nat, end: nat, autocommit: bool) returns (r: Book)
    requires NulFree(sql) && start <= end <= |sql|
    requires end == |sql| || sql[end] == ';'
    ensures r == NoteWords(b, LeadingWords(sql[start..end], WORD_LIMIT), autocommit)
  {
    var words := ReadLeadingWords(sql, start, end);
    if words == [] { return b; }
    r := b;
    if TouchesSession(words) { r := r.(dirty := true); }
    match TransactionEffect(words)
    case Opens => r := r.(inTransaction := true);
    case Ends => r := r.(inTransaction := false);
    case Neither => if !autocommit { r := r.(inTransaction := true); }
  }

  /** The statement still open when the rest of the text has been cut. */
  function NoteFrom(b: Book, open: string, ts: seq<string>, autocommit: bool): Book {
    var rest := Statements(ts);
    NoteStatements(NoteWords(b, LeadingWords(open + Concat(rest[0]), WORD_LIMIT), autocommit), rest[1..], autocommit)
  }

  lemma {:induction false} NoteFromStep(b: Book, open: string, x: string, ts: seq<string>, autocommit: bool)
    ensures x != ";" ==> NoteFrom(b, open, [x] + ts, autocommit) == NoteFrom(b, open + x, ts, autocommit)
    ensures x == ";" ==> NoteFrom(b, open, [x] + ts, autocommit)
                         == NoteFrom(NoteWords(b, LeadingWords(open, WORD_LIMIT), autocommit), "", ts, autocommit)
  {
    var rest := Statements(ts);
    assert ([x] + ts)[1..] == ts;
    if x == ";" {
      assert ([[]] + rest)[1..] == rest;
      assert open + Concat([]) == open && "" + Concat(rest[0]) == Concat(rest[0]);
    } else {
      var first := [x] + rest[0];
      assert ([first] + rest[1..])[1..] == rest[1..] && first[1..] == rest[0];
      assert open + (x + Concat(rest[0])) == open + x + Concat(rest[0]);
    }
  }

  /** fl_session_note: one pass with the scanner, cutting at code semicolons. */
  method SessionNote(b: Book, sql: string, autocommit: bool) returns (r: Book)
    requires NulFree(sql)
    ensures r == Note(b, sql, autocommit)
  {
    hide HeadLen, OpeningOf, Scan, NoteWords, LeadingWords, NoteFrom, Statements;
    r := b;
    var start: nat, c: nat := 0, 0;
    assert sql[0..] == sql;
    NoteFromStart(b, sql, autocommit);
    while c < |sql|
      invariant start <= c <= |sql|
      invariant NoteFrom(r, sql[start..c], Scan(sql[c..]), autocommit) == Note(b, sql, autocommit)
      decreases |sql| - c
    {
      StepScan(sql, c);
      ghost var n := HeadLen(sql[c..]);
      NoteFromStep(r, sql[start..c], sql[c..c + n], Scan(sql[c + n..]), autocommit);
      assert sql[start..c] + sql[c..c + n] == sql[start..c + n];
      var past := SkipNonPlaceholder(sql, c);
      if past != -1 {
        StretchIsNoPlaceholder(sql[c..]);
        assert sql[c..][..n] == sql[c..c + n];
        c := past;
        continue;
      }
      if sql[c] == ';' {
        assert sql[c..c + 1] == ";" && sql[c + 1..c + 1] == "";
        r := NoteStatement(r, sql, start, c, autocommit);
        start := c + 1;
      } else {
        assert sql[c..c + 1][0] != ';';
      }
      c := c + 1;
    }
    NoteFromEnd(r, sql[start..c], autocommit);
    r := NoteStatement(r, sql, start, c, autocommit);
  }

  lemma {:induction false} NoteFromStart(b: Book, sql: string, autocommit: bool)
    ensures NoteFrom(b, "", Scan(sql), autocommit) == Note(b, sql, autocommit)
  {
    var first := Statements(Scan(sql))[0];
    assert "" + Concat(first) == Concat(first);
  }

  lemma NoteFromEnd(b: Book, open: string, autocommit: bool)
    ensures NoteFrom(b, open, Scan(""), autocommit) == NoteWords(b, LeadingWords(open, WORD_LIMIT), autocommit)
  {
    assert Statements([])[0] == [] && open + Concat([]) == open;
  }
}
