/** What a statement is by its leading words, as an engine that carries it out would read it, and that the
    driver's classifier flags exactly the statements that leave something behind (src/session.c). */
module Commands {
  import opened Text
  import opened Scanner
  import opened SessionNote

  /** Words that may stand between CREATE, DROP or ALTER and the kind of object. */
  predicate Qualifies(w: string) {
    || w == "EXTERNAL" || w == "MATERIALIZED" || w == "RECURSIVE" || w == "EVENT" || w == "HYBRID"
    || w == "DYNAMIC" || w == "ICEBERG" || w == "PRIVATE" || w == "PUBLIC" || w == "EXISTS" || w == "NOT"
    || w == "IF" || w == "SECURE" || w == "GLOBAL" || w == "LOCAL" || w == "TRANSIENT" || w == "REPLACE" || w == "OR"
    || IsTemporary(w)
  }

  /** Words that make an object live with its session. */
  predicate IsTemporary(w: string) {
    w == "VOLATILE" || w == "TEMP" || w == "TEMPORARY"
  }

  /** The k-th word, with nothing but qualifiers between it and the verb. */
  predicate Heads(words: seq<string>, k: nat) {
    1 <= k < |words| && forall i :: 1 <= i < k ==> Qualifies(words[i])
  }

  /** The object is of that kind. */
  predicate IsOf(words: seq<string>, kind: string) {
    exists k: nat :: k < |words| && Heads(words, k) && words[k] == kind
  }

  /** It is qualified as living with its session. */
  predicate IsMadeTemporary(words: seq<string>) {
    exists k: nat :: k < |words| && Heads(words, k) && IsTemporary(words[k])
  }

  datatype Command =
    | Nothing | Work
    | Use | Set | Unset | Alter
    | CreateTemporary | CreateDatabase | CreateSchema | DropDatabase | DropSchema
    | Begin | Commit | Rollback

  function CommandOf(words: seq<string>): Command {
    if words == [] then Nothing
    else if words[0] == "USE" then Use
    else if words[0] == "SET" then Set
    else if words[0] == "UNSET" then Unset
    else if words[0] == "ALTER" then (if IsOf(words, "SESSION") then Alter else Work)
    else if words[0] == "CREATE" then
      (if IsOf(words, "DATABASE") then CreateDatabase
       else if IsOf(words, "SCHEMA") then CreateSchema
       else if IsMadeTemporary(words) then CreateTemporary
       else Work)
    else if words[0] == "DROP" then
      (if IsOf(words, "DATABASE") then DropDatabase else if IsOf(words, "SCHEMA") then DropSchema else Work)
    else if words[0] == "BEGIN" then (if |words| == 1 || OpensByName(words[1]) then Begin else Work)
    else if words[0] == "START" then (if |words| > 1 && words[1] == "TRANSACTION" then Begin else Work)
    else if words[0] == "COMMIT" then Commit
    else if words[0] == "ROLLBACK" then Rollback
    else Work
  }

  /** What makes BEGIN open a transaction instead of a block. */
  predicate OpensByName(w: string) {
    w == "NAME" || w == "WORK" || w == "TRANSACTION"
  }

  /** Leaves something a fresh session would not have. */
  predicate LeavesContext(c: Command) {
    || c.Use? || c.Set? || c.Unset? || c.Alter?
    || c.CreateTemporary? || c.CreateDatabase? || c.CreateSchema? || c.DropDatabase? || c.DropSchema?
  }

  // The classifier flags exactly those

  lemma Listed(w: string)
    ensures w in MODIFIERS <==> Qualifies(w)
    ensures w in TEMPORARY <==> IsTemporary(w)
  {
  }

  lemma {:induction false} LongestPrefix(ws: seq<string>)
    ensures var n := |Modifiers(ws)|;
            && Modifiers(ws) == ws[..n] && (n < |ws| ==> !Qualifies(ws[n]))
            && forall i :: 0 <= i < n ==> Qualifies(ws[i])
  {
    hide MODIFIERS, Qualifies;
    if ws != [] {
      Listed(ws[0]);
      if ws[0] in MODIFIERS {
        LongestPrefix(ws[1..]);
        assert [ws[0]] + ws[1..][..|Modifiers(ws[1..])|] == ws[..1 + |Modifiers(ws[1..])|];
      }
    }
  }

  /** The kind of object is the first word behind the qualifiers. */
  lemma KindIs(words: seq<string>, kind: string)
    requires words != [] && kind != "" && !Qualifies(kind)
    ensures ObjectKind(words) == kind <==> IsOf(words, kind)
  {
    hide MODIFIERS, Qualifies, Modifiers;
    var ws := words[1..];
    LongestPrefix(ws);
    var n := |Modifiers(ws)|;
    forall i | 0 <= i < |ws| ensures ws[i] == words[i + 1] { }
    if ObjectKind(words) == kind {
      assert n < |ws| && ws[n] == kind;
      forall i | 1 <= i < n + 1 ensures Qualifies(words[i]) { assert words[i] == ws[i - 1]; }
      assert Heads(words, n + 1) && words[n + 1] == kind;
    }
    if IsOf(words, kind) {
      var k: nat :| k < |words| && Heads(words, k) && words[k] == kind;
      assert ws[k - 1] == words[k];
    }
  }

  lemma TemporaryIs(words: seq<string>)
    requires words != []
    ensures (exists m <- Modifiers(words[1..]) :: m in TEMPORARY) <==> IsMadeTemporary(words)
  {
    hide MODIFIERS, TEMPORARY, Modifiers;
    var ws := words[1..];
    LongestPrefix(ws);
    var ms := Modifiers(ws);
    if m :| m in ms && m in TEMPORARY {
      Listed(m);
      var i :| 0 <= i < |ms| && ms[i] == m;
      forall j | 1 <= j < i + 1 ensures Qualifies(words[j]) { assert words[j] == ws[j - 1]; }
      assert Heads(words, i + 1) && words[i + 1] == m;
    }
    if IsMadeTemporary(words) {
      var k: nat :| k < |words| && Heads(words, k) && IsTemporary(words[k]);
      Listed(words[k]);
      assert ms[k - 1] == ws[k - 1] == words[k];
      assert words[k] in ms;
    }
  }

  lemma KindsAreNone()
    ensures !Qualifies("SESSION") && !Qualifies("DATABASE") && !Qualifies("SCHEMA")
  {
    assert |"SESSION"| == 7 && |"DATABASE"| == 8 && |"SCHEMA"| == 6;
  }

  /** Every statement, whatever its words: flagged as touching the session exactly where it leaves something a
      fresh session would not have, and as opening or ending a transaction exactly where it does. */
  lemma {:induction false} FlagsAreExact(words: seq<string>)
    ensures TouchesSession(words) <==> LeavesContext(CommandOf(words))
    ensures TransactionEffect(words)
            == match CommandOf(words)
               case Begin => Opens
               case Commit | Rollback => Ends
               case _ => Neither
  {
    hide MODIFIERS, TEMPORARY, Modifiers, ObjectKind, IsOf, IsMadeTemporary, Qualifies;
    KindsAreNone();
    if words != [] {
      KindIs(words, "SESSION");
      KindIs(words, "DATABASE");
      KindIs(words, "SCHEMA");
      TemporaryIs(words);
    }
  }

  // The words themselves

  /** A word of more bytes than there is room for is cut. */
  function Cut(w: string): string {
    Upper(if |w| < 32 then w else w[..31])
  }

  function Kept(words: seq<string>, limit: nat): (r: seq<string>)
    ensures |r| == if |words| < limit then |words| else limit
    ensures forall i :: 0 <= i < |r| ==> r[i] == Cut(words[i])
  {
    if words == [] || limit == 0 then [] else [Cut(words[0])] + Kept(words[1..], limit - 1)
  }

  lemma SpacesAre(c: char)
    ensures IsSpace(c) <==> c in [' ', '\t', '\n', '\r', 0x0B as char, 0x0C as char]
  {
  }

  /** No word, blank or comment comes next. */
  predicate StopsWords(t: string) {
    t == "" || (!IsNameByte(t[0]) && !IsSpace(t[0]) && !OpensComment(t))
  }

  lemma WordsStop(t: string, limit: nat)
    requires StopsWords(t)
    ensures LeadingWords(t, limit) == [] && (t == "" || !IsNameByte(t[0]))
  {
    hide HeadLen;
  }

  lemma NoRoom(t: string)
    ensures LeadingWords(t, 0) == []
  {
  }

  /** The leading words of any statement: the first sixteen of those it begins with, whatever blanks and comments are
      between them, in upper case and of at most thirty-one bytes. */
  lemma {:induction false} WordsAreKept(gaps: seq<seq<string>>, words: seq<string>, rest: string, limit: nat)
    requires |gaps| == |words|
    requires forall i :: 0 <= i < |gaps| ==> IsTrivia(gaps[i]) && (i > 0 ==> gaps[i] != [])
    requires forall i :: 0 <= i < |words| ==> IsKeyword(words[i])
    requires StopsWords(rest)
    ensures LeadingWords(Spelled(gaps, words, rest), limit) == Kept(words, limit)
  {
    hide LeadingWords, HeadLen, Concat, IsGap, StopsWords;
    WordsStop(rest, limit);
    if limit == 0 {
      NoRoom(Spelled(gaps, words, rest));
    } else if words == [] {
      assert Spelled(gaps, words, rest) == rest;
    } else {
      var tail := Spelled(gaps[1..], words[1..], rest);
      var t := words[0] + tail;
      assert Spelled(gaps, words, rest) == Concat(gaps[0]) + t;
      TriviaIsSkipped(gaps[0], t, limit);
      if |words| > 1 {
        var after := words[1] + Spelled(gaps[1..][1..], words[1..][1..], rest);
        assert tail == Concat(gaps[1]) + after;
        GapStartsNoName(gaps[1], after);
      }
      WordIsRead(words[0], tail, limit);
      WordsAreKept(gaps[1..], words[1..], rest, limit - 1);
    }
  }

  lemma {:induction false} SixteenWords(gaps: seq<seq<string>>, words: seq<string>, rest: string)
    requires |gaps| == |words|
    requires forall i :: 0 <= i < |gaps| ==> IsTrivia(gaps[i]) && (i > 0 ==> gaps[i] != [])
    requires forall i :: 0 <= i < |words| ==> IsKeyword(words[i])
    requires StopsWords(rest)
    ensures LeadingWords(Spelled(gaps, words, rest), WORD_LIMIT) == Kept(words, 16)
  {
    hide LeadingWords, Spelled, Kept, IsTrivia, IsKeyword, StopsWords;
    WordsAreKept(gaps, words, rest, 16);
  }
}
