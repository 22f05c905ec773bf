/** A small engine that obeys every law of Transparency: databases to move to, create and drop, session variables
    and settings, temporary objects, a commit mode, transactions with pending rows, and requests of several
    statements that are taken whole or not at all. It reads statements its own way, by Commands and by their
    tokens, and asks the driver's classifier nothing. */
module EngineWitness {
  import opened Text
  import opened Scanner
  import opened Substitution
  import opened Literals
  import opened Identifiers
  import opened Protocol
  import opened Transparency
  import opened SessionNote
  import opened OwnStatements
  import opened Commands
  import opened UseTargets
  import TransparentRuns
  import K = Constructs

  /** A context: where the session is, whether it commits by itself, its variables, how often anything else was
      set, and its temporary objects. */
  datatype Place = Place(
    database: string, schema: string, on: bool, variables: map<string, string>, settings: nat, temporaries: nat)

  /** What is committed: the databases there are, and rows. */
  datatype Store = Store(databases: set<string>, rows: nat)

  /** A transaction is the rows pending in it. */
  type State = Session<Place, nat>

  /** The commit mode a statement sets, by its tokens. */
  function ModeOf(sql: string): Option<bool> {
    var ts := Significant(Scan(sql));
    if |ts| != 6 || ts[4] != "=" then None
    else if Upper(ts[0]) != "ALTER" || Upper(ts[1]) != "SESSION" || Upper(ts[2]) != "SET" then None
    else if Upper(ts[3]) != "AUTOCOMMIT" then None
    else if Upper(ts[5]) == "TRUE" then Some(true)
    else if Upper(ts[5]) == "FALSE" then Some(false)
    else None
  }

  function SchemaOf(ts: seq<string>): Option<string> {
    if |ts| == 3 && Upper(ts[0]) == "USE" && Upper(ts[1]) == "SCHEMA" && IsIdentifier(ts[2]) then Some(Denoted(ts[2]))
    else None
  }

  /** The words behind the kind of object. */
  function Behind(words: seq<string>, kind: string): seq<string> {
    if words == [] then [] else if words[0] == kind then words[1..] else Behind(words[1..], kind)
  }

  /** The name of the object, behind IF EXISTS or IF NOT EXISTS. */
  function ObjectOf(words: seq<string>, kind: string): string {
    var r := Behind(words, kind);
    var t := if |r| > 2 && r[0] == "IF" && r[1] == "NOT" then r[3..] else if |r| > 1 && r[0] == "IF" then r[2..] else r;
    if t == [] then "" else t[0]
  }

  /** The variable SET or UNSET is about. */
  function Variable(words: seq<string>): string {
    if |words| > 1 then words[1] else ""
  }

  /** Where a statement takes a context. */
  function Changed(sql: string, words: seq<string>, c: Place): Place {
    match CommandOf(words)
    case Use =>
      var ts := Significant(Scan(sql));
      if TargetOf(ts).Some? then c.(database := TargetOf(ts).value, schema := "")
      else if SchemaOf(ts).Some? then c.(schema := SchemaOf(ts).value)
      else c.(settings := c.settings + 1)
    case Set => c.(variables := c.variables[Variable(words) := sql])
    case Unset => c.(variables := c.variables - {Variable(words)})
    case Alter => if ModeOf(sql).Some? then c.(on := ModeOf(sql).value) else c.(settings := c.settings + 1)
    case CreateTemporary => c.(temporaries := c.temporaries + 1)
    case CreateDatabase => c.(database := ObjectOf(words, "DATABASE"), schema := "")
    case CreateSchema => c.(schema := ObjectOf(words, "SCHEMA"))
    case DropDatabase => if c.database == ObjectOf(words, "DATABASE") then c.(database := "", schema := "") else c
    case DropSchema => if c.schema == ObjectOf(words, "SCHEMA") then c.(schema := "") else c
    case _ => c
  }

  function Moved(sql: string, c: Place): Place {
    Changed(sql, LeadingWords(sql, WORD_LIMIT), c)
  }

  /** What a statement does to the databases there are. */
  function Stored(words: seq<string>, d: Store): Store {
    match CommandOf(words)
    case CreateDatabase => d.(databases := d.databases + {ObjectOf(words, "DATABASE")})
    case DropDatabase => d.(databases := d.databases - {ObjectOf(words, "DATABASE")})
    case _ => d
  }

  /** A database that is not there is neither used nor dropped. */
  predicate Refused(sql: string, words: seq<string>, d: Store) {
    match CommandOf(words)
    case Use => var t := TargetOf(Significant(Scan(sql))); t.Some? && t.value !in d.databases
    case DropDatabase => ObjectOf(words, "DATABASE") !in d.databases
    case _ => false
  }

  /** A statement that changes the context. With autocommit off every statement opens a transaction; turning
      autocommit on commits it. */
  function Settled(sql: string, words: seq<string>, s: State, d: Store): (State, Store) {
    var pending := if s.tx.Some? then s.tx.value else 0;
    var (c, e) := (Changed(sql, words, s.context), Stored(words, d));
    if CommandOf(words).Alter? && ModeOf(sql) == Some(true) then (Session(c, None), e.(rows := e.rows + pending))
    else if s.context.on then (s.(context := c), e)
    else (Session(c, Some(pending)), e)
  }

  /** One statement, or None where it is refused. What neither changes the context nor opens or ends a transaction
      adds a row: in the transaction that is open, to the store by itself, or in one it opens. */
  function Perform(sql: string, words: seq<string>, s: State, d: Store): Option<(State, Store)> {
    var pending := if s.tx.Some? then s.tx.value else 0;
    match CommandOf(words)
    case Nothing => Some((s, d))
    case Begin => Some((s.(tx := Some(pending)), d))
    case Commit => Some((s.(tx := None), d.(rows := d.rows + pending)))
    case Rollback => Some((s.(tx := None), d))
    case Work =>
      if s.tx.None? && s.context.on then Some((s, d.(rows := d.rows + 1)))
      else Some((s.(tx := Some(pending + 1)), d))
    case _ => if Refused(sql, words, d) then None else Some(Settled(sql, words, s, d))
  }

  function PerformAll(statements: seq<seq<string>>, s: State, d: Store): Option<(State, Store)>
    decreases statements
  {
    if statements == [] then Some((s, d))
    else
      var sql := Concat(statements[0]);
      var r := Perform(sql, LeadingWords(sql, WORD_LIMIT), s, d);
      if r.None? then None else PerformAll(statements[1..], r.value.0, r.value.1)
  }

  function Serving(sql: string, count: int, s: State, d: Store): Transparency.Effect<Place, nat, Store> {
    var statements := Statements(Scan(sql));
    var r := PerformAll(statements, s, d);
    if (count > 0 && count != |statements|) || r.None? then Transparency.Effect.Effect(false, "refused", s, d)
    else Transparency.Effect.Effect(true, "", r.value.0, r.value.1)
  }

  function Witness(): Semantics<Place, nat, Store> {
    Semantics((sql: string, n: int, s: State, d: Store) => Serving(sql, n, s, d),
              (sql: string, c: Place) => Moved(sql, c),
              (c: Place) => c.on,
              Place("", "", true, map[], 0, 0))
  }

  // The laws

  lemma NoneIsNothing(words: seq<string>)
    ensures CommandOf(words).Nothing? <==> words == []
  {
  }

  /** A request that leaves the dirty flag clear leaves the context alone. */
  lemma {:induction false} CleanKeepsContext(
      statements: seq<seq<string>>, b: SessionNote.Book, autocommit: bool, s: State, d: Store)
    requires !NoteStatements(b, statements, autocommit).dirty
    requires PerformAll(statements, s, d).Some?
    ensures PerformAll(statements, s, d).value.0.context == s.context
    decreases statements
  {
    hide LeadingWords, TouchesSession, TransactionEffect, CommandOf, Settled, Refused, ModeOf, Changed;
    if statements != [] {
      var sql := Concat(statements[0]);
      var words := LeadingWords(sql, WORD_LIMIT);
      FlagsAreExact(words);
      NoneIsNothing(words);
      var next := NoteWords(b, words, autocommit);
      if next.dirty { DirtyStays(next, statements[1..], autocommit); }
      var r := Perform(sql, words, s, d).value;
      CleanKeepsContext(statements[1..], next, autocommit, r.0, r.1);
    }
  }

  /** One that leaves both flags clear leaves no transaction open. */
  lemma {:induction false} CleanLeavesNoTransaction(
      statements: seq<seq<string>>, b: SessionNote.Book, s: State, d: Store)
    requires NoteStatements(b, statements, s.context.on) == CLEAN
    requires !b.inTransaction ==> s.tx.None?
    requires PerformAll(statements, s, d).Some?
    ensures PerformAll(statements, s, d).value.0.tx.None?
    decreases statements
  {
    hide LeadingWords, TouchesSession, TransactionEffect, CommandOf, Settled, Refused, ModeOf, Changed;
    if statements != [] {
      var sql := Concat(statements[0]);
      var words := LeadingWords(sql, WORD_LIMIT);
      FlagsAreExact(words);
      NoneIsNothing(words);
      var next := NoteWords(b, words, s.context.on);
      if next.dirty { DirtyStays(next, statements[1..], s.context.on); }
      var r := Perform(sql, words, s, d).value;
      CleanLeavesNoTransaction(statements[1..], next, r.0, r.1);
    }
  }

  lemma WitnessKeepsSessions()
    ensures RefusalsKeepContext(Witness()) && UnflaggedKeepContext(Witness())
    ensures UnflaggedLeaveNoTransaction(Witness())
  {
    hide Scan, Statements, NoteStatements, PerformAll;
    forall sql: string, n: int, s: State, d: Store, b: bool, a: bool
      | Serving(sql, n, s, d).ok && !Note(SessionNote.Book(false, b), sql, a).dirty
      ensures Serving(sql, n, s, d).session.context == s.context
    {
      CleanKeepsContext(Statements(Scan(sql)), SessionNote.Book(false, b), a, s, d);
    }
    forall sql: string, n: int, s: State, d: Store, b: bool
      | Serving(sql, n, s, d).ok && (!b ==> s.tx.None?) && Note(SessionNote.Book(false, b), sql, s.context.on) == CLEAN
      ensures Serving(sql, n, s, d).session.tx.None?
    {
      CleanLeavesNoTransaction(Statements(Scan(sql)), SessionNote.Book(false, b), s, d);
    }
  }

  /** A request of one statement is served by its words. */
  lemma ServedAlone(sql: string, n: int, s: State, d: Store)
    requires ";" !in Scan(sql) && n <= 1
    ensures var r := Perform(sql, LeadingWords(sql, WORD_LIMIT), s, d);
            Serving(sql, n, s, d)
            == if r.None? then Transparency.Effect.Effect(false, "refused", s, d)
               else Transparency.Effect.Effect(true, "", r.value.0, r.value.1)
  {
    hide Scan, LeadingWords, Perform, Statements;
    NotedAlone(CLEAN, sql, true);
    assert [Scan(sql)][1..] == [];
    var r := Perform(sql, LeadingWords(sql, WORD_LIMIT), s, d);
    if r.Some? { assert PerformAll([], r.value.0, r.value.1) == r; }
  }

  // The driver's own statements, as this engine reads them

  lemma SingleIsFirst(ts: seq<string>)
    requires ";" !in ts
    ensures First(ts) == Significant(ts)
  {
    OneStatement(ts);
  }

  lemma EqualsInFront(t: string)
    ensures First(Scan("=" + t)) == ["="] + First(Scan(t))
  {
    hide Scan, First, Later;
    K.CodeIsOneToken('=', t);
    OneMore("=", Scan(t));
  }

  lemma LastWord(c: char, w: string)
    requires K.StartsName(c) && forall i :: 0 <= i < |w| ==> K.GoesOnName(w[i])
    ensures First(Scan([c] + w)) == [[c] + w]
  {
    hide Scan, First, Later;
    K.NameIsOneToken(c, w, "");
    assert [c] + w + "" == [c] + w;
    NothingThere();
    OneMore([c] + w, Scan(""));
    assert !IsTriviaToken([c] + w);
  }

  lemma ValueTokens(last: string)
    requires last == "TRUE" || last == "FALSE"
    ensures First(Scan("AUTOCOMMIT = " + last)) == ["AUTOCOMMIT", "=", last]
  {
    hide Scan, First, Later;
    var t5 := " " + last;
    var t4 := "=" + t5;
    assert "AUTOCOMMIT = " + last == "AUTOCOMMIT" + " " + t4;
    WordInFront("AUTOCOMMIT", t4);
    EqualsInFront(t5);
    BlankInFront(last);
    assert last == [last[0]] + last[1..];
    LastWord(last[0], last[1..]);
  }

  lemma ModeTokens(last: string)
    requires last == "TRUE" || last == "FALSE"
    ensures First(Scan("ALTER SESSION SET AUTOCOMMIT = " + last))
            == ["ALTER", "SESSION", "SET", "AUTOCOMMIT", "=", last]
  {
    hide Scan, First, Later;
    var t3 := "AUTOCOMMIT = " + last;
    var t2 := "SET" + " " + t3;
    var t1 := "SESSION" + " " + t2;
    assert "ALTER SESSION SET AUTOCOMMIT = " + last == "ALTER" + " " + t1;
    WordInFront("ALTER", t1);
    WordInFront("SESSION", t2);
    WordInFront("SET", t3);
    ValueTokens(last);
  }

  lemma ModesAreRead()
    ensures ModeOf(AUTOCOMMIT_ON) == Some(true) && ModeOf(AUTOCOMMIT_OFF) == Some(false)
  {
    hide Scan, First, Significant;
    ModeIsRead("TRUE");
    ModeIsRead("FALSE");
    assert AUTOCOMMIT_ON == "ALTER SESSION SET AUTOCOMMIT = " + "TRUE";
    assert AUTOCOMMIT_OFF == "ALTER SESSION SET AUTOCOMMIT = " + "FALSE";
  }

  lemma ModeIsRead(last: string)
    requires last == "TRUE" || last == "FALSE"
    ensures ModeOf("ALTER SESSION SET AUTOCOMMIT = " + last) == Some(last == "TRUE")
  {
    hide Scan, First, Significant;
    var sql := "ALTER SESSION SET AUTOCOMMIT = " + last;
    ModeTokens(last);
    CalmMode(last);
    PlainHoldsNeither(sql);
    SingleIsFirst(Scan(sql));
    ModeWordsAreUpper();
  }

  lemma CalmMode(last: string)
    requires last == "TRUE" || last == "FALSE"
    ensures Plain("ALTER SESSION SET AUTOCOMMIT = " + last)
  {
  }

  lemma ModeWordsAreUpper()
    ensures Upper("ALTER") == "ALTER" && Upper("SESSION") == "SESSION" && Upper("SET") == "SET"
    ensures Upper("AUTOCOMMIT") == "AUTOCOMMIT" && Upper("TRUE") == "TRUE" && Upper("FALSE") == "FALSE"
    ensures "TRUE" != "FALSE"
  {
    assert |"TRUE"| != |"FALSE"|;
  }

  /** One statement, and which: a USE, or an ALTER of the session. */
  lemma OwnIsNoted(sql: string)
    requires IsOwn(sql)
    ensures ";" !in Scan(sql) && LeadingWords(sql, WORD_LIMIT) != []
    ensures CommandOf(LeadingWords(sql, WORD_LIMIT))
            == if sql == AUTOCOMMIT_ON || sql == AUTOCOMMIT_OFF then Alter else Use
  {
    hide LeadingWords, Scan, UseDatabase, UseSchema, AUTOCOMMIT_ON, AUTOCOMMIT_OFF, IsOf, IsMadeTemporary;
    if sql == AUTOCOMMIT_ON || sql == AUTOCOMMIT_OFF {
      ModeIsNoted(sql);
      var words := LeadingWords(sql, WORD_LIMIT);
      AlterOfSession(words);
    } else {
      var name :| name != "" && (sql == UseDatabase(name) || sql == UseSchema(name));
      UseIsNoted(name);
    }
  }

  lemma AlterOfSession(words: seq<string>)
    requires |words| > 1 && words[0] == "ALTER" && words[1] == "SESSION"
    ensures CommandOf(words) == Alter
  {
    hide IsMadeTemporary;
    assert Heads(words, 1) && words[1] == "SESSION";
    assert IsOf(words, "SESSION");
  }

  lemma WitnessMoves()
    ensures OwnStatementsMove(Witness())
  {
    hide LeadingWords, Scan, Statements, PerformAll, IsOwn, Changed, CommandOf, ModeOf, Refused;
    hide AUTOCOMMIT_ON, AUTOCOMMIT_OFF;
    ModesAreRead();
    forall sql: string, n: int, s: State, d: Store | IsOwn(sql)
      ensures var f := Serving(sql, n, s, d);
              && (f.ok ==> f.session.context == Moved(sql, s.context))
              && (s.tx.None? && (s.context.on || sql == AUTOCOMMIT_ON) ==> f.session.tx.None? && f.db == d)
    {
      OwnIsNoted(sql);
      NotedAlone(CLEAN, sql, true);
      if n <= 1 { ServedAlone(sql, n, s, d); } else { assert |Statements(Scan(sql))| == 1; }
    }
  }

  lemma UseIsNoMode(sql: string)
    requires IsUse(sql)
    ensures sql != AUTOCOMMIT_ON && sql != AUTOCOMMIT_OFF
  {
    assert sql[0] == 'U';
  }

  lemma ModesDiffer()
    ensures AUTOCOMMIT_ON != AUTOCOMMIT_OFF
  {
    assert |AUTOCOMMIT_ON| != |AUTOCOMMIT_OFF|;
  }

  lemma SchemaTokens(x: string)
    requires IsIdentifier(x)
    ensures First(Scan("USE SCHEMA " + x)) == ["USE", "SCHEMA", x] && Upper("SCHEMA") == "SCHEMA"
  {
    hide Scan, IsIdentifier, First, Later;
    assert "USE SCHEMA " + x == "USE" + " " + ("SCHEMA" + " " + x);
    WordInFront("USE", "SCHEMA" + " " + x);
    WordInFront("SCHEMA", x);
    assert x == x + "";
    IdentifierFirst(x, "");
    NothingThere();
    OneMore(x, Scan(""));
    assert ["USE"] + (["SCHEMA"] + ([x] + [])) == ["USE", "SCHEMA", x];
  }

  lemma DatabaseTokens(x: string)
    requires IsIdentifier(x)
    ensures First(Scan("USE DATABASE " + x)) == ["USE", "DATABASE", x] && Upper("DATABASE") == "DATABASE"
  {
    hide Scan, IsIdentifier, First, Later;
    assert "USE DATABASE " + x == "USE" + " " + ("DATABASE" + " " + x);
    WordInFront("USE", "DATABASE" + " " + x);
    WordInFront("DATABASE", x);
    assert x == x + "";
    IdentifierFirst(x, "");
    NothingThere();
    OneMore(x, Scan(""));
    assert ["USE"] + (["DATABASE"] + ([x] + [])) == ["USE", "DATABASE", x];
  }

  /** Which database or schema a scope statement is about, by its tokens. */
  lemma ScopeTokens(name: string)
    requires name != ""
    ensures TargetOf(Significant(Scan(UseDatabase(name)))) == Some(Denoted(name))
    ensures TargetOf(Significant(Scan(UseSchema(name)))) == None
    ensures SchemaOf(Significant(Scan(UseSchema(name)))) == Some(Denoted(name))
  {
    hide Scan, IsIdentifier, First, Significant, Denoted, LeadingWords;
    IdentIsIdentifier(name);
    DatabaseTokens(Ident(name));
    SchemaTokens(Ident(name));
    UseIsNoted(name);
    SingleIsFirst(Scan(UseDatabase(name)));
    SingleIsFirst(Scan(UseSchema(name)));
    assert Upper("USE") == "USE" && |"SCHEMA"| != |"DATABASE"|;
  }

  /** Where one statement of a scope leads. */
  lemma ScopeMoves(name: string, c: Place)
    requires name != ""
    ensures Moved(UseDatabase(name), c) == c.(database := Denoted(name), schema := "")
    ensures Moved(UseSchema(name), c) == c.(schema := Denoted(name))
  {
    hide UseDatabase, UseSchema, Denoted, AUTOCOMMIT_ON, AUTOCOMMIT_OFF, LeadingWords, Scan, CommandOf, Significant,
      TargetOf, SchemaOf;
    ScopeTokens(name);
    assert IsUse(UseDatabase(name)) && IsUse(UseSchema(name));
    OwnIsNoted(UseDatabase(name));
    OwnIsNoted(UseSchema(name));
    UseIsNoMode(UseDatabase(name));
    UseIsNoMode(UseSchema(name));
  }

  lemma MoveStep(scope: seq<string>, c: Place)
    ensures scope != [] ==> Move(Witness(), scope, c) == Move(Witness(), scope[1..], Moved(scope[0], c))
    ensures scope == [] ==> Move(Witness(), scope, c) == c
  {
    hide Moved;
  }

  /** Where a whole scope leads. */
  function Put(attrs: Attrs, c: Place): Place {
    var d := if Named(attrs.scopeDatabase) then c.(database := Denoted(attrs.scopeDatabase.value), schema := "") else c;
    var e := if Named(attrs.scopeSchema) then d.(schema := Denoted(attrs.scopeSchema.value)) else d;
    if attrs.autocommit then e else e.(on := false)
  }

  lemma ModeMoves(c: Place)
    ensures Moved(AUTOCOMMIT_OFF, c) == c.(on := false) && Moved(AUTOCOMMIT_ON, c) == c.(on := true)
  {
    hide LeadingWords, CommandOf, ModeOf, AUTOCOMMIT_ON, AUTOCOMMIT_OFF;
    ModesAreRead();
    OwnIsNoted(AUTOCOMMIT_ON);
    OwnIsNoted(AUTOCOMMIT_OFF);
  }

  lemma {:induction false} ScopeLeads(attrs: Attrs, c: Place)
    ensures Move(Witness(), ScopeOf(attrs), c) == Put(attrs, c)
  {
    hide UseDatabase, UseSchema, Moved, Denoted, Move, AUTOCOMMIT_OFF;
    var use := if Named(attrs.scopeDatabase) then [UseDatabase(attrs.scopeDatabase.value)] else [];
    var on := if Named(attrs.scopeSchema) then [UseSchema(attrs.scopeSchema.value)] else [];
    var off := if !attrs.autocommit then [AUTOCOMMIT_OFF] else [];
    assert ScopeOf(attrs) == use + (on + off);
    Leading(use, on + off, c);
    var d := if use == [] then c else Moved(use[0], c);
    if use != [] { ScopeMoves(attrs.scopeDatabase.value, c); }
    Leading(on, off, d);
    var e := if on == [] then d else Moved(on[0], d);
    if on != [] { ScopeMoves(attrs.scopeSchema.value, d); }
    assert off + [] == off;
    Leading(off, [], e);
    MoveStep([], e);
    ModeMoves(e);
    MoveStep([], Moved(AUTOCOMMIT_OFF, e));
  }

  lemma Leading(first: seq<string>, more: seq<string>, c: Place)
    requires |first| <= 1
    ensures Move(Witness(), first + more, c) == Move(Witness(), more, if first == [] then c else Moved(first[0], c))
  {
    hide Move, Moved;
    if first == [] {
      assert first + more == more;
    } else {
      MoveStep(first + more, c);
      assert (first + more)[1..] == more;
    }
  }

  lemma ScopeAbsorbs(attrs: Attrs, s: string, c: Place)
    requires s in ScopeOf(attrs)
    ensures Move(Witness(), ScopeOf(attrs), Moved(s, c)) == Move(Witness(), ScopeOf(attrs), c)
  {
    hide UseDatabase, UseSchema, Moved, Denoted, Move, AUTOCOMMIT_OFF;
    ScopeLeads(attrs, c);
    ScopeLeads(attrs, Moved(s, c));
    ModeMoves(c);
    if Named(attrs.scopeDatabase) { ScopeMoves(attrs.scopeDatabase.value, c); }
    if Named(attrs.scopeSchema) { ScopeMoves(attrs.scopeSchema.value, c); }
  }

  lemma WitnessComposes()
    ensures MovesCompose(Witness())
  {
    hide ScopeOf, Move, Moved, IsUse, AUTOCOMMIT_ON, AUTOCOMMIT_OFF;
    var sem := Witness();
    forall c: Place
      ensures !Moved(AUTOCOMMIT_OFF, c).on && (c.on ==> Moved(AUTOCOMMIT_ON, Moved(AUTOCOMMIT_OFF, c)) == c)
    {
      ModeMoves(c);
      ModeMoves(Moved(AUTOCOMMIT_OFF, c));
    }
    forall c: Place, s: string | IsUse(s) ensures Moved(s, c).on == c.on { UseKeepsMode(s, c); }
    forall attrs: Attrs, s: string, c: Place | s in ScopeOf(attrs)
      ensures Move(sem, ScopeOf(attrs), Moved(s, c)) == Move(sem, ScopeOf(attrs), c)
    {
      ScopeAbsorbs(attrs, s, c);
    }
  }

  lemma UseKeepsMode(s: string, c: Place)
    requires IsUse(s)
    ensures Moved(s, c).on == c.on
  {
    hide IsUse, AUTOCOMMIT_ON, AUTOCOMMIT_OFF, LeadingWords, CommandOf, Scan, Significant, TargetOf, SchemaOf;
    UseIsNoMode(s);
    OwnIsNoted(s);
  }

  /** The laws can be met together. */
  lemma {:induction false} LawsCanBeMet()
    ensures Lawful(Witness())
  {
    hide RefusalsKeepContext, UnflaggedKeepContext, UnflaggedLeaveNoTransaction, OwnStatementsMove, MovesCompose;
    WitnessKeepsSessions();
    WitnessMoves();
    WitnessComposes();
  }

  // It is not idle

  /** A USE moves the session to a database there is, and is refused for any other. */
  lemma {:induction false} UseMovesOrIsRefused(name: string, s: State, d: Store)
    requires name != ""
    ensures var f := Serving(UseDatabase(name), -1, s, d);
            && (f.ok <==> Denoted(name) in d.databases)
            && (f.ok ==>
                 && f.session.context == s.context.(database := Denoted(name), schema := "") && f.db == d
                 && f.session.tx == if s.context.on || s.tx.Some? then s.tx else Some(0))
  {
    hide UseDatabase, UseSchema, Denoted, Scan, LeadingWords, Serving, CommandOf, Changed, Significant, TargetOf;
    var sql := UseDatabase(name);
    assert IsUse(sql);
    OwnIsNoted(sql);
    UseIsNoMode(sql);
    ScopeTokens(name);
    ServedAlone(sql, -1, s, d);
    ScopeMoves(name, s.context);
  }

  const INSERT := "INSERT INTO T SELECT X FROM S"

  lemma InsertText()
    ensures "INSERT" + " INTO T SELECT X FROM S" == INSERT
  {
  }

  lemma InsertIsUpper()
    ensures Upper("INSERT") == "INSERT"
  {
  }

  lemma InsertIsCalm()
    ensures IsCalm(INSERT)
  {
  }

  lemma WorkWords(words: seq<string>)
    requires words != [] && words[0] == "INSERT"
    ensures CommandOf(words) == Work
  {
  }

  lemma InsertIsWork()
    ensures var words := LeadingWords(INSERT, WORD_LIMIT);
            && words != [] && CommandOf(words) == Work
            && !TouchesSession(words) && TransactionEffect(words) == Neither
    ensures Plain(INSERT) && INSERT != ""
  {
    hide LeadingWords, Plain, TouchesSession, TransactionEffect, Upper, INSERT, IsCalm, CommandOf;
    InsertText();
    InsertIsUpper();
    InsertIsCalm();
    CalmIsPlain(INSERT);
    FirstWord("INSERT", " INTO T SELECT X FROM S", WORD_LIMIT);
    WorkWords(LeadingWords(INSERT, WORD_LIMIT));
    FlagsAreExact(LeadingWords(INSERT, WORD_LIMIT));
  }

  lemma OneWord(w: string)
    requires w in ["BEGIN", "COMMIT", "ROLLBACK"]
    ensures LeadingWords(w, WORD_LIMIT) == [w] && ";" !in Scan(w)
  {
    hide LeadingWords, Scan;
    assert Upper(w) == w;
    assert w + "" == w;
    FirstWord(w, "", WORD_LIMIT);
    NoMoreWords("", WORD_LIMIT - 1);
    PlainHoldsNeither(w);
  }

  /** BEGIN opens a transaction, work done in it is pending, COMMIT puts it in the store, ROLLBACK does not;
      and without one, work goes to the store by itself. */
  lemma {:induction false} TransactionsWork(c: Place, d: Store, pending: nat)
    requires c.on
    ensures Serving("BEGIN", -1, Session(c, None), d) == Transparency.Effect.Effect(true, "", Session(c, Some(0)), d)
    ensures Serving(INSERT, -1, Session(c, Some(pending)), d)
            == Transparency.Effect.Effect(true, "", Session(c, Some(pending + 1)), d)
    ensures Serving("COMMIT", -1, Session(c, Some(pending)), d)
            == Transparency.Effect.Effect(true, "", Session(c, None), d.(rows := d.rows + pending))
    ensures Serving("ROLLBACK", -1, Session(c, Some(pending)), d)
            == Transparency.Effect.Effect(true, "", Session(c, None), d)
    ensures Serving(INSERT, -1, Session(c, None), d)
            == Transparency.Effect.Effect(true, "", Session(c, None), d.(rows := d.rows + 1))
  {
    hide Serving, INSERT;
    EndsWork(c, d, pending);
    WorkWorks(c, d, pending);
  }

  lemma OneWordCommands()
    ensures CommandOf(["BEGIN"]) == Begin && CommandOf(["COMMIT"]) == Commit && CommandOf(["ROLLBACK"]) == Rollback
  {
    hide IsOf, IsMadeTemporary;
  }

  lemma EndsWork(c: Place, d: Store, pending: nat)
    ensures Serving("BEGIN", -1, Session(c, None), d) == Transparency.Effect.Effect(true, "", Session(c, Some(0)), d)
    ensures Serving("COMMIT", -1, Session(c, Some(pending)), d)
            == Transparency.Effect.Effect(true, "", Session(c, None), d.(rows := d.rows + pending))
    ensures Serving("ROLLBACK", -1, Session(c, Some(pending)), d)
            == Transparency.Effect.Effect(true, "", Session(c, None), d)
  {
    hide Scan, LeadingWords, Serving, IsOf, IsMadeTemporary, Settled, Refused;
    OneWord("BEGIN");
    OneWord("COMMIT");
    OneWord("ROLLBACK");
    OneWordCommands();
    ServedAlone("BEGIN", -1, Session(c, None), d);
    ServedAlone("COMMIT", -1, Session(c, Some(pending)), d);
    ServedAlone("ROLLBACK", -1, Session(c, Some(pending)), d);
  }

  lemma WorkWorks(c: Place, d: Store, pending: nat)
    requires c.on
    ensures Serving(INSERT, -1, Session(c, Some(pending)), d)
            == Transparency.Effect.Effect(true, "", Session(c, Some(pending + 1)), d)
    ensures Serving(INSERT, -1, Session(c, None), d)
            == Transparency.Effect.Effect(true, "", Session(c, None), d.(rows := d.rows + 1))
  {
    hide Scan, LeadingWords, Serving, INSERT, Plain, TouchesSession, TransactionEffect, CommandOf, Settled, Refused;
    InsertIsWork();
    PlainHoldsNeither(INSERT);
    ServedAlone(INSERT, -1, Session(c, Some(pending)), d);
    ServedAlone(INSERT, -1, Session(c, None), d);
  }

  /** Two plain statements in one request are cut at the semicolon between them. */
  lemma TwoStatements(a: string, b: string)
    requires Plain(a) && a != "" && a[0] !in {'-', '*'} && a[|a| - 1] != '-' && Plain(b) && b != ""
    ensures Statements(Scan(a + ";" + b)) == [Scan(a), Scan(b)]
  {
    hide Scan, HeadLen, Plain, Statements;
    PlainIsSpliceable(a);
    PlainHoldsNeither(b);
    var ts := Scan(a) + ([";"] + Scan(b));
    ScanIsChain(a);
    ScanIsChain(b);
    ScanFirstByte(a);
    ScanFirstByte(b);
    CutIsToken(Scan(b)[0]);
    ChainAppend([";"], Scan(b));
    ChainAppend(Scan(a), [";"] + Scan(b));
    ConcatAppend(Scan(a), [";"] + Scan(b));
    assert ([";"] + Scan(b))[1..] == Scan(b);
    assert Concat(ts) == a + (";" + b) == a + ";" + b;
    RescanExactly(ts);
    CutsTwice(Scan(a), Scan(b));
  }

  lemma CutIsToken(y: string)
    requires y != ""
    ensures IsToken(";") && Sealed(";", y)
  {
  }

  lemma {:induction false} CutsTwice(a: seq<string>, b: seq<string>)
    requires ";" !in a && ";" !in b
    ensures Statements(a + ([";"] + b)) == [a, b]
  {
    if a == [] {
      OneStatement(b);
      assert a + ([";"] + b) == [";"] + b && ([";"] + b)[1..] == b;
    } else {
      CutsTwice(a[1..], b);
      var ts := a + ([";"] + b);
      assert ts[1..] == a[1..] + ([";"] + b) && ts[0] == a[0];
      assert [a[0]] + a[1..] == a;
      assert [a[1..], b][1..] == [b];
    }
  }

  /** A request that turns autocommit off and goes on to write opens a transaction the classifier does not
      see: it notes the session dirty and no transaction. The laws allow that. */
  lemma {:induction false} UnseenTransaction(c: Place, d: Store)
    requires c.on
    ensures var sql := AUTOCOMMIT_OFF + ";" + INSERT;
            && Serving(sql, 2, Session(c, None), d)
               == Transparency.Effect.Effect(true, "", Session(c.(on := false), Some(1)), d)
            && Note(CLEAN, sql, true) == SessionNote.Book(true, false)
  {
    hide Scan, LeadingWords, Plain, Statements, AUTOCOMMIT_OFF, INSERT, AUTOCOMMIT_ON, Changed, ModeOf;
    hide TouchesSession, TransactionEffect, CommandOf, Stored;
    var off := AUTOCOMMIT_OFF;
    ModeIsNoted(off);
    ModeText(off);
    ModeServed(c, d);
    InsertIsWork();
    TwoStatements(off, INSERT);
    ScanIsChain(off);
    ScanIsChain(INSERT);
    var statements := [Scan(off), Scan(INSERT)];
    assert statements[1..] == [Scan(INSERT)] && [Scan(INSERT)][1..] == [];
    var s, t := Session(c, None), Session(c.(on := false), None);
    assert Perform(off, LeadingWords(off, WORD_LIMIT), s, d) == Some((t, d));
    var u := Session(c.(on := false), Some(1));
    assert Perform(INSERT, LeadingWords(INSERT, WORD_LIMIT), t, d) == Some((u, d));
    assert PerformAll([], u, d) == Some((u, d));
    assert PerformAll([Scan(INSERT)], t, d) == Some((u, d));
    assert PerformAll(statements, s, d) == Some((u, d));
    NotedTwice(off, INSERT, statements);
  }

  /** A report of a lost transaction may be spurious: work with autocommit off is noted as a transaction, and
      turning autocommit on, which commits it, is the driver's own statement and leaves the flag. */
  lemma {:induction false} SpuriousReport(c: Place, d: Store, conn: Conn, net: Net)
    requires c.on
    requires conn.connected && !conn.pending && conn.book == CLEAN && !conn.attrs.autocommit
    requires var r := RequestOf(conn, AUTOCOMMIT_ON, -1, Driver);
             var a := net(conn.trace, r);
             a.Reply? && a.success && !Gone(r, a) && !Replaces(r, a)
    ensures var off := c.(on := false);
            && Serving(INSERT, -1, Session(off, None), d)
               == Transparency.Effect.Effect(true, "", Session(off, Some(1)), d)
            && Serving(AUTOCOMMIT_ON, -1, Session(off, Some(1)), d)
               == Transparency.Effect.Effect(true, "", Session(c, None), d.(rows := d.rows + 1))
    ensures var noted := conn.(book := Note(CLEAN, INSERT, false));
            var (c1, result) := SetAutocommit(noted, net, true);
            && result.Executed? && Succeeded(result.outcome) && c1.attrs.autocommit
            && LoseSession(c1).1 == Some(LostTransaction)
  {
    hide Scan, LeadingWords, Plain, Statements, AUTOCOMMIT_OFF, INSERT, AUTOCOMMIT_ON, Changed, ModeOf;
    hide TouchesSession, TransactionEffect, CommandOf, Stored, Settled;
    var off := c.(on := false);
    InsertIsWork();
    PlainHoldsNeither(INSERT);
    ServedAlone(INSERT, -1, Session(off, None), d);
    NotedAlone(CLEAN, INSERT, false);
    var on := AUTOCOMMIT_ON;
    ModeIsNoted(on);
    ModeServed(off, d);
    ServedAlone(on, -1, Session(off, Some(1)), d);
  }

  /** What the mode statements do here: off leaves what is open, on commits it. */
  lemma ModeServed(c: Place, d: Store)
    ensures var words := LeadingWords(AUTOCOMMIT_OFF, WORD_LIMIT);
            && Perform(AUTOCOMMIT_OFF, words, Session(c.(on := true), None), d)
               == Some((Session(c.(on := false), None), d))
            && TransactionEffect(words) == Neither
    ensures var words := LeadingWords(AUTOCOMMIT_ON, WORD_LIMIT);
            forall pending: nat ::
              Perform(AUTOCOMMIT_ON, words, Session(c, Some(pending)), d)
              == Some((Session(c.(on := true), None), d.(rows := d.rows + pending)))
  {
    hide LeadingWords, CommandOf, ModeOf, AUTOCOMMIT_ON, AUTOCOMMIT_OFF, TransactionEffect, TouchesSession;
    ModesAreRead();
    ModesDiffer();
    OwnIsNoted(AUTOCOMMIT_ON);
    OwnIsNoted(AUTOCOMMIT_OFF);
    FlagsAreExact(LeadingWords(AUTOCOMMIT_OFF, WORD_LIMIT));
  }

  lemma NotedTwice(a: string, b: string, statements: seq<seq<string>>)
    requires statements == [Scan(a), Scan(b)] && Concat(Scan(a)) == a && Concat(Scan(b)) == b
    ensures NoteStatements(CLEAN, statements, true)
            == NoteWords(NoteWords(CLEAN, LeadingWords(a, WORD_LIMIT), true), LeadingWords(b, WORD_LIMIT), true)
  {
    hide Scan, LeadingWords, NoteWords;
    assert statements[1..] == [Scan(b)] && [Scan(b)][1..] == [];
    var first := NoteWords(CLEAN, LeadingWords(a, WORD_LIMIT), true);
    NothingNoted(NoteWords(first, LeadingWords(b, WORD_LIMIT), true), true);
    assert NoteStatements(first, [Scan(b)], true) == NoteWords(first, LeadingWords(b, WORD_LIMIT), true);
  }

  // Connections to it

  /** A connection opened on a database there is comes up on its scope, so the theorems about runs against an
      engine speak of it. */
  lemma {:induction false} ConnectsToIt(start: Engine<Place, nat, Store>, chances: nat -> Chance, name: string)
    requires forall k: nat :: chances(k).newId != ""
    requires name != "" && Denoted(name) in start.db.databases
    ensures var net := NetOf(Witness(), start, chances);
            var (c, r) := Connect(UNUSED, net, true, Some(name), None);
            && Backed(net, Witness(), start, chances) && Lawful(Witness())
            && r == Done && c.connected
            && InStep(Witness(), c, After(Witness(), start, chances, c.trace),
                      Ideal(Based(Witness(), c.attrs), start.db))
  {
    hide Lawful, Backed, InStep, Serve, NetOf, UseDatabase, ExecuteAs, Witness;
    var net := NetOf(Witness(), start, chances);
    LawsCanBeMet();
    EveryEngineIsBacked(Witness(), start, chances);
    UseSucceeds(start, chances, name);
    assert After(Witness(), start, chances, []) == start;
    assert UNUSED.trace == [];
    TransparentRuns.ConnectIsInStep(Witness(), start, chances, UNUSED, net, Some(name), None);
  }

  lemma UseSucceeds(start: Engine<Place, nat, Store>, chances: nat -> Chance, name: string)
    requires forall k: nat :: chances(k).newId != ""
    requires name != "" && Denoted(name) in start.db.databases
    ensures Succeeded(ExecuteAs(Protocol.Opening(UNUSED, Some(name), None), NetOf(Witness(), start, chances),
                                UseDatabase(name), -1, false, false).1)
  {
    hide Serving, UseDatabase, Denoted;
    var sem := Witness();
    var c := Protocol.Opening(UNUSED, Some(name), None);
    var net := NetOf(sem, start, chances);
    UseMovesOrIsRefused(name, Session(sem.blank, None), start.db);
    assert c.trace == [Opened] && [Opened][..0] == [];
    assert After(sem, start, chances, []) == start;
    assert After(sem, start, chances, c.trace) == start;
    var r := RequestOf(c, UseDatabase(name), -1, Driver);
    var a := net(c.trace, r);
    assert a == Serve(sem, start, chances(1), r).0;
    assert a.Reply? && a.success && a.status == 200;
    assert ExecuteAs(c, net, UseDatabase(name), -1, false, false) == Send(c, net, UseDatabase(name), -1, false, false);
  }
}
