/** Whether the database shown as current is the one the next statement runs in (src/proto.c, src/execute.c,
    src/connect.c). */
module Whereabouts {
  import opened Text
  import opened Scanner
  import opened Literals
  import opened Identifiers
  import opened Protocol
  import opened UseTargets
  import SessionNote
  import History
  import Own = OwnStatements
  import ScopeSafety
  import TransparentRuns

  // Where the session is

  /** The database the session now held was moved to, by the requests it accepted; None where nothing has moved
      it since it started. */
  function Where(t: Trace): Option<string> {
    if t == [] then None
    else
      var before := Where(t[..|t| - 1]);
      match t[|t| - 1]
      case Opened | Closed(_) => None
      case Post(r, a, _) =>
        if a.Failed? then before
        else if Gone(r, a) then None
        else
          var base := if r.session.None? || Replaces(r, a) then None else before;
          if a.success && MovesTo(r.sql).Some? then MovesTo(r.sql) else base
  }

  /** The engine has sessions and keeps the one it is sent: an answer names the session it ran in, which is the
      one the request named, or refuses that one. */
  predicate Keeps(e: Event) {
    e.Post? && e.answer.Reply? && !Gone(e.request, e.answer) ==>
      && Named(e.answer.session)
      && (e.request.session.Some? ==>
            e.answer.session == e.request.session && e.answer.newSession != Some(true))
  }

  predicate AllKeep(t: Trace) {
    forall e <- t :: Keeps(e)
  }

  /** A name shown for a database: its own, or what the connection was opened with. */
  predicate Shows(shown: Option<string>, attrs: Attrs, place: Option<string>) {
    || shown == place
    || (Named(attrs.scopeDatabase) && shown == attrs.scopeDatabase && place == ScopedTo(attrs))
  }

  /** Where the scope puts a session. */
  function ScopedTo(attrs: Attrs): Option<string> {
    if Named(attrs.scopeDatabase) then Some(Denoted(attrs.scopeDatabase.value)) else None
  }

  /** The database shown is where the session is; while a scope is pending it is the scope's, where the session
      will be when the next statement runs. */
  predicate InPlace(c: Conn) {
    && c.connected
    && (c.attrs.scopeDatabase.Some? ==> Named(c.attrs.scopeDatabase))
    && (c.session.None? ==> Where(c.trace) == None)
    && (if c.pending then
          c.database == c.attrs.scopeDatabase && (!Named(c.attrs.scopeDatabase) ==> Where(c.trace) == None)
        else Shows(c.database, c.attrs, Where(c.trace)))
  }

  /** Answers of a conforming engine, to the requests this driver makes, keep sessions. */
  lemma {:induction false} ConformingKeeps(t: Trace)
    requires History.EventsFit(t)
    requires forall e <- t :: e.Post? ==> ScopeSafety.Conforms(e.request, e.answer)
    ensures AllKeep(t)
    ensures History.SessionOf(t).Some? ==> History.SupportOf(t).Tracking?
  {
    if t != [] {
      var (u, e) := (t[..|t| - 1], t[|t| - 1]);
      forall i | 0 <= i < |u| ensures History.EventFits(u[..i], u[i]) { assert u[..i] == t[..i]; }
      forall x | x in u ensures x in t { }
      ConformingKeeps(u);
      assert History.EventFits(t[..|t| - 1], t[|t| - 1]);
      assert e in t && Keeps(e);
      forall x | x in t ensures Keeps(x) { if x != e { assert x in u; } }
    }
  }

  // The driver's own statements

  lemma ScopeStatementsMove(name: string)
    requires name != ""
    ensures MovesTo(UseDatabase(name)) == Some(Denoted(name)) && MovesTo(UseSchema(name)) == None
  {
    hide Scan, MovesTo, Ident, Denoted, IsIdentifier, DropTrailers, DropSpaces, First, Later;
    HeadIsUse();
    IdentIsIdentifier(name);
    IdentEnds(name);
    IdentifierIsTarget("USE DATABASE ", Ident(name));
    SchemaMovesNothing(Ident(name));
  }

  lemma SchemaMovesNothing(x: string)
    requires IsIdentifier(x)
    ensures MovesTo("USE SCHEMA " + x) == None
  {
    hide Scan, IsIdentifier, Denoted, First, Later;
    var sql := "USE SCHEMA " + x;
    assert sql == "USE" + " " + ("SCHEMA" + " " + x);
    WordInFront("USE", "SCHEMA" + " " + x);
    WordInFront("SCHEMA", x);
    assert x == x + "";
    IdentifierFirst(x, "");
    NothingThere();
    OneMore(x, Scan(""));
    MovesToIs(sql);
    assert ["USE"] + (["SCHEMA"] + ([x] + [])) == ["USE", "SCHEMA", x];
    assert |Upper("SCHEMA")| == 6;
  }

  lemma NothingLater(ts: seq<string>)
    requires ";" !in ts
    ensures Later(ts) == None
  {
    Own.OneStatement(ts);
    assert [ts][1..] == [];
  }

  /** A single statement that opens with another word moves nothing. */
  lemma OtherWord(w: string, rest: string)
    requires IsWord(w) && Upper(w) != "USE" && ";" !in Scan(w + rest)
    requires rest == "" || rest[0] == ' '
    ensures MovesTo(w + rest) == None
  {
    hide Scan, First, Later, Upper, IsWord, TargetOf, Sealed, IsToken, IsTriviaToken;
    var sql := w + rest;
    WordBytes(w);
    NothingLater(Scan(sql));
    MovesToIs(sql);
    if rest == "" {
      assert sql == w + "" == w;
      WordIsToken(w, " ");
      TokenFirst(w, "");
      WordFirst(w, "");
      NothingThere();
      OneMore(w, Scan(""));
    } else {
      assert sql == w + " " + rest[1..];
      WordInFront(w, rest[1..]);
    }
    NoUseFirst(First(Scan(sql)), w);
  }

  lemma WordBytes(w: string)
    requires IsWord(w)
    ensures w != "" && w != ";"
  {
  }

  lemma NoUseFirst(words: seq<string>, w: string)
    requires words != [] && words[0] == w && Upper(w) != "USE"
    ensures TargetOf(words) == None
  {
  }

  lemma OwnWordsMoveNothing()
    ensures forall on: bool :: MovesTo(AutocommitSql(on)) == None
    ensures forall commit: bool :: MovesTo(EndTranSql(commit)) == None
    ensures forall on: bool :: Tracked(AutocommitSql(on)) == Untracked
    ensures forall commit: bool :: Tracked(EndTranSql(commit)) == Untracked
  {
    hide Scan, MovesTo, Tracked;
    forall on: bool ensures MovesTo(AutocommitSql(on)) == None && Tracked(AutocommitSql(on)) == Untracked {
      ModeMovesNothing(AutocommitSql(on));
    }
    EndsMoveNothing();
  }

  lemma ModeMovesNothing(sql: string)
    requires sql == AUTOCOMMIT_ON || sql == AUTOCOMMIT_OFF
    ensures MovesTo(sql) == None && Tracked(sql) == Untracked
  {
    hide Scan, MovesTo, AUTOCOMMIT_ON, AUTOCOMMIT_OFF, Plain;
    Own.ModeIsNoted(sql);
    Own.ModeText(sql);
    AlterFirst(sql);
    OtherWord("ALTER", sql[5..]);
    NoUse(sql);
  }

  lemma AlterFirst(sql: string)
    requires |sql| > 14 && sql[..14] == "ALTER SESSION "
    ensures sql == "ALTER" + sql[5..] && sql[5] == ' '
    ensures IsWord("ALTER") && Upper("ALTER") != "USE"
  {
    assert sql[..14][..5] == "ALTER" && sql[..14][5] == ' ';
    assert |Upper("ALTER")| == 5;
  }

  lemma EndsMoveNothing()
    ensures MovesTo("COMMIT") == None && MovesTo("ROLLBACK") == None
    ensures Tracked("COMMIT") == Untracked && Tracked("ROLLBACK") == Untracked
  {
    hide Scan, MovesTo;
    assert "COMMIT" == "COMMIT" + "" && "ROLLBACK" == "ROLLBACK" + "";
    assert |Upper("COMMIT")| == 6 && |Upper("ROLLBACK")| == 8;
    PlainHoldsNeither("COMMIT");
    PlainHoldsNeither("ROLLBACK");
    OtherWord("COMMIT", "");
    OtherWord("ROLLBACK", "");
    NoUse("COMMIT");
    NoUse("ROLLBACK");
  }

  lemma NoUse(sql: string)
    requires sql != "" && sql[0] in {'A', 'C', 'R'}
    ensures Tracked(sql) == Untracked
  {
    hide DropTrailers, DropSpaces, TrackedName;
    assert DropLeading4(sql) == sql;
    if |sql| >= 13 { assert Upper(sql[..13])[0] == sql[0]; }
    if |sql| >= 11 { assert Upper(sql[..11])[0] == sql[0]; }
    assert Upper("USE DATABASE ")[0] == 'U' && Upper("USE SCHEMA ")[0] == 'U';
  }

  // One post

  lemma WherePost(t: Trace, r: Request, a: Answer, attrs: Attrs)
    requires Keeps(Post(r, a, attrs)) && (r.session.None? ==> Where(t) == None)
    ensures Where(t + [Post(r, a, attrs)])
            == if a.Failed? then Where(t) else if Gone(r, a) then None
               else if a.success && MovesTo(r.sql).Some? then MovesTo(r.sql) else Where(t)
  {
    hide MovesTo;
    History.LastEvent(t, Post(r, a, attrs));
  }

  /** What a post does to the session's place: nothing where no answer came, nowhere where the session was gone,
      and otherwise what its statements say. */
  lemma PostMoves(c: Conn, net: Net, sql: string, count: int, purpose: Purpose)
    requires c.session.None? ==> Where(c.trace) == None
    requires AllKeep(PostOnce(c, net, sql, count, purpose).0.trace)
    ensures var (c1, p) := PostOnce(c, net, sql, count, purpose);
            && c1.(session := c.session, support := c.support, trace := c.trace) == c
            && (p.WasGone? ==> Where(c1.trace) == None)
            && (p.NoAnswer? ==> c1.session == c.session && Where(c1.trace) == Where(c.trace))
            && (p.Got? ==> c1.session.Some? && Where(c1.trace)
                           == if p.success && MovesTo(sql).Some? then MovesTo(sql) else Where(c.trace))
  {
    hide MovesTo, Where;
    var r := RequestOf(c, sql, count, purpose);
    var e := Post(r, net(c.trace, r), c.attrs);
    assert PostOnce(c, net, sql, count, purpose).0.trace == c.trace + [e];
    assert e in c.trace + [e];
    assert Keeps(e);
    WherePost(c.trace, r, net(c.trace, r), c.attrs);
  }

  // Traces only grow

  lemma PostExtends(c: Conn, net: Net, sql: string, count: int, purpose: Purpose)
    ensures c.trace <= PostOnce(c, net, sql, count, purpose).0.trace
  {
  }

  lemma PutScopeExtends(c: Conn, net: Net, scope: seq<string>, i: nat, restarted: bool)
    requires i <= |scope|
    ensures c.trace <= PutScope(c, net, scope, i, restarted).0.trace
    decreases !restarted, |scope| - i
  {
    hide PostOnce;
    if i < |scope| {
      PostExtends(c, net, scope[i], -1, Scope);
      var (c1, p) := PostOnce(c, net, scope[i], -1, Scope);
      if p.Got? && p.success {
        PutScopeExtends(c1, net, scope, i + 1, restarted);
      } else if p.WasGone? && !restarted {
        PutScopeExtends(LoseSession(c1).0, net, scope, 0, true);
      }
    }
  }

  lemma ResendExtends(c: Conn, net: Net, sql: string, count: int, tracked: bool)
    ensures c.trace <= ApplyScope(c, net).0.trace <= Resend(c, net, sql, count, tracked).0.trace
  {
    hide PostOnce, PutScope;
    PutScopeExtends(c, net, ScopeOf(c.attrs), 0, false);
    PostExtends(ApplyScope(c, net).0, net, sql, count, PurposeOf(tracked));
  }

  lemma SendExtends(c: Conn, net: Net, sql: string, count: int, tracked: bool, recover: bool)
    ensures c.trace <= PostOnce(c, net, sql, count, PurposeOf(tracked)).0.trace
                    <= Send(c, net, sql, count, tracked, recover).0.trace
  {
    hide PostOnce, Resend;
    PostExtends(c, net, sql, count, PurposeOf(tracked));
    ResendExtends(LoseSession(PostOnce(c, net, sql, count, PurposeOf(tracked)).0).0, net, sql, count, tracked);
  }

  lemma ExecuteExtends(c: Conn, net: Net, sql: string, count: int, tracked: bool, recover: bool)
    ensures c.trace <= ExecuteAs(c, net, sql, count, tracked, recover).0.trace
  {
    hide Send, ApplyScope;
    ResendExtends(c, net, sql, count, tracked);
    SendExtends(c, net, sql, count, tracked, recover);
    SendExtends(ApplyScope(c, net).0, net, sql, count, tracked, recover);
  }

  lemma Earlier(t: Trace, u: Trace)
    requires AllKeep(u) && t <= u
    ensures AllKeep(t)
  {
    forall e | e in t ensures Keeps(e) { assert e in u; }
  }

  // The scope

  lemma ScopeItem(attrs: Attrs, i: nat)
    requires i < |ScopeOf(attrs)|
    ensures MovesTo(ScopeOf(attrs)[i]) == if i == 0 then ScopedTo(attrs) else None
  {
    hide MovesTo, UseDatabase, UseSchema, Denoted, AUTOCOMMIT_OFF;
    ModeMovesNothing(AUTOCOMMIT_OFF);
    if Named(attrs.scopeDatabase) { ScopeStatementsMove(attrs.scopeDatabase.value); }
    if Named(attrs.scopeSchema) { ScopeStatementsMove(attrs.scopeSchema.value); }
  }

  /** Putting the scope on keeps a connection in place, and a scope that is on put the session where it says. */
  lemma PutScopeInPlace(c: Conn, net: Net, i: nat, restarted: bool)
    requires i <= |ScopeOf(c.attrs)| && c.pending && InPlace(c)
    requires i > 0 ==> Where(c.trace) == ScopedTo(c.attrs)
    requires AllKeep(PutScope(c, net, ScopeOf(c.attrs), i, restarted).0.trace)
    ensures var (c1, s) := PutScope(c, net, ScopeOf(c.attrs), i, restarted);
            c1.pending && InPlace(c1) && (s.ScopeOn? ==> Where(c1.trace) == ScopedTo(c.attrs))
    decreases !restarted, |ScopeOf(c.attrs)| - i
  {
    hide PostOnce, Where, MovesTo, ScopeOf, Denoted, AllKeep;
    var scope := ScopeOf(c.attrs);
    if i == |scope| {
      if i == 0 { EmptyScope(c.attrs); }
    } else {
      var (c1, p) := PostOnce(c, net, scope[i], -1, Scope);
      var last := PutScope(c, net, scope, i, restarted).0.trace;
      PutScopeStart(c, net, scope, i, restarted);
      Earlier(c1.trace, last);
      PostMoves(c, net, scope[i], -1, Scope);
      ScopeItem(c.attrs, i);
      if p.Got? && p.success {
        PutScopeInPlace(c1, net, i + 1, restarted);
      } else if p.WasGone? && !restarted && LoseSession(c1).1.None? {
        PutScopeInPlace(LoseSession(c1).0, net, 0, true);
      }
    }
  }

  lemma EmptyScope(attrs: Attrs)
    requires ScopeOf(attrs) == []
    ensures !Named(attrs.scopeDatabase)
  {
  }

  lemma PutScopeStart(c: Conn, net: Net, scope: seq<string>, i: nat, restarted: bool)
    requires i < |scope|
    ensures PostOnce(c, net, scope[i], -1, Scope).0.trace <= PutScope(c, net, scope, i, restarted).0.trace
  {
    hide PostOnce;
    var (c1, p) := PostOnce(c, net, scope[i], -1, Scope);
    PutScopeExtends(c1, net, scope, i + 1, restarted);
    PutScopeExtends(LoseSession(c1).0, net, scope, 0, true);
  }

  lemma ApplyScopeInPlace(c: Conn, net: Net)
    requires c.pending && InPlace(c) && AllKeep(ApplyScope(c, net).0.trace)
    ensures var (c1, s) := ApplyScope(c, net); InPlace(c1) && (c1.pending <==> !s.ScopeOn?)
  {
    hide PutScope, Where, MovesTo, ScopeOf, Denoted, AllKeep;
    PutScopeInPlace(c, net, 0, false);
  }

  // Statements

  /** After a statement that was answered, before the catalog is tracked. */
  predicate Placed(c: Conn, sql: string, success: bool) {
    && c.connected && !c.pending && c.session.Some?
    && (c.attrs.scopeDatabase.Some? ==> Named(c.attrs.scopeDatabase))
    && (if success && MovesTo(sql).Some? then Where(c.trace) == MovesTo(sql)
        else Shows(c.database, c.attrs, Where(c.trace)))
  }

  lemma LastPost(c: Conn, net: Net, sql: string, count: int, tracked: bool)
    requires InPlace(c) && !c.pending
    requires AllKeep(PostOnce(c, net, sql, count, PurposeOf(tracked)).0.trace)
    ensures var (c1, p) := PostOnce(c, net, sql, count, PurposeOf(tracked));
            && (p.WasGone? ==> InPlace(Forget(c1)) && Forget(c1).pending && LoseSession(c1).0 == Forget(c1))
            && (!p.WasGone? ==>
                 var (c2, o) := Finish(c1, p, sql, tracked);
                 && (o.Answered? ==> Placed(c2, sql, o.success))
                 && (!o.Answered? ==> InPlace(c2)))
  {
    hide PostOnce, Where, MovesTo, SessionNote.Note, AllKeep;
    PostMoves(c, net, sql, count, PurposeOf(tracked));
  }

  lemma ResendInPlace(c: Conn, net: Net, sql: string, count: int, tracked: bool)
    requires c.pending && InPlace(c) && AllKeep(Resend(c, net, sql, count, tracked).0.trace)
    ensures var (c1, o) := Resend(c, net, sql, count, tracked);
            && (o.Answered? ==> Placed(c1, sql, o.success))
            && (!o.Answered? ==> InPlace(c1))
  {
    hide PostOnce, ApplyScope, InPlace, Placed, AllKeep, Finish, Forget;
    ResendExtends(c, net, sql, count, tracked);
    Earlier(ApplyScope(c, net).0.trace, Resend(c, net, sql, count, tracked).0.trace);
    ApplyScopeInPlace(c, net);
    var (c1, s) := ApplyScope(c, net);
    if s.ScopeOn? {
      FinishTrace(c1, net, sql, count, tracked);
      LastPost(c1, net, sql, count, tracked);
    }
  }

  lemma FinishTrace(c: Conn, net: Net, sql: string, count: int, tracked: bool)
    ensures var (c1, p) := PostOnce(c, net, sql, count, PurposeOf(tracked));
            Forget(c1).trace == c1.trace && (!p.WasGone? ==> Finish(c1, p, sql, tracked).0.trace == c1.trace)
  {
    hide PostOnce;
  }

  lemma SendInPlace(c: Conn, net: Net, sql: string, count: int, tracked: bool)
    requires !c.pending && InPlace(c) && AllKeep(Send(c, net, sql, count, tracked, true).0.trace)
    ensures var (c1, o) := Send(c, net, sql, count, tracked, true);
            && (o.Answered? ==> Placed(c1, sql, o.success))
            && (!o.Answered? ==> InPlace(c1))
  {
    hide PostOnce, Resend, InPlace, Placed, AllKeep, Finish, Forget;
    SendExtends(c, net, sql, count, tracked, true);
    var (c1, p) := PostOnce(c, net, sql, count, PurposeOf(tracked));
    Earlier(c1.trace, Send(c, net, sql, count, tracked, true).0.trace);
    LastPost(c, net, sql, count, tracked);
    if p.WasGone? && LoseSession(c1).1.None? { ResendInPlace(Forget(c1), net, sql, count, tracked); }
  }

  lemma ExecuteInPlace(c: Conn, net: Net, sql: string, count: int, tracked: bool)
    requires InPlace(c) && AllKeep(ExecuteAs(c, net, sql, count, tracked, true).0.trace)
    ensures var (c1, o) := ExecuteAs(c, net, sql, count, tracked, true);
            && (o.Answered? ==> Placed(c1, sql, o.success))
            && (!o.Answered? ==> InPlace(c1))
  {
    hide Send, ApplyScope, InPlace, Placed, AllKeep;
    if !c.pending {
      SendInPlace(c, net, sql, count, tracked);
    } else {
      var (c1, s) := ApplyScope(c, net);
      SendExtends(c1, net, sql, count, tracked, true);
      Earlier(c1.trace, ExecuteAs(c, net, sql, count, tracked, true).0.trace);
      ApplyScopeInPlace(c, net);
      if s.ScopeOn? { SendInPlace(c1, net, sql, count, tracked); }
    }
  }

  // Runs

  /** What the application asks for moves the session where the driver will say it is: a statement is tracked as
      where it leads, or neither, and leads nowhere in other ways; and the attribute is set to a name its own
      statement moves to. */
  predicate IsTrue(op: Op) {
    match op
    case OpRun(sql, _) =>
      && MovesAsRead(sql)
      && if Tracked(sql).Database? then MovesTo(sql) == Some(Tracked(sql).name) else MovesTo(sql) == None
    case OpCatalog(name) => MovesTo(Fit("USE DATABASE " + name, 600)) == Some(name)
    case _ => true
  }

  /** A database created is moved to, as src/session.c has it, and tracking does not see it. */
  lemma CreateIsNotTracked()
    ensures Tracked("CREATE DATABASE B") == Untracked && !MovesAsRead("CREATE DATABASE B")
  {
    hide Scan, SessionNote.LeadingWords, Tracked, SessionNote.MODIFIERS, TargetOf, Significant;
    var sql := "CREATE DATABASE B";
    NoUse(sql);
    var ts := Scan(sql);
    PlainHoldsNeither(sql);
    Own.NotedAlone(CLEAN, sql, true);
    assert ts in SessionNote.Statements(ts) && Concat(ts) == sql;
    CreateWords();
    CreateIsNoUse();
    assert MovesOtherwise(ts);
  }

  lemma CreateWords()
    ensures var words := SessionNote.LeadingWords("CREATE DATABASE B", SessionNote.WORD_LIMIT);
            words != [] && words[0] == "CREATE" && SessionNote.ObjectKind(words) == "DATABASE"
  {
    hide SessionNote.LeadingWords, SessionNote.MODIFIERS;
    assert Upper("CREATE") == "CREATE" && Upper("DATABASE") == "DATABASE";
    assert "CREATE DATABASE B" == "CREATE" + " DATABASE B" && " DATABASE B"[1..] == "DATABASE" + " B";
    Own.FirstWord("CREATE", " DATABASE B", SessionNote.WORD_LIMIT);
    Own.FirstWord("DATABASE", " B", SessionNote.WORD_LIMIT - 1);
    DatabaseIsNoModifier();
    var words := SessionNote.LeadingWords("CREATE DATABASE B", SessionNote.WORD_LIMIT);
    assert words[1] == "DATABASE" && SessionNote.Modifiers(words[1..]) == [];
  }

  lemma DatabaseIsNoModifier()
    ensures "DATABASE" !in SessionNote.MODIFIERS
  {
  }

  lemma CreateIsNoUse()
    ensures TargetOf(Significant(Scan("CREATE DATABASE B"))) == None
  {
    hide Scan, SessionNote.Statements;
    var sql := "CREATE DATABASE B";
    PlainHoldsNeither(sql);
    assert sql == "CREATE" + " DATABASE B" && |Upper("CREATE")| == 6;
    OtherWord("CREATE", " DATABASE B");
    Own.OneStatement(Scan(sql));
    assert [Scan(sql)][1..] == [];
  }

  lemma StepInPlace(c: Conn, net: Net, op: Op)
    requires InPlace(c) && AllKeep(Step(c, net, op).trace)
    requires TransparentRuns.IsCall(op) && IsTrue(op)
    ensures InPlace(Step(c, net, op))
  {
    hide ExecuteAs, Tracked, MovesTo, Where, Denoted, AUTOCOMMIT_ON, AUTOCOMMIT_OFF, Fit, AllKeep;
    OwnWordsMoveNothing();
    match op
    case OpRun(sql, count) => ExecuteInPlace(c, net, sql, count, true);
    case OpEndTran(commit) => ExecuteInPlace(c, net, EndTranSql(commit), -1, true);
    case OpAutocommit(on) =>
      if on != c.attrs.autocommit { ExecuteInPlace(c, net, AutocommitSql(on), -1, false); }
    case OpCatalog(name) => ExecuteInPlace(c, net, Fit("USE DATABASE " + name, 600), -1, true);
    case _ =>
  }

  lemma StepExtends(c: Conn, net: Net, op: Op)
    requires TransparentRuns.IsCall(op)
    ensures c.trace <= Step(c, net, op).trace
  {
    hide Tracked, Fit, ExecuteAs, AUTOCOMMIT_ON, AUTOCOMMIT_OFF;
    match op
    case OpRun(sql, count) => ExecuteExtends(c, net, sql, count, true, true);
    case OpEndTran(commit) => ExecuteExtends(c, net, EndTranSql(commit), -1, true, true);
    case OpAutocommit(on) => ExecuteExtends(c, net, AutocommitSql(on), -1, false, true);
    case OpCatalog(name) => ExecuteExtends(c, net, Fit("USE DATABASE " + name, 600), -1, true, true);
    case _ =>
  }

  lemma {:induction false} RunExtends(c: Conn, net: Net, ops: seq<Op>)
    requires forall op <- ops :: TransparentRuns.IsCall(op)
    ensures c.trace <= Run(c, net, ops).trace
    decreases ops
  {
    hide Step;
    if ops != [] {
      StepExtends(c, net, ops[0]);
      RunExtends(Step(c, net, ops[0]), net, ops[1..]);
    }
  }

  /** At every point of every run, whatever the network loses, refuses or fails to deliver, the database shown
      is the one the session is in, or, while a scope is pending, the one it goes on before anything else runs:
      as long as sessions are kept or refused, and each call moves the session where the driver says. */
  lemma {:induction false} ShownIsWhereItRuns(c: Conn, net: Net, ops: seq<Op>)
    requires InPlace(c) && AllKeep(Run(c, net, ops).trace)
    requires forall op <- ops :: TransparentRuns.IsCall(op) && IsTrue(op)
    ensures InPlace(Run(c, net, ops))
    decreases ops
  {
    hide Step, InPlace, AllKeep, IsTrue;
    if ops != [] {
      RunExtends(Step(c, net, ops[0]), net, ops[1..]);
      Earlier(Step(c, net, ops[0]).trace, Run(c, net, ops).trace);
      StepInPlace(c, net, ops[0]);
      ShownIsWhereItRuns(Step(c, net, ops[0]), net, ops[1..]);
    }
  }

  // Where a run starts

  lemma OpenedWith(c: Conn, net: Net, sql: string)
    requires c.connected && !c.pending && (c.session.None? ==> Where(c.trace) == None)
    requires Succeeded(OpenWith(c, net, sql).1) && AllKeep(OpenWith(c, net, sql).0.trace)
    ensures var c1 := OpenWith(c, net, sql).0;
            && c1.(session := c.session, support := c.support, trace := c.trace) == c
            && c1.session.Some? && Where(c1.trace) == if MovesTo(sql).Some? then MovesTo(sql) else Where(c.trace)
  {
    hide PostOnce, Where, MovesTo, SessionNote.Note, AllKeep, LoseSession;
    SendExtends(c, net, sql, -1, false, false);
    var (c1, p) := PostOnce(c, net, sql, -1, Driver);
    assert OpenWith(c, net, sql).0 == Send(c, net, sql, -1, false, false).0;
    Earlier(c1.trace, Send(c, net, sql, -1, false, false).0.trace);
    PostMoves(c, net, sql, -1, Driver);
  }

  lemma OpenWithExtends(c: Conn, net: Net, sql: string)
    requires Succeeded(OpenWith(c, net, sql).1)
    ensures c.trace <= OpenWith(c, net, sql).0.trace && OpenWith(c, net, sql).0.attrs == c.attrs
  {
    hide ExecuteAs;
    ExecuteExtends(c, net, sql, -1, false, false);
  }

  /** Besides the session, the schema and the trace, what the later steps of a connect leave alone. */
  lemma SchemaStep(c: Conn, net: Net)
    requires c.connected && !c.pending && (c.session.None? ==> Where(c.trace) == None)
    requires ConnectSchema(c, net).1.Done? && AllKeep(ConnectSchema(c, net).0.trace)
    ensures var c1 := ConnectSchema(c, net).0;
            && c1.(session := c.session, support := c.support, trace := c.trace, schema := c.schema) == c
            && (c1.session.None? ==> Where(c1.trace) == None)
            && Where(c1.trace) == Where(c.trace) && c.trace <= c1.trace
  {
    hide OpenWith, UseSchema, MovesTo, Where, AllKeep, AUTOCOMMIT_OFF;
    if Named(c.attrs.scopeSchema) {
      var name := c.attrs.scopeSchema.value;
      ScopeStatementsMove(name);
      var (d, o) := OpenWith(c, net, UseSchema(name));
      OpenWithExtends(c, net, UseSchema(name));
      ModeExtends(c, net);
      Earlier(d.trace, ConnectSchema(c, net).0.trace);
      OpenedWith(c, net, UseSchema(name));
      ModeStep(d.(schema := d.attrs.scopeSchema), net);
    } else {
      ModeStep(c, net);
    }
  }

  lemma ModeStep(c: Conn, net: Net)
    requires c.connected && !c.pending && (c.session.None? ==> Where(c.trace) == None)
    requires ConnectAutocommit(c, net).1.Done? && AllKeep(ConnectAutocommit(c, net).0.trace)
    ensures var c1 := ConnectAutocommit(c, net).0;
            && c1.(session := c.session, support := c.support, trace := c.trace) == c
            && (c1.session.None? ==> Where(c1.trace) == None)
            && Where(c1.trace) == Where(c.trace) && c.trace <= c1.trace
  {
    hide OpenWith, MovesTo, Where, AllKeep, AUTOCOMMIT_OFF;
    if !c.attrs.autocommit {
      ModeMovesNothing(AUTOCOMMIT_OFF);
      OpenedWith(c, net, AUTOCOMMIT_OFF);
      OpenWithExtends(c, net, AUTOCOMMIT_OFF);
    }
  }

  lemma ModeExtends(c: Conn, net: Net)
    requires Named(c.attrs.scopeSchema) && ConnectSchema(c, net).1.Done?
    ensures var (d, o) := OpenWith(c, net, UseSchema(c.attrs.scopeSchema.value));
            Succeeded(o) && c.trace <= d.trace <= ConnectSchema(c, net).0.trace
  {
    hide OpenWith, UseSchema, AUTOCOMMIT_OFF;
    OpenWithExtends(c, net, UseSchema(c.attrs.scopeSchema.value));
    var d := OpenWith(c, net, UseSchema(c.attrs.scopeSchema.value)).0;
    if !c.attrs.autocommit { OpenWithExtends(d.(schema := d.attrs.scopeSchema), net, AUTOCOMMIT_OFF); }
  }

  lemma SchemaExtends(c: Conn, net: Net)
    requires ConnectSchema(c, net).1.Done?
    ensures c.trace <= ConnectSchema(c, net).0.trace
  {
    hide OpenWith, UseSchema, AUTOCOMMIT_OFF;
    if Named(c.attrs.scopeSchema) { ModeExtends(c, net); }
    else if !c.attrs.autocommit { OpenWithExtends(c, net, AUTOCOMMIT_OFF); }
  }

  /** A connection comes up showing where its session is exactly when it was opened on a database or no name was
      left over: a catalog set before the connect, or shown on an earlier one, is shown and never sent. */
  lemma {:induction false} ConnectInPlace(c: Conn, net: Net, database: Option<string>, schema: Option<string>)
    requires !c.connected && Connect(c, net, true, database, schema).1.Done?
    requires AllKeep(Connect(c, net, true, database, schema).0.trace)
    ensures InPlace(Connect(c, net, true, database, schema).0) <==> Named(database) || c.database.None?
  {
    hide OpenWith, UseDatabase, MovesTo, Where, AllKeep, ConnectSchema, Denoted;
    var d := Protocol.Opening(c, database, schema);
    History.LastEvent(c.trace, Opened);
    OpenedNowhere(c.trace);
    if Named(database) {
      var name := database.value;
      ScopeStatementsMove(name);
      var e := OpenWith(d, net, UseDatabase(name)).0;
      SchemaExtends(e.(database := e.attrs.scopeDatabase), net);
      Earlier(e.trace, Connect(c, net, true, database, schema).0.trace);
      OpenedWith(d, net, UseDatabase(name));
      SchemaStep(e.(database := e.attrs.scopeDatabase), net);
    } else {
      SchemaStep(d, net);
    }
  }

  lemma OpenedNowhere(t: Trace)
    ensures Where(t + [Opened]) == None
  {
    History.LastEvent(t, Opened);
  }

  // A session replaced under a USE

  /** Kept, and not refused. */
  predicate AllHeld(t: Trace) {
    forall e <- t :: Keeps(e) && (e.Post? ==> !Gone(e.request, e.answer))
  }

  lemma PutScopeHolds(c: Conn, net: Net, i: nat)
    requires i <= |ScopeOf(c.attrs)| && (c.session.None? ==> Where(c.trace) == None)
    requires var (c1, s) := PutScope(c, net, ScopeOf(c.attrs), i, false);
             s.ScopeOn? && c.trace <= c1.trace && AllHeld(c1.trace[|c.trace|..])
    ensures var (c1, s) := PutScope(c, net, ScopeOf(c.attrs), i, false);
            && c1.database == c.database
            && Where(c1.trace) == if i == 0 && Named(c.attrs.scopeDatabase) then ScopedTo(c.attrs) else Where(c.trace)
    decreases |ScopeOf(c.attrs)| - i
  {
    hide PostOnce, Where, MovesTo, ScopeOf, Denoted;
    var scope := ScopeOf(c.attrs);
    if i == |scope| {
      if i == 0 { EmptyScope(c.attrs); }
    } else {
      var (c1, p) := PostOnce(c, net, scope[i], -1, Scope);
      var last := PutScope(c, net, scope, i, false).0.trace;
      PutScopeStart(c, net, scope, i, false);
      PostHolds(c, net, scope[i], last);
      ScopeItem(c.attrs, i);
      assert last[|c1.trace|..] == last[|c.trace|..][1..];
      PutScopeHolds(c1, net, i + 1);
    }
  }

  lemma PostHolds(c: Conn, net: Net, sql: string, last: Trace)
    requires c.session.None? ==> Where(c.trace) == None
    requires var c1 := PostOnce(c, net, sql, -1, Scope).0;
             c1.trace <= last && c.trace <= last && AllHeld(last[|c.trace|..])
    ensures var (c1, p) := PostOnce(c, net, sql, -1, Scope);
            && !p.WasGone? && |c1.trace| == |c.trace| + 1
            && (p.Got? ==> c1.(session := c.session, support := c.support, trace := c.trace) == c && c1.session.Some?)
            && (p.Got? && p.success ==>
                  Where(c1.trace) == if MovesTo(sql).Some? then MovesTo(sql) else Where(c.trace))
  {
    hide Where, MovesTo;
    var r := RequestOf(c, sql, -1, Scope);
    var e := Post(r, net(c.trace, r), c.attrs);
    var c1 := PostOnce(c, net, sql, -1, Scope).0;
    assert c1.trace == c.trace + [e];
    assert last[|c.trace|..][0] == last[|c.trace|] == c1.trace[|c.trace|] == e;
    assert Keeps(e) && !Gone(r, e.answer);
    WherePost(c.trace, r, net(c.trace, r), c.attrs);
  }

  /** A USE the engine answers from a fresh session in place of the one it was sent is shown, and leaves the scope
      pending. The next statement runs behind the scope, and the name stays: it is where that statement runs
      exactly when the scope names no database, or the same one. */
  lemma {:induction false} ReplacedUse(c: Conn, net: Net, name: string, count: int)
    requires c.connected && !c.pending && name != ""
    requires var r := RequestOf(c, UseDatabase(name), count, App);
             var a := net(c.trace, r);
             a.Reply? && a.success && Replaces(r, a)
    ensures var (c1, o) := RunSql(c, net, UseDatabase(name), count);
            var (c2, s) := ApplyScope(c1, net);
            && Succeeded(o) && c1.pending && c1.attrs == c.attrs
            && c1.database == Some(Denoted(name)) == Where(c1.trace)
            && c1.trace <= c2.trace
            && (s.ScopeOn? && AllHeld(c2.trace[|c1.trace|..]) ==>
                 && c2.database == Some(Denoted(name))
                 && (c2.database == Where(c2.trace) <==>
                       !Named(c.attrs.scopeDatabase) || Denoted(c.attrs.scopeDatabase.value) == Denoted(name)))
  {
    hide UseDatabase, MovesTo, Where, Denoted, PutScope, Tracked, SessionNote.Note, AllHeld;
    Own.UseIsNoted(name);
    ScopeStatementsMove(name);
    var r := RequestOf(c, UseDatabase(name), count, App);
    ReplacedPost(c.trace, r, net(c.trace, r), c.attrs);
    var c1 := RunSql(c, net, UseDatabase(name), count).0;
    var (c2, s) := ApplyScope(c1, net);
    PutScopeExtends(c1, net, ScopeOf(c1.attrs), 0, false);
    if s.ScopeOn? && AllHeld(c2.trace[|c1.trace|..]) { PutScopeHolds(c1, net, 0); }
  }

  lemma ReplacedPost(t: Trace, r: Request, a: Answer, attrs: Attrs)
    requires a.Reply? && a.success && Replaces(r, a) && MovesTo(r.sql).Some?
    ensures Where(t + [Post(r, a, attrs)]) == MovesTo(r.sql)
  {
    hide MovesTo;
    History.LastEvent(t, Post(r, a, attrs));
  }
}
