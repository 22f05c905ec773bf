/** Loss transparency over whole runs of calls on an open connection (src/proto.c, src/connect.c). */
module TransparentRuns {
  import opened Text
  import opened Protocol
  import opened Calls
  import opened Transparency
  import History
  import SessionNote
  import Identifiers
  import Scanner

  // What a call leaves behind

  lemma StatementEffect<C(!new), T(!new), D(!new)>(
      sem: Semantics<C, T, D>, book: Book, attrs: Attrs, i: Ideal<C, T, D>, sql: string, count: int)
    requires Lawful(sem)
    requires Vouched(sem, book, attrs, i)
    ensures var f := sem.run(sql, count, i.session, i.db);
            var next := if f.ok then SessionNote.Note(book, sql, attrs.autocommit) else book;
            Vouched(sem, next, attrs, Ideal(f.session, f.db))
  {
    hide Base, SessionNote.Note, OwnStatementsMove;
    var f := sem.run(sql, count, i.session, i.db);
    if f.ok {
      if book.dirty {
        NoteStaysDirty(book, sql, attrs.autocommit);
      } else {
        BaseMode(sem, attrs);
        assert book == SessionNote.Book(false, book.inTransaction);
      }
    }
  }

  lemma NoteStaysDirty(book: Book, sql: string, autocommit: bool)
    requires book.dirty
    ensures SessionNote.Note(book, sql, autocommit).dirty
  {
    SessionNote.DirtyStays(book, SessionNote.Statements(Scanner.Scan(sql)), autocommit);
  }

  lemma MirrorEffect<C(!new), T(!new), D(!new)>(
      sem: Semantics<C, T, D>, book: Book, attrs: Attrs, i: Ideal<C, T, D>, on: bool)
    requires Lawful(sem)
    requires Vouched(sem, book, attrs, i) && on != attrs.autocommit
    ensures var f := sem.run(AutocommitSql(on), -1, i.session, i.db);
            Vouched(sem, book, if f.ok then attrs.(autocommit := on) else attrs, Ideal(f.session, f.db))
  {
    hide Base, UnflaggedKeepContext, UnflaggedLeaveNoTransaction, IsUse;
    BaseMode(sem, attrs);
    assert IsOwn(AutocommitSql(on));
  }

  // Calls

  /** The statement a call comes down to, and whether it is the application's. */
  datatype Statement = Statement(sql: string, count: int, tracked: bool)

  function StatementOf(c: Conn, op: Op): Option<Statement> {
    match op
    case OpRun(sql, count) => Some(Statement(sql, count, true))
    case OpEndTran(commit) => Some(Statement(EndTranSql(commit), -1, true))
    case OpAutocommit(on) =>
      if on != c.attrs.autocommit then Some(Statement(AutocommitSql(on), -1, false)) else None
    case OpCatalog(name) => Some(Statement(Fit("USE DATABASE " + name, 600), -1, true))
    case OpConnect(_, _, _) | OpDisconnect => None
  }

  predicate IsCall(op: Op) {
    !op.OpConnect? && !op.OpDisconnect?
  }

  /** What the application is told. */
  function OutcomeOf(c: Conn, net: Net, s: Statement): Outcome {
    ExecuteAs(c, net, s.sql, s.count, s.tracked, true).1
  }

  /** One call is explained by the ideal session, and leaves the connection in step with it. */
  lemma CallIdeal<C(!new), T(!new), D(!new)>(
      sem: Semantics<C, T, D>, start: Engine<C, T, D>, chances: nat -> Chance,
      c: Conn, net: Net, op: Op, ideal: Ideal<C, T, D>)
    requires Backed(net, sem, start, chances) && Lawful(sem)
    requires InStep(sem, c, After(sem, start, chances, c.trace), ideal)
    requires IsCall(op)
    ensures var s := StatementOf(c, op);
            var c1 := Step(c, net, op);
            var e1 := After(sem, start, chances, c1.trace);
            && (s.None? ==> InStep(sem, c1, e1, ideal))
            && (s.Some? ==>
                 var o := OutcomeOf(c, net, s.value);
                 && Explains(sem, c, ideal, s.value.sql, s.value.count, o)
                 && InStep(sem, c1, e1, Next(sem, c.attrs, ideal, s.value.sql, s.value.count, o)))
  {
    hide After, Backed, ScopeOf, ScopeRefusedBy, Lawful, Move, Base, SessionNote.Note, ExecuteAs,
      Identifiers.Tracked, Fit, AUTOCOMMIT_ON, AUTOCOMMIT_OFF;
    var s := StatementOf(c, op);
    if s.None? {
      assert c.attrs.(autocommit := op.on) == c.attrs;
    } else {
      var (sql, count, tracked) := (s.value.sql, s.value.count, s.value.tracked);
      ExecuteIdeal(sem, start, chances, c, net, sql, count, tracked, ideal);
      var (c1, o) := ExecuteAs(c, net, sql, count, tracked, true);
      if o.Answered? {
        if op.OpAutocommit? {
          MirrorEffect(sem, c.book, c.attrs, ideal, op.on);
        } else {
          StatementEffect(sem, c.book, c.attrs, ideal, sql, count);
        }
      }
    }
  }

  // Runs

  /** Every call of the run, explained by the ideal session as the earlier calls left it. A session
      reported lost again was lost at least twice within the call. */
  ghost predicate TransparentRun<C(!new), T(!new), D(!new)>(
      sem: Semantics<C, T, D>, c: Conn, net: Net, ops: seq<Op>, ideal: Ideal<C, T, D>)
    decreases ops
  {
    ops == [] ||
    var s, c1 := StatementOf(c, ops[0]), Step(c, net, ops[0]);
    if s.None? then TransparentRun(sem, c1, net, ops[1..], ideal)
    else
      var o := OutcomeOf(c, net, s.value);
      && Explains(sem, c, ideal, s.value.sql, s.value.count, o)
      && c.trace <= c1.trace
      && (o == Lost(LostAgain) ==> Losses(c1.trace[|c.trace|..]) >= 2)
      && TransparentRun(sem, c1, net, ops[1..], Next(sem, c.attrs, ideal, s.value.sql, s.value.count, o))
  }

  /** The ideal session after the run. */
  ghost function IdealAfter<C, T, D>(
      sem: Semantics<C, T, D>, c: Conn, net: Net, ops: seq<Op>, ideal: Ideal<C, T, D>): Ideal<C, T, D>
    decreases ops
  {
    if ops == [] then ideal
    else
      var s, c1 := StatementOf(c, ops[0]), Step(c, net, ops[0]);
      IdealAfter(sem, c1, net, ops[1..],
                 if s.None? then ideal
                 else Next(sem, c.attrs, ideal, s.value.sql, s.value.count, OutcomeOf(c, net, s.value)))
  }

  lemma StepTrace(c: Conn, net: Net, op: Op, s: Statement)
    requires c.connected && IsCall(op) && StatementOf(c, op) == Some(s)
    ensures Step(c, net, op).trace == ExecuteAs(c, net, s.sql, s.count, s.tracked, true).0.trace
  {
    hide ExecuteAs, Identifiers.Tracked;
  }

  /** Loss transparency: for every sequence of calls and every schedule of lost sessions, each call
      gives the answer the statement has on a session that never goes away, or reports why the
      statement did not run: a transaction or a context the lost session held, a scope the engine
      refuses, or a second loss within the call. The committed database is the ideal one throughout. */
  lemma {:induction false} LossIsTransparent<C(!new), T(!new), D(!new)>(
      sem: Semantics<C, T, D>, start: Engine<C, T, D>, chances: nat -> Chance,
      c: Conn, net: Net, ops: seq<Op>, ideal: Ideal<C, T, D>)
    requires Backed(net, sem, start, chances) && Lawful(sem)
    requires InStep(sem, c, After(sem, start, chances, c.trace), ideal)
    requires forall op <- ops :: IsCall(op)
    ensures TransparentRun(sem, c, net, ops, ideal)
    ensures var c1 := Run(c, net, ops);
            InStep(sem, c1, After(sem, start, chances, c1.trace), IdealAfter(sem, c, net, ops, ideal))
    decreases ops
  {
    hide After, Backed, Lawful, InStep, ExecuteAs, Step, Explains, Next, StatementOf, Losses;
    if ops != [] {
      var op := ops[0];
      CallIdeal(sem, start, chances, c, net, op, ideal);
      var s, c1 := StatementOf(c, op), Step(c, net, op);
      if s.None? {
        LossIsTransparent(sem, start, chances, c1, net, ops[1..], ideal);
      } else {
        var o := OutcomeOf(c, net, s.value);
        InStepConnected(sem, c, After(sem, start, chances, c.trace), ideal);
        StepTrace(c, net, op, s.value);
        var posts := AtMostOnce(c, net, s.value.sql, s.value.count, s.value.tracked, true);
        assert c1.trace[|c.trace|..] == All(posts);
        LossIsTransparent(sem, start, chances, c1, net, ops[1..],
                          Next(sem, c.attrs, ideal, s.value.sql, s.value.count, o));
      }
    }
  }

  lemma InStepConnected<C, T, D>(sem: Semantics<C, T, D>, c: Conn, e: Engine<C, T, D>, i: Ideal<C, T, D>)
    requires InStep(sem, c, e, i)
    ensures c.connected && e.db == i.db
  {
  }

  // Where a run starts

  /** A connection opening: part of the scope on, nothing else. */
  ghost predicate Partway<C, T, D>(sem: Semantics<C, T, D>, c: Conn, e: Engine<C, T, D>, scope: seq<string>, db: D) {
    && c.connected && !c.pending && c.book == CLEAN
    && e.db == db
    && (c.session.None? ==> scope == [])
    && (c.session.Some? ==>
         && c.support.Tracking?
         && (c.session.value in e.sessions ==>
              e.sessions[c.session.value] == Session(Move(sem, scope, sem.blank), None)))
  }

  lemma OpenWithIdeal<C(!new), T(!new), D(!new)>(
      sem: Semantics<C, T, D>, start: Engine<C, T, D>, chances: nat -> Chance,
      c: Conn, net: Net, sql: string, scope: seq<string>, db: D)
    requires Backed(net, sem, start, chances) && Lawful(sem)
    requires Partway(sem, c, After(sem, start, chances, c.trace), scope, db)
    requires IsOwn(sql) && forall x <- scope :: IsUse(x)
    requires Succeeded(OpenWith(c, net, sql).1)
    ensures var c1 := OpenWith(c, net, sql).0;
            && c1.attrs == c.attrs
            && Partway(sem, c1, After(sem, start, chances, c1.trace), scope + [sql], db)
  {
    hide PostOnce, After, Backed, IsOwn, UnflaggedKeepContext, UnflaggedLeaveNoTransaction, MovesCompose,
      RefusalsKeepContext, SessionNote.Note;
    PostServed(sem, start, chances, c, net, sql, -1, Driver);
    MoveAppend(sem, scope, sql, sem.blank);
    UsesKeepAutocommit(sem, scope, sem.blank);
    BlankCommits(sem);
    var (c1, p) := PostOnce(c, net, sql, -1, Driver);
    assert ExecuteAs(c, net, sql, -1, false, false) == Send(c, net, sql, -1, false, false);
    assert p.Got? && p.success && OpenWith(c, net, sql).0 == c1;
  }

  /** A connection that opened is in step with a session on its scope, over the database as it was. */
  lemma {:induction false} ConnectIsInStep<C(!new), T(!new), D(!new)>(
      sem: Semantics<C, T, D>, start: Engine<C, T, D>, chances: nat -> Chance,
      c: Conn, net: Net, database: Option<string>, schema: Option<string>)
    requires Backed(net, sem, start, chances) && Lawful(sem)
    requires !c.connected && Connect(c, net, true, database, schema).1.Done?
    ensures var c1 := Connect(c, net, true, database, schema).0;
            var db := After(sem, start, chances, c.trace).db;
            InStep(sem, c1, After(sem, start, chances, c1.trace), Ideal(Based(sem, c1.attrs), db))
  {
    hide OpenWith, Backed, UseDatabase, UseSchema, Lawful, ConnectSchema, InStep;
    var db := After(sem, start, chances, c.trace).db;
    History.LastEvent(c.trace, Opened);
    var d := Opening(c, database, schema);
    if Named(d.attrs.scopeDatabase) {
      var sql := UseDatabase(d.attrs.scopeDatabase.value);
      assert IsUse(sql);
      OpenWithIdeal(sem, start, chances, d, net, sql, [], db);
      var c1 := OpenWith(d, net, sql).0;
      assert [] + [sql] == [sql];
      ConnectSchemaInStep(sem, start, chances, c1.(database := c1.attrs.scopeDatabase), net, [sql], db);
    } else {
      ConnectSchemaInStep(sem, start, chances, d, net, [], db);
    }
  }

  lemma ConnectSchemaInStep<C(!new), T(!new), D(!new)>(
      sem: Semantics<C, T, D>, start: Engine<C, T, D>, chances: nat -> Chance,
      c: Conn, net: Net, scope: seq<string>, db: D)
    requires Backed(net, sem, start, chances) && Lawful(sem)
    requires Partway(sem, c, After(sem, start, chances, c.trace), scope, db)
    requires scope == if Named(c.attrs.scopeDatabase) then [UseDatabase(c.attrs.scopeDatabase.value)] else []
    requires ConnectSchema(c, net).1.Done?
    ensures var c1 := ConnectSchema(c, net).0;
            InStep(sem, c1, After(sem, start, chances, c1.trace), Ideal(Based(sem, c1.attrs), db))
  {
    hide OpenWith, After, Backed, UseDatabase, UseSchema, Lawful, InStep, Partway, ConnectAutocommit;
    if Named(c.attrs.scopeSchema) {
      var sql := UseSchema(c.attrs.scopeSchema.value);
      assert IsUse(sql);
      OpenWithIdeal(sem, start, chances, c, net, sql, scope, db);
      var c1 := OpenWith(c, net, sql).0;
      SchemaIsBesides(sem, c1, After(sem, start, chances, c1.trace), scope + [sql], db);
      ConnectAutocommitInStep(sem, start, chances, c1.(schema := c1.attrs.scopeSchema), net, scope + [sql], db);
    } else {
      assert scope + [] == scope;
      ConnectAutocommitInStep(sem, start, chances, c, net, scope, db);
    }
  }

  lemma SchemaIsBesides<C, T, D>(sem: Semantics<C, T, D>, c: Conn, e: Engine<C, T, D>, scope: seq<string>, db: D)
    requires Partway(sem, c, e, scope, db)
    ensures Partway(sem, c.(schema := c.attrs.scopeSchema), e, scope, db)
  {
  }

  lemma ConnectAutocommitInStep<C(!new), T(!new), D(!new)>(
      sem: Semantics<C, T, D>, start: Engine<C, T, D>, chances: nat -> Chance,
      c: Conn, net: Net, scope: seq<string>, db: D)
    requires Backed(net, sem, start, chances) && Lawful(sem)
    requires Partway(sem, c, After(sem, start, chances, c.trace), scope, db)
    requires ScopeOf(c.attrs) == scope + if c.attrs.autocommit then [] else [AUTOCOMMIT_OFF]
    requires forall x <- scope :: IsUse(x)
    requires ConnectAutocommit(c, net).1.Done?
    ensures var c1 := ConnectAutocommit(c, net).0;
            InStep(sem, c1, After(sem, start, chances, c1.trace), Ideal(Based(sem, c1.attrs), db))
  {
    hide OpenWith, After, Backed, Lawful, IsUse, Move;
    if c.attrs.autocommit {
      assert scope + [] == scope;
      BlankIsBase(sem, c.attrs);
    } else {
      OpenWithIdeal(sem, start, chances, c, net, AUTOCOMMIT_OFF, scope, db);
    }
  }
}
