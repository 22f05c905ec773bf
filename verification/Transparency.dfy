/** Losing the session is invisible or reported: whenever and however often the engine drops it, each
    call answers what it would have on a session that never goes away, or reports that its statement
    did not run (src/proto.c, src/session.c).

    What the engine does with a statement stays abstract: `run`, under the laws of Lawful. */
module Transparency {
  import opened Text
  import opened Protocol
  import opened Calls
  import History
  import SessionNote

  // The engine

  /** A session: the context a statement runs in (scope, settings, variables, temporary objects) and
      the transaction open on it. */
  datatype Session<C, T> = Session(context: C, tx: Option<T>)

  datatype Effect<C, T, D> = Effect(ok: bool, body: string, session: Session<C, T>, db: D)

  /** What statements mean. `move` is where the driver's own statements take a context, `autocommit`
      the commit mode of one. */
  datatype Semantics<!C, !T, !D> = Semantics(
    run: (string, int, Session<C, T>, D) -> Effect<C, T, D>,
    move: (string, C) -> C,
    autocommit: C -> bool,
    blank: C)

  /** The sessions the engine holds, and what is committed. */
  datatype Engine<C, T, D> = Engine(sessions: map<string, Session<C, T>>, db: D)

  /** What may happen before a request: any sessions go. A session started for it gets this id. */
  datatype Chance = Chance(dropped: set<string>, newId: string)

  ghost function Serve<C, T, D>(sem: Semantics<C, T, D>, e: Engine<C, T, D>, chance: Chance, r: Request)
    : (Answer, Engine<C, T, D>)
  {
    var held := e.sessions - chance.dropped;
    if r.session.Some? && r.session.value in held then
      var f := sem.run(r.sql, r.count, held[r.session.value], e.db);
      (Reply(200, f.ok, r.session, Some(false), f.body), Engine(held[r.session.value := f.session], f.db))
    else if r.session.Some? && r.require then
      (Reply(404, false, None, None, "the session is not held"), Engine(held, e.db))
    else
      var id := if r.session.Some? then r.session.value else chance.newId;
      var f := sem.run(r.sql, r.count, Session(sem.blank, None), e.db);
      (Reply(200, f.ok, Some(id), Some(true), f.body), Engine(held[id := f.session], f.db))
  }

  /** The engine after everything a connection sent it. */
  ghost function After<C, T, D>(sem: Semantics<C, T, D>, start: Engine<C, T, D>, chances: nat -> Chance, t: Trace)
    : Engine<C, T, D>
  {
    if t == [] then start
    else
      var e := After(sem, start, chances, t[..|t| - 1]);
      match t[|t| - 1]
      case Opened => e
      case Post(r, _, _) => Serve(sem, e, chances(|t| - 1), r).1
      case Closed(deleted) => if deleted.Some? then e.(sessions := e.sessions - {deleted.value}) else e
  }

  /** The network hands every request to that engine and brings back its answer. */
  ghost predicate Backed<C, T, D>(net: Net, sem: Semantics<C, T, D>, start: Engine<C, T, D>, chances: nat -> Chance)
  {
    && (forall t: Trace, r: Request :: net(t, r) == Serve(sem, After(sem, start, chances, t), chances(|t|), r).0)
    && (forall k: nat :: chances(k).newId != "")
  }

  ghost function NetOf<C, T, D>(sem: Semantics<C, T, D>, start: Engine<C, T, D>, chances: nat -> Chance): Net {
    (t: Trace, r: Request) => Serve(sem, After(sem, start, chances, t), chances(|t|), r).0
  }

  /** Every engine, and every schedule of what may happen to its sessions, is behind some network. */
  lemma EveryEngineIsBacked<C, T, D>(sem: Semantics<C, T, D>, start: Engine<C, T, D>, chances: nat -> Chance)
    requires forall k: nat :: chances(k).newId != ""
    ensures Backed(NetOf(sem, start, chances), sem, start, chances)
  {
  }

  // The laws

  function Move<C, T, D>(sem: Semantics<C, T, D>, scope: seq<string>, context: C): C {
    if scope == [] then context else Move(sem, scope[1..], sem.move(scope[0], context))
  }

  /** The context of a fresh session with the connection's scope on it. */
  function Base<C, T, D>(sem: Semantics<C, T, D>, attrs: Attrs): C {
    Move(sem, ScopeOf(attrs), sem.blank)
  }

  ghost predicate IsUse(sql: string) {
    || (exists name: string :: name != "" && sql == UseDatabase(name))
    || (exists name: string :: name != "" && sql == UseSchema(name))
  }

  /** The statements the driver sends on its own account. */
  ghost predicate IsOwn(sql: string) {
    sql == AUTOCOMMIT_ON || sql == AUTOCOMMIT_OFF || IsUse(sql)
  }

  /** A refused request leaves the context as it was and opens no transaction; one that was open it may
      end. */
  ghost predicate RefusalsKeepContext<C(!new), T(!new), D(!new)>(sem: Semantics<C, T, D>) {
    forall sql: string, n: int, s: Session<C, T>, d: D :: !sem.run(sql, n, s, d).ok ==>
      && sem.run(sql, n, s, d).session.context == s.context
      && (s.tx.None? ==> sem.run(sql, n, s, d).session.tx.None?)
  }

  /** A statement the classifier does not flag leaves the context alone. */
  ghost predicate UnflaggedKeepContext<C(!new), T(!new), D(!new)>(sem: Semantics<C, T, D>) {
    forall sql: string, n: int, s: Session<C, T>, d: D, inTransaction: bool, autocommit: bool
      {:trigger sem.run(sql, n, s, d), SessionNote.Note(SessionNote.Book(false, inTransaction), sql, autocommit)} ::
      sem.run(sql, n, s, d).ok && !SessionNote.Note(SessionNote.Book(false, inTransaction), sql, autocommit).dirty
      ==> sem.run(sql, n, s, d).session.context == s.context
  }

  /** A statement the classifier flags in neither way, in the commit mode of the session, leaves no
      transaction open. Nothing is asked of a flagged one: a request that turns autocommit off and goes
      on to write opens a transaction the flags do not show, and the dirty flag covers it. */
  ghost predicate UnflaggedLeaveNoTransaction<C(!new), T(!new), D(!new)>(sem: Semantics<C, T, D>) {
    forall sql: string, n: int, s: Session<C, T>, d: D, inTransaction: bool
      {:trigger sem.run(sql, n, s, d),
                SessionNote.Note(SessionNote.Book(false, inTransaction), sql, sem.autocommit(s.context))} ::
      sem.run(sql, n, s, d).ok && (!inTransaction ==> s.tx.None?)
      && SessionNote.Note(SessionNote.Book(false, inTransaction), sql, sem.autocommit(s.context)) == CLEAN
      ==> sem.run(sql, n, s, d).session.tx.None?
  }

  /** The driver's own statements move the context. Where the session commits by itself, or is made to, they
      open no transaction and touch nothing else; with autocommit off a USE may open one, as any statement
      may. */
  ghost predicate OwnStatementsMove<C(!new), T(!new), D(!new)>(sem: Semantics<C, T, D>) {
    forall sql: string, n: int, s: Session<C, T>, d: D :: IsOwn(sql) ==>
      && (sem.run(sql, n, s, d).ok ==> sem.run(sql, n, s, d).session.context == sem.move(sql, s.context))
      && (s.tx.None? && (sem.autocommit(s.context) || sql == AUTOCOMMIT_ON) ==>
            sem.run(sql, n, s, d).session.tx.None? && sem.run(sql, n, s, d).db == d)
  }

  /** A fresh session commits by itself; only the driver's AUTOCOMMIT statements change that among its
      own, turning it off and on again gets back to where it was, and running one statement of a scope
      ahead of the whole scope makes no difference. */
  ghost predicate MovesCompose<C(!new), T(!new), D(!new)>(sem: Semantics<C, T, D>) {
    && sem.autocommit(sem.blank)
    && (forall c: C :: !sem.autocommit(sem.move(AUTOCOMMIT_OFF, c)))
    && (forall c: C, s: string :: IsUse(s) ==> sem.autocommit(sem.move(s, c)) == sem.autocommit(c))
    && (forall c: C :: sem.autocommit(c) ==> sem.move(AUTOCOMMIT_ON, sem.move(AUTOCOMMIT_OFF, c)) == c)
    && (forall attrs: Attrs, s: string, c: C {:trigger Move(sem, ScopeOf(attrs), sem.move(s, c))} ::
          s in ScopeOf(attrs) ==> Move(sem, ScopeOf(attrs), sem.move(s, c)) == Move(sem, ScopeOf(attrs), c))
  }

  ghost predicate Lawful<C(!new), T(!new), D(!new)>(sem: Semantics<C, T, D>) {
    && RefusalsKeepContext(sem)
    && UnflaggedKeepContext(sem)
    && UnflaggedLeaveNoTransaction(sem)
    && OwnStatementsMove(sem)
    && MovesCompose(sem)
  }

  // The session that never goes away

  datatype Ideal<C, T, D> = Ideal(session: Session<C, T>, db: D)

  ghost function Based<C, T, D>(sem: Semantics<C, T, D>, attrs: Attrs): Session<C, T> {
    Session(Base(sem, attrs), None)
  }

  /** The connection's session, as far as the engine still holds it, is the ideal one; while a scope is
      pending the ideal session has it on already. */
  ghost predicate Held<C, T, D>(sem: Semantics<C, T, D>, c: Conn, e: Engine<C, T, D>, i: Ideal<C, T, D>) {
    && c.connected
    && (c.session.Some? ==> c.support.Tracking?)
    && e.db == i.db
    && (if c.pending then
          && c.book == CLEAN
          && i.session == Based(sem, c.attrs)
          && (c.session.Some? && c.session.value in e.sessions ==>
                PartlyScoped(sem, c.attrs, e.sessions[c.session.value]))
        else if c.session.Some? then
          c.session.value in e.sessions ==> e.sessions[c.session.value] == i.session
        else
          i.session == Based(sem, c.attrs) && ScopeOf(c.attrs) == [])
  }

  /** The session a pending scope goes on, if the engine still holds it, commits by itself: the statement that
      turns autocommit off is the last of the scope, and none is pending once it is on. */
  ghost predicate CommitsYet<C, T, D>(sem: Semantics<C, T, D>, c: Conn, e: Engine<C, T, D>) {
    c.pending && c.session.Some? && c.session.value in e.sessions ==>
      sem.autocommit(e.sessions[c.session.value].context)
  }

  /** Putting the whole scope on would still lead to its base. */
  ghost predicate PartlyScoped<C, T, D>(sem: Semantics<C, T, D>, attrs: Attrs, s: Session<C, T>) {
    s.tx.None? && Move(sem, ScopeOf(attrs), s.context) == Base(sem, attrs)
  }

  /** What the flags vouch for. */
  ghost predicate Vouched<C, T, D>(sem: Semantics<C, T, D>, book: Book, attrs: Attrs, i: Ideal<C, T, D>) {
    && (!book.dirty ==> i.session.context == Base(sem, attrs))
    && (book == CLEAN ==> i.session.tx.None?)
  }

  ghost predicate InStep<C, T, D>(sem: Semantics<C, T, D>, c: Conn, e: Engine<C, T, D>, i: Ideal<C, T, D>) {
    Held(sem, c, e, i) && CommitsYet(sem, c, e) && Vouched(sem, c.book, c.attrs, i)
  }

  // Contexts

  lemma {:induction false} MoveAppend<C, T, D>(sem: Semantics<C, T, D>, a: seq<string>, s: string, c: C)
    ensures Move(sem, a + [s], c) == sem.move(s, Move(sem, a, c))
  {
    if a == [] {
      assert (a + [s])[1..] == [];
    } else {
      assert (a + [s])[1..] == a[1..] + [s];
      MoveAppend(sem, a[1..], s, sem.move(a[0], c));
    }
  }

  lemma ScopeWithoutAutocommit(attrs: Attrs)
    ensures var on := ScopeOf(attrs.(autocommit := true));
            && ScopeOf(attrs.(autocommit := false)) == on + [AUTOCOMMIT_OFF]
            && (forall s <- on :: IsUse(s))
  {
    hide UseDatabase, UseSchema;
  }

  lemma {:induction false} UsesKeepAutocommit<C(!new), T(!new), D(!new)>(
      sem: Semantics<C, T, D>, scope: seq<string>, c: C)
    requires MovesCompose(sem)
    requires forall s <- scope :: IsUse(s)
    ensures sem.autocommit(Move(sem, scope, c)) == sem.autocommit(c)
  {
    hide IsUse;
    if scope != [] {
      assert scope[0] in scope;
      UsesKeepAutocommit(sem, scope[1..], sem.move(scope[0], c));
    }
  }

  /** The base commits as the connection's attribute says, and the driver's mirror statement leads from
      one base to the other. */
  lemma BaseMode<C(!new), T(!new), D(!new)>(sem: Semantics<C, T, D>, attrs: Attrs)
    requires MovesCompose(sem)
    ensures sem.autocommit(Base(sem, attrs)) == attrs.autocommit
    ensures forall on: bool :: on != attrs.autocommit ==>
              sem.move(AutocommitSql(on), Base(sem, attrs)) == Base(sem, attrs.(autocommit := on))
  {
    hide ScopeOf, Move, AUTOCOMMIT_ON, AUTOCOMMIT_OFF, IsUse;
    var on, off := attrs.(autocommit := true), attrs.(autocommit := false);
    ScopeWithoutAutocommit(attrs);
    UsesKeepAutocommit(sem, ScopeOf(on), sem.blank);
    MoveAppend(sem, ScopeOf(on), AUTOCOMMIT_OFF, sem.blank);
    assert attrs == on || attrs == off;
  }

  lemma ScopeIsOwn(attrs: Attrs)
    ensures forall s <- ScopeOf(attrs) :: IsOwn(s)
  {
    hide UseDatabase, UseSchema;
  }

  lemma OnlyTheLastIsNoUse(attrs: Attrs, i: nat)
    requires i + 1 < |ScopeOf(attrs)|
    ensures IsUse(ScopeOf(attrs)[i])
  {
    hide UseDatabase, UseSchema, ScopeOf, IsUse;
    var on, off := attrs.(autocommit := true), attrs.(autocommit := false);
    ScopeWithoutAutocommit(attrs);
    assert attrs == on || attrs == off;
    assert ScopeOf(on)[i] in ScopeOf(on);
  }

  // One post

  lemma AfterPost<C, T, D>(sem: Semantics<C, T, D>, start: Engine<C, T, D>, chances: nat -> Chance, t: Trace, e: Event)
    requires e.Post?
    ensures After(sem, start, chances, t + [e]) == Serve(sem, After(sem, start, chances, t), chances(|t|), e.request).1
  {
    History.LastEvent(t, e);
  }

  /** A post finds the session gone, or runs its statement in it — in a new one when it names none. */
  lemma PostServed<C(!new), T(!new), D(!new)>(
      sem: Semantics<C, T, D>, start: Engine<C, T, D>, chances: nat -> Chance,
      c: Conn, net: Net, sql: string, count: int, purpose: Purpose)
    requires Backed(net, sem, start, chances)
    requires c.session.Some? ==> c.support.Tracking?
    ensures var (c1, p) := PostOnce(c, net, sql, count, purpose);
            var e, e1 := After(sem, start, chances, c.trace), After(sem, start, chances, c1.trace);
            && c1.(session := c.session, support := c.support, trace := c.trace) == c
            && !p.NoAnswer?
            && (p.WasGone? ==> c.session.Some? && e1.db == e.db)
            && (p.Got? ==>
                 && c1.session.Some? && c1.support.Tracking?
                 && (c.session.Some? ==> c1.session == c.session && c.session.value in e.sessions)
                 && var s := if c.session.Some? then e.sessions[c.session.value] else Session(sem.blank, None);
                    var f := sem.run(sql, count, s, e.db);
                    && p == Got(f.ok, f.body)
                    && c1.session.value in e1.sessions && e1.sessions[c1.session.value] == f.session
                    && e1.db == f.db)
  {
    hide After;
    var r := RequestOf(c, sql, count, purpose);
    var a := net(c.trace, r);
    AfterPost(sem, start, chances, c.trace, Post(r, a, c.attrs));
    assert a == Serve(sem, After(sem, start, chances, c.trace), chances(|c.trace|), r).0;
    assert chances(|c.trace|).newId != "";
  }

  // The scope

  /** The engine would not put the scope on: it refused a statement of it where that statement comes, with
      no transaction open and the committed database as it is. */
  ghost predicate ScopeRefusedBy<C(!new), T(!new), D(!new)>(
      sem: Semantics<C, T, D>, attrs: Attrs, db: D, body: string)
  {
    exists i: nat, s: Session<C, T> :: RefusedAt(sem, attrs, db, body, i, s)
  }

  /** The engine refuses the i-th statement of the scope on a session the statements before it were put
      on: the rest of the scope would have led to its base. */
  ghost predicate RefusedAt<C(!new), T(!new), D(!new)>(
      sem: Semantics<C, T, D>, attrs: Attrs, db: D, body: string, i: nat, s: Session<C, T>)
  {
    && i < |ScopeOf(attrs)| && s.tx.None? && sem.autocommit(s.context)
    && Move(sem, ScopeOf(attrs)[i..], s.context) == Base(sem, attrs)
    && !sem.run(ScopeOf(attrs)[i], -1, s, db).ok && sem.run(ScopeOf(attrs)[i], -1, s, db).body == body
  }

  /** One statement of the scope, on a session part way there. */
  lemma ScopeStatement<C(!new), T(!new), D(!new)>(
      sem: Semantics<C, T, D>, attrs: Attrs, i: nat, s: Session<C, T>, db: D)
    requires OwnStatementsMove(sem) && RefusalsKeepContext(sem) && MovesCompose(sem)
    requires i < |ScopeOf(attrs)|
    requires PartlyScoped(sem, attrs, s) && Move(sem, ScopeOf(attrs)[i..], s.context) == Base(sem, attrs)
    requires sem.autocommit(s.context)
    ensures var f := sem.run(ScopeOf(attrs)[i], -1, s, db);
            && f.db == db
            && (i + 1 < |ScopeOf(attrs)| || !f.ok ==> sem.autocommit(f.session.context))
            && PartlyScoped(sem, attrs, f.session)
            && (f.ok ==> Move(sem, ScopeOf(attrs)[i..], s.context)
                         == Move(sem, ScopeOf(attrs)[i + 1..], f.session.context))
            && (!f.ok ==> ScopeRefusedBy(sem, attrs, db, f.body))
  {
    hide ScopeOf, IsOwn, Base;
    var scope := ScopeOf(attrs);
    ScopeIsOwn(attrs);
    assert scope[i] in scope;
    assert scope[i..][1..] == scope[i + 1..];
    if i + 1 < |scope| { OnlyTheLastIsNoUse(attrs, i); }
    var f := sem.run(scope[i], -1, s, db);
    if !f.ok { assert RefusedAt(sem, attrs, db, f.body, i, s); }
  }

  lemma BlankCommits<C(!new), T(!new), D(!new)>(sem: Semantics<C, T, D>)
    requires MovesCompose(sem)
    ensures sem.autocommit(sem.blank)
  {
  }

  lemma PutScopeIdeal<C(!new), T(!new), D(!new)>(
      sem: Semantics<C, T, D>, start: Engine<C, T, D>, chances: nat -> Chance,
      c: Conn, net: Net, i: nat, restarted: bool, ideal: Ideal<C, T, D>)
    requires Backed(net, sem, start, chances) && Lawful(sem)
    requires i <= |ScopeOf(c.attrs)|
    requires c.pending && Held(sem, c, After(sem, start, chances, c.trace), ideal)
    requires i > 0 ==> c.session.Some?
    requires i < |ScopeOf(c.attrs)| ==> CommitsYet(sem, c, After(sem, start, chances, c.trace))
    requires var e := After(sem, start, chances, c.trace);
             c.session.Some? && c.session.value in e.sessions ==>
               Move(sem, ScopeOf(c.attrs)[i..], e.sessions[c.session.value].context) == Base(sem, c.attrs)
    ensures var (c1, s) := PutScope(c, net, ScopeOf(c.attrs), i, restarted);
            var e1 := After(sem, start, chances, c1.trace);
            && c1.pending && Held(sem, c1, e1, ideal)
            && (!s.ScopeOn? ==> CommitsYet(sem, c1, e1))
            && (s.ScopeOn? ==>
                 && (c1.session.None? ==> ScopeOf(c.attrs) == [])
                 && (c1.session.Some? && c1.session.value in e1.sessions ==>
                       e1.sessions[c1.session.value] == Based(sem, c.attrs)))
            && !s.ScopeFailed?
            && (s.ScopeLost? ==> s.loss.LostAgain?)
            && (s.ScopeRefused? ==> ScopeRefusedBy(sem, c.attrs, ideal.db, s.body))
    decreases !restarted, |ScopeOf(c.attrs)| - i
  {
    hide PostOnce, After, Backed, ScopeOf, ScopeRefusedBy, RefusalsKeepContext, UnflaggedKeepContext,
      UnflaggedLeaveNoTransaction, OwnStatementsMove, MovesCompose;
    var scope := ScopeOf(c.attrs);
    var e := After(sem, start, chances, c.trace);
    if i == |scope| {
      assert scope[i..] == [];
    } else {
      PostServed(sem, start, chances, c, net, scope[i], -1, Scope);
      var (c1, p) := PostOnce(c, net, scope[i], -1, Scope);
      if p.WasGone? {
        assert scope[0..] == scope;
        if !restarted { PutScopeIdeal(sem, start, chances, Forget(c1), net, 0, true, ideal); }
      } else {
        var s := if c.session.Some? then e.sessions[c.session.value] else Session(sem.blank, None);
        assert scope[0..] == scope;
        assert PartlyScoped(sem, c.attrs, s);
        BlankCommits(sem);
        ScopeStatement(sem, c.attrs, i, s, e.db);
        if p.success { PutScopeIdeal(sem, start, chances, c1, net, i + 1, restarted, ideal); }
      }
    }
  }

  lemma ApplyScopeIdeal<C(!new), T(!new), D(!new)>(
      sem: Semantics<C, T, D>, start: Engine<C, T, D>, chances: nat -> Chance,
      c: Conn, net: Net, ideal: Ideal<C, T, D>)
    requires Backed(net, sem, start, chances) && Lawful(sem)
    requires var e := After(sem, start, chances, c.trace);
             c.pending && Held(sem, c, e, ideal) && CommitsYet(sem, c, e)
    ensures var (c1, s) := ApplyScope(c, net);
            var e1 := After(sem, start, chances, c1.trace);
            && Held(sem, c1, e1, ideal) && CommitsYet(sem, c1, e1)
            && (c1.pending <==> !s.ScopeOn?)
            && c1.book == CLEAN
            && !s.ScopeFailed?
            && (s.ScopeLost? ==> s.loss.LostAgain?)
            && (s.ScopeRefused? ==> ScopeRefusedBy(sem, c.attrs, ideal.db, s.body))
  {
    hide PutScope, After, Backed, ScopeOf, ScopeRefusedBy, Lawful, Move;
    assert ScopeOf(c.attrs)[0..] == ScopeOf(c.attrs);
    PutScopeIdeal(sem, start, chances, c, net, 0, false, ideal);
  }

  // One call

  /** What the ideal session makes of a call: nothing when it was not run, except that a lost
      transaction or context is gone. */
  ghost function Next<C, T, D>(
      sem: Semantics<C, T, D>, attrs: Attrs, i: Ideal<C, T, D>, sql: string, count: int, o: Outcome)
    : Ideal<C, T, D>
  {
    match o
    case Answered(_, _) => Ideal(sem.run(sql, count, i.session, i.db).session, sem.run(sql, count, i.session, i.db).db)
    case Lost(loss) => if loss.LostAgain? then i else Ideal(Based(sem, attrs), i.db)
    case Unscoped(_) | Transport => i
  }

  /** What a call may report: the ideal answer, or why the statement did not run. */
  ghost predicate Explains<C(!new), T(!new), D(!new)>(
      sem: Semantics<C, T, D>, c: Conn, i: Ideal<C, T, D>, sql: string, count: int, o: Outcome)
  {
    match o
    case Answered(ok, body) =>
      sem.run(sql, count, i.session, i.db).ok == ok && sem.run(sql, count, i.session, i.db).body == body
    case Lost(loss) => LossFits(c.book, loss)
    case Unscoped(body) => c.book == CLEAN && ScopeRefusedBy(sem, c.attrs, i.db, body)
    case Transport => false
  }

  /** After a call, before the attributes and the flags take it in. */
  ghost predicate Ran<C(!new), T(!new), D(!new)>(
      sem: Semantics<C, T, D>, c: Conn, e: Engine<C, T, D>, i: Ideal<C, T, D>)
  {
    && c.connected && !c.pending && c.session.Some? && c.support.Tracking?
    && e.db == i.db
    && (c.session.value in e.sessions ==> e.sessions[c.session.value] == i.session)
  }

  function NotedBook(c: Conn, sql: string, tracked: bool, o: Outcome): Book {
    if Succeeded(o) && tracked then SessionNote.Note(c.book, sql, c.attrs.autocommit) else c.book
  }

  /** The statement on a session with its scope on, the loss and the second try included. */
  lemma SendIdeal<C(!new), T(!new), D(!new)>(
      sem: Semantics<C, T, D>, start: Engine<C, T, D>, chances: nat -> Chance,
      c: Conn, net: Net, sql: string, count: int, tracked: bool, ideal: Ideal<C, T, D>)
    requires Backed(net, sem, start, chances) && Lawful(sem)
    requires !c.pending && InStep(sem, c, After(sem, start, chances, c.trace), ideal)
    ensures var (c1, o) := Send(c, net, sql, count, tracked, true);
            var e1 := After(sem, start, chances, c1.trace);
            && Explains(sem, c, ideal, sql, count, o)
            && (o.Answered? ==> Ran(sem, c1, e1, Next(sem, c.attrs, ideal, sql, count, o))
                                && c1.book == NotedBook(c, sql, tracked, o))
            && (!o.Answered? ==> InStep(sem, c1, e1, Next(sem, c.attrs, ideal, sql, count, o)))
  {
    hide PostOnce, After, Backed, ScopeOf, ScopeRefusedBy, Lawful, Move, Resend, Base, SessionNote.Note;
    PostServed(sem, start, chances, c, net, sql, count, PurposeOf(tracked));
    var (c1, p) := PostOnce(c, net, sql, count, PurposeOf(tracked));
    if p.WasGone? && LoseSession(c1).1.None? {
      assert c.book == CLEAN;
      ResendIdeal(sem, start, chances, LoseSession(c1).0, net, sql, count, tracked, ideal);
    } else if p.Got? {
      BlankIsBase(sem, c.attrs);
    }
  }

  lemma BlankIsBase<C, T, D>(sem: Semantics<C, T, D>, attrs: Attrs)
    ensures ScopeOf(attrs) == [] ==> Base(sem, attrs) == sem.blank
  {
  }

  lemma ResendIdeal<C(!new), T(!new), D(!new)>(
      sem: Semantics<C, T, D>, start: Engine<C, T, D>, chances: nat -> Chance,
      c: Conn, net: Net, sql: string, count: int, tracked: bool, ideal: Ideal<C, T, D>)
    requires Backed(net, sem, start, chances) && Lawful(sem)
    requires var e := After(sem, start, chances, c.trace);
             c.pending && Held(sem, c, e, ideal) && CommitsYet(sem, c, e)
    ensures var (c1, o) := Resend(c, net, sql, count, tracked);
            var e1 := After(sem, start, chances, c1.trace);
            && Explains(sem, c, ideal, sql, count, o)
            && (o.Lost? ==> o.loss.LostAgain?)
            && (o.Answered? ==> Ran(sem, c1, e1, Next(sem, c.attrs, ideal, sql, count, o))
                                && c1.book == NotedBook(c, sql, tracked, o))
            && (!o.Answered? ==> InStep(sem, c1, e1, ideal))
  {
    hide PostOnce, After, Backed, ScopeOf, ScopeRefusedBy, Lawful, Move, ApplyScope, Base, SessionNote.Note;
    ApplyScopeIdeal(sem, start, chances, c, net, ideal);
    var (c1, s) := ApplyScope(c, net);
    if s.ScopeOn? {
      PostServed(sem, start, chances, c1, net, sql, count, PurposeOf(tracked));
      BlankIsBase(sem, c.attrs);
      var (c2, p) := PostOnce(c1, net, sql, count, PurposeOf(tracked));
      if p.Got? {
        var f := sem.run(sql, count, ideal.session, ideal.db);
        assert p == Got(f.ok, f.body);
        assert Resend(c, net, sql, count, tracked) == Finish(c2, p, sql, tracked);
      }
    }
  }

  lemma {:induction false} ExecuteIdeal<C(!new), T(!new), D(!new)>(
      sem: Semantics<C, T, D>, start: Engine<C, T, D>, chances: nat -> Chance,
      c: Conn, net: Net, sql: string, count: int, tracked: bool, ideal: Ideal<C, T, D>)
    requires Backed(net, sem, start, chances) && Lawful(sem)
    requires InStep(sem, c, After(sem, start, chances, c.trace), ideal)
    ensures var (c1, o) := ExecuteAs(c, net, sql, count, tracked, true);
            var e1 := After(sem, start, chances, c1.trace);
            && Explains(sem, c, ideal, sql, count, o)
            && (o.Answered? ==> Ran(sem, c1, e1, Next(sem, c.attrs, ideal, sql, count, o))
                                && c1.book == NotedBook(c, sql, tracked, o))
            && (!o.Answered? ==> InStep(sem, c1, e1, Next(sem, c.attrs, ideal, sql, count, o)))
  {
    hide After, Backed, ScopeOf, ScopeRefusedBy, Lawful, Move, ApplyScope, Base, SessionNote.Note, Send;
    if c.pending {
      ApplyScopeIdeal(sem, start, chances, c, net, ideal);
      var (c1, s) := ApplyScope(c, net);
      if s.ScopeOn? { SendIdeal(sem, start, chances, c1, net, sql, count, tracked, ideal); }
    } else {
      SendIdeal(sem, start, chances, c, net, sql, count, tracked, ideal);
    }
  }
}
