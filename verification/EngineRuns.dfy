/** Runs against the engine of EngineWitness: what becomes of a session variable, a transaction and a committed
    row when the application ends its transaction or the engine drops the session (src/proto.c, src/connect.c,
    src/session.c). */
module EngineRuns {
  import opened Text
  import opened Scanner
  import opened Protocol
  import opened Transparency
  import opened TransparentRuns
  import opened EngineWitness
  import opened Commands
  import SessionNote
  import Identifiers
  import Own = OwnStatements
  import Literals

  ghost function NetOver(start: Engine<Place, nat, Store>, chances: nat -> Chance): Net {
    NetOf(Witness(), start, chances)
  }

  ghost predicate HasIds(chances: nat -> Chance) {
    forall k: nat :: chances(k).newId != ""
  }

  ghost function Now(start: Engine<Place, nat, Store>, chances: nat -> Chance, c: Conn): Engine<Place, nat, Store> {
    After(Witness(), start, chances, c.trace)
  }

  lemma Ready(start: Engine<Place, nat, Store>, chances: nat -> Chance)
    requires HasIds(chances)
    ensures Lawful(Witness()) && Backed(NetOver(start, chances), Witness(), start, chances)
  {
    hide Lawful, Backed, NetOf, Witness;
    LawsCanBeMet();
    EveryEngineIsBacked(Witness(), start, chances);
  }

  // Ending a transaction

  lemma EndsServed(commit: bool, c: Place, pending: nat, d: Store)
    ensures var f := Serving(EndTranSql(commit), -1, Session(c, Some(pending)), d);
            f.ok && f.session == Session(c, None) && f.db == if commit then d.(rows := d.rows + pending) else d
  {
    hide Serving;
    EndsWork(c, d, pending);
  }

  /** SQLEndTran, answered with success: SQL_COMMIT leaves the pending rows in the store and no transaction,
      SQL_ROLLBACK leaves the store as it was and no transaction. */
  lemma {:induction false} EndTranEnds(
      start: Engine<Place, nat, Store>, chances: nat -> Chance, c: Conn, commit: bool,
      place: Place, pending: nat, d: Store)
    requires HasIds(chances)
    requires InStep(Witness(), c, Now(start, chances, c), Ideal(Session(place, Some(pending)), d))
    ensures var (c1, r) := EndTran(c, NetOver(start, chances), commit);
            var e := Now(start, chances, c1);
            r.Executed? && Succeeded(r.outcome) ==>
              && e.db == (if commit then d.(rows := d.rows + pending) else d)
              && c1.session.Some?
              && (c1.session.value in e.sessions ==> e.sessions[c1.session.value] == Session(place, None))
  {
    hide After, Lawful, Backed, NetOf, InStep, ExecuteAs, Witness, Explains, SessionNote.Note, Base, ScopeOf;
    var (sem, net) := (Witness(), NetOver(start, chances));
    var i := Ideal(Session(place, Some(pending)), d);
    Ready(start, chances);
    InStepConnected(sem, c, Now(start, chances, c), i);
    var sql := EndTranSql(commit);
    ExecuteIdeal(sem, start, chances, c, net, sql, -1, true, i);
    EndsServed(commit, place, pending, d);
    WitnessServes(sql, -1, i.session, d);
  }

  lemma WitnessServes(sql: string, count: int, s: State, d: Store)
    ensures Witness().run(sql, count, s, d) == Serving(sql, count, s, d)
  {
    hide Serving;
  }

  // Losing the session

  /** The engine drops the session the connection is about to name. */
  ghost predicate Drops(chances: nat -> Chance, c: Conn) {
    c.session.Some? && c.session.value in chances(|c.trace|).dropped
  }

  /** A statement sent to a session just dropped, by a connection that held something there: reported, and nothing
      posted but the one request that was refused. */
  lemma DroppedIsReported(start: Engine<Place, nat, Store>, chances: nat -> Chance, c: Conn, sql: string, count: int)
    requires !c.pending && c.support.Tracking? && Drops(chances, c)
    requires c.book != CLEAN
    ensures var (c1, o) := RunSql(c, NetOver(start, chances), sql, count);
            && o == Lost(if c.book.inTransaction then LostTransaction else LostContext)
            && |c1.trace| == |c.trace| + 1
            && c1.trace[|c.trace|].Post? && Gone(c1.trace[|c.trace|].request, c1.trace[|c.trace|].answer)
  {
    hide After, Witness, Resend;
    var net := NetOver(start, chances);
    var r := RequestOf(c, sql, count, App);
    assert net(c.trace, r) == Serve(Witness(), After(Witness(), start, chances, c.trace), chances(|c.trace|), r).0;
    assert Gone(r, net(c.trace, r));
  }

  /** What a request of one statement does to clean flags. */
  lemma NotedOfOne(b: Book, sql: string, autocommit: bool)
    requires ";" !in Scan(sql)
    ensures var command := CommandOf(SessionNote.LeadingWords(sql, SessionNote.WORD_LIMIT));
            var noted := SessionNote.Note(b, sql, autocommit);
            && (LeavesContext(command) ==> noted.dirty)
            && (!LeavesContext(command) ==> noted.dirty == b.dirty)
            && (command.Begin? ==> noted.inTransaction)
            && (command.Commit? || command.Rollback? ==> !noted.inTransaction)
            && (autocommit && !command.Begin? && !command.Commit? && !command.Rollback? ==>
                  noted.inTransaction == b.inTransaction)
            && (!autocommit && !command.Nothing? && !command.Commit? && !command.Rollback? ==> noted.inTransaction)
  {
    hide Scan, SessionNote.LeadingWords, CommandOf, SessionNote.TouchesSession, SessionNote.TransactionEffect,
      SessionNote.Note;
    var words := SessionNote.LeadingWords(sql, SessionNote.WORD_LIMIT);
    Own.NotedAlone(b, sql, autocommit);
    FlagsAreExact(words);
    NoneIsNothing(words);
  }

  /** Whatever statement leaves something on the session, by any of the ways there are, and succeeds: if the engine
      then drops the session, the next call reports the loss and posts nothing again. */
  lemma {:induction false} LeftContextIsReported(
      start: Engine<Place, nat, Store>, chances: nat -> Chance, c: Conn, ideal: Ideal<Place, nat, Store>,
      first: string, count: int, second: string, again: int)
    requires HasIds(chances) && InStep(Witness(), c, Now(start, chances, c), ideal)
    requires ";" !in Scan(first)
    requires LeavesContext(CommandOf(SessionNote.LeadingWords(first, SessionNote.WORD_LIMIT)))
    requires var (c1, o) := RunSql(c, NetOver(start, chances), first, count); Succeeded(o) && Drops(chances, c1)
    ensures var c1 := RunSql(c, NetOver(start, chances), first, count).0;
            var (c2, o) := RunSql(c1, NetOver(start, chances), second, again);
            && (o == Lost(LostContext) || (o == Lost(LostTransaction) && c1.book.inTransaction))
            && |c2.trace| == |c1.trace| + 1
  {
    hide After, Lawful, Backed, NetOf, InStep, ExecuteAs, Witness, Scan, SessionNote.LeadingWords, CommandOf,
      LeavesContext, SessionNote.Note, Explains;
    Ready(start, chances);
    ExecuteIdeal(Witness(), start, chances, c, NetOver(start, chances), first, count, true, ideal);
    NotedOfOne(c.book, first, c.attrs.autocommit);
    var c1 := RunSql(c, NetOver(start, chances), first, count).0;
    DroppedIsReported(start, chances, c1, second, again);
  }

  /** And whatever leaves nothing, committing by itself on a session that held nothing, is no reason to report: the
      next call is not told of a lost transaction or context. */
  lemma {:induction false} NothingLeftIsNotReported(
      start: Engine<Place, nat, Store>, chances: nat -> Chance, c: Conn, ideal: Ideal<Place, nat, Store>,
      first: string, count: int, second: string, again: int)
    requires HasIds(chances) && InStep(Witness(), c, Now(start, chances, c), ideal)
    requires c.book == CLEAN && c.attrs.autocommit && ";" !in Scan(first)
    requires var command := CommandOf(SessionNote.LeadingWords(first, SessionNote.WORD_LIMIT));
             !LeavesContext(command) && !command.Begin?
    requires Succeeded(RunSql(c, NetOver(start, chances), first, count).1)
    ensures var c1 := RunSql(c, NetOver(start, chances), first, count).0;
            var o := RunSql(c1, NetOver(start, chances), second, again).1;
            o != Lost(LostContext) && o != Lost(LostTransaction)
  {
    hide After, Lawful, Backed, NetOf, ExecuteAs, Witness, Scan, SessionNote.LeadingWords, CommandOf, InStep,
      LeavesContext, SessionNote.Note;
    var net := NetOver(start, chances);
    Ready(start, chances);
    ExecuteIdeal(Witness(), start, chances, c, net, first, count, true, ideal);
    NotedOfOne(c.book, first, true);
    InStepConnected(Witness(), c, Now(start, chances, c), ideal);
    CallIdeal(Witness(), start, chances, c, net, OpRun(first, count), ideal);
    var c1 := RunSql(c, net, first, count).0;
    var next := Next(Witness(), c.attrs, ideal, first, count, ExecuteAs(c, net, first, count, true, true).1);
    ExecuteIdeal(Witness(), start, chances, c1, net, second, again, true, next);
  }

  // One such run

  const SET_V := "SET V = 1"

  /** The engine names its session and drops it before the third thing that happens. */
  function DropsThird(): nat -> Chance {
    (k: nat) => Chance(if k == 2 then {"id"} else {}, "id")
  }

  lemma SetWords()
    ensures var words := SessionNote.LeadingWords(SET_V, SessionNote.WORD_LIMIT);
            |words| > 1 && words[0] == "SET" && words[1] == "V" && CommandOf(words) == Set
    ensures ";" !in Scan(SET_V)
  {
    hide SessionNote.LeadingWords, Scan, IsOf, IsMadeTemporary;
    assert SET_V == "SET" + " V = 1" && " V = 1"[1..] == "V" + " = 1";
    assert Upper("SET") == "SET" && Upper("V") == "V";
    Own.FirstWord("SET", " V = 1", SessionNote.WORD_LIMIT);
    Own.FirstWord("V", " = 1", SessionNote.WORD_LIMIT - 1);
    SetIsPlain();
    Literals.PlainHoldsNeither(SET_V);
  }

  lemma SetIsPlain()
    ensures Literals.Plain(SET_V)
  {
  }

  lemma SetServed(s: State, d: Store)
    requires s.context.on
    ensures Serving(SET_V, -1, s, d)
            == Transparency.Effect.Effect(
                 true, "", s.(context := s.context.(variables := s.context.variables["V" := SET_V])), d)
  {
    hide Scan, SessionNote.LeadingWords, CommandOf, SET_V, Serving;
    SetWords();
    ServedAlone(SET_V, -1, s, d);
  }

  /** A variable is set, the session is dropped, and the next call, whatever it is, is told that its context is
      lost: nothing ran on a session without the variable. */
  lemma {:induction false} LostVariable(d: Store, sql: string, count: int)
    ensures var (start, chances) := (Engine(map[], d), DropsThird());
            var net := NetOver(start, chances);
            var (c0, r0) := Connect(UNUSED, net, true, None, None);
            var (c1, o1) := RunSql(c0, net, SET_V, -1);
            var (c2, o2) := RunSql(c1, net, sql, count);
            && r0 == Done && Succeeded(o1) && |c1.trace| == 2
            && Now(start, chances, c1).sessions
               == map["id" := Session(Place("", "", true, map["V" := SET_V], 0, 0), None)]
            && o2 == Lost(LostContext) && |c2.trace| == 3
  {
    hide SET_V, After, RunSql, NetOf, Witness;
    var start: Engine<Place, nat, Store> := Engine(map[], d);
    var c0 := Connect(UNUSED, NetOver(start, DropsThird()), true, None, None).0;
    OpenedOnNothing(start, DropsThird());
    VariableIsSet(d, c0);
    DroppedIsReported(start, DropsThird(), RunSql(c0, NetOver(start, DropsThird()), SET_V, -1).0, sql, count);
  }

  lemma OpenedOnNothing(start: Engine<Place, nat, Store>, chances: nat -> Chance)
    ensures var (c, r) := Connect(UNUSED, NetOver(start, chances), true, None, None);
            && r == Done && c.trace == [Opened] && Now(start, chances, c) == start
            && c.connected && !c.pending && c.session.None? && c.book == CLEAN && c.attrs.autocommit
  {
    hide Witness, NetOf;
    assert [Opened][..0] == [];
    assert After(Witness(), start, chances, []) == start;
    assert [Opened][|[Opened]| - 1] == Opened;
  }

  lemma VariableIsSet(d: Store, c: Conn)
    requires c.trace == [Opened] && c.connected && !c.pending && c.session.None? && c.book == CLEAN
    requires c.attrs.autocommit && Now(Engine(map[], d), DropsThird(), c) == Engine(map[], d)
    ensures var (c1, o) := RunSql(c, NetOver(Engine(map[], d), DropsThird()), SET_V, -1);
            && Succeeded(o) && |c1.trace| == 2 && !c1.pending && c1.support.Tracking? && c1.session == Some("id")
            && Now(Engine(map[], d), DropsThird(), c1).sessions
               == map["id" := Session(Place("", "", true, map["V" := SET_V], 0, 0), None)]
            && c1.book == SessionNote.Book(true, false)
  {
    hide SET_V, Serving, SessionNote.Note, Identifiers.Tracked, After;
    var start: Engine<Place, nat, Store> := Engine(map[], d);
    var (chances, net) := (DropsThird(), NetOver(start, DropsThird()));
    var r := RequestOf(c, SET_V, -1, App);
    SetServed(Session(Witness().blank, None), d);
    var a := net(c.trace, r);
    assert a == Serve(Witness(), start, chances(1), r).0 == Reply(200, true, Some("id"), Some(true), "");
    AfterPost(Witness(), start, chances, c.trace, Post(r, a, c.attrs));
    SetWords();
    NotedOfOne(CLEAN, SET_V, true);
    SetTracksNothing();
    assert RunSql(c, net, SET_V, -1).0.trace == c.trace + [Post(r, a, c.attrs)];
  }

  lemma SetTracksNothing()
    ensures Identifiers.Tracked(SET_V) == Identifiers.Untracked
  {
    assert Identifiers.DropLeading4(SET_V) == SET_V;
    assert |SET_V| < 11;
  }
}
