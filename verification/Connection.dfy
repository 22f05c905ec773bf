/** The connection as the source keeps it: one object whose fields the calls update. Every method is
    proved against the function of the same name in Protocol. */
module Connections {
  import opened Text
  import opened Identifiers
  import opened Protocol
  import SessionNote

  lemma UseNulFree(name: string)
    requires NulFree(name)
    ensures NulFree(UseDatabase(name)) && NulFree(UseSchema(name))
  {
    DoubleQuotesNulFree(name);
  }

  class Connection {
    var connected: bool
    var sessionId: Option<string>
    var tracksSessions: Support
    var sessionDirty: bool
    var inTransaction: bool
    var scopePending: bool
    var autocommit: bool
    var scopeDatabase: Option<string>
    var scopeSchema: Option<string>
    var database: Option<string>
    var schema: Option<string>
    var trace: Trace
    const net: Net

    constructor (net: Net)
      ensures View() == UNUSED && this.net == net
      ensures !connected && sessionId == None && tracksSessions == Unknown && trace == []
      ensures !sessionDirty && !inTransaction && !scopePending && autocommit
      ensures scopeDatabase == None && scopeSchema == None && database == None && schema == None
    {
      connected := false;
      sessionId := None;
      tracksSessions := Unknown;
      sessionDirty, inTransaction, scopePending := false, false, false;
      autocommit, scopeDatabase, scopeSchema := true, None, None;
      database, schema := None, None;
      trace := [];
      this.net := net;
    }

    function View(): Conn
      reads this
    {
      Conn(connected, sessionId, tracksSessions, SessionNote.Book(sessionDirty, inTransaction), scopePending,
           Attrs(autocommit, scopeDatabase, scopeSchema), database, schema, trace)
    }

    method DoResetState()
      modifies this
      ensures View() == ResetState(old(View()))
    {
      sessionDirty := false;
      inTransaction := false;
      scopePending := true;
      database := scopeDatabase;
      schema := scopeSchema;
    }

    method ForgetSession()
      modifies this
      ensures View() == Forget(old(View()))
    {
      sessionId := None;
      DoResetState();
    }

    method DoLoseSession() returns (loss: Option<Loss>)
      modifies this
      ensures (View(), loss) == LoseSession(old(View()))
    {
      var hadTransaction, hadContext := inTransaction, sessionDirty;
      ForgetSession();
      if hadTransaction || hadContext {
        return Some(if hadTransaction then LostTransaction else LostContext);
      }
      return None;
    }

    method AbsorbSession(a: Answer, sent: bool)
      requires a.Reply?
      modifies this
      ensures View() == Absorb(old(View()), a, sent)
    {
      if a.session.None? || a.session.value == "" { return; }
      sessionId := a.session;
      if a.newSession.Some? {
        tracksSessions := Tracking;
        if sent && a.newSession.value { DoResetState(); }
      } else if tracksSessions.Unknown? {
        tracksSessions := Older;
      }
    }

    method DoPost(sql: string, count: int, purpose: Purpose) returns (p: Posted)
      modifies this
      ensures (View(), p) == PostOnce(old(View()), net, sql, count, purpose)
    {
      var sent := sessionId.Some?;
      var request := Request(sql, sessionId, sent && tracksSessions.Tracking?, count, purpose);
      var answer := net(trace, request);
      trace := trace + [Post(request, answer, Attrs(autocommit, scopeDatabase, scopeSchema))];
      if answer.Failed? { return NoAnswer; }
      if sent && answer.status == 404 && !answer.success
         && (answer.session.None? || answer.session.value == "") {
        return WasGone;
      }
      AbsorbSession(answer, sent);
      return Got(answer.success, answer.body);
    }

    method BuildScope() returns (scope: seq<string>)
      ensures scope == ScopeOf(View().attrs)
    {
      scope := [];
      if scopeDatabase.Some? && scopeDatabase.value != "" {
        var sql := AppendIdent("USE DATABASE ", scopeDatabase.value);
        scope := scope + [sql.value];
      }
      if scopeSchema.Some? && scopeSchema.value != "" {
        var sql := AppendIdent("USE SCHEMA ", scopeSchema.value);
        scope := scope + [sql.value];
      }
      if !autocommit {
        scope := scope + [AUTOCOMMIT_OFF];
      }
    }

    /** apply_scope: the loop that puts its index back to the start, at most once. */
    method DoApplyScope() returns (s: Scoped)
      modifies this
      ensures (View(), s) == ApplyScope(old(View()), net)
    {
      var scope := BuildScope();
      var restarted, i := false, 0;
      s := ScopeOn;
      while s.ScopeOn? && i < |scope|
        invariant 0 <= i <= |scope|
        invariant s.ScopeOn? ==>
                  PutScope(View(), net, scope, i, restarted) == PutScope(old(View()), net, scope, 0, false)
        invariant !s.ScopeOn? ==> (View(), s) == PutScope(old(View()), net, scope, 0, false)
        decreases s.ScopeOn?, !restarted, |scope| - i
      {
        var p := DoPost(scope[i], -1, Scope);
        match p
        case WasGone =>
          if restarted {
            ForgetSession();
            s := ScopeLost(LostAgain);
          } else {
            var loss := DoLoseSession();
            if loss.Some? { s := ScopeLost(loss.value); } else { restarted, i := true, 0; }
          }
        case NoAnswer => s := ScopeFailed;
        case Got(success, body) =>
          if success { i := i + 1; } else { s := ScopeRefused(body); }
      }
      if s.ScopeOn? { scopePending := false; }
    }

    method DoFinish(p: Posted, sql: string, tracked: bool) returns (o: Outcome)
      requires !p.WasGone? && NulFree(sql)
      modifies this
      ensures (View(), o) == Finish(old(View()), p, sql, tracked)
    {
      if p.NoAnswer? { return Transport; }
      if p.success && tracked {
        var b := SessionNote.SessionNote(SessionNote.Book(sessionDirty, inTransaction), sql, autocommit);
        sessionDirty, inTransaction := b.dirty, b.inTransaction;
      }
      return Answered(p.success, p.body);
    }

    /** fl_proto_execute_as. */
    method DoExecuteAs(sql: string, count: int, tracked: bool, recover: bool) returns (o: Outcome)
      requires NulFree(sql)
      modifies this
      ensures (View(), o) == ExecuteAs(old(View()), net, sql, count, tracked, recover)
    {
      if scopePending {
        var s := DoApplyScope();
        if !s.ScopeOn? { return ScopeFailure(s); }
      }
      var p := DoPost(sql, count, PurposeOf(tracked));
      if p.WasGone? {
        if !recover {
          ForgetSession();
          return Lost(LostAgain);
        }
        var loss := DoLoseSession();
        if loss.Some? { return Lost(loss.value); }
        var s := DoApplyScope();
        if !s.ScopeOn? { return ScopeFailure(s); }
        p := DoPost(sql, count, PurposeOf(tracked));
        if p.WasGone? {
          ForgetSession();
          return Lost(LostAgain);
        }
      }
      o := DoFinish(p, sql, tracked);
    }

    /** run_sql and the name-tracking that follows a success. */
    method DoRunSql(sql: string, count: int) returns (o: Outcome)
      requires NulFree(sql)
      modifies this
      ensures (View(), o) == RunSql(old(View()), net, sql, count)
    {
      o := DoExecuteAs(sql, count, true, true);
      if o.Answered? && o.success {
        var t := TrackContext(sql);
        match t
        case Untracked =>
        case Database(name) => database := Some(name);
        case Schema(name) => schema := Some(name);
      }
    }

    /** SQLEndTran: on an environment there is nothing to end, since none knows its connections. */
    method DoEndTran(environment: bool, commit: bool) returns (r: CallResult)
      modifies this
      ensures (View(), r) == if environment then (old(View()), Done) else EndTran(old(View()), net, commit)
    {
      if environment { return Done; }
      if !connected { return NotOpen; }
      var o := DoExecuteAs(if commit then "COMMIT" else "ROLLBACK", -1, true, true);
      return Executed(o);
    }

    /** SQLSetConnectAttr(SQL_ATTR_AUTOCOMMIT). */
    method DoSetAutocommit(wanted: bool) returns (r: CallResult)
      modifies this
      ensures (View(), r) == SetAutocommit(old(View()), net, wanted)
    {
      r := Done;
      if connected && wanted != autocommit {
        var o := DoExecuteAs(if wanted then AUTOCOMMIT_ON else AUTOCOMMIT_OFF, -1, false, true);
        r := Executed(o);
        if !(o.Answered? && o.success) { return; }
      }
      autocommit := wanted;
    }

    /** SQLSetConnectAttr(SQL_ATTR_CURRENT_CATALOG). */
    method DoSetCatalog(name: string) returns (r: CallResult)
      requires NulFree(name)
      modifies this
      ensures (View(), r) == SetCatalog(old(View()), net, name)
    {
      if !connected {
        database := Some(name);
        return Done;
      }
      var sql := Fit("USE DATABASE " + name, 600);
      var o := DoExecuteAs(sql, -1, true, true);
      if o.Answered? && o.success { database := Some(name); }
      return Executed(o);
    }

    method DoRelease()
      modifies this
      ensures View() == Release(old(View()))
    {
      var deleted := None;
      if sessionId.Some? && tracksSessions.Tracking? {
        deleted := sessionId;
      }
      trace := trace + [Closed(deleted)];
      sessionId := None;
    }

    method DoDisconnect() returns (r: CallResult)
      modifies this
      ensures (View(), r) == Disconnect(old(View()))
    {
      if !connected { return NotOpen; }
      connected := false;
      DoRelease();
      return Done;
    }

    method DoOpenWith(sql: string) returns (o: Outcome)
      requires NulFree(sql)
      modifies this
      ensures (View(), o) == OpenWith(old(View()), net, sql)
      ensures View().attrs == old(View()).attrs
    {
      hide ExecuteAs;
      o := DoExecuteAs(sql, -1, false, false);
      if !(o.Answered? && o.success) {
        connected := false;
        DoRelease();
      }
    }

    method DoConnectAutocommit() returns (r: CallResult)
      modifies this
      ensures (View(), r) == ConnectAutocommit(old(View()), net)
    {
      hide OpenWith;
      if !autocommit {
        var o := DoOpenWith(AUTOCOMMIT_OFF);
        if !(o.Answered? && o.success) { return Executed(o); }
      }
      return Done;
    }

    method DoConnectSchema() returns (r: CallResult)
      requires Named(scopeSchema) ==> NulFree(scopeSchema.value)
      modifies this
      ensures (View(), r) == ConnectSchema(old(View()), net)
    {
      hide OpenWith, UseSchema;
      if scopeSchema.Some? && scopeSchema.value != "" {
        UseNulFree(scopeSchema.value);
        var o := DoOpenWith(UseSchema(scopeSchema.value));
        if !(o.Answered? && o.success) { return Executed(o); }
        schema := scopeSchema;
      }
      r := DoConnectAutocommit();
    }

    method DoConnectDatabase() returns (r: CallResult)
      requires Named(scopeDatabase) ==> NulFree(scopeDatabase.value)
      requires Named(scopeSchema) ==> NulFree(scopeSchema.value)
      modifies this
      ensures (View(), r) == ConnectDatabase(old(View()), net)
    {
      hide OpenWith, UseDatabase, ConnectSchema;
      if scopeDatabase.Some? && scopeDatabase.value != "" {
        UseNulFree(scopeDatabase.value);
        var o := DoOpenWith(UseDatabase(scopeDatabase.value));
        if !(o.Answered? && o.success) { return Executed(o); }
        database := scopeDatabase;
      }
      r := DoConnectSchema();
    }

    method DoSessionReset()
      modifies this
      ensures View() == SessionReset(old(View()))
    {
      sessionId := None;
      tracksSessions := Unknown;
      sessionDirty, inTransaction, scopePending := false, false, false;
    }

    method DoOpening(db: Option<string>, sch: Option<string>)
      modifies this
      ensures View() == Opening(old(View()), db, sch)
    {
      hide SessionReset;
      connected := true;
      trace := trace + [Opened];
      scopeDatabase := OrNone(db);
      scopeSchema := OrNone(sch);
      DoSessionReset();
    }

    lemma OpeningKeepsNames(db: Option<string>, sch: Option<string>)
      ensures var a := Opening(View(), db, sch).attrs;
              a.scopeDatabase == OrNone(db) && a.scopeSchema == OrNone(sch)
    {
    }

    /** do_connect; `healthy` is what the probe of the server said. */
    method DoConnect(healthy: bool, db: Option<string>, sch: Option<string>) returns (r: CallResult)
      requires Named(db) ==> NulFree(db.value)
      requires Named(sch) ==> NulFree(sch.value)
      modifies this
      ensures (View(), r) == Connect(old(View()), net, healthy, db, sch)
    {
      hide ConnectDatabase, NulFree, Opening;
      if connected || !healthy { return NotOpen; }
      OpeningKeepsNames(db, sch);
      DoOpening(db, sch);
      r := DoConnectDatabase();
    }
  }
}
