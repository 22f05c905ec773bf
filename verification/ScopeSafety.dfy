/** With an engine that keeps to the session protocol, no application statement is sent to a session
    that has not accepted the connection's whole scope (src/proto.c, src/connect.c). */
module ScopeSafety {
  import opened Text
  import opened Protocol
  import opened History
  import SessionNote
  import Identifiers

  /** One answer of an engine that tracks sessions: it resumes the session a request insists on or
      refuses without running anything, and it says which session it used and whether it is new. */
  predicate Conforms(r: Request, a: Answer) {
    || a.Failed?
    || (Gone(r, a) && r.require)
    || (&& !Gone(r, a) && Names(a) && a.newSession.Some?
        && (r.session.None? ==> a.newSession.value)
        && (r.require ==> a.session == r.session && !a.newSession.value))
  }

  ghost predicate ConformingNet(net: Net) {
    forall t: Trace, r: Request :: Conforms(r, net(t, r))
  }

  /** The statements a session has accepted since it started. */
  function Accepted(t: Trace, id: string): set<string> {
    if t == [] then {}
    else
      var before := Accepted(t[..|t| - 1], id);
      match t[|t| - 1]
      case Post(r, a, _) =>
        if a.Reply? && a.session == Some(id) then
          (if a.newSession == Some(true) then {} else before) + (if a.success then {r.sql} else {})
        else before
      case _ => before
  }

  /** Every statement of the scope was accepted by the session. */
  predicate Covered(t: Trace, session: Option<string>, scope: seq<string>) {
    scope == [] || (session.Some? && forall s <- scope :: s in Accepted(t, session.value))
  }

  /** The post insists on a session that its whole scope is on. */
  predicate Insists(before: Trace, e: Event)
    requires e.Post?
  {
    && Covered(before, e.request.session, ScopeOf(e.attrs))
    && (e.request.session.Some? ==> e.request.require)
  }

  /** Every application statement of the trace was posted so. */
  predicate AppsCovered(t: Trace) {
    forall i :: 0 <= i < |t| && t[i].Post? && t[i].request.purpose.App? ==> Insists(t[..i], t[i])
  }

  /** What every call keeps. */
  predicate Safe(c: Conn) {
    && (c.session.Some? ==> c.support.Tracking?)
    && AppsCovered(c.trace)
    && (c.connected && !c.pending ==> Covered(c.trace, c.session, ScopeOf(c.attrs)))
  }

  /** The same, with some scope on whatever the flags say. */
  predicate On(c: Conn, scope: seq<string>) {
    && (c.session.Some? ==> c.support.Tracking?)
    && AppsCovered(c.trace)
    && Covered(c.trace, c.session, scope)
  }

  lemma AppsCoveredAppend(t: Trace, e: Event)
    requires AppsCovered(t)
    requires e.Post? && e.request.purpose.App? ==> Insists(t, e)
    ensures AppsCovered(t + [e])
  {
    hide Insists;
    var u := t + [e];
    forall i | 0 <= i < |u| && u[i].Post? && u[i].request.purpose.App? ensures Insists(u[..i], u[i]) {
      if i < |t| { assert u[..i] == t[..i]; } else { assert u[..i] == t; }
    }
  }

  lemma AcceptedStep(t: Trace, e: Event, id: string)
    ensures var u := t + [e];
            Accepted(u, id) ==
              if e.Post? && e.answer.Reply? && e.answer.session == Some(id) then
                (if e.answer.newSession == Some(true) then {} else Accepted(t, id))
                + (if e.answer.success then {e.request.sql} else {})
              else Accepted(t, id)
  {
    LastEvent(t, e);
  }

  /** A post under a scope stays under it; an accepted statement joins it. */
  lemma PostKeepsScope(c: Conn, net: Net, sql: string, count: int, purpose: Purpose, scope: seq<string>)
    requires ConformingNet(net)
    requires On(c, scope)
    requires purpose.App? ==> Covered(c.trace, c.session, ScopeOf(c.attrs))
    ensures var (c1, p) := PostOnce(c, net, sql, count, purpose);
            && c1.pending == c.pending
            && (p.WasGone? ==> AppsCovered(c1.trace))
            && (!p.WasGone? ==> On(c1, scope))
            && (p.Got? && p.success ==> On(c1, scope + [sql]))
  {
    hide Accepted, ScopeOf, AppsCovered;
    var r := RequestOf(c, sql, count, purpose);
    var a := net(c.trace, r);
    var e := Post(r, a, c.attrs);
    assert Conforms(r, a);
    AppsCoveredAppend(c.trace, e);
    var c1 := PostOnce(c, net, sql, count, purpose).0;
    if c1.session.Some? { AcceptedStep(c.trace, e, c1.session.value); }
  }

  /** Applying the scope ends with all of it accepted by the session then held, or leaves it pending. */
  lemma PutScopeCovers(c: Conn, net: Net, scope: seq<string>, i: nat, restarted: bool)
    requires ConformingNet(net)
    requires i <= |scope| && c.pending && On(c, scope[..i])
    ensures var (c1, s) := PutScope(c, net, scope, i, restarted);
            && c1.pending
            && On(c1, if s.ScopeOn? then scope else [])
    decreases !restarted, |scope| - i
  {
    hide PostOnce, Accepted, AppsCovered, ConformingNet;
    if i == |scope| {
      assert scope[..i] == scope;
    } else {
      var (c1, p) := PostOnce(c, net, scope[i], -1, Scope);
      PostKeepsScope(c, net, scope[i], -1, Scope, scope[..i]);
      if p.WasGone? {
        if !restarted && LoseSession(c1).1.None? {
          PutScopeCovers(LoseSession(c1).0, net, scope, 0, true);
        }
      } else if p.Got? && p.success {
        assert scope[..i] + [scope[i]] == scope[..i + 1];
        PutScopeCovers(c1, net, scope, i + 1, restarted);
      }
    }
  }

  lemma ApplyScopeCovers(c: Conn, net: Net)
    requires ConformingNet(net)
    requires c.pending && On(c, [])
    ensures var (c1, s) := ApplyScope(c, net);
            && (c1.pending <==> !s.ScopeOn?)
            && On(c1, if s.ScopeOn? then ScopeOf(c.attrs) else [])
  {
    hide PutScope, Accepted, AppsCovered, ConformingNet, ScopeOf;
    PutScopeCovers(c, net, ScopeOf(c.attrs), 0, false);
  }

  /** A call on a session with its scope on: afterwards the scope is on again or pending, and a
      statement that succeeded is among what the session accepted. */
  lemma SendKeepsScope(c: Conn, net: Net, sql: string, count: int, tracked: bool, recover: bool, scope: seq<string>)
    requires ConformingNet(net)
    requires !c.pending && On(c, scope)
    requires tracked || recover ==> scope == ScopeOf(c.attrs)
    ensures var (c1, o) := Send(c, net, sql, count, tracked, recover);
            && (c1.pending ==> On(c1, []) && !Succeeded(o))
            && (!c1.pending ==> On(c1, scope))
            && (Succeeded(o) ==> On(c1, scope + [sql]))
  {
    hide PostOnce, ApplyScope, Accepted, AppsCovered, ConformingNet, ScopeOf, SessionNote.Note;
    PostKeepsScope(c, net, sql, count, PurposeOf(tracked), scope);
    var (c1, p) := PostOnce(c, net, sql, count, PurposeOf(tracked));
    if p.WasGone? && recover && LoseSession(c1).1.None? {
      ResendKeepsScope(LoseSession(c1).0, net, sql, count, tracked);
    }
  }

  lemma ResendKeepsScope(c: Conn, net: Net, sql: string, count: int, tracked: bool)
    requires ConformingNet(net)
    requires c.pending && On(c, [])
    ensures var (c1, o) := Resend(c, net, sql, count, tracked);
            && (c1.pending ==> On(c1, []) && !Succeeded(o))
            && (!c1.pending ==> On(c1, ScopeOf(c.attrs)))
            && (Succeeded(o) ==> On(c1, ScopeOf(c.attrs) + [sql]))
  {
    hide PostOnce, ApplyScope, Accepted, AppsCovered, ConformingNet, ScopeOf, SessionNote.Note;
    ApplyScopeCovers(c, net);
    var (c1, s) := ApplyScope(c, net);
    if s.ScopeOn? {
      PostKeepsScope(c1, net, sql, count, PurposeOf(tracked), ScopeOf(c.attrs));
      var (c2, p) := PostOnce(c1, net, sql, count, PurposeOf(tracked));
      if p.Got? && p.success { assert On(c2, ScopeOf(c.attrs) + [sql]); }
    }
  }

  lemma ExecuteKeepsScope(c: Conn, net: Net, sql: string, count: int, tracked: bool, recover: bool)
    requires ConformingNet(net)
    requires Safe(c) && c.connected
    ensures var (c1, o) := ExecuteAs(c, net, sql, count, tracked, recover);
            && Safe(c1)
            && (Succeeded(o) ==> On(c1, ScopeOf(c.attrs) + [sql]))
  {
    hide Send, ApplyScope, Accepted, AppsCovered, ConformingNet, ScopeOf;
    if !c.pending {
      SendKeepsScope(c, net, sql, count, tracked, recover, ScopeOf(c.attrs));
    } else {
      ApplyScopeCovers(c, net);
      var (c1, s) := ApplyScope(c, net);
      if s.ScopeOn? { SendKeepsScope(c1, net, sql, count, tracked, recover, ScopeOf(c.attrs)); }
    }
  }

  // Opening the connection puts the scope on statement by statement

  /** Part of the scope on, nothing pending. */
  predicate Opened(c: Conn, scope: seq<string>) {
    c.connected && !c.pending && On(c, scope)
  }

  lemma OpenWithCovers(c: Conn, net: Net, sql: string, scope: seq<string>)
    requires ConformingNet(net)
    requires Opened(c, scope)
    ensures var (c1, o) := OpenWith(c, net, sql);
            && (Succeeded(o) ==> Opened(c1, scope + [sql]) && c1.attrs == c.attrs)
            && (!Succeeded(o) ==> Safe(c1))
  {
    hide Send, Accepted, AppsCovered, ConformingNet, ScopeOf;
    SendKeepsScope(c, net, sql, -1, false, false, scope);
    var c1 := Send(c, net, sql, -1, false, false).0;
    var d := c1.(connected := false);
    AppsCoveredAppend(d.trace, Closed(if d.session.Some? && d.support.Tracking? then d.session else None));
  }

  lemma ConnectAutocommitCovers(c: Conn, net: Net, scope: seq<string>)
    requires ConformingNet(net)
    requires Opened(c, scope)
    requires ScopeOf(c.attrs) == scope + if c.attrs.autocommit then [] else [AUTOCOMMIT_OFF]
    ensures Safe(ConnectAutocommit(c, net).0)
  {
    hide OpenWith, Accepted, AppsCovered, ConformingNet;
    OpenWithCovers(c, net, AUTOCOMMIT_OFF, scope);
    assert scope + [] == scope;
  }

  lemma ConnectSchemaCovers(c: Conn, net: Net, scope: seq<string>)
    requires ConformingNet(net)
    requires Opened(c, scope)
    requires scope == if Named(c.attrs.scopeDatabase) then [UseDatabase(c.attrs.scopeDatabase.value)] else []
    ensures Safe(ConnectSchema(c, net).0)
  {
    hide OpenWith, Accepted, AppsCovered, ConformingNet, UseDatabase, UseSchema;
    if Named(c.attrs.scopeSchema) {
      var sql := UseSchema(c.attrs.scopeSchema.value);
      OpenWithCovers(c, net, sql, scope);
      var (c1, o) := OpenWith(c, net, sql);
      if Succeeded(o) { ConnectAutocommitCovers(c1.(schema := c1.attrs.scopeSchema), net, scope + [sql]); }
    } else {
      assert scope + [] == scope;
      ConnectAutocommitCovers(c, net, scope);
    }
  }

  lemma ConnectCovers(c: Conn, net: Net, healthy: bool, database: Option<string>, schema: Option<string>)
    requires ConformingNet(net)
    requires Safe(c)
    ensures Safe(Connect(c, net, healthy, database, schema).0)
  {
    hide OpenWith, Accepted, AppsCovered, ConformingNet, UseDatabase, ConnectSchema;
    AppsCoveredAppend(c.trace, Event.Opened);
    var d := Opening(c, database, schema);
    assert Opened(d, []);
    if Named(d.attrs.scopeDatabase) {
      var sql := UseDatabase(d.attrs.scopeDatabase.value);
      OpenWithCovers(d, net, sql, []);
      var (c1, o) := OpenWith(d, net, sql);
      assert [] + [sql] == [sql];
      if Succeeded(o) { ConnectSchemaCovers(c1.(database := c1.attrs.scopeDatabase), net, [sql]); }
    } else {
      ConnectSchemaCovers(d, net, []);
    }
  }

  lemma AutocommitScope(attrs: Attrs, on: bool)
    ensures forall s <- ScopeOf(attrs.(autocommit := on)) ::
              s in ScopeOf(attrs) || (!on && s == AUTOCOMMIT_OFF)
  {
    hide UseDatabase, UseSchema;
  }

  lemma CoveredBySubset(t: Trace, session: Option<string>, scope: seq<string>, part: seq<string>)
    requires Covered(t, session, scope) && forall s <- part :: s in scope
    ensures Covered(t, session, part)
  {
    if part != [] { assert part[0] in scope; }
  }

  lemma StepIsSafe(c: Conn, net: Net, op: Op)
    requires ConformingNet(net)
    requires Safe(c)
    ensures Safe(Step(c, net, op))
  {
    hide ExecuteAs, Connect, Accepted, Covered, AppsCovered, ConformingNet, ScopeOf, Identifiers.Tracked;
    match op
    case OpConnect(healthy, database, schema) => ConnectCovers(c, net, healthy, database, schema);
    case OpDisconnect =>
      AppsCoveredAppend(c.trace, Closed(if c.session.Some? && c.support.Tracking? then c.session else None));
    case OpRun(sql, count) => if c.connected { ExecuteKeepsScope(c, net, sql, count, true, true); }
    case OpEndTran(commit) => if c.connected { ExecuteKeepsScope(c, net, EndTranSql(commit), -1, true, true); }
    case OpAutocommit(on) =>
      if c.connected && on != c.attrs.autocommit {
        ExecuteKeepsScope(c, net, AutocommitSql(on), -1, false, true);
        var (c1, o) := ExecuteAs(c, net, AutocommitSql(on), -1, false, true);
        AutocommitScope(c.attrs, on);
        if Succeeded(o) {
          CoveredBySubset(c1.trace, c1.session, ScopeOf(c.attrs) + [AutocommitSql(on)],
                          ScopeOf(c1.attrs.(autocommit := on)));
        }
      } else if c.connected {
        assert c.attrs.(autocommit := on) == c.attrs;
      }
    case OpCatalog(name) =>
      if c.connected { ExecuteKeepsScope(c, net, Fit("USE DATABASE " + name, 600), -1, true, true); }
  }

  lemma {:induction false} RunIsSafe(c: Conn, net: Net, ops: seq<Op>)
    requires ConformingNet(net)
    requires Safe(c)
    ensures Safe(Run(c, net, ops))
    decreases ops
  {
    if ops != [] {
      StepIsSafe(c, net, ops[0]);
      RunIsSafe(Step(c, net, ops[0]), net, ops[1..]);
    }
  }

  /** Scope before statement: in every run against a conforming engine, transport failures included,
      whenever an application statement is posted, it insists on one session, and that session has
      accepted every statement of the scope the connection then had. */
  lemma {:induction false} ScopeBeforeStatement(net: Net, ops: seq<Op>, i: nat)
    requires ConformingNet(net)
    requires i < |Run(UNUSED, net, ops).trace|
    ensures var t := Run(UNUSED, net, ops).trace;
            t[i].Post? && t[i].request.purpose.App? && ScopeOf(t[i].attrs) != [] ==>
              && t[i].request.session.Some? && t[i].request.require
              && forall s <- ScopeOf(t[i].attrs) :: s in Accepted(t[..i], t[i].request.session.value)
  {
    assert Safe(UNUSED);
    RunIsSafe(UNUSED, net, ops);
  }
}
