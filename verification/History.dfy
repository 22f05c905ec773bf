/** What holds over whole runs of a connection against any network at all: the fields of the
    connection are exact readings of what went over the wire (src/proto.c, src/session.c). */
module History {
  import opened Text
  import opened Protocol
  import SessionNote
  import Identifiers
  import Scanner

  // Reading a trace

  /** The answer names the session it ran in. */
  predicate Names(a: Answer) {
    a.Reply? && Named(a.session)
  }

  function SessionOf(t: Trace): Option<string> {
    if t == [] then None
    else match t[|t| - 1]
      case Opened => None
      case Closed(_) => None
      case Post(r, a, _) => if Gone(r, a) then None else if Names(a) then a.session else SessionOf(t[..|t| - 1])
  }

  function SupportOf(t: Trace): Support {
    if t == [] then Unknown
    else
      var before := SupportOf(t[..|t| - 1]);
      match t[|t| - 1]
      case Opened => Unknown
      case Closed(_) => before
      case Post(_, a, _) =>
        if !Names(a) then before
        else if a.newSession.Some? then Tracking
        else if before.Unknown? then Older
        else before
  }

  /** The statement classifier folded over the application's statements that succeeded, from scratch
      after every connect, loss or replacement of the session. */
  function BookOf(t: Trace): Book {
    if t == [] then CLEAN
    else
      var before := BookOf(t[..|t| - 1]);
      match t[|t| - 1]
      case Opened => CLEAN
      case Closed(_) => before
      case Post(r, a, attrs) =>
        if Gone(r, a) then CLEAN
        else
          var base := if Replaces(r, a) then CLEAN else before;
          if r.purpose.App? && a.Reply? && a.success then SessionNote.Note(base, r.sql, attrs.autocommit)
          else base
  }

  /** The connection knows exactly what the trace says, and sent only what that knowledge allows. */
  predicate Explained(c: Conn) {
    && c.session == SessionOf(c.trace)
    && c.support == SupportOf(c.trace)
    && c.book == BookOf(c.trace)
    && EventsFit(c.trace)
  }

  predicate EventFits(before: Trace, e: Event) {
    match e
    case Opened => true
    case Post(r, _, _) =>
      && r.session == SessionOf(before)
      && (r.require <==> r.session.Some? && SupportOf(before).Tracking?)
    case Closed(deleted) =>
      deleted == if SupportOf(before).Tracking? then SessionOf(before) else None
  }

  predicate EventsFit(t: Trace) {
    forall i :: 0 <= i < |t| ==> EventFits(t[..i], t[i])
  }

  lemma EventsFitAppend(t: Trace, e: Event)
    requires EventsFit(t) && EventFits(t, e)
    ensures EventsFit(t + [e])
  {
    var u := t + [e];
    forall i | 0 <= i < |u| ensures EventFits(u[..i], u[i]) {
      if i < |t| { assert u[..i] == t[..i]; } else { assert u[..i] == t; }
    }
  }

  lemma LastEvent(t: Trace, e: Event)
    ensures (t + [e])[..|t|] == t && (t + [e])[|t|] == e
  {
  }

  /** What one more post does to every reading. */
  lemma PostReads(t: Trace, r: Request, a: Answer, attrs: Attrs)
    ensures var u := t + [Post(r, a, attrs)];
            && SessionOf(u) == (if Gone(r, a) then None else if Names(a) then a.session else SessionOf(t))
            && SupportOf(u) == (if !Names(a) then SupportOf(t)
                                else if a.newSession.Some? then Tracking
                                else if SupportOf(t).Unknown? then Older else SupportOf(t))
            && BookOf(u) == (if Gone(r, a) then CLEAN
                             else
                               var base := if Replaces(r, a) then CLEAN else BookOf(t);
                               if r.purpose.App? && a.Reply? && a.success
                               then SessionNote.Note(base, r.sql, attrs.autocommit) else base)
  {
    hide SessionNote.Note, Gone, Replaces, Names;
    LastEvent(t, Post(r, a, attrs));
  }

  lemma PostFits(c: Conn, net: Net, sql: string, count: int, purpose: Purpose)
    requires Explained(c)
    ensures EventsFit(PostOnce(c, net, sql, count, purpose).0.trace)
  {
    hide SessionOf, SupportOf, BookOf;
    var r := RequestOf(c, sql, count, purpose);
    EventsFitAppend(c.trace, Post(r, net(c.trace, r), c.attrs));
  }

  lemma PostSession(c: Conn, net: Net, sql: string, count: int, purpose: Purpose)
    requires Explained(c)
    ensures var (c1, p) := PostOnce(c, net, sql, count, purpose);
            && (p.WasGone? ==> SessionOf(c1.trace) == None && SupportOf(c1.trace) == c1.support)
            && (!p.WasGone? ==> SessionOf(c1.trace) == c1.session && SupportOf(c1.trace) == c1.support)
  {
    hide EventsFit, BookOf, SessionOf, SupportOf, SessionNote.Note;
    var r := RequestOf(c, sql, count, purpose);
    PostReads(c.trace, r, net(c.trace, r), c.attrs);
  }

  lemma PostBook(c: Conn, net: Net, sql: string, count: int, purpose: Purpose)
    requires Explained(c)
    ensures var (c1, p) := PostOnce(c, net, sql, count, purpose);
            BookOf(c1.trace) == if p.WasGone? then CLEAN
                                else if p.Got? && p.success && purpose.App?
                                then SessionNote.Note(c1.book, sql, c1.attrs.autocommit) else c1.book
  {
    hide EventsFit, SessionOf, SupportOf, BookOf, SessionNote.Note;
    var r := RequestOf(c, sql, count, purpose);
    PostReads(c.trace, r, net(c.trace, r), c.attrs);
  }

  lemma PutScopeExplained(c: Conn, net: Net, scope: seq<string>, i: nat, restarted: bool)
    requires Explained(c) && i <= |scope|
    ensures Explained(PutScope(c, net, scope, i, restarted).0)
    decreases !restarted, |scope| - i
  {
    hide Explained;
    if i < |scope| {
      var (c1, p) := PostOnce(c, net, scope[i], -1, Scope);
      PostStaysExplained(c, net, scope[i], -1, Scope);
      match p
      case WasGone =>
        if !restarted && LoseSession(c1).1.None? { PutScopeExplained(LoseSession(c1).0, net, scope, 0, true); }
      case NoAnswer =>
      case Got(success, _) => if success { PutScopeExplained(c1, net, scope, i + 1, restarted); }
    }
  }

  /** One post keeps the explanation once its success is noted, and a refused session once it is
      forgotten. */
  lemma PostStaysExplained(c: Conn, net: Net, sql: string, count: int, purpose: Purpose)
    requires Explained(c)
    ensures var (c1, p) := PostOnce(c, net, sql, count, purpose);
            && (p.WasGone? ==> Explained(Forget(c1)) && LoseSession(c1).0 == Forget(c1))
            && (!p.WasGone? && !purpose.App? ==> Explained(c1))
            && (!p.WasGone? ==> Explained(Finish(c1, p, sql, purpose.App?).0))
  {
    hide PostOnce, SessionNote.Note, EventsFit, SessionOf, SupportOf, BookOf;
    PostFits(c, net, sql, count, purpose);
    PostSession(c, net, sql, count, purpose);
    PostBook(c, net, sql, count, purpose);
  }

  lemma ApplyScopeExplained(c: Conn, net: Net)
    requires Explained(c)
    ensures Explained(ApplyScope(c, net).0)
  {
    PutScopeExplained(c, net, ScopeOf(c.attrs), 0, false);
  }

  lemma SendExplained(c: Conn, net: Net, sql: string, count: int, tracked: bool, recover: bool)
    requires Explained(c)
    ensures Explained(Send(c, net, sql, count, tracked, recover).0)
    ensures Explained(Resend(c, net, sql, count, tracked).0)
  {
    hide Explained, PostOnce, ApplyScope, Finish;
    PostStaysExplained(c, net, sql, count, PurposeOf(tracked));
    var (c1, p) := PostOnce(c, net, sql, count, PurposeOf(tracked));
    if p.WasGone? && recover && LoseSession(c1).1.None? { ResendExplained(Forget(c1), net, sql, count, tracked); }
    ResendExplained(c, net, sql, count, tracked);
  }

  lemma ResendExplained(c: Conn, net: Net, sql: string, count: int, tracked: bool)
    requires Explained(c)
    ensures Explained(Resend(c, net, sql, count, tracked).0)
  {
    hide Explained, PostOnce, ApplyScope, Finish;
    ApplyScopeExplained(c, net);
    var (c1, s) := ApplyScope(c, net);
    if s.ScopeOn? { PostStaysExplained(c1, net, sql, count, PurposeOf(tracked)); }
  }

  lemma ExecuteExplained(c: Conn, net: Net, sql: string, count: int, tracked: bool, recover: bool)
    requires Explained(c)
    ensures Explained(ExecuteAs(c, net, sql, count, tracked, recover).0)
  {
    hide Explained, Send, ApplyScope;
    if !c.pending {
      SendExplained(c, net, sql, count, tracked, recover);
    } else {
      ApplyScopeExplained(c, net);
      var (c1, s) := ApplyScope(c, net);
      if s.ScopeOn? { SendExplained(c1, net, sql, count, tracked, recover); }
    }
  }

  /** The fields the explanation does not mention. */
  lemma Untouched(c: Conn, d: Conn)
    requires Explained(c)
    requires d.session == c.session && d.support == c.support && d.book == c.book && d.trace == c.trace
    ensures Explained(d)
  {
  }

  lemma ReleaseExplained(c: Conn)
    requires Explained(c)
    ensures Explained(Release(c))
  {
    var e := Closed(if c.session.Some? && c.support.Tracking? then c.session else None);
    LastEvent(c.trace, e);
    EventsFitAppend(c.trace, e);
  }

  lemma OpenWithExplained(c: Conn, net: Net, sql: string)
    requires Explained(c)
    ensures Explained(OpenWith(c, net, sql).0)
  {
    hide Explained, ExecuteAs, Release;
    ExecuteExplained(c, net, sql, -1, false, false);
    var (c1, o) := ExecuteAs(c, net, sql, -1, false, false);
    Untouched(c1, c1.(connected := false));
    ReleaseExplained(c1.(connected := false));
  }

  lemma ConnectExplained(c: Conn, net: Net, healthy: bool, database: Option<string>, schema: Option<string>)
    requires Explained(c)
    ensures Explained(Connect(c, net, healthy, database, schema).0)
  {
    OpeningExplained(c, database, schema);
    hide Explained, Opening, OpenWith, UseDatabase, UseSchema;
    var d := Opening(c, database, schema);
    ConnectSchemaExplained(d, net);
    if Named(d.attrs.scopeDatabase) {
      OpenWithExplained(d, net, UseDatabase(d.attrs.scopeDatabase.value));
      var (e, o) := OpenWith(d, net, UseDatabase(d.attrs.scopeDatabase.value));
      Untouched(e, e.(database := e.attrs.scopeDatabase));
      ConnectSchemaExplained(e.(database := e.attrs.scopeDatabase), net);
    }
  }

  lemma OpeningExplained(c: Conn, database: Option<string>, schema: Option<string>)
    requires Explained(c)
    ensures Explained(Opening(c, database, schema))
  {
    LastEvent(c.trace, Opened);
    EventsFitAppend(c.trace, Opened);
  }

  lemma ConnectSchemaExplained(c: Conn, net: Net)
    requires Explained(c)
    ensures Explained(ConnectSchema(c, net).0)
  {
    hide Explained, OpenWith, UseSchema;
    OpenWithExplained(c, net, AUTOCOMMIT_OFF);
    if Named(c.attrs.scopeSchema) {
      OpenWithExplained(c, net, UseSchema(c.attrs.scopeSchema.value));
      var (d, o) := OpenWith(c, net, UseSchema(c.attrs.scopeSchema.value));
      Untouched(d, d.(schema := d.attrs.scopeSchema));
      OpenWithExplained(d.(schema := d.attrs.scopeSchema), net, AUTOCOMMIT_OFF);
    }
  }

  lemma StepExplained(c: Conn, net: Net, op: Op)
    requires Explained(c)
    ensures Explained(Step(c, net, op))
  {
    hide Explained, ExecuteAs, Connect, Release, Identifiers.Tracked;
    match op
    case OpConnect(healthy, database, schema) => ConnectExplained(c, net, healthy, database, schema);
    case OpDisconnect =>
      Untouched(c, c.(connected := false));
      ReleaseExplained(c.(connected := false));
    case OpRun(sql, count) =>
      ExecuteExplained(c, net, sql, count, true, true);
      var c1 := ExecuteAs(c, net, sql, count, true, true).0;
      Untouched(c1, Track(c1, Identifiers.Tracked(sql)));
    case OpEndTran(commit) => ExecuteExplained(c, net, EndTranSql(commit), -1, true, true);
    case OpAutocommit(on) =>
      ExecuteExplained(c, net, AutocommitSql(on), -1, false, true);
      var c1 := ExecuteAs(c, net, AutocommitSql(on), -1, false, true).0;
      Untouched(c1, c1.(attrs := c1.attrs.(autocommit := on)));
      Untouched(c, c.(attrs := c.attrs.(autocommit := on)));
    case OpCatalog(name) =>
      ExecuteExplained(c, net, Fit("USE DATABASE " + name, 600), -1, true, true);
      var c1 := ExecuteAs(c, net, Fit("USE DATABASE " + name, 600), -1, true, true).0;
      Untouched(c1, c1.(database := Some(name)));
      Untouched(c, c.(database := Some(name)));
  }

  /** Bookkeeping is an exact fold: at every point of every run, against any network, the session id,
      the engine's session support, the dirty flag and the transaction flag are what the trace says,
      and every request carries exactly what it may. */
  lemma {:induction false} EveryRunIsExplained(c: Conn, net: Net, ops: seq<Op>)
    requires Explained(c)
    ensures Explained(Run(c, net, ops))
    decreases ops
  {
    if ops != [] {
      StepExplained(c, net, ops[0]);
      EveryRunIsExplained(Step(c, net, ops[0]), net, ops[1..]);
    }
  }

  lemma UnusedIsExplained()
    ensures Explained(UNUSED)
  {
  }

  // What follows from the fold

  /** The driver's own statements leave the flags alone, and an application statement that succeeds in
      the session it was sent never clears the dirty flag. */
  lemma {:induction false} OnlyStatementsCount(t: Trace, r: Request, a: Answer, attrs: Attrs)
    requires !Gone(r, a) && !Replaces(r, a)
    ensures !r.purpose.App? ==> BookOf(t + [Post(r, a, attrs)]) == BookOf(t)
    ensures BookOf(t).dirty ==> BookOf(t + [Post(r, a, attrs)]).dirty
  {
    LastEvent(t, Post(r, a, attrs));
    if BookOf(t).dirty {
      SessionNote.DirtyStays(BookOf(t), SessionNote.Statements(Scanner.Scan(r.sql)), attrs.autocommit);
    }
  }

  /** A request the engine refuses in the session it was sent is noted as if it had never been: whatever its
      first statements may have left behind, a loss right after it is reported exactly when it would have been
      without it. */
  lemma {:induction false} RefusalIsNotNoted(c: Conn, net: Net, sql: string, count: int)
    requires !c.pending
    requires var r := RequestOf(c, sql, count, App);
             var a := net(c.trace, r);
             a.Reply? && !a.success && !Gone(r, a) && !Replaces(r, a)
    ensures var (c1, o) := RunSql(c, net, sql, count);
            && o == Answered(false, net(c.trace, RequestOf(c, sql, count, App)).body)
            && c1.book == c.book && !c1.pending && c1.database == c.database && c1.schema == c.schema
            && LoseSession(c1).1 == LoseSession(c).1
  {
    hide SessionNote.Note, Identifiers.Tracked;
  }

  /** The engine showed that it tracks sessions. */
  predicate Shows(e: Event) {
    e.Post? && Names(e.answer) && e.answer.newSession.Some?
  }

  /** What the engine showed is known until the next connect. */
  lemma {:induction false} KnowledgeStays(t: Trace, u: Trace)
    requires SupportOf(t).Tracking?
    requires forall k :: 0 <= k < |u| ==> !u[k].Opened?
    ensures SupportOf(t + u).Tracking?
  {
    if u == [] {
      assert t + u == t;
    } else {
      KnowledgeStays(t, u[..|u| - 1]);
      assert (t + u)[..|t + u| - 1] == t + u[..|u| - 1];
    }
  }

  /** Event j showed it, and nothing since has opened the connection anew. */
  predicate ShownAt(t: Trace, j: nat) {
    j < |t| && Shows(t[j]) && forall k :: j < k < |t| ==> !t[k].Opened?
  }

  lemma {:induction false} TrackingWasShown(t: Trace) returns (j: nat)
    requires SupportOf(t).Tracking?
    ensures ShownAt(t, j)
  {
    var u, last := t[..|t| - 1], t[|t| - 1];
    if Shows(last) {
      j := |t| - 1;
    } else {
      j := TrackingWasShown(u);
      forall k | j < k < |t| ensures !t[k].Opened? { if k < |u| { assert t[k] == u[k]; } }
    }
  }

  /** The driver takes the engine to track sessions exactly when an answer on this connection said so. */
  lemma {:induction false} TrackingMeansShown(t: Trace)
    ensures SupportOf(t).Tracking? <==> exists j: nat :: ShownAt(t, j)
  {
    if SupportOf(t).Tracking? {
      var j := TrackingWasShown(t);
    }
    forall j: nat | ShownAt(t, j) ensures SupportOf(t).Tracking? {
      var u := t[..j + 1];
      assert u[|u| - 1] == t[j];
      var v := t[j + 1..];
      forall k | 0 <= k < |v| ensures !v[k].Opened? { assert v[k] == t[j + 1 + k]; }
      KnowledgeStays(u, v);
      assert u + v == t;
    }
  }

  /** Over every run, neither requireSession nor a DELETE is sent before an answer on this connection
      has shown that the engine understands them, and a DELETE names the session then held. */
  lemma {:induction false} OlderEnginesAreSpared(net: Net, ops: seq<Op>, i: nat)
    requires i < |Run(UNUSED, net, ops).trace|
    ensures var t := Run(UNUSED, net, ops).trace;
            && ((t[i].Post? && t[i].request.require) || (t[i].Closed? && t[i].deleted.Some?) ==>
                 exists j: nat :: ShownAt(t[..i], j))
            && (t[i].Closed? && t[i].deleted.Some? ==> t[i].deleted == SessionOf(t[..i]))
  {
    var t := Run(UNUSED, net, ops).trace;
    UnusedIsExplained();
    EveryRunIsExplained(UNUSED, net, ops);
    assert EventFits(t[..i], t[i]);
    TrackingMeansShown(t[..i]);
  }
}
