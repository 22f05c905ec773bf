/** The database the application is shown as current (src/proto.c, src/execute.c, src/connect.c). */
module Catalog {
  import opened Text
  import opened Protocol
  import opened Identifiers
  import opened UseTargets

  /** The database and schema shown are those of the connection's scope. */
  predicate ShowsScope(c: Conn) {
    c.database == c.attrs.scopeDatabase && c.schema == c.attrs.scopeSchema
  }

  lemma PutScopeLoss(c: Conn, net: Net, scope: seq<string>, i: nat, restarted: bool)
    requires i <= |scope|
    ensures var (c1, s) := PutScope(c, net, scope, i, restarted); s.ScopeLost? ==> ShowsScope(c1) && c1.pending
    decreases !restarted, |scope| - i
  {
    hide PostOnce;
    if i < |scope| {
      var (c1, p) := PostOnce(c, net, scope[i], -1, Scope);
      if p.Got? && p.success {
        PutScopeLoss(c1, net, scope, i + 1, restarted);
      } else if p.WasGone? && !restarted {
        PutScopeLoss(LoseSession(c1).0, net, scope, 0, true);
      }
    }
  }

  lemma ResendLoss(c: Conn, net: Net, sql: string, count: int, tracked: bool)
    ensures var (c1, o) := Resend(c, net, sql, count, tracked); o.Lost? ==> ShowsScope(c1) && c1.pending
  {
    hide PutScope, PostOnce, Finish, ScopeOf, Forget;
    PutScopeLoss(c, net, ScopeOf(c.attrs), 0, false);
    var (c1, s) := ApplyScope(c, net);
    if s.ScopeOn? {
      var (c2, p) := PostOnce(c1, net, sql, count, PurposeOf(tracked));
      if p.WasGone? { ForgetShowsScope(c2); } else { FinishedIsNoLoss(c2, p, sql, tracked); }
    }
  }

  lemma ForgetShowsScope(c: Conn)
    ensures ShowsScope(Forget(c)) && Forget(c).pending
    ensures LoseSession(c).0 == Forget(c)
  {
  }

  lemma FinishedIsNoLoss(c: Conn, p: Posted, sql: string, tracked: bool)
    requires !p.WasGone?
    ensures !Finish(c, p, sql, tracked).1.Lost?
  {
  }

  lemma SendLoss(c: Conn, net: Net, sql: string, count: int, tracked: bool, recover: bool)
    ensures var (c1, o) := Send(c, net, sql, count, tracked, recover); o.Lost? ==> ShowsScope(c1) && c1.pending
  {
    hide PostOnce, Finish, Resend, Forget;
    var (c1, p) := PostOnce(c, net, sql, count, PurposeOf(tracked));
    ForgetShowsScope(c1);
    if !p.WasGone? {
      FinishedIsNoLoss(c1, p, sql, tracked);
    } else if recover {
      ResendLoss(LoseSession(c1).0, net, sql, count, tracked);
    }
  }

  lemma ExecuteLoss(c: Conn, net: Net, sql: string, count: int, tracked: bool)
    ensures var (c1, o) := ExecuteAs(c, net, sql, count, tracked, true); o.Lost? ==> ShowsScope(c1) && c1.pending
  {
    hide PutScope, Send, ScopeOf;
    PutScopeLoss(c, net, ScopeOf(c.attrs), 0, false);
    if !c.pending {
      SendLoss(c, net, sql, count, tracked, true);
    } else {
      SendLoss(ApplyScope(c, net).0, net, sql, count, tracked, true);
    }
  }

  /** What a call of the application reports, where it sends a statement. */
  function Reported(c: Conn, net: Net, op: Op): Option<Outcome> {
    match op
    case OpRun(sql, count) => Some(RunSql(c, net, sql, count).1)
    case OpEndTran(commit) => OutcomeOf(EndTran(c, net, commit).1)
    case OpAutocommit(on) => OutcomeOf(SetAutocommit(c, net, on).1)
    case OpCatalog(name) => OutcomeOf(SetCatalog(c, net, name).1)
    case OpConnect(_, _, _) | OpDisconnect => None
  }

  function OutcomeOf(r: CallResult): Option<Outcome> {
    if r.Executed? then Some(r.outcome) else None
  }

  /** Whichever call reports a lost session, what is shown afterwards is the scope the next statement will be
      put on, whatever the application had moved to; and the attributes are what they were. */
  lemma {:induction false} ReportedLossShowsScope(c: Conn, net: Net, op: Op)
    requires c.connected
    requires var r := Reported(c, net, op); r.Some? && r.value.Lost?
    ensures var c1 := Step(c, net, op); ShowsScope(c1) && c1.pending && c1.attrs == c.attrs
  {
    hide ExecuteAs, Tracked, ShowsScope, Fit, AUTOCOMMIT_ON, AUTOCOMMIT_OFF;
    match op
    case OpRun(sql, count) => ExecuteLoss(c, net, sql, count, true);
    case OpEndTran(commit) => ExecuteLoss(c, net, EndTranSql(commit), -1, true);
    case OpAutocommit(on) => ExecuteLoss(c, net, AutocommitSql(on), -1, false);
    case OpCatalog(name) => ExecuteLoss(c, net, Fit("USE DATABASE " + name, 600), -1, true);
    case _ =>
  }

  /** A USE that succeeded, on the first session or on its replacement, is shown as the name the engine
      knows it by. Where the next statement runs is another matter: see Whereabouts. */
  lemma {:induction false} UseIsShown(c: Conn, net: Net, name: string, count: int)
    requires name != ""
    ensures var (c1, o) := RunSql(c, net, UseDatabase(name), count);
            Succeeded(o) ==> c1.database == Some(Denoted(name))
    ensures var (c1, o) := RunSql(c, net, UseSchema(name), count);
            Succeeded(o) ==> c1.schema == Some(Denoted(name))
  {
    hide ExecuteAs, Tracked, Ident, Denoted;
    IdentifierRoundTrip(name);
  }

  // The catalog attribute

  /** The attribute keeps the name as it was given, whatever it is. Its statement moves the session to the
      database of that name exactly where the name is a bare identifier in upper case, and short enough for the
      buffer: any other name is shown though the session is not there. */
  lemma {:induction false} AttributeIsVerbatim(c: Conn, net: Net, name: string)
    requires c.connected
    ensures var (c1, r) := SetCatalog(c, net, name); Succeeded(r.outcome) ==> c1.database == Some(name)
    ensures MovesTo(Fit("USE DATABASE " + name, 600)) == Some(name)
            <==> IsBare(name) && Upper(name) == name && |name| <= 586
  {
    hide ExecuteAs, MovesTo, Fit, IsBare, Upper;
    AttributeMoves(name);
  }

  /** An identifier that fits is where the session goes, under the name it denotes: shown as such exactly where it
      is bare and in upper case. A quoted one is shown with its quotes. */
  lemma {:induction false} IdentifiersAreVerbatim(name: string)
    requires IsIdentifier(name) && |name| <= 586
    ensures MovesTo(Fit("USE DATABASE " + name, 600)) == Some(Denoted(name))
    ensures Denoted(name) == name <==> IsBare(name) && Upper(name) == name
  {
    hide MovesTo, Upper, Undouble, QuotesPaired, DropTrailers, DropSpaces, TrackedName, Denoted, Fit;
    UseFits(name);
    HeadIsUse();
    assert Ident(name) == name;
    IdentEnds(name);
    IdentifierIsTarget("USE DATABASE ", name);
    DenotedIsShort(name);
    BareIsFolded(name);
  }

  lemma BareIsFolded(name: string)
    ensures IsBare(name) ==> !IsQuoted(name) && Denoted(name) == Upper(name)
  {
    hide Upper;
  }

  /** Four names that are shown though the session is elsewhere: one the engine folds, one it knows without the
      quotes, one that ends in a comment, and one that is two statements. */
  lemma ShownAsGiven()
    ensures MovesTo(Fit("USE DATABASE " + "sales", 600)) == Some("SALES")
    ensures MovesTo(Fit("USE DATABASE " + "\"mixedCase\"", 600)) == Some("mixedCase")
    ensures MovesTo(Fit("USE DATABASE " + "A--X", 600)) == Some("A")
    ensures MovesTo(Fit("USE DATABASE " + "A; SELECT 1", 600)) == Some("A")
  {
    hide MovesTo, Fit, Denoted, IsBare, IsQuoted, Upper;
    BareExample();
    QuotedExample();
    IdentifiersAreVerbatim("sales");
    IdentifiersAreVerbatim("\"mixedCase\"");
    AttributeIsMisled();
  }

  lemma BareExample()
    ensures IsBare("sales") && Denoted("sales") == "SALES"
  {
    assert Upper("sales") == "SALES";
  }

  lemma QuotedExample()
    ensures IsQuoted("\"mixedCase\"") && Denoted("\"mixedCase\"") == "mixedCase"
  {
    hide QuotesPaired, Undouble;
    assert Interior("\"mixedCase\"") == "mixedCase";
    Unquoted("mixedCase");
  }
}
