/** What one execute call puts on the wire, against any network (src/proto.c). */
module Calls {
  import opened Text
  import opened Protocol
  import SessionNote

  predicate ScopeOnly(t: Trace) {
    forall i :: 0 <= i < |t| ==> t[i].Post? && t[i].request.purpose.Scope?
  }

  /** At most one post, of this statement. */
  predicate StatementOnly(t: Trace, sql: string, purpose: Purpose) {
    |t| <= 1 && (t != [] ==> t[0].Post? && t[0].request.sql == sql && t[0].request.purpose == purpose)
  }

  predicate IsGone(e: Event) {
    e.Post? && Gone(e.request, e.answer)
  }

  /** The engine may have run what was posted. */
  predicate MayHaveRun(t: Trace) {
    t != [] && !IsGone(t[0])
  }

  /** How often the session was reported gone. */
  function Losses(t: Trace): nat {
    if t == [] then 0 else (if IsGone(t[0]) then 1 else 0) + Losses(t[1..])
  }

  lemma {:induction false} LossesAppend(a: Trace, b: Trace)
    ensures Losses(a + b) == Losses(a) + Losses(b)
  {
    if a == [] {
      assert a + b == b;
    } else {
      LossesAppend(a[1..], b);
      assert (a + b)[1..] == a[1..] + b;
    }
  }

  /** A lost session is reported as a lost transaction or context only if the connection had one. */
  predicate LossFits(book: Book, loss: Loss) {
    match loss
    case LostTransaction => book.inTransaction
    case LostContext => book.dirty && !book.inTransaction
    case LostAgain => true
  }

  lemma PostIsLogged(c: Conn, net: Net, sql: string, count: int, purpose: Purpose) returns (e: Event)
    ensures var (c1, p) := PostOnce(c, net, sql, count, purpose);
            && e.Post? && e.request == RequestOf(c, sql, count, purpose)
            && c1.trace == c.trace + [e]
            && (p.WasGone? <==> IsGone(e))
            && (p.NoAnswer? <==> e.answer.Failed?)
            && (p.Got? ==> e.answer.Reply? && p == Got(e.answer.success, e.answer.body))
            && (c1.book == c.book || c1.book == CLEAN)
            && c1.attrs == c.attrs
            && (p.WasGone? ==> c1.book == c.book)
  {
    var r := RequestOf(c, sql, count, purpose);
    e := Post(r, net(c.trace, r), c.attrs);
  }

  /** Putting the scope on posts scope statements only, and gives up on a lost session after two. */
  lemma {:induction false} PutScopePosts(c: Conn, net: Net, scope: seq<string>, i: nat, restarted: bool)
    returns (ext: Trace)
    requires i <= |scope|
    ensures var (c1, s) := PutScope(c, net, scope, i, restarted);
            && c1.trace == c.trace + ext && ScopeOnly(ext)
            && |ext| <= |scope| - i + (if restarted then 0 else |scope|)
            && (s.ScopeLost? ==> LossFits(c.book, s.loss))
            && (s == ScopeLost(LostAgain) ==> Losses(ext) >= if restarted then 1 else 2)
            && (c1.book == c.book || c1.book == CLEAN)
    decreases !restarted, |scope| - i
  {
    hide PostOnce;
    if i == |scope| {
      ext := [];
    } else {
      var (c1, p) := PostOnce(c, net, scope[i], -1, Scope);
      var e := PostIsLogged(c, net, scope[i], -1, Scope);
      var more := [];
      if p.WasGone? && !restarted && LoseSession(c1).1.None? {
        more := PutScopePosts(LoseSession(c1).0, net, scope, 0, true);
      } else if p.Got? && p.success {
        more := PutScopePosts(c1, net, scope, i + 1, restarted);
      }
      ext := [e] + more;
      LossesAppend([e], more);
      assert c.trace + [e] + more == c.trace + ext;
    }
  }

  lemma {:induction false} ApplyScopePosts(c: Conn, net: Net) returns (ext: Trace)
    ensures var (c1, s) := ApplyScope(c, net);
            && c1.trace == c.trace + ext && ScopeOnly(ext)
            && |ext| <= 2 * |ScopeOf(c.attrs)|
            && (s.ScopeLost? ==> LossFits(c.book, s.loss))
            && (s == ScopeLost(LostAgain) ==> Losses(ext) >= 2)
            && (c1.book == c.book || c1.book == CLEAN)
  {
    hide PutScope, ScopeOf;
    ext := PutScopePosts(c, net, ScopeOf(c.attrs), 0, false);
  }

  /** The posts of one call: scope, statement, scope again, statement again. */
  datatype Posts = Posts(before: Trace, first: Trace, between: Trace, second: Trace)

  function All(p: Posts): Trace {
    p.before + p.first + p.between + p.second
  }

  /** Which posts a call may make. */
  predicate CallShape(p: Posts, k: nat, sql: string, purpose: Purpose) {
    && ScopeOnly(p.before) && |p.before| <= 2 * k
    && ScopeOnly(p.between) && |p.between| <= 2 * k
    && StatementOnly(p.first, sql, purpose)
    && StatementOnly(p.second, sql, purpose)
    && (p.between != [] || p.second != [] ==> p.first != [] && IsGone(p.first[0]))
  }

  /** The engine ran the one statement of `t` and answered this. */
  predicate Answers(t: Trace, success: bool, body: string) {
    && MayHaveRun(t)
    && t[0].Post? && t[0].answer.Reply?
    && t[0].answer.success == success && t[0].answer.body == body
  }

  predicate EndsFailed(t: Trace) {
    t != [] && t[|t| - 1].Post? && t[|t| - 1].answer.Failed?
  }

  /** What the caller is told against what happened to the statement. */
  predicate TellsTruth(p: Posts, o: Outcome) {
    match o
    case Answered(success, body) => Answers(if p.second != [] then p.second else p.first, success, body)
    case Unscoped(_) => !MayHaveRun(p.first) && !MayHaveRun(p.second)
    case Lost(_) => !MayHaveRun(p.first) && !MayHaveRun(p.second)
    case Transport => EndsFailed(All(p))
  }

  lemma {:induction false} ResendPosts(c: Conn, net: Net, sql: string, count: int, tracked: bool)
    returns (between: Trace, second: Trace)
    ensures var (c1, o) := Resend(c, net, sql, count, tracked);
            && c1.trace == c.trace + between + second
            && ScopeOnly(between) && |between| <= 2 * |ScopeOf(c.attrs)|
            && StatementOnly(second, sql, PurposeOf(tracked))
            && (o.Answered? ==> Answers(second, o.success, o.body))
            && (o.Lost? || o.Unscoped? ==> !MayHaveRun(second))
            && (o.Transport? ==> EndsFailed(between + second))
            && (o.Lost? ==> LossFits(c.book, o.loss))
            && (o == Lost(LostAgain) ==> Losses(between + second) >= 1)
  {
    hide PutScope, ScopeOf, PostOnce, ApplyScope, SessionNote.Note, CLEAN;
    between := ApplyScopePosts(c, net);
    var (c1, s) := ApplyScope(c, net);
    second := [];
    if s.ScopeOn? {
      var (c2, p) := PostOnce(c1, net, sql, count, PurposeOf(tracked));
      var e := PostIsLogged(c1, net, sql, count, PurposeOf(tracked));
      second := [e];
      LossesAppend(between, second);
      if p.Got? { assert Resend(c, net, sql, count, tracked).1 == Answered(p.success, p.body); }
    } else {
      assert between + second == between;
      if s.ScopeFailed? { ScopeFailureIsLast(c, net, between); }
    }
  }

  /** A transport failure ends the scope. */
  lemma ScopeFailureIsLast(c: Conn, net: Net, ext: Trace)
    requires ApplyScope(c, net).1.ScopeFailed? && ApplyScope(c, net).0.trace == c.trace + ext
    ensures EndsFailed(ext)
  {
    PutScopeFails(c, net, ScopeOf(c.attrs), 0, false, ext);
  }

  lemma PutScopeFails(c: Conn, net: Net, scope: seq<string>, i: nat, restarted: bool, ext: Trace)
    requires i <= |scope|
    requires PutScope(c, net, scope, i, restarted).1.ScopeFailed?
    requires PutScope(c, net, scope, i, restarted).0.trace == c.trace + ext
    ensures EndsFailed(ext)
    decreases !restarted, |scope| - i
  {
    hide PostOnce;
    var (c1, p) := PostOnce(c, net, scope[i], -1, Scope);
    var e := PostIsLogged(c, net, scope[i], -1, Scope);
    if p.NoAnswer? {
      assert (c.trace + ext)[|c.trace|] == e;
      assert ext == [e];
    } else {
      var d := if p.WasGone? then LoseSession(c1).0 else c1;
      var j := if p.WasGone? then 0 else i + 1;
      var more := PutScopePosts(d, net, scope, j, p.WasGone? || restarted);
      assert c.trace + ext == c.trace + [e] + more;
      assert ext == [e] + more by {
        assert (c.trace + ext)[|c.trace|..] == ext;
        assert (c.trace + [e] + more)[|c.trace|..] == [e] + more;
      }
      PutScopeFails(d, net, scope, j, p.WasGone? || restarted, more);
    }
  }

  lemma SendPosts(c: Conn, net: Net, sql: string, count: int, tracked: bool, recover: bool) returns (p: Posts)
    ensures var (c1, o) := Send(c, net, sql, count, tracked, recover);
            && p.before == [] && p.first + p.between + p.second == All(p)
            && c1.trace == c.trace + All(p)
            && CallShape(p, |ScopeOf(c.attrs)|, sql, PurposeOf(tracked))
            && TellsTruth(p, o)
            && (o.Lost? ==> LossFits(c.book, o.loss))
            && (recover && o == Lost(LostAgain) ==> Losses(All(p)) >= 2)
  {
    hide PutScope, ScopeOf, PostOnce, ApplyScope, Resend, SessionNote.Note, All, Losses, EndsFailed;
    var (c1, posted) := PostOnce(c, net, sql, count, PurposeOf(tracked));
    var e := PostIsLogged(c, net, sql, count, PurposeOf(tracked));
    var between, second := [], [];
    if posted.WasGone? && recover && LoseSession(c1).1.None? {
      between, second := ResendPosts(LoseSession(c1).0, net, sql, count, tracked);
    }
    p := Assembled(e, between, second, c.trace);
    if posted.Got? { assert Send(c, net, sql, count, tracked, recover).1 == Answered(posted.success, posted.body); }
  }

  lemma Assembled(e: Event, between: Trace, second: Trace, trace: Trace) returns (p: Posts)
    ensures p == Posts([], [e], between, second)
    ensures p.first + p.between + p.second == All(p)
    ensures trace + [e] + between + second == trace + All(p)
    ensures between == [] && second == [] ==> trace + [e] == trace + All(p)
    ensures Losses(All(p)) == Losses([e]) + Losses(between + second)
    ensures IsGone(e) ==> Losses([e]) == 1
    ensures EndsFailed(between + second) ==> EndsFailed(All(p))
    ensures between + second == [] && e.Post? && e.answer.Failed? ==> EndsFailed(All(p))
  {
    p := Posts([], [e], between, second);
    assert All(p) == [e] + (between + second);
    LossesAppend([e], between + second);
  }

  /** One execute call posts its statement at most twice, the second time only after the engine
      refused the session and so ran nothing: the statement runs at most once. With k scope statements
      the call makes at most 4k + 2 posts. What the caller is told fits what happened, and a lost
      session is reported only if it held something or was lost twice within the call. */
  lemma AtMostOnce(c: Conn, net: Net, sql: string, count: int, tracked: bool, recover: bool) returns (p: Posts)
    ensures var (c1, o) := ExecuteAs(c, net, sql, count, tracked, recover);
            var k := |ScopeOf(c.attrs)|;
            && c1.trace == c.trace + All(p)
            && CallShape(p, k, sql, PurposeOf(tracked))
            && |All(p)| <= 4 * k + 2 <= 14
            && !(MayHaveRun(p.first) && MayHaveRun(p.second))
            && TellsTruth(p, o)
            && (o.Lost? ==> LossFits(c.book, o.loss))
            && (recover && o == Lost(LostAgain) ==> Losses(All(p)) >= 2)
  {
    hide PutScope, ScopeOf, ApplyScope, Send;
    if !c.pending {
      p := SendPosts(c, net, sql, count, tracked, recover);
    } else {
      var before := ApplyScopePosts(c, net);
      var (d, s) := ApplyScope(c, net);
      if s.ScopeOn? {
        var q := SendPosts(d, net, sql, count, tracked, recover);
        p := Preceded(before, q, c.trace);
      } else {
        p := Posts(before, [], [], []);
        assert All(p) == before;
        if s.ScopeFailed? { ScopeFailureIsLast(c, net, before); }
      }
    }
  }

  lemma Preceded(before: Trace, q: Posts, trace: Trace) returns (p: Posts)
    requires q.before == [] && q.first + q.between + q.second == All(q)
    ensures p == q.(before := before)
    ensures All(p) == before + All(q) && Losses(All(p)) == Losses(before) + Losses(All(q))
    ensures trace + before + All(q) == trace + All(p)
    ensures EndsFailed(All(q)) ==> EndsFailed(All(p))
  {
    p := q.(before := before);
    assert All(p) == before + All(q);
    LossesAppend(before, All(q));
  }

  /** A disconnect closes an open connection once, and deletes its session if the engine knows sessions; a closed one it
      leaves as it was. */
  lemma DisconnectEnds(c: Conn)
    ensures var (c1, r) := Disconnect(c);
            if c.connected then
              && r == Done && !c1.connected && c1.session == None
              && c1 == c.(connected := false, session := None, trace := c1.trace)
              && |c1.trace| == |c.trace| + 1 && c1.trace[..|c.trace|] == c.trace
              && c1.trace[|c.trace|].Closed?
              && (c1.trace[|c.trace|].deleted == if c.support.Tracking? then c.session else None)
            else r == NotOpen && c1 == c
    ensures Disconnect(Disconnect(c).0) == (Disconnect(c).0, NotOpen)
  {
  }

  /** A connect on a connection that is open, or to a server that is not there, leaves everything as it was. */
  lemma ConnectIsRefused(c: Conn, net: Net, healthy: bool, database: Option<string>, schema: Option<string>)
    ensures c.connected ==> Connect(c, net, healthy, database, schema) == (c, NotOpen)
    ensures !healthy ==> Connect(c, net, healthy, database, schema) == (c, NotOpen)
  {
    hide ConnectDatabase;
  }

  /** A connect that did not come up has closed and released what it opened. */
  lemma FailedConnectCloses(c: Conn, net: Net, database: Option<string>, schema: Option<string>)
    requires !c.connected
    ensures var (c1, r) := Connect(c, net, true, database, schema);
            && (c1.connected <==> r == Done)
            && (!c1.connected ==>
                  r.Executed? && c1.session == None && c1.trace != [] && c1.trace[|c1.trace| - 1].Closed?)
  {
    hide ExecuteAs, UseDatabase, UseSchema;
  }
}
