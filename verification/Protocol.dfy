/** One connection's session protocol, call by call (src/proto.c and its callers in src/connect.c and
    src/execute.c), as functions on the connection's state.

    The network is a function of everything that happened on the connection so far and of the
    request: it may fail, forget the session, replace it, refuse the statement or run it, whenever it
    likes. */
module Protocol {
  import opened Text
  import opened Identifiers
  import SessionNote

  type Book = SessionNote.Book

  const CLEAN: Book := SessionNote.Book(false, false)

  /** Who a statement belongs to: the connection's scope, the driver's mirror of an attribute, or the
      application. It is bookkeeping of the model; the engine sees the text only. */
  datatype Purpose = Scope | Driver | App

  /** The body of a POST /api/execute. A negative count declares nothing. */
  datatype Request = Request(sql: string, session: Option<string>, require: bool, count: int, purpose: Purpose)

  /** No usable answer, or the fields of the answer the driver reads; `body` is the result sets or the
      error message. */
  datatype Answer =
    | Failed
    | Reply(status: int, success: bool, session: Option<string>, newSession: Option<bool>, body: string)

  /** What a fresh session of the connection is put on. */
  datatype Attrs = Attrs(autocommit: bool, scopeDatabase: Option<string>, scopeSchema: Option<string>)

  /** What went over the wire: a connect, a post under the attributes then in force, a disconnect with
      the session it deleted, if any. */
  datatype Event =
    | Opened
    | Post(request: Request, answer: Answer, attrs: Attrs)
    | Closed(deleted: Option<string>)

  type Trace = seq<Event>
  type Net = (Trace, Request) -> Answer

  /** tracks_sessions: -1, 0 and 1. */
  datatype Support = Unknown | Older | Tracking

  datatype Conn = Conn(
    connected: bool, session: Option<string>, support: Support, book: Book, pending: bool,
    attrs: Attrs, database: Option<string>, schema: Option<string>, trace: Trace)

  const UNUSED: Conn :=
    Conn(false, None, Unknown, CLEAN, false, Attrs(true, None, None), None, None, [])

  // What an answer says

  predicate Named(name: Option<string>) {
    name.Some? && name.value != ""
  }

  /** The engine refused the session as one it does not hold. */
  predicate Gone(r: Request, a: Answer) {
    a.Reply? && r.session.Some? && a.status == 404 && !a.success && !Named(a.session)
  }

  /** The engine ran the statement in a fresh session in place of the one it was sent. */
  predicate Replaces(r: Request, a: Answer) {
    a.Reply? && r.session.Some? && Named(a.session) && a.newSession == Some(true)
  }

  // The session

  function ResetState(c: Conn): Conn {
    c.(book := CLEAN, pending := true, database := c.attrs.scopeDatabase, schema := c.attrs.scopeSchema)
  }

  function Forget(c: Conn): Conn {
    ResetState(c.(session := None))
  }

  function SessionReset(c: Conn): Conn {
    c.(session := None, support := Unknown, book := CLEAN, pending := false)
  }

  datatype Loss = LostTransaction | LostContext | LostAgain

  /** The session forgotten, and why its statement may not simply go again. */
  function LoseSession(c: Conn): (Conn, Option<Loss>) {
    (Forget(c),
     if c.book.inTransaction then Some(LostTransaction)
     else if c.book.dirty then Some(LostContext)
     else None)
  }

  function Absorb(c: Conn, a: Answer, sent: bool): Conn
    requires a.Reply?
  {
    if !Named(a.session) then c
    else
      var named := c.(session := a.session);
      if a.newSession.Some? then
        var known := named.(support := Tracking);
        if sent && a.newSession.value then ResetState(known) else known
      else if named.support.Unknown? then named.(support := Older)
      else named
  }

  // Posting

  datatype Posted = WasGone | NoAnswer | Got(success: bool, body: string)

  function RequestOf(c: Conn, sql: string, count: int, purpose: Purpose): Request {
    Request(sql, c.session, c.session.Some? && c.support.Tracking?, count, purpose)
  }

  function PostOnce(c: Conn, net: Net, sql: string, count: int, purpose: Purpose): (Conn, Posted) {
    var r := RequestOf(c, sql, count, purpose);
    var a := net(c.trace, r);
    var sent := c.(trace := c.trace + [Post(r, a, c.attrs)]);
    if a.Failed? then (sent, NoAnswer)
    else if Gone(r, a) then (sent, WasGone)
    else (Absorb(sent, a, r.session.Some?), Got(a.success, a.body))
  }

  // The scope

  const AUTOCOMMIT_OFF := "ALTER SESSION SET AUTOCOMMIT = FALSE"
  const AUTOCOMMIT_ON := "ALTER SESSION SET AUTOCOMMIT = TRUE"

  function UseDatabase(name: string): string {
    "USE DATABASE " + Ident(name)
  }

  function UseSchema(name: string): string {
    "USE SCHEMA " + Ident(name)
  }

  /** The statements that put a fresh session on the connection's scope. */
  function ScopeOf(attrs: Attrs): (r: seq<string>)
    ensures |r| <= 3
  {
    (if Named(attrs.scopeDatabase) then [UseDatabase(attrs.scopeDatabase.value)] else [])
    + (if Named(attrs.scopeSchema) then [UseSchema(attrs.scopeSchema.value)] else [])
    + (if !attrs.autocommit then [AUTOCOMMIT_OFF] else [])
  }

  datatype Scoped = ScopeOn | ScopeRefused(body: string) | ScopeLost(loss: Loss) | ScopeFailed

  /** The scope from its i-th statement on; a session lost part way starts it over, once. */
  function PutScope(c: Conn, net: Net, scope: seq<string>, i: nat, restarted: bool): (r: (Conn, Scoped))
    requires i <= |scope|
    ensures r.0.attrs == c.attrs && r.0.connected == c.connected
    decreases !restarted, |scope| - i
  {
    if i == |scope| then (c, ScopeOn)
    else
      var (c1, p) := PostOnce(c, net, scope[i], -1, Scope);
      match p
      case WasGone =>
        if restarted then (Forget(c1), ScopeLost(LostAgain))
        else
          var (c2, loss) := LoseSession(c1);
          if loss.Some? then (c2, ScopeLost(loss.value)) else PutScope(c2, net, scope, 0, true)
      case NoAnswer => (c1, ScopeFailed)
      case Got(success, body) =>
        if success then PutScope(c1, net, scope, i + 1, restarted) else (c1, ScopeRefused(body))
  }

  function ApplyScope(c: Conn, net: Net): (r: (Conn, Scoped))
    ensures r.0.attrs == c.attrs && r.0.connected == c.connected
  {
    var (c1, s) := PutScope(c, net, ScopeOf(c.attrs), 0, false);
    (if s.ScopeOn? then c1.(pending := false) else c1, s)
  }

  // Executing

  /** What the caller gets: the engine's answer to the statement, its refusal of the scope, a lost
      session, or a transport failure. */
  datatype Outcome = Answered(success: bool, body: string) | Unscoped(body: string) | Lost(loss: Loss) | Transport

  function ScopeFailure(s: Scoped): Outcome
    requires !s.ScopeOn?
  {
    match s
    case ScopeRefused(body) => Unscoped(body)
    case ScopeLost(loss) => Lost(loss)
    case ScopeFailed => Transport
  }

  function Finish(c: Conn, p: Posted, sql: string, tracked: bool): (Conn, Outcome)
    requires !p.WasGone?
  {
    match p
    case NoAnswer => (c, Transport)
    case Got(success, body) =>
      (if success && tracked then c.(book := SessionNote.Note(c.book, sql, c.attrs.autocommit)) else c,
       Answered(success, body))
  }

  function PurposeOf(tracked: bool): Purpose {
    if tracked then App else Driver
  }

  /** The statement on a session that has its scope. */
  function Send(c: Conn, net: Net, sql: string, count: int, tracked: bool, recover: bool): (r: (Conn, Outcome))
    ensures r.0.attrs == c.attrs && r.0.connected == c.connected
  {
    var (c1, p) := PostOnce(c, net, sql, count, PurposeOf(tracked));
    if !p.WasGone? then Finish(c1, p, sql, tracked)
    else if !recover then (Forget(c1), Lost(LostAgain))
    else
      var (c2, loss) := LoseSession(c1);
      if loss.Some? then (c2, Lost(loss.value)) else Resend(c2, net, sql, count, tracked)
  }

  /** The statement once more, on a fresh session put on the scope. */
  function Resend(c: Conn, net: Net, sql: string, count: int, tracked: bool): (r: (Conn, Outcome))
    ensures r.0.attrs == c.attrs && r.0.connected == c.connected
  {
    var (c1, s) := ApplyScope(c, net);
    if !s.ScopeOn? then (c1, ScopeFailure(s))
    else
      var (c2, p) := PostOnce(c1, net, sql, count, PurposeOf(tracked));
      if p.WasGone? then (Forget(c2), Lost(LostAgain)) else Finish(c2, p, sql, tracked)
  }

  /** fl_proto_execute_as. */
  function ExecuteAs(c: Conn, net: Net, sql: string, count: int, tracked: bool, recover: bool): (r: (Conn, Outcome))
    ensures r.0.attrs == c.attrs && r.0.connected == c.connected
  {
    if !c.pending then Send(c, net, sql, count, tracked, recover)
    else
      var (c1, s) := ApplyScope(c, net);
      if s.ScopeOn? then Send(c1, net, sql, count, tracked, recover) else (c1, ScopeFailure(s))
  }

  // The calls that reach it

  predicate Succeeded(o: Outcome) {
    o.Answered? && o.success
  }

  function Track(c: Conn, t: Tracking): Conn {
    match t
    case Untracked => c
    case Database(name) => c.(database := Some(name))
    case Schema(name) => c.(schema := Some(name))
  }

  /** run_sql: the statement, then the catalog the application will be shown. */
  function RunSql(c: Conn, net: Net, sql: string, count: int): (Conn, Outcome) {
    var (c1, o) := ExecuteAs(c, net, sql, count, true, true);
    (if Succeeded(o) then Track(c1, Tracked(sql)) else c1, o)
  }

  function EndTranSql(commit: bool): string {
    if commit then "COMMIT" else "ROLLBACK"
  }

  function AutocommitSql(on: bool): string {
    if on then AUTOCOMMIT_ON else AUTOCOMMIT_OFF
  }

  /** What a call answers before or instead of a statement. */
  datatype CallResult = Executed(outcome: Outcome) | NotOpen | Done

  function EndTran(c: Conn, net: Net, commit: bool): (Conn, CallResult) {
    if !c.connected then (c, NotOpen)
    else
      var (c1, o) := ExecuteAs(c, net, EndTranSql(commit), -1, true, true);
      (c1, Executed(o))
  }

  /** SQLSetConnectAttr(SQL_ATTR_AUTOCOMMIT). */
  function SetAutocommit(c: Conn, net: Net, wanted: bool): (Conn, CallResult) {
    if c.connected && wanted != c.attrs.autocommit then
      var (c1, o) := ExecuteAs(c, net, AutocommitSql(wanted), -1, false, true);
      (if Succeeded(o) then c1.(attrs := c1.attrs.(autocommit := wanted)) else c1, Executed(o))
    else (c.(attrs := c.attrs.(autocommit := wanted)), Done)
  }

  /** SQLSetConnectAttr(SQL_ATTR_CURRENT_CATALOG). */
  function SetCatalog(c: Conn, net: Net, name: string): (Conn, CallResult) {
    if !c.connected then (c.(database := Some(name)), Done)
    else
      var (c1, o) := ExecuteAs(c, net, Fit("USE DATABASE " + name, 600), -1, true, true);
      (if Succeeded(o) then c1.(database := Some(name)) else c1, Executed(o))
  }

  /** fl_proto_release. */
  function Release(c: Conn): Conn {
    c.(session := None,
       trace := c.trace + [Closed(if c.session.Some? && c.support.Tracking? then c.session else None)])
  }

  function Disconnect(c: Conn): (Conn, CallResult) {
    if !c.connected then (c, NotOpen) else (Release(c.(connected := false)), Done)
  }

  function OrNone(name: Option<string>): Option<string> {
    if Named(name) then name else None
  }

  /** One statement of the scope a connection opens on; a failure closes it again. */
  function OpenWith(c: Conn, net: Net, sql: string): (Conn, Outcome) {
    var (c1, o) := ExecuteAs(c, net, sql, -1, false, false);
    (if Succeeded(o) then c1 else Release(c1.(connected := false)), o)
  }

  function ConnectAutocommit(c: Conn, net: Net): (Conn, CallResult) {
    if c.attrs.autocommit then (c, Done)
    else
      var (c1, o) := OpenWith(c, net, AUTOCOMMIT_OFF);
      (c1, if Succeeded(o) then Done else Executed(o))
  }

  function ConnectSchema(c: Conn, net: Net): (Conn, CallResult) {
    if !Named(c.attrs.scopeSchema) then ConnectAutocommit(c, net)
    else
      var (c1, o) := OpenWith(c, net, UseSchema(c.attrs.scopeSchema.value));
      if Succeeded(o) then ConnectAutocommit(c1.(schema := c1.attrs.scopeSchema), net) else (c1, Executed(o))
  }

  function ConnectDatabase(c: Conn, net: Net): (Conn, CallResult) {
    if !Named(c.attrs.scopeDatabase) then ConnectSchema(c, net)
    else
      var (c1, o) := OpenWith(c, net, UseDatabase(c.attrs.scopeDatabase.value));
      if Succeeded(o) then ConnectSchema(c1.(database := c1.attrs.scopeDatabase), net) else (c1, Executed(o))
  }

  /** A connection about to put its scope on: no session yet, the scope as the caller named it. */
  function Opening(c: Conn, database: Option<string>, schema: Option<string>): Conn {
    SessionReset(c.(connected := true,
                    trace := c.trace + [Opened],
                    attrs := Attrs(c.attrs.autocommit, OrNone(database), OrNone(schema))))
  }

  /** do_connect, behind the check that the connection is not open already; `healthy` is what the
      probe of the server said. */
  function Connect(c: Conn, net: Net, healthy: bool, database: Option<string>, schema: Option<string>)
    : (Conn, CallResult)
  {
    if c.connected || !healthy then (c, NotOpen) else ConnectDatabase(Opening(c, database, schema), net)
  }

  // Runs

  datatype Op =
    | OpConnect(healthy: bool, database: Option<string>, schema: Option<string>)
    | OpDisconnect
    | OpRun(sql: string, count: int)
    | OpEndTran(commit: bool)
    | OpAutocommit(on: bool)
    | OpCatalog(name: string)

  /** One call. The driver manager lets no statement through to a closed connection. */
  function Step(c: Conn, net: Net, op: Op): Conn {
    match op
    case OpConnect(healthy, database, schema) => Connect(c, net, healthy, database, schema).0
    case OpDisconnect => Disconnect(c).0
    case OpRun(sql, count) => if c.connected then RunSql(c, net, sql, count).0 else c
    case OpEndTran(commit) => EndTran(c, net, commit).0
    case OpAutocommit(on) => SetAutocommit(c, net, on).0
    case OpCatalog(name) => SetCatalog(c, net, name).0
  }

  function Run(c: Conn, net: Net, ops: seq<Op>): Conn
    decreases ops
  {
    if ops == [] then c else Run(Step(c, net, ops[0]), net, ops[1..])
  }
}
