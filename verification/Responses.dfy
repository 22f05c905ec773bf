/** The driver's reading of an answer off the wire (src/proto.c, src/json.c). */
module Responses {
  import opened Text
  import opened Json
  import opened JsonParser
  import opened RequestJson
  import P = Protocol

  /** fl_json_get_string: a member's text, up to a NUL as any C string. */
  function GetText(v: Json, key: string): Option<string> {
    match Get(v, key)
    case Some(String(text)) => Some(CString(text))
    case _ => None
  }

  lemma TextEndsAtNul(v: Json, key: string, text: string, shown: string)
    requires Get(v, key) == Some(String(text))
    requires NulFree(shown) && shown <= text && (|shown| == |text| || text[|shown|] == '\0')
    ensures GetText(v, key) == Some(shown)
  {
    CStringIs(text, shown);
  }

  /** A member that is a boolean. */
  function GetFlag(v: Json, key: string): Option<bool> {
    match Get(v, key)
    case Some(Bool(on)) => Some(on)
    case _ => None
  }

  /** What the caller is given: the result sets, as text, or the error message. */
  function BodyOf(v: Json): string {
    if GetFlag(v, "success") == Some(true) then
      var sets := Get(v, "resultSets");
      if sets.None? then "" else Print(sets.value)
    else if GetText(v, "errorMessage").Some? then GetText(v, "errorMessage").value
    else if GetText(v, "error").Some? then GetText(v, "error").value
    else "unknown server error"
  }

  function TreeAnswer(status: int, v: Json): P.Answer {
    P.Reply(status, GetFlag(v, "success") == Some(true), GetText(v, "sessionId"), GetFlag(v, "newSession"), BodyOf(v))
  }

  /** What `post` makes of a status and a body. */
  function AnswerOf(status: int, body: string): P.Answer {
    var v := Parse(CString(body));
    if v.None? then P.Failed else TreeAnswer(status, v.value)
  }

  /** A transport: the status and the body that come back for a request's bytes, if any do. */
  type Wire = (P.Trace, string) -> Option<(int, string)>

  /** The network the protocol sees over a transport; the theorems on every network hold over every one. */
  function Over(wire: Wire): P.Net {
    (t: P.Trace, r: P.Request) =>
      Heard(wire(t, RequestText(r)))
  }

  function Heard(got: Option<(int, string)>): P.Answer {
    if got.None? then P.Failed else AnswerOf(got.value.0, got.value.1)
  }

  // Replies as an engine prints them

  function TextMember(key: string, text: Option<string>): seq<Member> {
    if text.None? then [] else [Member(key, String(text.value))]
  }

  function FlagMember(key: string, on: Option<bool>): seq<Member> {
    if on.None? then [] else [Member(key, Bool(on.value))]
  }

  /** A reply: whether it succeeded, the session it names and whether that is new, and its result sets or its
      message. */
  function ReplyTree(session: Option<string>, newSession: Option<bool>, sets: Option<Json>, message: string): Json {
    Object([Member("success", Bool(sets.Some?))] + TextMember("sessionId", session)
           + FlagMember("newSession", newSession)
           + [if sets.Some? then Member("resultSets", sets.value) else Member("errorMessage", String(message))])
  }

  lemma {:induction false} EscapedIsNulFree(s: string)
    requires NulFree(s)
    ensures NulFree(EscapeAll(s))
  {
    hide EscapeByte;
    if s != "" {
      EscapedIsNulFree(s[1..]);
      ByteIsNulFree(s[0]);
    }
  }

  lemma ByteIsNulFree(c: char)
    requires c != '\0'
    ensures NulFree(EscapeByte(c))
  {
    hide HexLower;
    if c < ' ' { LowerHexIsNoNul(c as int / 16, c as int % 16); }
  }

  lemma LowerHexIsNoNul(a: nat, b: nat)
    requires a < 16 && b < 16
    ensures HexLower(a) != '\0' && HexLower(b) != '\0'
  {
  }

  lemma QuotedIsNulFree(s: string)
    requires NulFree(s)
    ensures NulFree(Quote(s))
  {
    hide EscapeAll;
    EscapedIsNulFree(s);
  }

  /** Printable trees print without a NUL, so a reader of C strings gets all of them. */
  lemma {:induction false} PrintedIsNulFree(v: Json)
    requires Printable(v)
    ensures NulFree(Print(v))
    decreases v, 1
  {
    hide Quote;
    match v
    case String(text) => QuotedIsNulFree(text);
    case Array(items) => ItemsAreNulFree(v, items);
    case Object(members) => MembersAreNulFree(v, members);
    case Number(text) => NumberIsNulFree(text);
    case _ =>
  }

  lemma NumberIsNulFree(text: string)
    requires IsNumberText(text)
    ensures NulFree(text)
  {
  }

  lemma {:induction false} ItemsAreNulFree(v: Json, items: seq<Json>)
    requires forall i :: 0 <= i < |items| ==> items[i] < v && Printable(items[i])
    ensures NulFree(PrintItems(items))
    decreases v, 0, |items|
  {
    hide Print, Printable;
    if items != [] {
      PrintedIsNulFree(items[0]);
      ItemsAreNulFree(v, items[1..]);
    }
  }

  lemma {:induction false} MembersAreNulFree(v: Json, members: seq<Member>)
    requires forall i :: 0 <= i < |members| ==>
               members[i].value < v && NulFree(members[i].key) && Printable(members[i].value)
    ensures NulFree(PrintMembers(members))
    decreases v, 0, |members|
  {
    hide Print, Printable, Quote;
    if members != [] {
      PrintedIsNulFree(members[0].value);
      QuotedIsNulFree(members[0].key);
      MembersAreNulFree(v, members[1..]);
    }
  }

  /** Any printed tree is read as what its members say. */
  lemma {:induction false} WireAnswerIsRead(status: int, v: Json)
    requires Printable(v) && Nests(v, MAX_DEPTH)
    ensures AnswerOf(status, Print(v)) == TreeAnswer(status, v)
  {
    hide Parse, Print, TreeAnswer, Printable, Nests;
    ParseInvertsPrint(v);
    PrintedIsNulFree(v);
  }

  lemma OptionalMembers(key: string, text: Option<string>, on: Option<bool>, looked: string)
    requires NulFree(key)
    ensures Find(TextMember(key, text), looked)
            == if text.Some? && key == looked then Some(String(text.value)) else None
    ensures Find(FlagMember(key, on), looked) == if on.Some? && key == looked then Some(Bool(on.value)) else None
  {
    hide Find;
    FindNone(looked);
    if text.Some? { FindOne(Member(key, String(text.value)), looked); }
    if on.Some? { FindOne(Member(key, Bool(on.value)), looked); }
  }

  lemma ReplySays(session: Option<string>, newSession: Option<bool>, sets: Option<Json>, message: string, key: string)
    ensures Get(ReplyTree(session, newSession, sets, message), key) ==
              if key == "success" then Some(Bool(sets.Some?))
              else if key == "sessionId" && session.Some? then Some(String(session.value))
              else if key == "newSession" && newSession.Some? then Some(Bool(newSession.value))
              else if key == "resultSets" && sets.Some? then sets
              else if key == "errorMessage" && sets.None? then Some(String(message))
              else None
  {
    hide Find, TextMember, FlagMember;
    var ok := Member("success", Bool(sets.Some?));
    var last := if sets.Some? then Member("resultSets", sets.value) else Member("errorMessage", String(message));
    var (a, b) := (TextMember("sessionId", session), FlagMember("newSession", newSession));
    ReplyKeys();
    FindAppend([ok] + a + b, [last], key);
    FindAppend([ok] + a, b, key);
    FindAppend([ok], a, key);
    FindOne(ok, key);
    FindOne(last, key);
    OptionalMembers("sessionId", session, None, key);
    OptionalMembers("newSession", None, newSession, key);
  }

  /** A reply is read back field for field: the session it names, whether it is new, whether it succeeded, and
      the result sets or the message. */
  lemma {:induction false} ReplyRoundTrip(
      status: int, session: Option<string>, newSession: Option<bool>, sets: Option<Json>, message: string)
    requires (session.Some? ==> NulFree(session.value)) && NulFree(message)
    requires sets.Some? ==> Printable(sets.value) && Nests(sets.value, MAX_DEPTH - 1)
    ensures AnswerOf(status, Print(ReplyTree(session, newSession, sets, message)))
            == P.Reply(status, sets.Some?, session, newSession, if sets.Some? then Print(sets.value) else message)
  {
    hide ReplyTree, AnswerOf, Print, Get;
    var v := ReplyTree(session, newSession, sets, message);
    ReplyIsPrintable(session, newSession, sets, message);
    WireAnswerIsRead(status, v);
    ReplySays(session, newSession, sets, message, "success");
    ReplySays(session, newSession, sets, message, "sessionId");
    ReplySays(session, newSession, sets, message, "newSession");
    ReplySays(session, newSession, sets, message, "resultSets");
    ReplySays(session, newSession, sets, message, "errorMessage");
  }

  lemma ReplyKeys()
    ensures NulFree("success") && NulFree("sessionId") && NulFree("newSession")
    ensures NulFree("resultSets") && NulFree("errorMessage") && NulFree("error")
  {
  }

  lemma ReplyIsPrintable(session: Option<string>, newSession: Option<bool>, sets: Option<Json>, message: string)
    requires (session.Some? ==> NulFree(session.value)) && NulFree(message)
    requires sets.Some? ==> Printable(sets.value) && Nests(sets.value, MAX_DEPTH - 1)
    ensures Printable(ReplyTree(session, newSession, sets, message))
    ensures Nests(ReplyTree(session, newSession, sets, message), MAX_DEPTH)
  {
    ReplyKeys();
    var ms := ReplyTree(session, newSession, sets, message).members;
    forall i | 0 <= i < |ms| ensures NulFree(ms[i].key) && Printable(ms[i].value) && Nests(ms[i].value, MAX_DEPTH - 1) {
    }
  }

  function Given(key: string, v: Option<Json>): seq<Member> {
    if v.None? then [] else [Member(key, v.value)]
  }

  /** A reply with any of these members, of whatever kind. */
  function AnyReply(success: Option<Json>, sets: Option<Json>, message: Option<Json>, error: Option<Json>): Json {
    Object(Given("error", error) + Given("errorMessage", message) + Given("resultSets", sets)
           + Given("success", success))
  }

  predicate IsText(v: Option<Json>) {
    v.Some? && v.value.String?
  }

  lemma AnyReplySays(
      success: Option<Json>, sets: Option<Json>, message: Option<Json>, error: Option<Json>, key: string)
    ensures Get(AnyReply(success, sets, message, error), key) ==
              if key == "error" then error
              else if key == "errorMessage" then message
              else if key == "resultSets" then sets
              else if key == "success" then success
              else None
  {
    hide Find, Given;
    var (a, b, c, d) :=
      (Given("error", error), Given("errorMessage", message), Given("resultSets", sets), Given("success", success));
    ReplyKeys();
    FindAppend(a + b + c, d, key);
    FindAppend(a + b, c, key);
    FindAppend(a, b, key);
    GivenIsFound("error", error, key);
    GivenIsFound("errorMessage", message, key);
    GivenIsFound("resultSets", sets, key);
    GivenIsFound("success", success, key);
  }

  lemma GivenIsFound(key: string, v: Option<Json>, looked: string)
    requires NulFree(key)
    ensures Find(Given(key, v), looked) == if key == looked then v else None
  {
    hide Find;
    FindNone(looked);
    if v.Some? { FindOne(Member(key, v.value), looked); }
  }

  /** What the caller is given: of a success, the result sets; of anything else, the message under the one name, failing
      that under the other, failing that a word of the driver's own. */
  lemma {:induction false} BodyIsChosen(
      status: int, success: Option<Json>, sets: Option<Json>, message: Option<Json>, error: Option<Json>)
    requires var v := AnyReply(success, sets, message, error); Printable(v) && Nests(v, MAX_DEPTH)
    requires (IsText(message) ==> NulFree(message.value.text)) && (IsText(error) ==> NulFree(error.value.text))
    ensures var ok := success == Some(Bool(true));
            AnswerOf(status, Print(AnyReply(success, sets, message, error)))
            == P.Reply(status, ok, None, None,
                       if ok then (if sets.Some? then Print(sets.value) else "")
                       else if IsText(message) then message.value.text
                       else if IsText(error) then error.value.text
                       else "unknown server error")
  {
    hide AnyReply, AnswerOf, Print, Get, Printable, Nests;
    WireAnswerIsRead(status, AnyReply(success, sets, message, error));
    AnyReplySays(success, sets, message, error, "success");
    AnyReplySays(success, sets, message, error, "resultSets");
    AnyReplySays(success, sets, message, error, "errorMessage");
    AnyReplySays(success, sets, message, error, "error");
    AnyReplySays(success, sets, message, error, "sessionId");
    AnyReplySays(success, sets, message, error, "newSession");
  }

  predicate SaysGone(r: P.Request, status: int, body: string) {
    && r.session.Some? && status == 404
    && var v := Parse(CString(body));
       && v.Some? && GetFlag(v.value, "success") != Some(true)
       && (GetText(v.value, "sessionId").None? || GetText(v.value, "sessionId").value == "")
  }

  /** The session is taken for gone on exactly these answers: a 404 to a request that named one, with a body
      that parses, neither claims success nor names a session. */
  lemma GoneOnTheWire(r: P.Request, status: int, body: string)
    ensures P.Gone(r, AnswerOf(status, body)) <==> SaysGone(r, status, body)
  {
    hide Parse, Get;
  }

  /** One exchange, end to end: the engine reads off the wire the statement, the session the connection holds
      and whether it insists on it; and whatever bytes come back, the connection takes its session for gone on
      exactly the 404s above, and has no answer on exactly a failed transport or an unreadable body. */
  lemma {:induction false} PostsOverTheWire(c: P.Conn, wire: Wire, sql: string, count: int, purpose: P.Purpose)
    requires NulFree(sql) && (c.session.Some? ==> NulFree(c.session.value))
    ensures var r := P.RequestOf(c, sql, count, purpose);
            var (p, got) := (Parse(RequestText(r)), wire(c.trace, RequestText(r)));
            var (after, answer) := P.PostOnce(c, Over(wire), sql, count, purpose);
            && p.Some?
            && Get(p.value, "sql") == Some(String(sql))
            && Get(p.value, "sessionId") == (if c.session.Some? then Some(String(c.session.value)) else None)
            && Get(p.value, "requireSession")
               == (if c.session.Some? && c.support.Tracking? then Some(Bool(true)) else None)
            && after.trace == c.trace + [P.Post(r, Heard(got), c.attrs)]
            && (answer.NoAnswer? <==> got.None? || Parse(CString(got.value.1)).None?)
            && (answer.WasGone? <==> got.Some? && SaysGone(r, got.value.0, got.value.1))
  {
    hide Parse, Get, RequestText, BodyOf, GetText, GetFlag, SaysGone;
    var r := P.RequestOf(c, sql, count, purpose);
    RequestRoundTrip(r);
    var got := wire(c.trace, RequestText(r));
    if got.Some? { GoneOnTheWire(r, got.value.0, got.value.1); }
  }

  // The source's own loops

  /** fl_json_get. */
  method GetMember(v: Json, key: string) returns (r: Option<Json>)
    ensures r == Get(v, key)
  {
    if !v.Object? { return None; }
    var members := v.members;
    assert members[0..] == members;
    var i := 0;
    while i < |members|
      invariant 0 <= i <= |members|
      invariant Find(members[i..], key) == Get(v, key)
    {
      if CString(members[i].key) == key { return Some(members[i].value); }
      assert members[i..][1..] == members[i + 1..];
      i := i + 1;
    }
    return None;
  }

  /** fl_json_get_string. */
  method GetString(v: Json, key: string) returns (r: Option<string>)
    ensures r == GetText(v, key)
  {
    var node := GetMember(v, key);
    return if node.Some? && node.value.String? then Some(CString(node.value.text)) else None;
  }

  /** fl_json_get_bool; the fallback is the caller's. */
  method GetBool(v: Json, key: string, fallback: bool) returns (on: bool)
    ensures on == if GetFlag(v, key).Some? then GetFlag(v, key).value else fallback
  {
    var node := GetMember(v, key);
    return if node.Some? && node.value.Bool? then node.value.on else fallback;
  }

  /** What `post` does with a body: parsed, and its fields taken out. */
  method ReadAnswer(status: int, body: string) returns (a: P.Answer)
    ensures a == AnswerOf(status, body)
  {
    hide Parse, Get, Print;
    var root := ParseJson(CString(body));
    if root.None? { return P.Failed; }
    var v := root.value;
    var named := GetString(v, "sessionId");
    var success := GetBool(v, "success", false);
    var given;
    if success {
      var sets := GetMember(v, "resultSets");
      given := if sets.Some? then Print(sets.value) else "";
    } else {
      var message := GetString(v, "errorMessage");
      if message.None? { message := GetString(v, "error"); }
      given := if message.Some? then message.value else "unknown server error";
    }
    var started := GetMember(v, "newSession");
    var newSession := if started.Some? && started.value.Bool? then Some(started.value.on) else None;
    return P.Reply(status, success, named, newSession, given);
  }
}
