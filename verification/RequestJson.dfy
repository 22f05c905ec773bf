/** The body of a request as it goes over the wire, read back by the parser (src/proto.c, src/json.c). */
module RequestJson {
  import opened Text
  import opened Json
  import opened Protocol
  import opened StrBuf

  // Lookups

  /** fl_json_get: the first member with that key, up to a NUL in it as any C string. */
  function Get(v: Json, key: string): Option<Json> {
    if v.Object? then Find(v.members, key) else None
  }

  function Find(members: seq<Member>, key: string): Option<Json> {
    if members == [] then None
    else if CString(members[0].key) == key then Some(members[0].value)
    else Find(members[1..], key)
  }

  /** The key ends where C ends it. */
  predicate IsKey(s: string, key: string) {
    NulFree(key) && key <= s && (|key| == |s| || s[|key|] == '\0')
  }

  /** A lookup finds the first member of that key, and none where there is no such member. */
  lemma {:induction false} FindIsFirst(members: seq<Member>, key: string)
    ensures (forall i :: 0 <= i < |members| ==> !IsKey(members[i].key, key)) ==> Find(members, key) == None
    ensures forall i :: 0 <= i < |members| && IsKey(members[i].key, key)
                        && (forall j :: 0 <= j < i ==> !IsKey(members[j].key, key)) ==>
              Find(members, key) == Some(members[i].value)
  {
    if members != [] {
      CStringIs(members[0].key, key);
      FindIsFirst(members[1..], key);
      forall i | 1 <= i < |members| ensures members[1..][i - 1] == members[i] {}
    }
  }

  // The request

  function SessionMembers(r: Request): seq<Member> {
    if r.session.None? then []
    else [Member("sessionId", String(r.session.value))]
         + if r.require then [Member("requireSession", Bool(true))] else []
  }

  function CountMembers(r: Request): seq<Member> {
    if r.count >= 0 then [Member("multiStatementCount", Number(Digits(r.count)))] else []
  }

  /** What the request says. */
  function RequestTree(r: Request): Json {
    Object([Member("sql", String(r.sql))] + SessionMembers(r) + CountMembers(r) + [Member("autoCommit", Bool(true))])
  }

  function SessionText(r: Request): string {
    if r.session.None? then ""
    else ",\"sessionId\":" + Quote(r.session.value) + if r.require then ",\"requireSession\":true" else ""
  }

  function CountText(r: Request): string {
    if r.count >= 0 then ",\"multiStatementCount\":" + Digits(r.count) else ""
  }

  /** The bytes build_request_json puts together. */
  function RequestText(r: Request): string {
    "{\"sql\":" + Quote(r.sql) + SessionText(r) + CountText(r) + ",\"autoCommit\":true}"
  }

  /** Members after the first, each with its comma. */
  function Following(members: seq<Member>): string {
    if members == [] then ""
    else "," + Quote(members[0].key) + ":" + Print(members[0].value) + Following(members[1..])
  }

  lemma {:induction false} PrintMembersFollowing(m: Member, rest: seq<Member>)
    ensures PrintMembers([m] + rest) == Quote(m.key) + ":" + Print(m.value) + Following(rest)
    decreases |rest|
  {
    hide Quote, Print;
    assert ([m] + rest)[1..] == rest;
    if rest == [] {
      var s := Quote(m.key) + ":" + Print(m.value);
      assert s + "" == s;
    } else {
      PrintMembersFollowing(rest[0], rest[1..]);
      assert [rest[0]] + rest[1..] == rest;
      var first := Quote(rest[0].key) + ":" + Print(rest[0].value);
      assert "," + (first + Following(rest[1..])) == Following(rest);
    }
  }

  lemma {:induction false} FollowingAppend(a: seq<Member>, b: seq<Member>)
    ensures Following(a + b) == Following(a) + Following(b)
  {
    hide Quote, Print;
    if a == [] {
      assert a + b == b && "" + Following(b) == Following(b);
    } else {
      FollowingAppend(a[1..], b);
      assert (a + b)[1..] == a[1..] + b && (a + b)[0] == a[0];
      var first := "," + Quote(a[0].key) + ":" + Print(a[0].value);
      assert first + (Following(a[1..]) + Following(b)) == first + Following(a[1..]) + Following(b);
    }
  }

  lemma OneFollowing(key: string, v: Json)
    ensures Following([Member(key, v)]) == "," + Quote(key) + ":" + Print(v)
  {
    hide Quote, Print;
    var s := "," + Quote(key) + ":" + Print(v);
    assert [Member(key, v)][1..] == [] && s + "" == s;
  }

  /** Keys without anything to escape. */
  lemma {:induction false} PlainQuote(s: string)
    requires forall i :: 0 <= i < |s| ==> IsLetter(s[i])
    ensures EscapeAll(s) == s
  {
    if s != "" {
      PlainQuote(s[1..]);
      assert EscapeByte(s[0]) == [s[0]];
      assert s == [s[0]] + s[1..];
    }
  }

  lemma KeyFollows(key: string, v: Json, text: string)
    requires forall i :: 0 <= i < |key| ==> IsLetter(key[i])
    requires text == Print(v)
    ensures Following([Member(key, v)]) == ",\"" + key + "\":" + text
  {
    hide Print, EscapeAll;
    PlainQuote(key);
    OneFollowing(key, v);
    assert "," + ("\"" + key + "\"") + ":" + text == ",\"" + key + "\":" + text;
  }

  lemma {:induction false} IdFollows(id: string)
    ensures Following([Member("sessionId", String(id))]) == ",\"sessionId\":" + Quote(id)
  {
    hide Print, Quote, Following;
    PrintedScalars(id);
    KeyFollows("sessionId", String(id), Quote(id));
    assert ",\"" + "sessionId" + "\":" == ",\"sessionId\":";
  }

  lemma {:induction false} InsistenceFollows()
    ensures Following([Member("requireSession", Bool(true))]) == ",\"requireSession\":true"
  {
    hide Print, Quote, Following;
    PrintedScalars("");
    KeyFollows("requireSession", Bool(true), "true");
  }

  lemma {:induction false} SessionFollows(r: Request)
    ensures Following(SessionMembers(r)) == SessionText(r)
  {
    hide Print, Quote, Following;
    NothingFollows();
    if r.session.Some? {
      var id := [Member("sessionId", String(r.session.value))];
      var more := if r.require then [Member("requireSession", Bool(true))] else [];
      IdFollows(r.session.value);
      InsistenceFollows();
      FollowingAppend(id, more);
      assert SessionMembers(r) == id + more;
    }
  }

  lemma NothingFollows()
    ensures Following([]) == ""
  {
  }

  lemma PrintedScalars(s: string)
    ensures Print(String(s)) == Quote(s) && Print(Bool(true)) == "true"
  {
  }

  lemma {:induction false} CountFollows(r: Request)
    ensures Following(CountMembers(r)) == CountText(r)
  {
    hide Following, Digits;
    NothingFollows();
    if r.count >= 0 { KeyFollows("multiStatementCount", Number(Digits(r.count)), Digits(r.count)); }
  }

  /** The request is the printed form of what it says. */
  lemma RequestIsPrinted(r: Request)
    ensures RequestText(r) == Print(RequestTree(r))
  {
    hide Quote, Following, SessionMembers, CountMembers, SessionText, CountText, PrintMembers;
    var (a, b, c) := (SessionMembers(r), CountMembers(r), [Member("autoCommit", Bool(true))]);
    var first := Member("sql", String(r.sql));
    assert [first] + a + b + c == [first] + (a + b + c);
    PrintMembersFollowing(first, a + b + c);
    FollowingAppend(a + b, c);
    FollowingAppend(a, b);
    SessionFollows(r);
    CountFollows(r);
    FixedParts();
    OneFollowing("autoCommit", Bool(true));
    PrintedScalars(r.sql);
    JoinParts(Quote(r.sql), SessionText(r), CountText(r));
  }

  lemma {:induction false} FixedParts()
    ensures Quote("sql") == "\"sql\"" && Quote("autoCommit") == "\"autoCommit\""
  {
    hide EscapeAll;
    PlainQuote("sql");
    PlainQuote("autoCommit");
  }

  lemma JoinParts(sql: string, session: string, count: string)
    ensures "{" + ("\"sql\"" + ":" + sql + (session + count + ("," + "\"autoCommit\"" + ":" + "true"))) + "}"
            == "{\"sql\":" + sql + session + count + ",\"autoCommit\":true}"
  {
    assert "{" + "\"sql\"" + ":" == "{\"sql\":";
    assert "," + "\"autoCommit\"" + ":" + "true" + "}" == ",\"autoCommit\":true}";
    var (s, e) := ("\"sql\"" + ":" + sql, "," + "\"autoCommit\"" + ":" + "true");
    assert "{" + (s + (session + count + e)) + "}" == ("{" + "\"sql\"" + ":") + sql + session + count + (e + "}");
  }

  lemma {:induction false} TreeIsPrintable(r: Request)
    requires NulFree(r.sql) && (r.session.Some? ==> NulFree(r.session.value))
    ensures Printable(RequestTree(r)) && Nests(RequestTree(r), MAX_DEPTH)
  {
    if r.count >= 0 {
      assert IsNumberText(Digits(r.count));
      assert Printable(Number(Digits(r.count)));
    }
    var ms := RequestTree(r).members;
    forall i | 0 <= i < |ms| ensures NulFree(ms[i].key) && Printable(ms[i].value) && Nests(ms[i].value, MAX_DEPTH - 1) {
      KeysNulFree();
    }
  }

  lemma KeysNulFree()
    ensures NulFree("sql") && NulFree("sessionId") && NulFree("requireSession")
    ensures NulFree("multiStatementCount") && NulFree("autoCommit")
  {
  }

  /** What a reader finds in the request: exactly the statement and the session, the insistence on the
      session exactly when one is held that the engine is known to track, and a statement count exactly
      when one was declared. */
  lemma RequestRoundTrip(r: Request)
    requires NulFree(r.sql) && (r.session.Some? ==> NulFree(r.session.value))
    ensures var p := Parse(RequestText(r));
            && p.Some?
            && Get(p.value, "sql") == Some(String(r.sql))
            && Get(p.value, "sessionId") == (if r.session.Some? then Some(String(r.session.value)) else None)
            && Get(p.value, "requireSession") == (if r.session.Some? && r.require then Some(Bool(true)) else None)
            && Get(p.value, "multiStatementCount")
               == (if r.count >= 0 then Some(Number(Digits(r.count))) else None)
            && Get(p.value, "autoCommit") == Some(Bool(true))
            && (r.count >= 0 ==> DigitsValue(Digits(r.count)) == r.count)
  {
    hide Parse, Print, Printable, Nests, RequestText;
    RequestIsPrinted(r);
    TreeIsPrintable(r);
    ParseInvertsPrint(RequestTree(r));
    if r.count >= 0 { DigitsRoundTrip(r.count); }
    FindAll(r);
  }

  lemma {:induction false} FindAppend(a: seq<Member>, b: seq<Member>, key: string)
    ensures Find(a + b, key) == if Find(a, key).Some? then Find(a, key) else Find(b, key)
  {
    if a == [] {
      assert a + b == b;
    } else {
      FindAppend(a[1..], b, key);
      assert (a + b)[1..] == a[1..] + b;
    }
  }

  lemma FindOne(m: Member, key: string)
    requires NulFree(m.key)
    ensures Find([m], key) == if m.key == key then Some(m.value) else None
  {
    assert [m][1..] == [];
  }

  lemma FindAll(r: Request)
    ensures var v := RequestTree(r);
            && Get(v, "sql") == Some(String(r.sql))
            && Get(v, "sessionId") == (if r.session.Some? then Some(String(r.session.value)) else None)
            && Get(v, "requireSession") == (if r.session.Some? && r.require then Some(Bool(true)) else None)
            && Get(v, "multiStatementCount") == (if r.count >= 0 then Some(Number(Digits(r.count))) else None)
            && Get(v, "autoCommit") == Some(Bool(true))
  {
    FindKey(r, "sql");
    FindKey(r, "sessionId");
    FindKey(r, "requireSession");
    FindKey(r, "multiStatementCount");
    FindKey(r, "autoCommit");
  }

  lemma FindKey(r: Request, key: string)
    ensures Get(RequestTree(r), key) ==
              if key == "sql" then Some(String(r.sql))
              else if key == "sessionId" && r.session.Some? then Some(String(r.session.value))
              else if key == "requireSession" && r.session.Some? && r.require then Some(Bool(true))
              else if key == "multiStatementCount" && r.count >= 0 then Some(Number(Digits(r.count)))
              else if key == "autoCommit" then Some(Bool(true))
              else None
  {
    hide Find, Digits;
    var (a, b, c) := (SessionMembers(r), CountMembers(r), [Member("autoCommit", Bool(true))]);
    var first := Member("sql", String(r.sql));
    KeysAreNulFree();
    FindAppend([first] + a + b, c, key);
    FindAppend([first] + a, b, key);
    FindAppend([first], a, key);
    FindOne(first, key);
    FindOne(Member("autoCommit", Bool(true)), key);
    FindNone(key);
    if r.session.Some? {
      var id := Member("sessionId", String(r.session.value));
      FindAppend([id], if r.require then [Member("requireSession", Bool(true))] else [], key);
      FindOne(id, key);
      FindOne(Member("requireSession", Bool(true)), key);
    }
    if r.count >= 0 { FindOne(Member("multiStatementCount", Number(Digits(r.count))), key); }
  }

  lemma KeysAreNulFree()
    ensures NulFree("sql") && NulFree("sessionId") && NulFree("requireSession")
    ensures NulFree("multiStatementCount") && NulFree("autoCommit")
  {
  }

  lemma FindNone(key: string)
    ensures Find([], key) == None
  {
  }

  // The source's own loops

  lemma JoinSession(x: string, r: Request)
    requires r.session.Some?
    ensures r.require ==>
              x + ",\"sessionId\":" + Quote(r.session.value) + ",\"requireSession\":true" == x + SessionText(r)
    ensures !r.require ==> x + ",\"sessionId\":" + Quote(r.session.value) == x + SessionText(r)
  {
    hide Quote;
    var (a, b) := (",\"sessionId\":", Quote(r.session.value));
    var c := if r.require then ",\"requireSession\":true" else "";
    Join3(x, a, b, c);
    assert x + a + b + "" == x + a + b;
  }

  lemma NoMembers(x: string, r: Request)
    ensures r.session.None? ==> x + SessionText(r) == x
    ensures r.count < 0 ==> x + CountText(r) == x
  {
  }

  lemma Join3(x: string, a: string, b: string, c: string)
    ensures x + a + b + c == x + (a + b + c)
  {
  }

  method AppendSession(buf: Buffer, r: Request)
    requires buf.Valid()
    modifies buf, buf.data
    ensures buf.Valid() && (fresh(buf.data) || buf.data == old(buf.data))
    ensures buf.Contents() == old(buf.Contents()) + SessionText(r)
  {
    hide *;
    if r.session.Some? {
      buf.Append(",\"sessionId\":");
      buf.AppendJsonString(r.session.value);
      if r.require { buf.Append(",\"requireSession\":true"); }
      JoinSession(old(buf.Contents()), r);
    } else {
      NoMembers(old(buf.Contents()), r);
    }
  }

  lemma RequestPieces(r: Request)
    ensures "" + "{\"sql\":" + Quote(r.sql) + SessionText(r) + CountText(r) + ",\"autoCommit\":true}" == RequestText(r)
  {
    hide Quote, SessionText, CountText;
    assert "" + "{\"sql\":" == "{\"sql\":";
  }

  /** build_request_json. */
  method BuildRequestJson(r: Request) returns (buf: Buffer)
    ensures fresh(buf) && fresh(buf.data)
    ensures buf.Valid() && buf.Contents() == RequestText(r)
  {
    hide *;
    buf := new Buffer();
    buf.Append("{\"sql\":");
    buf.AppendJsonString(r.sql);
    AppendSession(buf, r);
    if r.count >= 0 {
      CountShown(r);
      buf.Append(",\"multiStatementCount\":" + Digits(r.count));
    } else {
      NoMembers(buf.Contents(), r);
    }
    buf.Append(",\"autoCommit\":true}");
    RequestPieces(r);
  }

  lemma CountShown(r: Request)
    requires r.count >= 0
    ensures CountText(r) == ",\"multiStatementCount\":" + Digits(r.count)
  {
  }
}
