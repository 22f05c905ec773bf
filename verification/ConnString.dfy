/** Connection strings: looking a key up, reading a port, and the completed string a successful connect
    hands back (src/connect.c, src/util.c). */
module ConnString {
  import opened Text

  const DRIVER_NAME := "Frostlake ODBC Driver"
  const OUT_SIZE := 2048

  // Looking up a key

  /** strchr: the first `c`, or the length. */
  function Find(t: string, c: char): (n: nat)
    ensures n <= |t|
    ensures n < |t| ==> t[n] == c
    ensures forall i :: 0 <= i < n ==> t[i] != c
  {
    if t != "" && t[0] != c then 1 + Find(t[1..], c) else 0
  }

  function SkipSeparators(t: string): (r: string)
    ensures |r| <= |t|
  {
    if t != "" && (t[0] == ';' || t[0] == ' ') then SkipSeparators(t[1..]) else t
  }

  /** A value and what follows it: up to the closing brace where it opens with one, else up to the `;`. */
  function Value(v: string): (r: (string, string))
    ensures |r.1| <= |v|
  {
    if v != "" && v[0] == '{' then
      var w := v[1..];
      (w[..Find(w, '}')], w[Find(w, '}')..])
    else (v[..Find(v, ';')], v[Find(v, ';')..])
  }

  /** Where the search goes on after a value: past a closing brace, to the next `;` and past it. */
  function Next(rest: string): (r: string)
    ensures |r| <= |rest|
  {
    var t := if rest != "" && rest[0] == '}' then rest[Find(rest, ';')..] else rest;
    if t != "" && t[0] == ';' then t[1..] else t
  }

  /** conn_str_get: the value of the first such key, in any letter case. */
  function Get(conn: string, key: string): Option<string>
    decreases |conn|
  {
    var t := SkipSeparators(conn);
    var eq := Find(t, '=');
    if eq == |t| then None
    else
      var (value, rest) := Value(t[eq + 1..]);
      if Upper(t[..eq]) == Upper(key) then Some(value) else Get(Next(rest), key)
  }

  /** The search as the source runs it. Every round takes an `=` off what is left, so it ends on any input. */
  method ConnStrGet(conn: string, key: string) returns (r: Option<string>)
    ensures r == Get(conn, key)
  {
    hide Find, Value, Next, SkipSeparators, Upper;
    var cur := conn;
    while cur != ""
      invariant Get(cur, key) == Get(conn, key)
      decreases |cur|
    {
      cur := SkipAll(cur);
      SkippedOnce(cur, key);
      var eq := Find(cur, '=');
      if eq == |cur| { return None; }
      var value, rest := TakeValue(cur[eq + 1..]);
      if Upper(cur[..eq]) == Upper(key) { return Some(value); }
      cur := Next(rest);
    }
    NothingThere(key);
    return None;
  }

  lemma NothingThere(key: string)
    ensures Get("", key) == None
  {
  }

  method SkipAll(t: string) returns (r: string)
    ensures r == SkipSeparators(t) == SkipSeparators(r)
  {
    r := t;
    while r != "" && (r[0] == ';' || r[0] == ' ')
      invariant SkipSeparators(r) == SkipSeparators(t)
      decreases |r|
    {
      r := r[1..];
    }
  }

  lemma SkippedOnce(t: string, key: string)
    requires SkipSeparators(t) == t
    ensures Get(t, key) == (var eq := Find(t, '=');
                            if eq == |t| then None
                            else
                              var (value, rest) := Value(t[eq + 1..]);
                              if Upper(t[..eq]) == Upper(key) then Some(value) else Get(Next(rest), key))
  {
    hide Find, Value, Next, SkipSeparators, Upper;
  }

  method TakeValue(v: string) returns (value: string, rest: string)
    ensures (value, rest) == Value(v)
  {
    if v != "" && v[0] == '{' {
      var end := Find(v[1..], '}');
      return v[1..][..end], v[1..][end..];
    }
    var end := Find(v, ';');
    return v[..end], v[end..];
  }

  // Ports

  predicate IsPadding(c: char) {
    c == ' ' || c == '\t'
  }

  function StripFront(t: string): string {
    if t != "" && IsPadding(t[0]) then StripFront(t[1..]) else t
  }

  function StripBack(t: string): string {
    if t != "" && IsPadding(t[|t| - 1]) then StripBack(t[..|t| - 1]) else t
  }

  /** parse_port: a number from 1 to 65535, blanks around it put up with, or -1. */
  function Port(text: Option<string>): int {
    if text.None? then -1
    else
      var t := StripBack(StripFront(text.value));
      if t != "" && AllDigits(t) && 1 <= DigitsValue(t) <= 65535 then DigitsValue(t) else -1
  }

  lemma {:induction false} PrefixIsNoMore(s: string, i: nat)
    requires AllDigits(s) && i <= |s|
    ensures DigitsValue(s[..i]) <= DigitsValue(s)
    decreases |s|
  {
    if i < |s| {
      PrefixIsNoMore(s[..|s| - 1], i);
      assert s[..|s| - 1][..i] == s[..i];
    } else {
      assert s[..i] == s;
    }
  }

  /** The digits of a port, given up as soon as there are too many. */
  method ReadPort(t: string) returns (r: int)
    requires t != ""
    ensures r == if AllDigits(t) && 1 <= DigitsValue(t) <= 65535 then DigitsValue(t) else -1
  {
    var value := 0;
    var c := 0;
    while c < |t|
      invariant 0 <= c <= |t|
      invariant AllDigits(t[..c]) && value == DigitsValue(t[..c]) <= 65535
    {
      if t[c] < '0' || t[c] > '9' { return -1; }
      LastDigit(t[..c], t[c]);
      assert t[..c + 1] == t[..c] + [t[c]];
      value := value * 10 + (t[c] as int - '0' as int);
      c := c + 1;
      if value > 65535 {
        if AllDigits(t) { PrefixIsNoMore(t, c); }
        return -1;
      }
    }
    assert t[..c] == t;
    return if value >= 1 then value else -1;
  }

  method ParsePort(text: Option<string>) returns (r: int)
    ensures r == Port(text)
  {
    if text.None? { return -1; }
    var t := text.value;
    while t != "" && IsPadding(t[0])
      invariant StripFront(t) == StripFront(text.value)
      decreases |t|
    {
      t := t[1..];
    }
    ghost var front := t;
    while t != "" && IsPadding(t[|t| - 1])
      invariant StripBack(t) == StripBack(front)
      decreases |t|
    {
      t := t[..|t| - 1];
    }
    if t == "" { return -1; }
    r := ReadPort(t);
  }

  /** Every port number is read back from its digits. */
  lemma PortRoundTrip(n: nat)
    ensures Port(Some(Digits(n))) == if 1 <= n <= 65535 then n else -1
  {
    hide Digits, DigitsValue;
    DigitsRoundTrip(n);
    var d := Digits(n);
    assert !IsPadding(d[0]) && !IsPadding(d[|d| - 1]);
  }

  // The completed string

  datatype Field = Field(name: string, value: string)

  /** Keys without anything the search would stop at. */
  predicate IsName(s: string) {
    s != "" && '=' !in s && s[0] != ';' && s[0] != ' '
  }

  /** A value the search reads as it stands. */
  predicate IsClean(s: string) {
    ';' !in s && (s == "" || s[0] != '{')
  }

  /** What may come after a value. */
  predicate EndsField(tail: string) {
    tail == "" || tail[0] == ';'
  }

  function Print(f: Field): string {
    f.name + "=" + f.value
  }

  /** Fields, each after a separator. */
  function PrintAll(fields: seq<Field>): (r: string)
    ensures EndsField(r)
  {
    if fields == [] then "" else ";" + Print(fields[0]) + PrintAll(fields[1..])
  }

  function Lookup(fields: seq<Field>, key: string): Option<string> {
    if fields == [] then None
    else if Upper(fields[0].name) == Upper(key) then Some(fields[0].value)
    else Lookup(fields[1..], key)
  }

  lemma FindFirst(a: string, c: char, b: string)
    requires c !in a
    ensures Find(a + b, c) == |a| + Find(b, c)
  {
    if a == "" {
      assert a + b == b;
    } else {
      FindFirst(a[1..], c, b);
      assert (a + b)[1..] == a[1..] + b;
    }
  }

  lemma NameIsRead(name: string, v: string)
    requires IsName(name)
    ensures var t := name + "=" + v;
            SkipSeparators(t) == t && Find(t, '=') == |name| && t[..|name|] == name && t[|name| + 1..] == v
  {
    var t := name + "=" + v;
    assert t == name + ("=" + v);
    FindFirst(name, '=', "=" + v);
    assert t[0] == name[0];
  }

  /** A clean value is read as it stands. */
  lemma CleanIsRead(value: string, tail: string)
    requires IsClean(value) && EndsField(tail)
    ensures Value(value + tail) == (value, tail)
  {
    FindFirst(value, ';', tail);
    assert tail != "" ==> Find(tail, ';') == 0;
    assert (value + tail)[..|value|] == value && (value + tail)[|value|..] == tail;
  }

  /** Any other is not. */
  lemma UncleanIsMisread(value: string, tail: string)
    requires !IsClean(value) && EndsField(tail)
    ensures Value(value + tail).0 != value
  {
    var v := value + tail;
    if value != "" && value[0] == '{' {
      BraceIsLost(value, tail);
    } else {
      var i :| 0 <= i < |value| && value[i] == ';';
      assert v[i] == ';';
    }
  }

  lemma BraceIsLost(value: string, tail: string)
    requires value != "" && value[0] == '{' && EndsField(tail)
    ensures Value(value + tail).0 != value
  {
    var w := (value + tail)[1..];
    var r := w[..Find(w, '}')];
    if r == value {
      assert w[|value| - 1] == tail[0];
      BracesOnly(value, w, |value| - 1);
    }
  }

  lemma {:induction false} BracesOnly(value: string, w: string, i: nat)
    requires value != "" && value[0] == '{' && i < |value| <= |w|
    requires w[..|value|] == value && forall k :: 0 <= k < |value| - 1 ==> w[k] == value[k + 1]
    ensures value[i] == '{'
  {
    if i > 0 {
      BracesOnly(value, w, i - 1);
      assert w[..|value|][i - 1] == w[i - 1];
    }
  }

  lemma SeparatorIsSkipped(t: string, key: string)
    requires EndsField(t)
    ensures t != "" ==> Get(t, key) == Get(t[1..], key)
    ensures Get(Next(t), key) == Get(t, key)
  {
    hide Find, Value, Upper;
    if t == "" { NothingThere(key); }
  }

  /** One field off the front. */
  lemma {:induction false} FieldIsRead(f: Field, tail: string, key: string)
    requires IsName(f.name) && EndsField(tail)
    ensures IsClean(f.value) ==>
              Get(Print(f) + tail, key) == if Upper(f.name) == Upper(key) then Some(f.value)
                                           else Get(tail, key)
    ensures !IsClean(f.value) && Upper(f.name) == Upper(key) ==> Get(Print(f) + tail, key) != Some(f.value)
  {
    hide Find, SkipSeparators, Upper, Value, IsClean, Next;
    var v := f.value + tail;
    SeparatorIsSkipped(tail, key);
    assert Print(f) + tail == f.name + "=" + v;
    NameIsRead(f.name, v);
    if IsClean(f.value) {
      CleanIsRead(f.value, tail);
    } else {
      UncleanIsMisread(f.value, tail);
    }
  }

  ghost predicate Named(fields: seq<Field>) {
    && (forall i :: 0 <= i < |fields| ==> IsName(fields[i].name))
    && forall i, j :: 0 <= i < j < |fields| ==> Upper(fields[i].name) != Upper(fields[j].name)
  }

  /** Looking a key up in printed fields, all of them clean. */
  lemma {:induction false} FieldsAreRead(fields: seq<Field>, key: string)
    requires forall i :: 0 <= i < |fields| ==> IsName(fields[i].name) && IsClean(fields[i].value)
    ensures Get(PrintAll(fields), key) == Lookup(fields, key)
  {
    hide Get, Print, Upper, IsName, IsClean;
    if fields == [] {
      NothingThere(key);
    } else {
      FrontField(fields, key);
      FieldIsRead(fields[0], PrintAll(fields[1..]), key);
      FieldsAreRead(fields[1..], key);
    }
  }

  lemma {:induction false} FrontField(fields: seq<Field>, key: string)
    requires fields != []
    ensures Get(PrintAll(fields), key) == Get(Print(fields[0]) + PrintAll(fields[1..]), key)
  {
    hide Get, Print;
    var t := Print(fields[0]) + PrintAll(fields[1..]);
    assert PrintAll(fields) == ";" + t;
    assert (";" + t)[1..] == t;
    SeparatorIsSkipped(";" + t, key);
  }

  /** The first field that is not clean is not read back. */
  lemma {:induction false} UncleanFieldIsLost(fields: seq<Field>, i: nat)
    requires Named(fields) && i < |fields| && !IsClean(fields[i].value)
    requires forall j :: 0 <= j < i ==> IsClean(fields[j].value)
    ensures Get(PrintAll(fields), fields[i].name) != Some(fields[i].value)
  {
    hide Get, Print, Upper, IsName, IsClean;
    var key := fields[i].name;
    FrontField(fields, key);
    FieldIsRead(fields[0], PrintAll(fields[1..]), key);
    if i > 0 { UncleanFieldIsLost(fields[1..], i - 1); }
  }

  // What SQLDriverConnect hands back

  datatype Place = Place(host: string, port: nat, database: Option<string>, schema: Option<string>)

  function Fields(p: Place): seq<Field> {
    [Field("Server", p.host)] + [Field("Port", Digits(p.port))]
    + Optional("Database", p.database) + Optional("Schema", p.schema)
  }

  function Shown(name: string, value: string): string {
    ";" + name + "=" + value
  }

  /** The completed string before it is cut to size. */
  function Completed(p: Place): string {
    "Driver={" + DRIVER_NAME + "}" + Shown("Server", p.host) + Shown("Port", Digits(p.port))
    + (if p.database.Some? then Shown("Database", p.database.value) else "")
    + (if p.schema.Some? then Shown("Schema", p.schema.value) else "")
  }

  /** What reaches the caller: cut to the local buffer, then to the caller's, each with a terminator. */
  function HandedBack(p: Place, bufferLength: nat): string
    requires bufferLength > 0
  {
    Fit(Fit(Completed(p), OUT_SIZE), bufferLength)
  }

  /** What a connect with that string would connect to. */
  ghost predicate ReadsAs(conn: string, p: Place) {
    && Get(conn, "DSN") == None
    && Get(conn, "Server") == Some(p.host)
    && Port(Get(conn, "Port")) == p.port
    && Get(conn, "Database") == p.database
    && Get(conn, "Schema") == p.schema
  }

  predicate IsCleanPlace(p: Place) {
    && IsClean(p.host)
    && (p.database.Some? ==> IsClean(p.database.value))
    && (p.schema.Some? ==> IsClean(p.schema.value))
  }

  lemma {:induction false} DriverIsSkipped(tail: string, key: string)
    requires Upper(key) != Upper("Driver") && tail != "" && tail[0] == ';'
    ensures Get("Driver={" + DRIVER_NAME + "}" + tail, key) == Get(tail, key)
  {
    hide Find, SkipSeparators, Upper, Next, Value;
    var v := "{" + DRIVER_NAME + "}" + tail;
    assert "Driver={" + DRIVER_NAME + "}" + tail == "Driver" + "=" + v;
    NameIsRead("Driver", v);
    BracedIsRead(DRIVER_NAME, tail);
    SeparatorIsSkipped(tail, key);
  }

  /** A braced value, and where the search goes on after it. */
  lemma {:induction false} BracedIsRead(name: string, tail: string)
    requires '}' !in name && tail != "" && tail[0] == ';'
    ensures var (value, rest) := Value("{" + name + "}" + tail);
            value == name && Next(rest) == tail[1..]
  {
    var w := ("{" + name + "}" + tail)[1..];
    assert w == name + ("}" + tail);
    FindFirst(name, '}', "}" + tail);
    assert w[..|name|] == name && w[|name|..] == "}" + tail;
    FindFirst("}", ';', tail);
    assert ("}" + tail)[1..] == tail;
  }

  lemma Assoc(a: string, b: string, c: string)
    ensures a + (b + c) == a + b + c
  {
  }

  lemma {:induction false} PrintAllAppend(a: seq<Field>, b: seq<Field>)
    ensures PrintAll(a + b) == PrintAll(a) + PrintAll(b)
  {
    hide Print;
    if a == [] {
      assert a + b == b;
    } else {
      PrintAllAppend(a[1..], b);
      assert (a + b)[1..] == a[1..] + b;
      Assoc(";" + Print(a[0]), PrintAll(a[1..]), PrintAll(b));
    }
  }

  lemma OneField(f: Field)
    ensures PrintAll([f]) == Shown(f.name, f.value)
  {
    assert [f][1..] == [];
  }

  function Optional(name: string, value: Option<string>): seq<Field> {
    if value.Some? then [Field(name, value.value)] else []
  }

  lemma CompletedIsPrinted(p: Place)
    ensures Completed(p) == "Driver={" + DRIVER_NAME + "}" + PrintAll(Fields(p))
  {
    hide Digits, PrintAll, Shown;
    var (server, port) := ([Field("Server", p.host)], [Field("Port", Digits(p.port))]);
    var (database, schema) := (Optional("Database", p.database), Optional("Schema", p.schema));
    assert Fields(p) == server + port + database + schema;
    PrintAllAppend(server + port + database, schema);
    PrintAllAppend(server + port, database);
    PrintAllAppend(server, port);
    OneField(server[0]);
    OneField(port[0]);
    if p.database.Some? { OneField(database[0]); } else { NoFields(); }
    if p.schema.Some? { OneField(schema[0]); } else { NoFields(); }
    var driver := "Driver={" + DRIVER_NAME + "}";
    Join4(driver, PrintAll(server), PrintAll(port), PrintAll(database), PrintAll(schema));
  }

  lemma NoFields()
    ensures PrintAll([]) == ""
  {
  }

  lemma Join4(x: string, a: string, b: string, c: string, d: string)
    ensures x + (a + b + c + d) == x + a + b + c + d
  {
  }

  lemma NamesDiffer()
    ensures Upper("Server") != Upper("Port") && Upper("Server") != Upper("Database")
    ensures Upper("Server") != Upper("Schema") && Upper("Port") != Upper("Database")
    ensures Upper("Port") != Upper("Schema") && Upper("Database") != Upper("Schema")
    ensures Upper("Driver") != Upper("Server") && Upper("Driver") != Upper("Port")
    ensures Upper("Driver") != Upper("Database") && Upper("Driver") != Upper("Schema")
    ensures IsName("Server") && IsName("Port") && IsName("Database") && IsName("Schema")
  {
    assert Upper("Server")[0] == 'S' && Upper("Port")[0] == 'P' && Upper("Database")[0] == 'D';
    assert Upper("Schema")[1] == 'C' && Upper("Server")[1] == 'E';
    assert Upper("Driver")[1] == 'R' && Upper("Database")[1] == 'A' && Upper("Driver")[0] == 'D';
  }

  lemma DsnDiffers()
    ensures Upper("DSN") != Upper("Driver") && Upper("DSN") != Upper("Server") && Upper("DSN") != Upper("Port")
    ensures Upper("DSN") != Upper("Database") && Upper("DSN") != Upper("Schema")
  {
    assert |Upper("DSN")| == 3;
  }

  lemma {:induction false} LookupAppend(a: seq<Field>, b: seq<Field>, key: string)
    ensures Lookup(a + b, key) == if Lookup(a, key).Some? then Lookup(a, key) else Lookup(b, key)
  {
    hide Upper;
    if a == [] {
      assert a + b == b;
    } else {
      LookupAppend(a[1..], b, key);
      assert (a + b)[1..] == a[1..] + b;
    }
  }

  lemma LookupOne(f: Field, key: string)
    ensures Lookup([f], key) == if Upper(f.name) == Upper(key) then Some(f.value) else None
    ensures Lookup([], key) == None
  {
    assert [f][1..] == [];
  }

  /** What the fields of a place say. */
  lemma FieldsSay(p: Place, key: string)
    ensures Lookup(Fields(p), key) ==
              if Upper("Server") == Upper(key) then Some(p.host)
              else if Upper("Port") == Upper(key) then Some(Digits(p.port))
              else if Upper("Database") == Upper(key) && p.database.Some? then p.database
              else if Upper("Schema") == Upper(key) && p.schema.Some? then p.schema
              else None
  {
    hide Upper, Digits, Lookup;
    var (server, port) := ([Field("Server", p.host)], [Field("Port", Digits(p.port))]);
    var (database, schema) := (Optional("Database", p.database), Optional("Schema", p.schema));
    LookupAppend(server + port + database, schema, key);
    LookupAppend(server + port, database, key);
    LookupAppend(server, port, key);
    LookupOne(server[0], key);
    LookupOne(port[0], key);
    if p.database.Some? { LookupOne(database[0], key); }
    if p.schema.Some? { LookupOne(schema[0], key); }
  }

  lemma DigitsAreClean(n: nat)
    ensures IsClean(Digits(n))
  {
    hide Digits;
    var d := Digits(n);
    forall i | 0 <= i < |d| ensures d[i] != ';' { assert IsDigit(d[i]); }
    assert IsDigit(d[0]);
  }

  lemma CleanFields(p: Place)
    ensures Named(Fields(p))
    ensures IsCleanPlace(p) ==> forall i :: 0 <= i < |Fields(p)| ==> IsClean(Fields(p)[i].value)
  {
    hide Upper, IsName, IsClean, Digits;
    NamesDiffer();
    DigitsAreClean(p.port);
  }

  lemma {:induction false} CompletedIsLookedUp(p: Place, key: string)
    requires Upper(key) != Upper("Driver")
    ensures Get(Completed(p), key) == Get(PrintAll(Fields(p)), key)
  {
    hide Get, Upper, Completed, Print;
    CompletedIsPrinted(p);
    DriverIsSkipped(PrintAll(Fields(p)), key);
  }

  lemma {:induction false} CleanPlaceIsRead(p: Place)
    requires IsCleanPlace(p) && 1 <= p.port <= 65535
    ensures ReadsAs(Completed(p), p)
  {
    hide Get, Upper, Completed, Fields, PrintAll, Port, Digits, IsCleanPlace, IsName, IsClean, Lookup;
    CleanFields(p);
    NamesDiffer();
    DsnDiffers();
    KeyIsRead(p, "DSN");
    KeyIsRead(p, "Server");
    KeyIsRead(p, "Port");
    KeyIsRead(p, "Database");
    KeyIsRead(p, "Schema");
    PortRoundTrip(p.port);
  }

  lemma {:induction false} KeyIsRead(p: Place, key: string)
    requires IsCleanPlace(p) && Upper(key) != Upper("Driver")
    ensures Get(Completed(p), key) ==
              if Upper("Server") == Upper(key) then Some(p.host)
              else if Upper("Port") == Upper(key) then Some(Digits(p.port))
              else if Upper("Database") == Upper(key) && p.database.Some? then p.database
              else if Upper("Schema") == Upper(key) && p.schema.Some? then p.schema
              else None
  {
    hide Get, Upper, Completed, Fields, PrintAll, Digits, IsCleanPlace, IsName, IsClean, Lookup;
    CleanFields(p);
    CompletedIsLookedUp(p, key);
    FieldsAreRead(Fields(p), key);
    FieldsSay(p, key);
  }

  // Cut strings

  /** Nothing, or only the front of the value. */
  ghost predicate Short(got: Option<string>, value: string) {
    got.Some? ==> got.value < value
  }

  /** Not the value; and where it is clean, only the front of it. */
  ghost predicate Misread(got: Option<string>, value: string) {
    got != Some(value) && (IsClean(value) ==> Short(got, value))
  }

  lemma {:induction false} NoKeyThere(t: string, key: string)
    requires '=' !in t
    ensures Get(t, key) == None
  {
    hide Value, Next, Upper;
    SkippedHasNoMore(t);
    NoneFound(SkipSeparators(t), '=');
  }

  lemma SkippedHasNoMore(t: string)
    requires '=' !in t
    ensures '=' !in SkipSeparators(t)
  {
  }

  lemma NoneFound(t: string, c: char)
    requires c !in t
    ensures Find(t, c) == |t|
  {
    FindFirst(t, c, "");
    assert t + "" == t && Find("", c) == 0;
  }

  /** A field cut short is not read back, and a clean one is read short. */
  lemma {:induction false} CutFieldIsShort(f: Field, n: nat)
    requires IsName(f.name) && n < |Print(f)|
    ensures Misread(Get(Print(f)[..n], f.name), f.value)
  {
    hide Get, Upper, Find, Value, IsClean;
    var t := Print(f)[..n];
    if n <= |f.name| {
      assert t == f.name[..n];
      NoKeyThere(t, f.name);
    } else {
      var value := f.value[..n - |f.name| - 1];
      assert t == f.name + "=" + value;
      KeyIsFound(f.name, value);
      ValueIsNoLonger(value);
      if IsClean(f.value) {
        PrefixIsClean(f.value, |value|);
        CleanIsRead(value, "");
        assert value + "" == value;
      }
    }
  }

  lemma KeyIsFound(name: string, v: string)
    requires IsName(name)
    ensures Get(name + "=" + v, name) == Some(Value(v).0)
  {
    hide Find, Value, SkipSeparators, Upper;
    NameIsRead(name, v);
  }

  lemma ValueIsNoLonger(v: string)
    ensures |Value(v).0| <= |v|
  {
  }

  lemma PrefixIsClean(value: string, m: nat)
    requires IsClean(value) && m <= |value|
    ensures IsClean(value[..m])
  {
  }

  /** Printed fields, cut short or not all of them clean: some field is not read back. */
  lemma {:induction false} SomeFieldIsMisread(fields: seq<Field>, n: nat) returns (i: nat)
    requires Named(fields) && n <= |PrintAll(fields)|
    requires n < |PrintAll(fields)| || exists j :: 0 <= j < |fields| && !IsClean(fields[j].value)
    ensures i < |fields| && Misread(Get(PrintAll(fields)[..n], fields[i].name), fields[i].value)
    ensures EndsField(PrintAll(fields)[..n])
  {
    hide Get, Upper, IsName, IsClean, Print, Misread;
    var (f, more) := (fields[0], PrintAll(fields[1..]));
    var first := Print(f);
    assert PrintAll(fields) == ";" + first + more;
    if n == 0 {
      i := 0;
      NoKeyThere("", f.name);
      NothingIsMisread(f.value);
    } else if n <= |first| {
      i := 0;
      var t := first[..n - 1];
      assert PrintAll(fields)[..n] == ";" + t && (";" + t)[1..] == t;
      SeparatorIsSkipped(";" + t, f.name);
      CutFieldIsShort(f, n - 1);
    } else {
      var m := n - 1 - |first|;
      var tail := more[..m];
      assert PrintAll(fields)[..n] == ";" + (first + tail) && (";" + (first + tail))[1..] == first + tail;
      if IsClean(f.value) {
        var k := SomeFieldIsMisread(fields[1..], m);
        i := k + 1;
      } else {
        i := 0;
        TailEndsField(more, m);
      }
      SeparatorIsSkipped(";" + (first + tail), fields[i].name);
      FieldIsRead(f, tail, fields[i].name);
      UncleanIsNoValue(f.value, Get(PrintAll(fields)[..n], f.name));
    }
  }

  lemma TailEndsField(more: string, m: nat)
    requires EndsField(more) && m <= |more|
    ensures EndsField(more[..m])
  {
  }

  lemma UncleanIsNoValue(value: string, got: Option<string>)
    ensures !IsClean(value) && got != Some(value) ==> Misread(got, value)
  {
  }

  lemma NothingIsMisread(value: string)
    ensures Misread(None, value)
  {
  }

  /** A string cut within the driver's own field says nothing. */
  lemma {:induction false} CutDriverSaysNothing(n: nat, key: string)
    requires Upper(key) != Upper("Driver") && n <= |"Driver={" + DRIVER_NAME + "}"|
    ensures Get(("Driver={" + DRIVER_NAME + "}")[..n], key) == None
  {
    hide Get, Upper, Find, SkipSeparators;
    var whole := "Driver={" + DRIVER_NAME + "}";
    var t := whole[..n];
    if n <= |"Driver"| {
      assert t == "Driver"[..n];
      NoKeyThere(t, key);
    } else {
      var v := t[7..];
      assert whole[..7] == "Driver=" && whole[7..] == "{" + DRIVER_NAME + "}";
      assert t == "Driver" + "=" + v && v == whole[7..][..n - 7];
      CutBraceEnds(v, n - 7);
      NameIsRead("Driver", v);
      NothingThere(key);
      GetStep("Driver", v, key);
    }
  }

  lemma {:induction false} GetStep(name: string, v: string, key: string)
    requires IsName(name) && Upper(name) != Upper(key)
    ensures Get(name + "=" + v, key) == Get(Next(Value(v).1), key)
  {
    hide Find, Value, Next, SkipSeparators, Upper;
    NameIsRead(name, v);
  }

  lemma CutBraceEnds(v: string, n: nat)
    requires n <= |"{" + DRIVER_NAME + "}"| && v == ("{" + DRIVER_NAME + "}")[..n]
    ensures Next(Value(v).1) == ""
  {
    hide Next, Value;
    var whole := "{" + DRIVER_NAME + "}";
    assert ';' !in whole;
    forall i | 0 <= i < |v| ensures v[i] != ';' { assert v[i] == whole[i]; }
    BraceRunsOut(v);
  }

  /** After a braced value without a semicolon behind it there is nothing to go on to. */
  lemma BraceRunsOut(v: string)
    requires ';' !in v && (v == "" || v[0] == '{')
    ensures Next(Value(v).1) == ""
  {
    if v != "" {
      var w := v[1..];
      var rest := w[Find(w, '}')..];
      forall i | 0 <= i < |rest| ensures rest[i] != ';' { assert rest[i] == v[1 + Find(w, '}') + i]; }
      NoneFound(rest, ';');
    }
  }

  lemma ShortPort(d: string, got: Option<string>, n: nat)
    requires d == Digits(n) && 1 <= n && Short(got, d)
    ensures Port(got) != n
  {
    hide Digits, DigitsValue;
    if got.Some? {
      var s := got.value;
      DigitsRoundTrip(n);
      assert s == d[..|s|];
      forall i | 0 <= i < |s| ensures !IsPadding(s[i]) { assert IsDigit(d[i]); }
      NotStripped(s);
      var front := d[..|d| - 1];
      PrefixIsNoMore(front, |s|);
      assert front[..|s|] == s;
      LastDigit(front, d[|d| - 1]);
      assert front + [d[|d| - 1]] == d;
    }
  }

  lemma NotStripped(s: string)
    requires forall i :: 0 <= i < |s| ==> !IsPadding(s[i])
    ensures StripBack(StripFront(s)) == s
  {
  }

  lemma PortsAreInRange(text: Option<string>)
    ensures Port(text) == -1 || 1 <= Port(text) <= 65535
  {
  }

  lemma {:induction false} SomethingIsMisread(p: Place, n: nat)
    requires n <= |Completed(p)| && (n < |Completed(p)| || !IsCleanPlace(p)) && 1 <= p.port <= 65535
    ensures !ReadsAs(Completed(p)[..n], p)
  {
    hide Get, Upper, Completed, PrintAll, Port, Digits, IsName, IsClean;
    CompletedIsPrinted(p);
    NamesDiffer();
    var driver := "Driver={" + DRIVER_NAME + "}";
    if n <= |driver| {
      assert Completed(p)[..n] == driver[..n];
      CutDriverSaysNothing(n, "Server");
    } else {
      CleanFields(p);
      UncleanFieldIsThere(p);
      var tail := PrintAll(Fields(p))[..n - |driver|];
      assert Completed(p)[..n] == driver + tail;
      var i := SomeFieldIsMisread(Fields(p), n - |driver|);
      DriverIsSkipped(tail, Fields(p)[i].name);
      DigitsAreClean(p.port);
      if i == 1 { ShortPort(Digits(p.port), Get(tail, "Port"), p.port); }
    }
  }

  lemma UncleanFieldIsThere(p: Place)
    ensures !IsCleanPlace(p) ==> exists j :: 0 <= j < |Fields(p)| && !IsClean(Fields(p)[j].value)
  {
    hide Digits, IsClean;
    if !IsCleanPlace(p) {
      var j := if !IsClean(p.host) then 0 else if p.database.Some? && !IsClean(p.database.value) then 2
               else if p.database.Some? then 3 else 2;
      assert !IsClean(Fields(p)[j].value);
    }
  }

  /** Connecting with the string handed back is connecting to the same place exactly when the port is one, no
      value holds a semicolon or opens with a brace, and neither buffer cut the string. */
  lemma {:induction false} OutStringRoundTrip(p: Place, bufferLength: nat)
    requires bufferLength > 0
    ensures ReadsAs(HandedBack(p, bufferLength), p) <==>
              && 1 <= p.port <= 65535 && IsCleanPlace(p)
              && |Completed(p)| < OUT_SIZE && |Completed(p)| < bufferLength
  {
    hide Completed, Get, Port, IsCleanPlace;
    var s := HandedBack(p, bufferLength);
    var n := |s|;
    assert s == Completed(p)[..n];
    PortsAreInRange(Get(s, "Port"));
    if 1 <= p.port <= 65535 {
      if n == |Completed(p)| && IsCleanPlace(p) {
        assert s == Completed(p);
        CleanPlaceIsRead(p);
      } else {
        SomethingIsMisread(p, n);
      }
    }
  }

  lemma SplitPrint(name: string, a: string, b: string, rest: string)
    ensures Print(Field(name, a + b)) + rest == Print(Field(name, a)) + (b + rest)
  {
  }

  /** A host with a semicolon in it: the string handed back names another. */
  lemma SplitHost()
    ensures Get(Completed(Place("a;b", 18082, None, None)), "Server") == Some("a")
  {
    hide Get, Digits, Upper, Value, Completed, PrintAll, Print;
    var p := Place("a;b", 18082, None, None);
    NamesDiffer();
    CompletedIsLookedUp(p, "Server");
    FrontField(Fields(p), "Server");
    var rest := PrintAll(Fields(p)[1..]);
    assert "a;b" == "a" + ";b";
    SplitPrint("Server", "a", ";b", rest);
    assert (";b" + rest)[0] == ';';
    FieldIsRead(Field("Server", "a"), ";b" + rest, "Server");
  }
}
