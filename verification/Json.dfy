/** The JSON reader and writer (src/json.c): what the parser makes of a text, and that it inverts the
    printer. A text is a sequence of bytes; numbers keep their spelling. */
module Json {
  import opened Text

  datatype Json =
    | Null
    | Bool(on: bool)
    | Number(text: string)
    | String(text: string)
    | Array(items: seq<Json>)
    | Object(members: seq<Member>)

  datatype Member = Member(key: string, value: Json)

  /** What a parsing step makes of the front of a text, and what is left of it. */
  datatype Parsed<+T> = Bad | Good(value: T, rest: string) {
    predicate IsFailure() { Bad? }
    function PropagateFailure<U>(): Parsed<U> requires Bad? { Bad }
    function Extract(): (T, string) requires Good? { (value, rest) }
  }

  const MAX_DEPTH := 64

  predicate Starts(t: string, c: char) {
    t != "" && t[0] == c
  }

  predicate IsWs(c: char) {
    c == ' ' || c == '\t' || c == '\n' || c == '\r'
  }

  function SkipWs(t: string): (r: string)
    ensures |r| <= |t|
    ensures t != "" && !IsWs(t[0]) ==> r == t
  {
    if t != "" && IsWs(t[0]) then SkipWs(t[1..]) else t
  }

  // Strings

  /** One code point in UTF-8. */
  function Utf8(cp: nat): string
    requires cp < 0x200000
  {
    if cp < 0x80 then [cp as char]
    else if cp < 0x800 then [(0xC0 + cp / 64) as char, (0x80 + cp % 64) as char]
    else if cp < 0x10000 then
      [(0xE0 + cp / 4096) as char, (0x80 + cp / 64 % 64) as char, (0x80 + cp % 64) as char]
    else
      [(0xF0 + cp / 262144) as char, (0x80 + cp / 4096 % 64) as char, (0x80 + cp / 64 % 64) as char,
       (0x80 + cp % 64) as char]
  }

  function HexValue(c: char): (r: int)
    ensures -1 <= r < 16
  {
    if '0' <= c <= '9' then c as int - '0' as int
    else if 'a' <= c <= 'f' then c as int - 'a' as int + 10
    else if 'A' <= c <= 'F' then c as int - 'A' as int + 10
    else -1
  }

  /** Four hexadecimal digits at the front of `t`, or -1. */
  function Hex4(t: string): (r: int)
    ensures -1 <= r < 0x10000
    ensures r >= 0 ==> |t| >= 4
  {
    if |t| < 4 then -1
    else
      var (a, b, c, d) := (HexValue(t[0]), HexValue(t[1]), HexValue(t[2]), HexValue(t[3]));
      if a < 0 || b < 0 || c < 0 || d < 0 then -1 else ((a * 16 + b) * 16 + c) * 16 + d
  }

  /** A \u escape, the `u` at t[0]: the code point, a surrogate pair taken together, and how far it
      runs; or Bad. The second half of a pair is not checked to be one. */
  function UnicodeEscape(t: string): (r: Parsed<nat>)
    requires t != ""
    ensures r.Good? ==> r.value < 0x200000 && |r.rest| < |t|
  {
    var cp := Hex4(t[1..]);
    if cp < 0 then Bad
    else
      var u := t[5..];
      if 0xD800 <= cp <= 0xDBFF && |u| >= 6 && u[0] == '\\' && u[1] == 'u' then
        var low := Hex4(u[2..]);
        if low < 0 then Bad else Good(0x10000 + (cp - 0xD800) * 1024 + (low - 0xDC00), u[6..])
      else Good(cp, u)
  }

  function SimpleEscape(c: char): Option<char> {
    if c == '"' then Some('"') else if c == '\\' then Some('\\') else if c == '/' then Some('/')
    else if c == 'b' then Some(0x08 as char) else if c == 'f' then Some(0x0C as char)
    else if c == 'n' then Some('\n') else if c == 'r' then Some('\r') else if c == 't' then Some('\t')
    else None
  }

  function Prepend(s: string, r: Parsed<string>): Parsed<string> {
    if r.Bad? then Bad else Good(s + r.value, r.rest)
  }

  /** One byte of a string literal, or one escape, decoded. */
  function Piece(t: string): (r: Parsed<string>)
    requires t != ""
    ensures r.Good? ==> |r.rest| < |t|
  {
    if t[0] != '\\' then Good(t[..1], t[1..])
    else if |t| < 2 then Bad
    else if SimpleEscape(t[1]).Some? then Good([SimpleEscape(t[1]).value], t[2..])
    else if t[1] != 'u' then Bad
    else
      var e := UnicodeEscape(t[1..]);
      if e.Bad? then Bad else Good(Utf8(e.value), e.rest)
  }

  /** A string literal after its opening quote. */
  function StringBody(t: string): (r: Parsed<string>)
    ensures r.Good? ==> |r.rest| < |t|
    decreases |t|
  {
    if t == "" then Bad
    else if t[0] == '"' then Good("", t[1..])
    else
      var p := Piece(t);
      if p.Bad? then Bad else Prepend(p.value, StringBody(p.rest))
  }

  // Values

  predicate IsNumberByte(c: char) {
    IsDigit(c) || c == '.' || c == 'e' || c == 'E' || c == '+' || c == '-'
  }

  function NumberRun(t: string): (n: nat)
    ensures n <= |t|
  {
    if t != "" && IsNumberByte(t[0]) then 1 + NumberRun(t[1..]) else 0
  }

  function ParseNumber(t: string): (r: Parsed<Json>)
    ensures r.Good? ==> |r.rest| < |t|
  {
    var n := NumberRun(t);
    if n == 0 then Bad else Good(Number(t[..n]), t[n..])
  }

  function ParseWord(t: string, word: string, v: Json): (r: Parsed<Json>)
    requires word != ""
    ensures r.Good? ==> |r.rest| < |t|
  {
    if |t| >= |word| && t[..|word|] == word then Good(v, t[|word|..]) else Bad
  }

  function ParseText(t: string): (r: Parsed<Json>)
    ensures r.Good? ==> |r.rest| < |t|
  {
    var s := StringBody(t);
    if s.Bad? then Bad else Good(String(s.value), s.rest)
  }

  /** A value at nesting `depth`: a 65th container inside the others is refused. */
  function ParseValue(t: string, depth: nat): (r: Parsed<Json>)
    ensures r.Good? ==> |r.rest| < |t|
    decreases |t|, 0
  {
    var u := SkipWs(t);
    if u == "" then Bad
    else if u[0] == '{' then (if depth >= MAX_DEPTH then Bad else ParseObject(u[1..], depth + 1))
    else if u[0] == '[' then (if depth >= MAX_DEPTH then Bad else ParseArray(u[1..], depth + 1))
    else if u[0] == '"' then ParseText(u[1..])
    else if u[0] == 't' then ParseWord(u, "true", Bool(true))
    else if u[0] == 'f' then ParseWord(u, "false", Bool(false))
    else if u[0] == 'n' then ParseWord(u, "null", Null)
    else ParseNumber(u)
  }

  /** An array after its bracket. */
  function ParseArray(t: string, depth: nat): (r: Parsed<Json>)
    ensures r.Good? ==> |r.rest| < |t|
    decreases |t|, 2
  {
    var u := SkipWs(t);
    if Starts(u, ']') then Good(Array([]), u[1..])
    else
      var items := ParseItems(u, depth);
      if items.Bad? then Bad else Good(Array(items.value), items.rest)
  }

  /** The items of a non-empty array, and its closing bracket. */
  function ParseItems(t: string, depth: nat): (r: Parsed<seq<Json>>)
    ensures r.Good? ==> |r.rest| < |t|
    decreases |t|, 1
  {
    var (v, rest) :- ParseValue(t, depth);
    var u := SkipWs(rest);
    if Starts(u, ',') then
      var (more, end) :- ParseItems(u[1..], depth);
      Good([v] + more, end)
    else if Starts(u, ']') then Good([v], u[1..])
    else Bad
  }

  function ParseObject(t: string, depth: nat): (r: Parsed<Json>)
    ensures r.Good? ==> |r.rest| < |t|
    decreases |t|, 2
  {
    var u := SkipWs(t);
    if Starts(u, '}') then Good(Object([]), u[1..])
    else
      var members := ParseMembers(u, depth);
      if members.Bad? then Bad else Good(Object(members.value), members.rest)
  }

  /** A key with its colon. */
  function ParseKey(t: string): (r: Parsed<string>)
    ensures r.Good? ==> |r.rest| < |t|
  {
    var u := SkipWs(t);
    if !Starts(u, '"') then Bad
    else
      var (key, rest) :- StringBody(u[1..]);
      var w := SkipWs(rest);
      if Starts(w, ':') then Good(key, w[1..]) else Bad
  }

  function ParseMembers(t: string, depth: nat): (r: Parsed<seq<Member>>)
    ensures r.Good? ==> |r.rest| < |t|
    decreases |t|, 1
  {
    var (key, colon) :- ParseKey(t);
    var (v, rest) :- ParseValue(colon, depth);
    var u := SkipWs(rest);
    if Starts(u, ',') then
      var (more, end) :- ParseMembers(u[1..], depth);
      Good([Member(key, v)] + more, end)
    else if Starts(u, '}') then Good([Member(key, v)], u[1..])
    else Bad
  }

  /** fl_json_parse: one value and nothing but whitespace after it. */
  function Parse(s: string): Option<Json> {
    var r := ParseValue(s, 0);
    if r.Good? && SkipWs(r.rest) == "" then Some(r.value) else None
  }

  // Printing

  function HexLower(n: nat): char
    requires n < 16
  {
    "0123456789abcdef"[n]
  }

  /** What fl_strbuf_append_json_string writes for one byte. */
  function EscapeByte(c: char): string {
    if c == '"' then "\\\"" else if c == '\\' then "\\\\"
    else if c == 0x08 as char then "\\b" else if c == 0x0C as char then "\\f"
    else if c == '\n' then "\\n" else if c == '\r' then "\\r" else if c == '\t' then "\\t"
    else if c < ' ' then "\\u00" + [HexLower(c as int / 16), HexLower(c as int % 16)]
    else [c]
  }

  function EscapeAll(s: string): string {
    if s == "" then "" else EscapeByte(s[0]) + EscapeAll(s[1..])
  }

  function Quote(s: string): string {
    "\"" + EscapeAll(s) + "\""
  }

  function Print(v: Json): string {
    match v
    case Null => "null"
    case Bool(on) => if on then "true" else "false"
    case Number(text) => text
    case String(text) => Quote(text)
    case Array(items) => "[" + PrintItems(items) + "]"
    case Object(members) => "{" + PrintMembers(members) + "}"
  }

  function PrintItems(items: seq<Json>): string {
    if items == [] then ""
    else Print(items[0]) + (if |items| == 1 then "" else "," + PrintItems(items[1..]))
  }

  function PrintMembers(members: seq<Member>): string {
    if members == [] then ""
    else Quote(members[0].key) + ":" + Print(members[0].value)
         + (if |members| == 1 then "" else "," + PrintMembers(members[1..]))
  }

  // Trees

  predicate IsNumberText(text: string) {
    text != "" && forall i :: 0 <= i < |text| ==> IsNumberByte(text[i])
  }

  /** Numbers are spelt in number bytes. */
  predicate Spelt(v: Json) {
    match v
    case Number(text) => IsNumberText(text)
    case Array(items) => forall i :: 0 <= i < |items| ==> Spelt(items[i])
    case Object(members) => forall i :: 0 <= i < |members| ==> Spelt(members[i].value)
    case _ => true
  }

  /** Strings and keys are C strings. */
  predicate CStrings(v: Json) {
    match v
    case String(text) => NulFree(text)
    case Array(items) => forall i :: 0 <= i < |items| ==> CStrings(items[i])
    case Object(members) => forall i :: 0 <= i < |members| ==> NulFree(members[i].key) && CStrings(members[i].value)
    case _ => true
  }

  predicate Printable(v: Json) {
    Spelt(v) && CStrings(v)
  }

  /** Containers within containers stay within `room`. */
  predicate Nests(v: Json, room: int) {
    match v
    case Array(items) => room > 0 && forall i :: 0 <= i < |items| ==> Nests(items[i], room - 1)
    case Object(members) => room > 0 && forall i :: 0 <= i < |members| ==> Nests(members[i].value, room - 1)
    case _ => true
  }

  // Reading strings back

  lemma HexDigitIsRead(n: nat)
    requires n < 16
    ensures HexValue(HexLower(n)) == n
  {
  }

  lemma ControlIsRead(c: char, t: string)
    requires '\0' < c < ' '
    ensures var s := "\\u00" + [HexLower(c as int / 16), HexLower(c as int % 16)] + t;
            StringBody(s) == Prepend([c], StringBody(t))
  {
    hide HexLower, HexValue, Utf8;
    var (a, b) := (HexLower(c as int / 16), HexLower(c as int % 16));
    HexDigitIsRead(c as int / 16);
    HexDigitIsRead(c as int % 16);
    ZeroIsRead();
    ByteIsItself(c);
    var s := "\\u00" + [a, b] + t;
    var u := s[1..];
    assert u == "u00" + [a, b] + t;
    assert u[1..][0] == '0' && u[1..][1] == '0' && u[1..][2] == a && u[1..][3] == b;
    assert u[5..] == t;
    assert UnicodeEscape(u) == Good(c as int, t);
  }

  lemma ZeroIsRead()
    ensures HexValue('0') == 0
  {
  }

  lemma ByteIsItself(c: char)
    requires c < ' '
    ensures Utf8(c as int) == [c]
  {
  }

  lemma EscapedByteIsRead(c: char, t: string)
    requires c != '\0'
    ensures StringBody(EscapeByte(c) + t) == Prepend([c], StringBody(t))
  {
    hide StringBody, HexLower;
    var e := EscapeByte(c);
    if |e| == 2 {
      ShortEscapeIsRead(e, c, t);
    } else if |e| == 6 {
      ControlIsRead(c, t);
    } else {
      PlainByteIsRead(c, t);
    }
  }

  lemma PlainByteIsRead(c: char, t: string)
    requires c != '"' && c != '\\'
    ensures StringBody([c] + t) == Prepend([c], StringBody(t))
  {
    hide UnicodeEscape, Utf8, SimpleEscape;
    var s := [c] + t;
    assert s[1..] == t && s[..1] == [c];
  }

  lemma ShortEscapeIsRead(e: string, c: char, t: string)
    requires |e| == 2 && e[0] == '\\' && SimpleEscape(e[1]) == Some(c)
    ensures StringBody(e + t) == Prepend([c], StringBody(t))
  {
    hide UnicodeEscape, Utf8, SimpleEscape;
    var s := e + t;
    assert s[2..] == t && s[0] == '\\' && s[1] == e[1];
  }

  lemma {:induction false} EscapedIsRead(s: string, t: string)
    requires NulFree(s)
    ensures StringBody(EscapeAll(s) + "\"" + t) == Good(s, t)
  {
    if s == "" {
      assert EscapeAll(s) + "\"" + t == "\"" + t;
      assert ("\"" + t)[1..] == t;
    } else {
      var rest := EscapeAll(s[1..]) + "\"" + t;
      assert EscapeAll(s) + "\"" + t == EscapeByte(s[0]) + rest;
      EscapedIsRead(s[1..], t);
      EscapedByteIsRead(s[0], rest);
      assert [s[0]] + s[1..] == s;
    }
  }

  lemma QuotedIsRead(s: string, t: string)
    requires NulFree(s)
    ensures Quote(s) + t != "" && (Quote(s) + t)[0] == '"'
    ensures StringBody((Quote(s) + t)[1..]) == Good(s, t)
  {
    hide StringBody, EscapeAll;
    EscapedIsRead(s, t);
    assert (Quote(s) + t)[1..] == EscapeAll(s) + "\"" + t;
  }

  // Reading values back

  lemma {:induction false} NumberRunAll(x: string, t: string)
    requires forall i :: 0 <= i < |x| ==> IsNumberByte(x[i])
    requires t == "" || !IsNumberByte(t[0])
    ensures NumberRun(x + t) == |x|
  {
    if x == "" {
      assert x + t == t;
    } else {
      assert (x + t)[1..] == x[1..] + t;
      NumberRunAll(x[1..], t);
    }
  }

  predicate Stops(t: string) {
    t == "" || t[0] in {',', ']', '}'}
  }

  lemma {:induction false} WordIsRead(v: Json, t: string, depth: nat)
    requires v.Null? || v.Bool?
    ensures ParseValue(Print(v) + t, depth) == Good(v, t)
  {
    hide StringBody, NumberRun;
    var s := Print(v) + t;
    if v == Bool(false) {
      assert s[..5] == "false" && s[5..] == t;
    } else {
      assert s[..4] == Print(v) && s[4..] == t;
    }
  }

  lemma {:induction false} NumberIsRead(text: string, t: string, depth: nat)
    requires IsNumberText(text) && Stops(t)
    ensures ParseValue(text + t, depth) == Good(Number(text), t)
  {
    hide StringBody, NumberRun;
    NumberRunAll(text, t);
    var s := text + t;
    assert s[0] == text[0] && IsNumberByte(s[0]);
    assert s[..|text|] == text && s[|text|..] == t;
  }

  lemma {:induction false} TextIsRead(text: string, t: string, depth: nat)
    requires NulFree(text)
    ensures ParseValue(Quote(text) + t, depth) == Good(String(text), t)
  {
    hide StringBody, NumberRun, EscapeAll;
    QuotedIsRead(text, t);
  }

  lemma {:induction false} ScalarIsRead(v: Json, t: string, depth: nat)
    requires !v.Array? && !v.Object? && Printable(v) && Stops(t)
    ensures ParseValue(Print(v) + t, depth) == Good(v, t)
  {
    hide ParseValue, IsNumberText, Quote, Stops;
    match v
    case Number(text) => NumberIsRead(text, t, depth);
    case String(text) => TextIsRead(text, t, depth);
    case _ => WordIsRead(v, t, depth);
  }

  lemma PrintStarts(v: Json)
    requires Printable(v)
    ensures Print(v) != "" && !IsWs(Print(v)[0]) && Print(v)[0] !in {']', '}', ','}
  {
  }

  lemma ArrayIsRead(items: seq<Json>, t: string, depth: nat)
    requires depth < MAX_DEPTH && forall i :: 0 <= i < |items| ==> Printable(items[i])
    requires items != [] ==> ParseItems(PrintItems(items) + "]" + t, depth + 1) == Good(items, t)
    ensures ParseValue(Print(Array(items)) + t, depth) == Good(Array(items), t)
  {
    hide ParseItems, Printable;
    var s := PrintItems(items) + "]" + t;
    var u := Print(Array(items)) + t;
    assert u == "[" + s && u[1..] == s;
    if items == [] {
      assert s == "]" + t && s[1..] == t;
    } else {
      PrintStarts(items[0]);
      assert s[0] == Print(items[0])[0];
      assert SkipWs(s) == s;
    }
    assert ParseArray(s, depth + 1) == Good(Array(items), t);
  }

  lemma {:induction false} ObjectIsRead(members: seq<Member>, t: string, depth: nat)
    requires depth < MAX_DEPTH
    requires members != [] ==> ParseMembers(PrintMembers(members) + "}" + t, depth + 1) == Good(members, t)
    ensures ParseValue(Print(Object(members)) + t, depth) == Good(Object(members), t)
  {
    hide ParseMembers, EscapeAll;
    var s := PrintMembers(members) + "}" + t;
    var u := Print(Object(members)) + t;
    assert u == "{" + s && u[1..] == s;
    if members == [] {
      assert s == "}" + t && s[1..] == t;
    } else {
      assert s[0] == '"' && SkipWs(s) == s;
    }
    assert ParseObject(s, depth + 1) == Good(Object(members), t);
  }

  /** Parsing what was printed gives the tree back and stops where the text of the tree does. */
  lemma {:induction false} PrintedIsRead(v: Json, t: string, depth: nat)
    requires Printable(v) && Nests(v, MAX_DEPTH - depth) && depth <= MAX_DEPTH && Stops(t)
    ensures ParseValue(Print(v) + t, depth) == Good(v, t)
    decreases v, 1
  {
    hide ParseValue, ParseItems, ParseMembers, Print, PrintItems, PrintMembers;
    match v
    case Array(items) =>
      if items != [] { ItemsAreRead(v, items, t, depth + 1); }
      ArrayIsRead(items, t, depth);
    case Object(members) =>
      if members != [] { MembersAreRead(v, members, t, depth + 1); }
      ObjectIsRead(members, t, depth);
    case _ => ScalarIsRead(v, t, depth);
  }

  /** The text after the first item. */
  function ItemsTail(items: seq<Json>, t: string): string
    requires items != []
  {
    (if |items| == 1 then "" else "," + PrintItems(items[1..])) + "]" + t
  }

  lemma ItemsStep(items: seq<Json>, t: string, depth: nat)
    requires items != []
    requires ParseValue(Print(items[0]) + ItemsTail(items, t), depth) == Good(items[0], ItemsTail(items, t))
    requires |items| > 1 ==> ParseItems(PrintItems(items[1..]) + "]" + t, depth) == Good(items[1..], t)
    ensures ParseItems(PrintItems(items) + "]" + t, depth) == Good(items, t)
  {
    hide ParseValue, Print, SkipWs;
    var tail := ItemsTail(items, t);
    assert PrintItems(items) + "]" + t == Print(items[0]) + tail;
    NoWs(tail);
    if |items| == 1 {
      assert tail == "]" + t && tail[1..] == t;
      assert items == [items[0]];
    } else {
      assert tail[1..] == PrintItems(items[1..]) + "]" + t;
      assert [items[0]] + items[1..] == items;
    }
  }

  lemma {:induction false} ItemsAreRead(v: Json, items: seq<Json>, t: string, depth: nat)
    requires items != [] && forall i :: 0 <= i < |items| ==> items[i] < v
    requires forall i :: 0 <= i < |items| ==> Printable(items[i]) && Nests(items[i], MAX_DEPTH - depth)
    requires depth <= MAX_DEPTH
    ensures ParseItems(PrintItems(items) + "]" + t, depth) == Good(items, t)
    decreases v, 0, |items|
  {
    hide ParseValue, ParseItems, Print, PrintItems, Printable, Nests;
    PrintedIsRead(items[0], ItemsTail(items, t), depth);
    if |items| > 1 { ItemsAreRead(v, items[1..], t, depth); }
    ItemsStep(items, t, depth);
  }

  lemma NoWs(t: string)
    requires t != "" && !IsWs(t[0])
    ensures SkipWs(t) == t
  {
  }

  lemma KeyIsRead(key: string, t: string)
    requires NulFree(key)
    ensures ParseKey(Quote(key) + ":" + t) == Good(key, t)
  {
    hide StringBody;
    assert Quote(key) + ":" + t == Quote(key) + (":" + t);
    QuotedIsRead(key, ":" + t);
    assert (":" + t)[1..] == t;
  }

  function MembersTail(members: seq<Member>, t: string): string
    requires members != []
  {
    (if |members| == 1 then "" else "," + PrintMembers(members[1..])) + "}" + t
  }

  lemma MembersStep(members: seq<Member>, t: string, depth: nat)
    requires members != [] && NulFree(members[0].key)
    requires ParseValue(Print(members[0].value) + MembersTail(members, t), depth)
             == Good(members[0].value, MembersTail(members, t))
    requires |members| > 1 ==> ParseMembers(PrintMembers(members[1..]) + "}" + t, depth) == Good(members[1..], t)
    ensures ParseMembers(PrintMembers(members) + "}" + t, depth) == Good(members, t)
  {
    hide ParseValue, ParseKey, Print, SkipWs, Quote;
    var tail := MembersTail(members, t);
    var first := Print(members[0].value) + tail;
    assert PrintMembers(members) + "}" + t == Quote(members[0].key) + ":" + first;
    KeyIsRead(members[0].key, first);
    NoWs(tail);
    assert members[0] == Member(members[0].key, members[0].value);
    if |members| == 1 {
      assert tail == "}" + t && tail[1..] == t;
      assert members == [members[0]];
    } else {
      assert tail[1..] == PrintMembers(members[1..]) + "}" + t;
      assert [members[0]] + members[1..] == members;
    }
  }

  lemma {:induction false} MembersAreRead(v: Json, members: seq<Member>, t: string, depth: nat)
    requires members != [] && forall i :: 0 <= i < |members| ==> members[i].value < v
    requires forall i :: 0 <= i < |members| ==>
               NulFree(members[i].key) && Printable(members[i].value) && Nests(members[i].value, MAX_DEPTH - depth)
    requires depth <= MAX_DEPTH
    ensures ParseMembers(PrintMembers(members) + "}" + t, depth) == Good(members, t)
    decreases v, 0, |members|
  {
    hide ParseValue, ParseMembers, Print, PrintMembers, Printable, Nests;
    PrintedIsRead(members[0].value, MembersTail(members, t), depth);
    if |members| > 1 { MembersAreRead(v, members[1..], t, depth); }
    MembersStep(members, t, depth);
  }

  /** What is accepted nests no deeper than 64 and spells its numbers as they may be spelt. */
  lemma {:induction false} AcceptedNests(t: string, depth: nat)
    requires depth <= MAX_DEPTH && ParseValue(t, depth).Good?
    ensures Nests(ParseValue(t, depth).value, MAX_DEPTH - depth)
    ensures Spelt(ParseValue(t, depth).value)
    decreases |t|, 0
  {
    var u := SkipWs(t);
    if u[0] == '[' && !Starts(SkipWs(u[1..]), ']') {
      ItemsNest(SkipWs(u[1..]), depth + 1);
    } else if u[0] == '{' && !Starts(SkipWs(u[1..]), '}') {
      MembersNest(SkipWs(u[1..]), depth + 1);
    } else if u[0] !in {'[', '{', '"', 't', 'f', 'n'} {
      NumberRunBytes(u);
    }
  }

  lemma {:induction false} NumberRunBytes(t: string)
    ensures forall i :: 0 <= i < NumberRun(t) ==> IsNumberByte(t[i])
    ensures NumberRun(t) < |t| ==> !IsNumberByte(t[NumberRun(t)])
  {
    if t != "" && IsNumberByte(t[0]) {
      NumberRunBytes(t[1..]);
    }
  }

  lemma {:induction false} ItemsNest(t: string, depth: nat)
    requires depth <= MAX_DEPTH && ParseItems(t, depth).Good?
    ensures var items := ParseItems(t, depth).value;
            forall i :: 0 <= i < |items| ==> Nests(items[i], MAX_DEPTH - depth) && Spelt(items[i])
    decreases |t|, 1
  {
    var p := ParseValue(t, depth);
    AcceptedNests(t, depth);
    var u := SkipWs(p.rest);
    if Starts(u, ',') { ItemsNest(u[1..], depth); }
  }

  lemma {:induction false} MembersNest(t: string, depth: nat)
    requires depth <= MAX_DEPTH && ParseMembers(t, depth).Good?
    ensures var members := ParseMembers(t, depth).value;
            forall i :: 0 <= i < |members| ==> Nests(members[i].value, MAX_DEPTH - depth) && Spelt(members[i].value)
    decreases |t|, 1
  {
    var colon := ParseKey(t).rest;
    var p := ParseValue(colon, depth);
    AcceptedNests(colon, depth);
    var u := SkipWs(p.rest);
    if Starts(u, ',') { MembersNest(u[1..], depth); }
  }

  /** Parse inverts print on every tree of C strings, exactly when it nests at most 64 deep. */
  lemma ParseInvertsPrint(v: Json)
    requires Printable(v)
    ensures Parse(Print(v)) == Some(v) <==> Nests(v, MAX_DEPTH)
  {
    assert Print(v) + "" == Print(v);
    if Nests(v, MAX_DEPTH) { PrintedIsRead(v, "", 0); }
    if Parse(Print(v)) == Some(v) { AcceptedNests(Print(v), 0); }
  }

  /** Whatever the parser accepts survives printing and parsing again, unless a string of it holds a
      NUL, which a C string cannot. */
  lemma AcceptedSurvives(s: string)
    requires Parse(s).Some? && CStrings(Parse(s).value)
    ensures Parse(Print(Parse(s).value)) == Parse(s)
  {
    AcceptedNests(s, 0);
    ParseInvertsPrint(Parse(s).value);
  }

  lemma OnlyNumbers(t: string, depth: nat)
    requires ParseValue(t, depth).Good? && ParseValue(t, depth).value.Number?
    ensures ParseValue(t, depth) == ParseNumber(SkipWs(t))
  {
    hide ParseItems, ParseMembers, NumberRun, StringBody;
  }

  /** A number keeps its exact text: all the number bytes at the front of the input, and nothing else. */
  lemma NumberIsSlice(t: string, depth: nat)
    requires ParseValue(t, depth).Good? && ParseValue(t, depth).value.Number?
    ensures var (x, rest) := (ParseValue(t, depth).value.text, ParseValue(t, depth).rest);
            && SkipWs(t) == x + rest && IsNumberText(x)
            && (rest != "" ==> !IsNumberByte(rest[0]))
  {
    hide ParseValue, NumberRun;
    OnlyNumbers(t, depth);
    var u := SkipWs(t);
    NumberRunBytes(u);
    assert u == u[..NumberRun(u)] + u[NumberRun(u)..];
  }

  // Code points beyond the basic plane

  function HexFour(n: nat): string
    requires n < 0x10000
  {
    [HexLower(n / 4096), HexLower(n / 256 % 16), HexLower(n / 16 % 16), HexLower(n % 16)]
  }

  lemma HexFourIsRead(n: nat, t: string)
    requires n < 0x10000
    ensures Hex4(HexFour(n) + t) == n
  {
    hide HexLower, HexValue;
    var u := HexFour(n) + t;
    HexDigitIsRead(n / 4096);
    HexDigitIsRead(n / 256 % 16);
    HexDigitIsRead(n / 16 % 16);
    HexDigitIsRead(n % 16);
    assert n / 256 == n / 4096 * 16 + n / 256 % 16;
    assert n / 16 == n / 256 * 16 + n / 16 % 16;
  }

  /** The two \u escapes of a code point beyond 0xFFFF. */
  function SurrogateEscapes(cp: nat): string
    requires 0x10000 <= cp <= 0x10FFFF
  {
    "\\u" + HexFour(0xD800 + (cp - 0x10000) / 1024) + "\\u" + HexFour(0xDC00 + (cp - 0x10000) % 1024)
  }

  lemma PairIsTakenTogether(cp: nat, t: string)
    requires 0x10000 <= cp <= 0x10FFFF
    ensures UnicodeEscape((SurrogateEscapes(cp) + t)[1..]) == Good(cp, t)
  {
    hide HexFour, Hex4, UnicodeEscape;
    var (high, low) := (0xD800 + (cp - 0x10000) / 1024, 0xDC00 + (cp - 0x10000) % 1024);
    FourLong(high);
    FourLong(low);
    PairParts(HexFour(high), HexFour(low), t);
    var tail := "\\u" + HexFour(low) + t;
    HexFourIsRead(high, tail);
    HexFourIsRead(low, t);
    PairIsDecoded((SurrogateEscapes(cp) + t)[1..], high, low, tail, t);
    assert 0x10000 + (high - 0xD800) * 1024 + (low - 0xDC00) == cp;
  }

  lemma PairParts(high: string, low: string, t: string)
    requires |high| == 4 && |low| == 4
    ensures var (u, tail) := (("\\u" + high + "\\u" + low + t)[1..], "\\u" + low + t);
            && u[1..] == high + tail && u[5..] == tail
            && tail[2..] == low + t && tail[6..] == t
  {
    var (s, tail) := ("\\u" + high + "\\u" + low + t, "\\u" + low + t);
    assert s == "\\u" + (high + tail);
    assert s[1..][1..] == high + tail;
  }

  lemma PairIsDecoded(u: string, high: nat, low: nat, tail: string, t: string)
    requires |u| >= 5 && u[5..] == tail && |tail| >= 6 && tail[0] == '\\' && tail[1] == 'u' && tail[6..] == t
    requires Hex4(u[1..]) == high && Hex4(tail[2..]) == low && 0xD800 <= high <= 0xDBFF && low >= 0xDC00
    ensures UnicodeEscape(u) == Good(0x10000 + (high - 0xD800) * 1024 + (low - 0xDC00), t)
  {
    hide Hex4;
  }

  /** A surrogate pair is read as the UTF-8 of the code point it stands for. */
  lemma {:induction false} SurrogatePairIsRead(cp: nat, t: string)
    requires 0x10000 <= cp <= 0x10FFFF
    ensures StringBody(SurrogateEscapes(cp) + t) == Prepend(Utf8(cp), StringBody(t))
  {
    hide HexFour, UnicodeEscape, Utf8;
    PairIsTakenTogether(cp, t);
    var s := SurrogateEscapes(cp) + t;
    assert s[0] == '\\' && s[1] == 'u';
  }

  lemma FourLong(n: nat)
    requires n < 0x10000
    ensures |HexFour(n)| == 4
  {
  }

  /** The code point whose UTF-8 stands at the front of `s` (section 3 of RFC 3629). */
  function DecodeUtf8(s: string): int {
    if s == "" then -1
    else
      var a := s[0] as int;
      if a < 0x80 then a
      else if 0xC0 <= a < 0xE0 && |s| >= 2 then (a - 0xC0) * 64 + (s[1] as int - 0x80)
      else if 0xE0 <= a < 0xF0 && |s| >= 3 then (a - 0xE0) * 4096 + (s[1] as int - 0x80) * 64 + (s[2] as int - 0x80)
      else if 0xF0 <= a < 0xF8 && |s| >= 4 then
        (a - 0xF0) * 262144 + (s[1] as int - 0x80) * 4096 + (s[2] as int - 0x80) * 64 + (s[3] as int - 0x80)
      else -1
  }

  /** UTF-8 encoding loses nothing and stays within bytes. */
  lemma {:induction false} Utf8RoundTrip(cp: nat)
    requires cp < 0x200000
    ensures DecodeUtf8(Utf8(cp)) == cp
    ensures IsBytes(Utf8(cp))
    ensures |Utf8(cp)| == if cp < 0x80 then 1 else if cp < 0x800 then 2 else if cp < 0x10000 then 3 else 4
  {
    assert cp / 64 == cp / 4096 * 64 + cp / 64 % 64;
    assert cp / 4096 == cp / 262144 * 64 + cp / 4096 % 64;
  }

  /** Every byte behind the first continues the character. */
  lemma Utf8Continues(cp: nat)
    requires cp < 0x200000
    ensures forall i :: 1 <= i < |Utf8(cp)| ==> 0x80 <= Utf8(cp)[i] as int < 0xC0
  {
  }
}
