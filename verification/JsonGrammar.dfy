/** JSON as it may be written: any blanks between the tokens and any of the escapes of a string (RFC 8259, sections
    2 to 7), and what the parser accepts beyond it (src/json.c). What is written here is what is read, and nothing
    else is. */
module JsonGrammar {
  import opened Text
  import opened Json

  // Strings

  /** A character of a string: itself, an escape of one letter, the four digits of a \u escape, or two of them taken
      together. */
  datatype Letter =
    | Plain(c: char)
    | Short(c: char)
    | Unit(n: nat, digits: string)
    | Pair(high: nat, highDigits: string, low: nat, lowDigits: string)

  const SIXTEEN := "0123456789abcdef"

  predicate IsHexDigit(c: char, n: nat) {
    n < 16 && (c == SIXTEEN[n] || (n >= 10 && c == "ABCDEF"[n - 10]))
  }

  predicate IsHexOf(digits: string, n: nat) {
    && n < 0x10000 && |digits| == 4
    && IsHexDigit(digits[0], n / 4096) && IsHexDigit(digits[1], n / 256 % 16)
    && IsHexDigit(digits[2], n / 16 % 16) && IsHexDigit(digits[3], n % 16)
  }

  predicate IsHigh(n: nat) {
    0xD800 <= n <= 0xDBFF
  }

  predicate IsLetter(l: Letter) {
    match l
    case Plain(c) => c != '"' && c != '\\'
    case Short(c) => c in "\"\\/bfnrt"
    case Unit(n, digits) => IsHexOf(digits, n)
    case Pair(high, highDigits, low, lowDigits) => IsHigh(high) && IsHexOf(highDigits, high) && IsHexOf(lowDigits, low)
  }

  function LetterText(l: Letter): string {
    match l
    case Plain(c) => [c]
    case Short(c) => ['\\', c]
    case Unit(_, digits) => "\\u" + digits
    case Pair(_, highDigits, _, lowDigits) => "\\u" + highDigits + "\\u" + lowDigits
  }

  /** What an escape of one letter stands for. */
  function ShortMeaning(c: char): char {
    match c
    case 'b' => 0x08 as char
    case 'f' => 0x0C as char
    case 'n' => 0x0A as char
    case 'r' => 0x0D as char
    case 't' => 0x09 as char
    case _ => c
  }

  function Meaning(l: Letter): string
    requires IsLetter(l)
  {
    match l
    case Plain(c) => [c]
    case Short(c) => [ShortMeaning(c)]
    case Unit(n, _) => Utf8(n)
    case Pair(high, _, low, _) => Utf8(0x10000 + (high - 0xD800) * 0x400 + low - 0xDC00)
  }

  /** The first half of a pair with another \u escape behind it is not read alone. */
  predicate Alone(l: Letter, next: Letter) {
    l.Unit? && IsHigh(l.n) ==> !next.Unit? && !next.Pair?
  }

  predicate AreLetters(ls: seq<Letter>) {
    && (forall i :: 0 <= i < |ls| ==> IsLetter(ls[i]))
    && forall i :: 0 <= i < |ls| - 1 ==> Alone(ls[i], ls[i + 1])
  }

  function LettersText(ls: seq<Letter>): string {
    if ls == [] then "" else LetterText(ls[0]) + LettersText(ls[1..])
  }

  function Meanings(ls: seq<Letter>): string
    requires forall i :: 0 <= i < |ls| ==> IsLetter(ls[i])
  {
    if ls == [] then "" else Meaning(ls[0]) + Meanings(ls[1..])
  }

  lemma HexIsRead(c: char, n: nat)
    ensures n < 16 ==> (IsHexDigit(c, n) <==> HexValue(c) == n)
    ensures HexValue(c) < 0 ==> !IsHexDigit(c, n)
  {
  }

  lemma FourAreRead(t: string, n: nat)
    requires |t| >= 4 && n < 0x10000
    ensures Hex4(t) == n <==> IsHexOf(t[..4], n)
  {
    hide HexValue, IsHexDigit;
    HexIsRead(t[0], n / 4096);
    HexIsRead(t[1], n / 256 % 16);
    HexIsRead(t[2], n / 16 % 16);
    HexIsRead(t[3], n % 16);
    assert n / 256 == n / 4096 * 16 + n / 256 % 16;
    assert n / 16 == n / 256 * 16 + n / 16 % 16;
  }

  lemma PlainIsRead(c: char, t: string)
    requires c != '"' && c != '\\'
    ensures StringBody([c] + t) == Prepend([c], StringBody(t))
  {
    hide UnicodeEscape, Utf8, SimpleEscape;
    var s := [c] + t;
    assert s[1..] == t && s[..1] == [c];
  }

  lemma ShortIsRead(c: char, t: string)
    requires c in "\"\\/bfnrt"
    ensures StringBody(['\\', c] + t) == Prepend([ShortMeaning(c)], StringBody(t))
  {
    hide UnicodeEscape, Utf8;
    var s := ['\\', c] + t;
    assert s[2..] == t && s[0] == '\\' && s[1] == c;
  }

  /** Whether a \u escape comes next. */
  predicate EscapeNext(t: string) {
    |t| >= 6 && t[0] == '\\' && t[1] == 'u'
  }

  lemma EscapeIsRead(s: string, t: string, n: nat)
    requires s[0..] == s && |s| >= 6 && s[0] == '\\' && s[1] == 'u' && s[6..] == t && n < 0x10000
    requires Hex4(s[2..]) == n && (IsHigh(n) ==> !EscapeNext(t))
    ensures StringBody(s) == Prepend(Utf8(n), StringBody(t))
  {
    hide Hex4, Utf8, StringBody;
    assert s[1..][1..] == s[2..] && s[1..][5..] == s[6..];
    BodyOfEscape(s);
  }

  lemma PairIsRead(s: string, t: string, high: nat, low: nat)
    requires |s| >= 12 && s[0] == '\\' && s[1] == 'u' && s[6] == '\\' && s[7] == 'u' && s[12..] == t
    requires Hex4(s[2..]) == high && Hex4(s[8..]) == low && IsHigh(high)
    ensures low < 0x10000
    ensures StringBody(s) == Prepend(Utf8(0x10000 + (high - 0xD800) * 0x400 + low - 0xDC00), StringBody(t))
  {
    hide Hex4, Utf8, StringBody;
    assert s[1..][1..] == s[2..] && s[1..][5..] == s[6..];
    assert s[6..][2..] == s[8..] && s[6..][6..] == s[12..];
    BodyOfEscape(s);
  }

  lemma BodyOfEscape(s: string)
    requires |s| >= 2 && s[0] == '\\' && s[1] == 'u'
    ensures var e := UnicodeEscape(s[1..]);
            StringBody(s) == if e.Bad? then Bad else Prepend(Utf8(e.value), StringBody(e.rest))
  {
    hide UnicodeEscape, Utf8, Prepend;
    var e := UnicodeEscape(s[1..]);
    assert Piece(s) == if e.Bad? then Bad else Good(Utf8(e.value), e.rest);
  }

  lemma UnitIsRead(n: nat, digits: string, t: string)
    requires IsHexOf(digits, n) && (IsHigh(n) ==> !EscapeNext(t))
    ensures StringBody("\\u" + digits + t) == Prepend(Utf8(n), StringBody(t))
  {
    hide StringBody, Utf8, Hex4, IsHexOf, EscapeNext;
    var s := "\\u" + digits + t;
    HexLength(digits, n);
    assert s == "\\u" + (digits + t) && s[2..][..4] == digits && s[6..] == t;
    FourAreRead(s[2..], n);
    EscapeIsRead(s, t, n);
  }

  lemma UnitsAreRead(high: nat, highDigits: string, low: nat, lowDigits: string, t: string)
    requires IsHexOf(highDigits, high) && IsHexOf(lowDigits, low) && IsHigh(high)
    ensures low < 0x10000
    ensures StringBody("\\u" + highDigits + "\\u" + lowDigits + t)
            == Prepend(Utf8(0x10000 + (high - 0xD800) * 0x400 + low - 0xDC00), StringBody(t))
  {
    hide StringBody, Utf8, Hex4, IsHexOf;
    var s := "\\u" + highDigits + "\\u" + lowDigits + t;
    HexLength(highDigits, high);
    HexLength(lowDigits, low);
    assert s == "\\u" + (highDigits + ("\\u" + (lowDigits + t)));
    assert s[2..][..4] == highDigits && s[8..][..4] == lowDigits && s[12..] == t;
    FourAreRead(s[2..], high);
    FourAreRead(s[8..], low);
    PairIsRead(s, t, high, low);
  }

  lemma {:induction false} LetterIsRead(l: Letter, t: string)
    requires IsLetter(l) && (l.Unit? && IsHigh(l.n) ==> !EscapeNext(t))
    ensures StringBody(LetterText(l) + t) == Prepend(Meaning(l), StringBody(t))
  {
    hide StringBody, Utf8, IsHexOf, IsHigh, EscapeNext, Prepend;
    match l
    case Plain(c) => PlainIsRead(c, t);
    case Short(c) => ShortIsRead(c, t);
    case Unit(n, digits) => UnitIsRead(n, digits, t);
    case Pair(high, highDigits, low, lowDigits) => UnitsAreRead(high, highDigits, low, lowDigits, t);
  }

  lemma HexLength(digits: string, n: nat)
    requires IsHexOf(digits, n)
    ensures |digits| == 4 && n < 0x10000
  {
  }

  lemma OneLetterNext(l: Letter, t: string)
    requires IsLetter(l) && !l.Unit? && !l.Pair?
    ensures !EscapeNext(LetterText(l) + t)
  {
  }

  lemma {:induction false} NoEscapeNext(ls: seq<Letter>, t: string)
    requires (forall i :: 0 <= i < |ls| ==> IsLetter(ls[i])) && (ls != [] ==> !ls[0].Unit? && !ls[0].Pair?)
    ensures !EscapeNext(LettersText(ls) + "\"" + t)
  {
    if ls == [] {
      assert LettersText(ls) + "\"" + t == "\"" + t;
    } else {
      hide IsLetter, LetterText, EscapeNext;
      OneLetterNext(ls[0], LettersText(ls[1..]) + "\"" + t);
      assert LettersText(ls) + "\"" + t == LetterText(ls[0]) + (LettersText(ls[1..]) + "\"" + t);
    }
  }

  /** A string however its characters are written. */
  lemma {:induction false} LettersAreRead(ls: seq<Letter>, t: string)
    requires AreLetters(ls)
    ensures StringBody(LettersText(ls) + "\"" + t) == Good(Meanings(ls), t)
  {
    hide IsLetter, LetterText, Meaning, EscapeNext;
    if ls == [] {
      assert LettersText(ls) + "\"" + t == "\"" + t;
      assert ("\"" + t)[1..] == t;
    } else {
      hide StringBody;
      var rest := LettersText(ls[1..]) + "\"" + t;
      assert LettersText(ls) + "\"" + t == LetterText(ls[0]) + rest;
      forall i | 0 <= i < |ls[1..]| - 1 ensures Alone(ls[1..][i], ls[1..][i + 1]) {
        assert Alone(ls[i + 1], ls[i + 1 + 1]);
      }
      LettersAreRead(ls[1..], t);
      if ls[0].Unit? && IsHigh(ls[0].n) {
        if |ls| > 1 { assert Alone(ls[0], ls[1]); }
        NoEscapeNext(ls[1..], t);
      }
      LetterIsRead(ls[0], rest);
    }
  }

  lemma EscapeWas(t: string) returns (l: Letter)
    requires |t| >= 2 && t[0] == '\\' && t[1] == 'u' && UnicodeEscape(t[1..]).Good?
    ensures var e := UnicodeEscape(t[1..]);
            && IsLetter(l) && t == LetterText(l) + e.rest && Meaning(l) == Utf8(e.value)
            && (l.Unit? && IsHigh(l.n) ==> !EscapeNext(e.rest))
  {
    hide Hex4, Utf8, IsHexOf;
    var n := Hex4(t[2..]);
    var u := t[6..];
    assert t[1..][1..] == t[2..] && t[1..][5..] == u;
    FourAreRead(t[2..], n);
    if IsHigh(n) && EscapeNext(u) {
      FourAreRead(u[2..], Hex4(u[2..]));
      l := Pair(n, t[2..][..4], Hex4(u[2..]), u[2..][..4]);
    } else {
      l := Unit(n, t[2..][..4]);
    }
  }

  lemma {:induction false} LetterWas(t: string) returns (l: Letter)
    requires t != "" && t[0] != '"' && Piece(t).Good?
    ensures IsLetter(l) && t == LetterText(l) + Piece(t).rest && Meaning(l) == Piece(t).value
    ensures l.Unit? && IsHigh(l.n) ==> !EscapeNext(Piece(t).rest)
  {
    hide UnicodeEscape, Utf8, IsHexOf, EscapeNext;
    if t[0] != '\\' {
      l := Plain(t[0]);
    } else if t[1] != 'u' {
      l := Short(t[1]);
    } else {
      l := EscapeWas(t);
    }
  }

  lemma {:induction false} EscapeIsNext(ls: seq<Letter>, t: string)
    requires ls != [] && IsLetter(ls[0]) && (ls[0].Unit? || ls[0].Pair?)
    ensures EscapeNext(LettersText(ls) + t)
  {
    hide IsHexDigit;
    assert LettersText(ls) + t == LetterText(ls[0]) + (LettersText(ls[1..]) + t);
  }

  lemma FirstStandsAlone(l: Letter, ls: seq<Letter>)
    requires IsLetter(l) && AreLetters(ls) && (ls != [] ==> Alone(l, ls[0]))
    ensures AreLetters([l] + ls)
  {
    hide IsLetter, Alone;
    var all := [l] + ls;
    forall i | 0 <= i < |all| - 1 ensures Alone(all[i], all[i + 1]) {
      if i > 0 { assert Alone(ls[i - 1], ls[i - 1 + 1]); }
    }
  }

  lemma BodyStep(t: string)
    requires StringBody(t).Good?
    ensures t != ""
    ensures if t[0] == '"' then StringBody(t) == Good("", t[1..])
            else
              && Piece(t).Good? && |Piece(t).rest| < |t| && StringBody(Piece(t).rest).Good?
              && StringBody(t) == Good(Piece(t).value + StringBody(Piece(t).rest).value, StringBody(Piece(t).rest).rest)
  {
    hide Piece;
  }

  lemma LettersFollow(l: Letter, more: seq<Letter>, t: string)
    requires IsLetter(l) && AreLetters(more) && (l.Unit? && IsHigh(l.n) ==> !EscapeNext(LettersText(more) + t))
    ensures AreLetters([l] + more)
    ensures LettersText([l] + more) == LetterText(l) + LettersText(more)
    ensures Meanings([l] + more) == Meaning(l) + Meanings(more)
  {
    hide IsLetter, LetterText, Meaning, EscapeNext;
    if more != [] && (more[0].Unit? || more[0].Pair?) { EscapeIsNext(more, t); }
    FirstStandsAlone(l, more);
    assert ([l] + more)[1..] == more;
  }

  /** A string that was read was written so. */
  lemma {:induction false} LettersWere(t: string) returns (ls: seq<Letter>)
    requires StringBody(t).Good?
    ensures AreLetters(ls) && Meanings(ls) == StringBody(t).value
    ensures t == LettersText(ls) + "\"" + StringBody(t).rest
    decreases |t|
  {
    hide Piece, StringBody, IsLetter, LetterText, Meaning, EscapeNext;
    BodyStep(t);
    if t[0] == '"' {
      ls := [];
    } else {
      hide AreLetters, LettersText, Meanings;
      var l := LetterWas(t);
      var more := LettersWere(Piece(t).rest);
      var tail := "\"" + StringBody(t).rest;
      assert LettersText(more) + tail == Piece(t).rest;
      LettersFollow(l, more, tail);
      ls := [l] + more;
    }
  }

  // Values

  /** A text of blanks. */
  predicate IsBlank(s: string) {
    forall i :: 0 <= i < |s| ==> s[i] in " \t\n\r"
  }

  /** A value as it is written; the blanks around the parts of a container are kept, and those in an empty one. */
  datatype Written =
    | NullWord
    | TrueWord
    | FalseWord
    | Figure(text: string)
    | Quoted(letters: seq<Letter>)
    | List(gap: string, entries: seq<Entry>)
    | Record(gap: string, fields: seq<Field>)

  datatype Entry = Entry(before: string, value: Written, after: string)

  datatype Field = Field(before: string, key: seq<Letter>, behind: string, entry: Entry)

  predicate IsFigure(text: string) {
    text != "" && forall i :: 0 <= i < |text| ==> text[i] in "0123456789.eE+-"
  }

  predicate IsWell(w: Written) {
    match w
    case Figure(text) => IsFigure(text)
    case Quoted(letters) => AreLetters(letters)
    case List(gap, entries) =>
      IsBlank(gap) && forall i :: 0 <= i < |entries| ==> Spaced(entries[i]) && IsWell(entries[i].value)
    case Record(gap, fields) =>
      IsBlank(gap) && forall i :: 0 <= i < |fields| ==> IsKey(fields[i]) && IsWell(fields[i].entry.value)
    case _ => true
  }

  predicate Spaced(e: Entry) {
    IsBlank(e.before) && IsBlank(e.after)
  }

  predicate IsKey(f: Field) {
    IsBlank(f.before) && AreLetters(f.key) && IsBlank(f.behind) && Spaced(f.entry)
  }

  predicate AreEntries(entries: seq<Entry>) {
    forall i :: 0 <= i < |entries| ==> Spaced(entries[i]) && IsWell(entries[i].value)
  }

  predicate AreFields(fields: seq<Field>) {
    forall i :: 0 <= i < |fields| ==> IsKey(fields[i]) && IsWell(fields[i].entry.value)
  }

  function TextOf(w: Written): string {
    match w
    case NullWord => "null"
    case TrueWord => "true"
    case FalseWord => "false"
    case Figure(text) => text
    case Quoted(letters) => "\"" + LettersText(letters) + "\""
    case List(gap, entries) => "[" + (if entries == [] then gap else EntriesText(entries)) + "]"
    case Record(gap, fields) => "{" + (if fields == [] then gap else FieldsText(fields)) + "}"
  }

  function EntryText(e: Entry): string {
    e.before + TextOf(e.value) + e.after
  }

  function EntriesText(entries: seq<Entry>): string {
    if entries == [] then ""
    else EntryText(entries[0]) + (if |entries| == 1 then "" else "," + EntriesText(entries[1..]))
  }

  function FieldText(f: Field): string {
    f.before + "\"" + LettersText(f.key) + "\"" + f.behind + ":" + EntryText(f.entry)
  }

  function FieldsText(fields: seq<Field>): string {
    if fields == [] then ""
    else FieldText(fields[0]) + (if |fields| == 1 then "" else "," + FieldsText(fields[1..]))
  }

  /** What it says. */
  function Tree(w: Written): Json
    requires IsWell(w)
  {
    match w
    case NullWord => Null
    case TrueWord => Bool(true)
    case FalseWord => Bool(false)
    case Figure(text) => Number(text)
    case Quoted(letters) => String(Meanings(letters))
    case List(_, entries) => Array(Trees(entries))
    case Record(_, fields) => Object(Members(fields))
  }

  function Trees(entries: seq<Entry>): (r: seq<Json>)
    requires AreEntries(entries)
    ensures |r| == |entries|
  {
    if entries == [] then [] else [Tree(entries[0].value)] + Trees(entries[1..])
  }

  function Members(fields: seq<Field>): (r: seq<Member>)
    requires AreFields(fields)
    ensures |r| == |fields|
  {
    if fields == [] then []
    else [Member(Meanings(fields[0].key), Tree(fields[0].entry.value))] + Members(fields[1..])
  }

  // What is written is read

  /** What a step makes of a text: its value, or nothing of one that nests too deep. */
  function Within<T>(ok: bool, value: T, rest: string): Parsed<T> {
    if ok then Good(value, rest) else Bad
  }

  predicate AllNest(items: seq<Json>, room: int) {
    forall i :: 0 <= i < |items| ==> Nests(items[i], room)
  }

  predicate MembersNest(members: seq<Member>, room: int) {
    forall i :: 0 <= i < |members| ==> Nests(members[i].value, room)
  }

  lemma {:induction false} BlankIsSkipped(b: string, t: string)
    requires IsBlank(b) && (t != "" ==> !IsBlank(t[..1]))
    ensures SkipWs(b + t) == t
  {
    if b == "" {
      assert b + t == t;
      if t != "" { assert t[..1][0] == t[0]; }
    } else {
      assert (b + t)[1..] == b[1..] + t;
      BlankIsSkipped(b[1..], t);
    }
  }

  /** Whether something other than a blank comes next. */
  predicate Begins(t: string) {
    t != "" && t[0] !in " \t\n\r"
  }

  lemma BeginsAfter(b: string, t: string)
    requires IsBlank(b) && Begins(t)
    ensures SkipWs(b + t) == t == SkipWs(t)
  {
    hide SkipWs;
    assert t[..1][0] == t[0];
    BlankIsSkipped(b, t);
    BlankIsSkipped("", t);
    assert "" + t == t;
  }

  lemma {:induction false} WrittenBegins(w: Written)
    requires IsWell(w)
    ensures Begins(TextOf(w)) && TextOf(w)[0] !in {']', '}', ','}
  {
    hide LettersText, EntriesText, FieldsText, AreLetters, Spaced, IsKey;
    if w.Figure? { FigureBegins(w.text); }
  }

  lemma FigureBegins(text: string)
    requires IsFigure(text)
    ensures Begins(text) && text[0] !in {']', '}', ',', '{', '[', '"', 't', 'f', 'n'}
  {
  }

  lemma BlankBefore(b: string, t: string, depth: nat)
    requires IsBlank(b) && Begins(t)
    ensures ParseValue(b + t, depth) == ParseValue(t, depth)
  {
    hide SkipWs;
    BeginsAfter(b, t);
  }

  /** What may come behind a number. */
  predicate Ends(t: string) {
    t != "" ==> t[0] in {' ', '\t', '\n', '\r', ',', ']', '}'}
  }

  lemma BytesOfNumbers(c: char)
    ensures IsNumberByte(c) <==> c in "0123456789.eE+-"
  {
  }

  lemma FigureIsRead(text: string, t: string)
    requires IsFigure(text) && Ends(t)
    ensures ParseNumber(text + t) == Good(Number(text), t)
  {
    hide NumberRun, IsNumberByte;
    forall i | 0 <= i < |text| ensures IsNumberByte(text[i]) { BytesOfNumbers(text[i]); }
    if t != "" { BytesOfNumbers(t[0]); }
    NumberRunAll(text, t);
    assert (text + t)[..|text|] == text && (text + t)[|text|..] == t;
  }

  lemma WordIsRead(w: Written, t: string, depth: nat)
    requires w.NullWord? || w.TrueWord? || w.FalseWord?
    ensures ParseValue(TextOf(w) + t, depth) == Good(Tree(w), t)
  {
    var s := TextOf(w) + t;
    if w.FalseWord? {
      assert s[..5] == "false" && s[5..] == t;
    } else {
      assert s[..4] == TextOf(w) && s[4..] == t;
    }
  }

  lemma {:induction false} FigureWrittenIsRead(text: string, t: string, depth: nat)
    requires IsFigure(text) && Ends(t)
    ensures ParseValue(text + t, depth) == Good(Number(text), t)
  {
    hide ParseNumber, IsFigure, SkipWs;
    FigureIsRead(text, t);
    FigureBegins(text);
    BeginsAfter("", text + t);
  }

  lemma {:induction false} QuotedWrittenIsRead(letters: seq<Letter>, t: string, depth: nat)
    requires AreLetters(letters)
    ensures ParseValue("\"" + LettersText(letters) + "\"" + t, depth) == Good(String(Meanings(letters)), t)
  {
    hide StringBody, LettersText, AreLetters, SkipWs, Meanings;
    var s := "\"" + LettersText(letters) + "\"" + t;
    LettersAreRead(letters, t);
    assert s[1..] == LettersText(letters) + "\"" + t;
    BeginsAfter("", s);
  }

  lemma {:induction false} ListIsRead(gap: string, entries: seq<Entry>, t: string, depth: nat, ok: bool)
    requires IsBlank(gap) && AreEntries(entries)
    requires entries != [] && depth < MAX_DEPTH ==>
               ParseItems(EntriesText(entries) + "]" + t, depth + 1) == Within(ok, Trees(entries), t)
    ensures ParseValue("[" + (if entries == [] then gap else EntriesText(entries)) + "]" + t, depth)
            == Within(depth < MAX_DEPTH && (entries == [] || ok), Array(Trees(entries)), t)
  {
    hide ParseItems, SkipWs, EntriesText, AreEntries, IsBlank, Trees, ParseArray;
    var inside := (if entries == [] then gap else EntriesText(entries)) + "]" + t;
    var s := "[" + (if entries == [] then gap else EntriesText(entries)) + "]" + t;
    assert s == "[" + inside && s[1..] == inside;
    EmptyIsBlank();
    BeginsAfter("", s);
    if depth < MAX_DEPTH { ArrayInside(gap, entries, t, depth + 1, ok); }
  }

  lemma {:induction false} ArrayInside(gap: string, entries: seq<Entry>, t: string, depth: nat, ok: bool)
    requires IsBlank(gap) && AreEntries(entries)
    requires entries != [] ==> ParseItems(EntriesText(entries) + "]" + t, depth) == Within(ok, Trees(entries), t)
    ensures ParseArray((if entries == [] then gap else EntriesText(entries)) + "]" + t, depth)
            == Within(entries == [] || ok, Array(Trees(entries)), t)
  {
    hide ParseItems, SkipWs, EntriesText, AreEntries, IsBlank;
    if entries == [] {
      assert gap + "]" + t == gap + ("]" + t) && ("]" + t)[1..] == t;
      BeginsAfter(gap, "]" + t);
    } else {
      hide Trees;
      ItemsBegin(entries, t, depth);
    }
  }

  lemma EmptyIsBlank()
    ensures IsBlank("")
  {
  }

  lemma EntryBegins(e: Entry, t: string, depth: nat)
    requires Spaced(e) && IsWell(e.value)
    ensures var first := TextOf(e.value) + t;
            && SkipWs(e.before + first) == first == SkipWs(first) && first != "" && first[0] !in {']', '}', ','}
            && ParseValue(e.before + first, depth) == ParseValue(first, depth)
  {
    hide ParseValue, SkipWs, TextOf, IsWell;
    WrittenBegins(e.value);
    var first := TextOf(e.value) + t;
    assert first[0] == TextOf(e.value)[0];
    BeginsAfter(e.before, first);
    BlankBefore(e.before, first, depth);
  }

  /** The text behind the first item. */
  function TailOf(entries: seq<Entry>, t: string): string
    requires entries != []
  {
    (if |entries| == 1 then "" else "," + EntriesText(entries[1..])) + "]" + t
  }

  lemma {:induction false} EntriesSplit(entries: seq<Entry>, t: string)
    requires entries != []
    ensures var (e, tail) := (entries[0], TailOf(entries, t));
            EntriesText(entries) + "]" + t == e.before + (TextOf(e.value) + (e.after + tail))
  {
    hide TextOf;
  }

  /** Blanks in front of the first item belong to the item. */
  lemma {:induction false} ItemsBegin(entries: seq<Entry>, t: string, depth: nat)
    requires entries != [] && AreEntries(entries)
    ensures var s := EntriesText(entries) + "]" + t;
            !Starts(SkipWs(s), ']') && ParseItems(SkipWs(s), depth) == ParseItems(s, depth)
  {
    hide ParseValue, SkipWs, TextOf, IsWell, EntriesText, TailOf;
    var e := entries[0];
    EntriesSplit(entries, t);
    EntryBegins(e, e.after + TailOf(entries, t), depth);
  }

  lemma TailBegins(entries: seq<Entry>, t: string)
    requires entries != []
    ensures Begins(TailOf(entries, t)) && TailOf(entries, t)[0] in {',', ']'}
    ensures TailOf(entries, t)[0] == ',' <==> |entries| > 1
    ensures TailOf(entries, t)[1..] == if |entries| == 1 then t else EntriesText(entries[1..]) + "]" + t
  {
    hide EntriesText;
  }

  lemma {:induction false} EntriesStep(entries: seq<Entry>, t: string, depth: nat, ok: bool, rest: bool)
    requires entries != [] && AreEntries(entries)
    requires var (e, tail) := (entries[0], TailOf(entries, t));
             ParseValue(TextOf(e.value) + (e.after + tail), depth) == Within(ok, Tree(e.value), e.after + tail)
    requires |entries| > 1 ==>
               ParseItems(EntriesText(entries[1..]) + "]" + t, depth) == Within(rest, Trees(entries[1..]), t)
    ensures ParseItems(EntriesText(entries) + "]" + t, depth)
            == Within(ok && (|entries| > 1 ==> rest), Trees(entries), t)
  {
    hide ParseValue, SkipWs, TextOf, IsWell, EntriesText, TailOf;
    var (e, tail) := (entries[0], TailOf(entries, t));
    EntriesSplit(entries, t);
    EntryBegins(e, e.after + tail, depth);
    TailBegins(entries, t);
    BeginsAfter(e.after, tail);
    if |entries| == 1 {
      assert entries[1..] == [];
      assert Trees(entries) == [Tree(e.value)];
    }
  }

  lemma {:induction false} KeyWrittenIsRead(before: string, key: seq<Letter>, behind: string, t: string)
    requires IsBlank(before) && AreLetters(key) && IsBlank(behind)
    ensures ParseKey(before + "\"" + LettersText(key) + "\"" + behind + ":" + t) == Good(Meanings(key), t)
  {
    hide StringBody, LettersText, AreLetters, SkipWs, Meanings;
    var (end, s) := (behind + (":" + t), before + "\"" + LettersText(key) + "\"" + behind + ":" + t);
    var inner := LettersText(key) + "\"" + end;
    assert s == before + ("\"" + inner) && ("\"" + inner)[1..] == inner;
    BeginsAfter(before, "\"" + inner);
    LettersAreRead(key, end);
    BeginsAfter(behind, ":" + t);
    assert (":" + t)[1..] == t;
  }

  function FieldsTail(fields: seq<Field>, t: string): string
    requires fields != []
  {
    (if |fields| == 1 then "" else "," + FieldsText(fields[1..])) + "}" + t
  }

  lemma FieldsTailBegins(fields: seq<Field>, t: string)
    requires fields != []
    ensures Begins(FieldsTail(fields, t)) && FieldsTail(fields, t)[0] in {',', '}'}
    ensures FieldsTail(fields, t)[0] == ',' <==> |fields| > 1
    ensures FieldsTail(fields, t)[1..] == if |fields| == 1 then t else FieldsText(fields[1..]) + "}" + t
  {
    hide FieldsText;
  }

  /** The text behind the first key's colon. */
  function ValueText(fields: seq<Field>, t: string): string
    requires fields != []
  {
    var e := fields[0].entry;
    e.before + (TextOf(e.value) + (e.after + FieldsTail(fields, t)))
  }

  lemma {:induction false} FieldsSplit(fields: seq<Field>, t: string)
    requires fields != []
    ensures var f := fields[0];
            FieldsText(fields) + "}" + t
            == f.before + "\"" + LettersText(f.key) + "\"" + f.behind + ":" + ValueText(fields, t)
  {
    hide TextOf, LettersText;
    var f := fields[0];
    var key := f.before + "\"" + LettersText(f.key) + "\"" + f.behind + ":";
    var more := if |fields| == 1 then "" else "," + FieldsText(fields[1..]);
    assert FieldsText(fields) == key + EntryText(f.entry) + more;
    assert FieldsTail(fields, t) == more + "}" + t;
    Joined(key, f.entry.before, TextOf(f.entry.value), f.entry.after, more, "}", t);
  }

  lemma Joined(key: string, a: string, b: string, c: string, d: string, e: string, f: string)
    ensures key + (a + b + c) + d + e + f == key + (a + (b + (c + (d + e + f))))
  {
  }

  lemma {:induction false} FieldsBegin(fields: seq<Field>, t: string, depth: nat)
    requires fields != [] && AreFields(fields)
    ensures var s := FieldsText(fields) + "}" + t;
            !Starts(SkipWs(s), '}') && ParseMembers(SkipWs(s), depth) == ParseMembers(s, depth)
  {
    hide ParseValue, StringBody, SkipWs, IsWell, FieldsText, ValueText, LettersText, AreLetters;
    var (f, s) := (fields[0], FieldsText(fields) + "}" + t);
    FieldsSplit(fields, t);
    var rest := "\"" + (LettersText(f.key) + "\"" + f.behind + ":" + ValueText(fields, t));
    assert s == f.before + rest;
    BeginsAfter(f.before, rest);
    assert ParseKey(SkipWs(s)) == ParseKey(s);
  }

  lemma {:induction false} FieldsStep(fields: seq<Field>, t: string, depth: nat, ok: bool, rest: bool)
    requires fields != [] && AreFields(fields)
    requires var (e, tail) := (fields[0].entry, FieldsTail(fields, t));
             ParseValue(TextOf(e.value) + (e.after + tail), depth) == Within(ok, Tree(e.value), e.after + tail)
    requires |fields| > 1 ==>
               ParseMembers(FieldsText(fields[1..]) + "}" + t, depth) == Within(rest, Members(fields[1..]), t)
    ensures ParseMembers(FieldsText(fields) + "}" + t, depth)
            == Within(ok && (|fields| > 1 ==> rest), Members(fields), t)
  {
    hide ParseValue, ParseKey, SkipWs, TextOf, IsWell, FieldsText, FieldsTail, LettersText, AreLetters;
    var (f, tail) := (fields[0], FieldsTail(fields, t));
    FieldsSplit(fields, t);
    KeyWrittenIsRead(f.before, f.key, f.behind, ValueText(fields, t));
    EntryBegins(f.entry, f.entry.after + tail, depth);
    FieldsTailBegins(fields, t);
    BeginsAfter(f.entry.after, tail);
    if |fields| == 1 { OneMember(fields); }
  }

  lemma OneMember(fields: seq<Field>)
    requires |fields| == 1 && AreFields(fields)
    ensures Members(fields) == [Member(Meanings(fields[0].key), Tree(fields[0].entry.value))]
  {
    hide IsWell, Tree, Meanings, IsLetter, Alone;
    assert fields[1..] == [];
  }

  lemma {:induction false} RecordIsRead(gap: string, fields: seq<Field>, t: string, depth: nat, ok: bool)
    requires IsBlank(gap) && AreFields(fields)
    requires fields != [] && depth < MAX_DEPTH ==>
               ParseMembers(FieldsText(fields) + "}" + t, depth + 1) == Within(ok, Members(fields), t)
    ensures ParseValue("{" + (if fields == [] then gap else FieldsText(fields)) + "}" + t, depth)
            == Within(depth < MAX_DEPTH && (fields == [] || ok), Object(Members(fields)), t)
  {
    hide ParseMembers, SkipWs, FieldsText, AreFields, IsBlank, Members, ParseObject;
    var inside := (if fields == [] then gap else FieldsText(fields)) + "}" + t;
    var s := "{" + (if fields == [] then gap else FieldsText(fields)) + "}" + t;
    assert s == "{" + inside && s[1..] == inside;
    EmptyIsBlank();
    BeginsAfter("", s);
    if depth < MAX_DEPTH { ObjectInside(gap, fields, t, depth + 1, ok); }
  }

  lemma {:induction false} ObjectInside(gap: string, fields: seq<Field>, t: string, depth: nat, ok: bool)
    requires IsBlank(gap) && AreFields(fields)
    requires fields != [] ==> ParseMembers(FieldsText(fields) + "}" + t, depth) == Within(ok, Members(fields), t)
    ensures ParseObject((if fields == [] then gap else FieldsText(fields)) + "}" + t, depth)
            == Within(fields == [] || ok, Object(Members(fields)), t)
  {
    hide ParseMembers, SkipWs, FieldsText, AreFields, IsBlank;
    if fields == [] {
      assert gap + "}" + t == gap + ("}" + t) && ("}" + t)[1..] == t;
      BeginsAfter(gap, "}" + t);
    } else {
      hide Members;
      FieldsBegin(fields, t, depth);
    }
  }

  // All of it together

  lemma EndsBehind(b: string, t: string)
    requires IsBlank(b) && Ends(t)
    ensures Ends(b + t)
  {
    if b == "" { assert b + t == t; }
  }

  lemma FirstNests(entries: seq<Entry>, room: int)
    requires entries != [] && AreEntries(entries)
    ensures AreEntries(entries[1..])
    ensures AllNest(Trees(entries), room)
            <==> Nests(Tree(entries[0].value), room) && AllNest(Trees(entries[1..]), room)
  {
    hide Nests, Tree, IsWell;
    var (first, rest) := (Tree(entries[0].value), Trees(entries[1..]));
    assert Trees(entries) == [first] + rest;
    assert Trees(entries)[0] == first;
    forall i | 0 <= i < |rest| ensures rest[i] == Trees(entries)[i + 1] {}
  }

  lemma FirstFieldNests(fields: seq<Field>, room: int)
    requires fields != [] && AreFields(fields)
    ensures AreFields(fields[1..])
    ensures MembersNest(Members(fields), room)
            <==> Nests(Tree(fields[0].entry.value), room) && MembersNest(Members(fields[1..]), room)
  {
    hide Nests, Tree, IsWell, Meanings, IsKey;
    var rest := Members(fields[1..]);
    assert Members(fields)[0].value == Tree(fields[0].entry.value);
    forall i | 0 <= i < |rest| ensures rest[i] == Members(fields)[i + 1] {}
  }

  lemma NestsInside(items: seq<Json>, members: seq<Member>, room: int)
    ensures Nests(Array(items), room) <==> room > 0 && AllNest(items, room - 1)
    ensures Nests(Object(members), room) <==> room > 0 && MembersNest(members, room - 1)
  {
  }

  /** What is written is read where it nests no deeper than there is room, and refused where it does. */
  lemma {:induction false} WrittenIsRead(w: Written, t: string, depth: nat)
    requires IsWell(w) && depth <= MAX_DEPTH && Ends(t)
    ensures ParseValue(TextOf(w) + t, depth) == Within(Nests(Tree(w), MAX_DEPTH - depth), Tree(w), t)
    decreases w, 1
  {
    hide ParseValue, ParseItems, ParseMembers, EntriesText, FieldsText, Trees, Members, IsFigure, AreLetters, Ends;
    match w
    case List(gap, entries) =>
      var ok := AllNest(Trees(entries), MAX_DEPTH - depth - 1);
      if entries != [] && depth < MAX_DEPTH { EntriesAreRead(w, entries, t, depth + 1); }
      ListIsRead(gap, entries, t, depth, ok);
      NestsInside(Trees(entries), [], MAX_DEPTH - depth);
    case Record(gap, fields) =>
      var ok := MembersNest(Members(fields), MAX_DEPTH - depth - 1);
      if fields != [] && depth < MAX_DEPTH { FieldsAreRead(w, fields, t, depth + 1); }
      RecordIsRead(gap, fields, t, depth, ok);
      NestsInside([], Members(fields), MAX_DEPTH - depth);
    case Figure(text) => FigureWrittenIsRead(text, t, depth);
    case Quoted(letters) => QuotedWrittenIsRead(letters, t, depth);
    case _ => WordIsRead(w, t, depth);
  }

  lemma {:induction false} EntriesAreRead(w: Written, entries: seq<Entry>, t: string, depth: nat)
    requires entries != [] && AreEntries(entries) && forall i :: 0 <= i < |entries| ==> entries[i].value < w
    requires depth <= MAX_DEPTH
    ensures ParseItems(EntriesText(entries) + "]" + t, depth)
            == Within(AllNest(Trees(entries), MAX_DEPTH - depth), Trees(entries), t)
    decreases w, 0, |entries|
  {
    hide ParseValue, ParseItems, EntriesText, Trees, Nests, TailOf, TextOf, Tree, AllNest, Within;
    var (e, tail, room) := (entries[0], TailOf(entries, t), MAX_DEPTH - depth);
    FirstNests(entries, room);
    TailBegins(entries, t);
    EndsBehind(e.after, tail);
    WrittenIsRead(e.value, e.after + tail, depth);
    if |entries| > 1 { EntriesAreRead(w, entries[1..], t, depth); } else { NoneNest(entries[1..], [], room); }
    EntriesStep(entries, t, depth, Nests(Tree(e.value), room), AllNest(Trees(entries[1..]), room));
  }

  lemma NoneNest(entries: seq<Entry>, fields: seq<Field>, room: int)
    requires AreEntries(entries) && AreFields(fields)
    ensures entries == [] ==> AllNest(Trees(entries), room)
    ensures fields == [] ==> MembersNest(Members(fields), room)
  {
    hide Tree, Nests, IsWell, Meanings;
  }

  lemma {:induction false} FieldsAreRead(w: Written, fields: seq<Field>, t: string, depth: nat)
    requires fields != [] && AreFields(fields) && forall i :: 0 <= i < |fields| ==> fields[i].entry.value < w
    requires depth <= MAX_DEPTH
    ensures ParseMembers(FieldsText(fields) + "}" + t, depth)
            == Within(MembersNest(Members(fields), MAX_DEPTH - depth), Members(fields), t)
    decreases w, 0, |fields|
  {
    hide ParseValue, ParseMembers, FieldsText, Members, Nests, FieldsTail, TextOf, Tree, MembersNest, Within;
    var (e, tail, room) := (fields[0].entry, FieldsTail(fields, t), MAX_DEPTH - depth);
    FirstFieldNests(fields, room);
    FieldsTailBegins(fields, t);
    EndsBehind(e.after, tail);
    WrittenIsRead(e.value, e.after + tail, depth);
    if |fields| > 1 { FieldsAreRead(w, fields[1..], t, depth); } else { NoneNest([], fields[1..], room); }
    FieldsStep(fields, t, depth, Nests(Tree(e.value), room), MembersNest(Members(fields[1..]), room));
  }

  // What is read was written

  lemma {:induction false} SkippedWas(t: string) returns (b: string)
    ensures IsBlank(b) && t == b + SkipWs(t)
  {
    if t != "" && IsWs(t[0]) {
      var more := SkippedWas(t[1..]);
      b := [t[0]] + more;
    } else {
      b := "";
    }
  }

  lemma FigureWas(t: string) returns (w: Written)
    requires ParseNumber(t).Good?
    ensures var r := ParseNumber(t); IsWell(w) && Tree(w) == r.value && t == TextOf(w) + r.rest
  {
    hide NumberRun, IsNumberByte;
    var n := NumberRun(t);
    NumberRunBytes(t);
    forall i | 0 <= i < n ensures t[..n][i] in "0123456789.eE+-" { BytesOfNumbers(t[i]); }
    w := Figure(t[..n]);
    assert t == t[..n] + t[n..];
  }

  lemma QuotedWas(t: string) returns (w: Written)
    requires ParseText(t).Good?
    ensures var r := ParseText(t); IsWell(w) && Tree(w) == r.value && "\"" + t == TextOf(w) + r.rest
  {
    hide StringBody, AreLetters, LettersText, Meanings;
    var ls := LettersWere(t);
    w := Quoted(ls);
    assert "\"" + (LettersText(ls) + "\"" + StringBody(t).rest) == TextOf(w) + StringBody(t).rest;
  }

  lemma KeyParts(t: string)
    requires ParseKey(t).Good?
    ensures var u := SkipWs(t);
            && u != "" && u[0] == '"' && StringBody(u[1..]).Good?
            && var w := SkipWs(StringBody(u[1..]).rest);
               w != "" && w[0] == ':' && ParseKey(t) == Good(StringBody(u[1..]).value, w[1..])
  {
    hide StringBody, SkipWs;
  }

  lemma {:induction false} KeyWas(t: string) returns (before: string, key: seq<Letter>, behind: string)
    requires ParseKey(t).Good?
    ensures IsBlank(before) && AreLetters(key) && IsBlank(behind) && Meanings(key) == ParseKey(t).value
    ensures t == before + "\"" + LettersText(key) + "\"" + behind + ":" + ParseKey(t).rest
  {
    hide ParseKey, StringBody, SkipWs, IsBlank, AreLetters, LettersText, Meanings;
    KeyParts(t);
    before := SkippedWas(t);
    var u := SkipWs(t);
    key := LettersWere(u[1..]);
    var rest := StringBody(u[1..]).rest;
    behind := SkippedWas(rest);
    var text := LettersText(key);
    hide *;
    assert u == "\"" + u[1..] && SkipWs(rest) == ":" + SkipWs(rest)[1..];
    KeyJoined(before, text, behind, SkipWs(rest)[1..]);
  }

  lemma KeyJoined(before: string, text: string, behind: string, rest: string)
    ensures before + ("\"" + (text + "\"" + (behind + (":" + rest))))
            == before + "\"" + text + "\"" + behind + ":" + rest
  {
  }

  lemma ValueParts(t: string, depth: nat)
    requires ParseValue(t, depth).Good?
    ensures var (u, r) := (SkipWs(t), ParseValue(t, depth));
            && u != ""
            && if u[0] == '{' then r == ParseObject(u[1..], depth + 1)
               else if u[0] == '[' then r == ParseArray(u[1..], depth + 1)
               else if u[0] == '"' then r == ParseText(u[1..])
               else u[0] in {'t', 'f', 'n'} || r == ParseNumber(u)
  {
    hide SkipWs, ParseText, ParseNumber, ParseArray, ParseObject;
  }

  /** A value that was read, blanks in front of it, was written so. */
  lemma {:induction false} ValueWas(t: string, depth: nat) returns (b: string, w: Written)
    requires ParseValue(t, depth).Good?
    ensures IsBlank(b) && IsWell(w) && Tree(w) == ParseValue(t, depth).value
    ensures t == b + (TextOf(w) + ParseValue(t, depth).rest)
    decreases |t|, 0
  {
    hide ParseValue, IsBlank, SkipWs, IsWell, TextOf, Tree, ParseText, ParseNumber, ParseArray, ParseObject;
    ValueParts(t, depth);
    b := SkippedWas(t);
    var u := SkipWs(t);
    assert u == [u[0]] + u[1..];
    if u[0] == '{' {
      w := RecordWas(u[1..], depth + 1);
    } else if u[0] == '[' {
      w := ListWas(u[1..], depth + 1);
    } else if u[0] == '"' {
      w := QuotedWas(u[1..]);
    } else if u[0] in {'t', 'f', 'n'} {
      w := WordWas(t, depth);
    } else {
      w := FigureWas(u);
    }
  }

  lemma WordWas(t: string, depth: nat) returns (w: Written)
    requires SkipWs(t) != "" && SkipWs(t)[0] in {'t', 'f', 'n'} && ParseValue(t, depth).Good?
    ensures var r := ParseValue(t, depth); IsWell(w) && Tree(w) == r.value && SkipWs(t) == TextOf(w) + r.rest
  {
    hide SkipWs;
    var c := SkipWs(t)[0];
    w := if c == 't' then TrueWord else if c == 'f' then FalseWord else NullWord;
  }

  lemma {:induction false} ListWas(t: string, depth: nat) returns (w: Written)
    requires ParseArray(t, depth).Good?
    ensures var r := ParseArray(t, depth); IsWell(w) && Tree(w) == r.value && "[" + t == TextOf(w) + r.rest
    decreases |t|, 3
  {
    hide ParseItems, SkipWs, IsBlank, IsWell, Tree, TextOf, EntriesText, Trees, AreEntries;
    var gap := SkippedWas(t);
    var u := SkipWs(t);
    if Starts(u, ']') {
      w := List(gap, []);
      assert u == "]" + u[1..];
      EmptyOnes(gap, u[1..]);
    } else {
      var entries := EntriesWere(u, depth);
      w := ListOf(gap, entries, ParseItems(u, depth).rest);
    }
  }

  lemma SpacedMore(gap: string, e: Entry)
    requires IsBlank(gap) && Spaced(e)
    ensures var moved := Entry(gap + e.before, e.value, e.after);
            Spaced(moved) && EntryText(moved) == gap + EntryText(e)
  {
    hide TextOf;
  }

  lemma {:induction false} MovedToFirst(gap: string, entries: seq<Entry>) returns (moved: seq<Entry>)
    requires IsBlank(gap) && entries != [] && AreEntries(entries)
    ensures moved != [] && AreEntries(moved)
    ensures Trees(moved) == Trees(entries) && EntriesText(moved) == gap + EntriesText(entries)
  {
    hide IsWell, Tree, EntryText, Spaced, IsBlank;
    var e := entries[0];
    SpacedMore(gap, e);
    moved := [Entry(gap + e.before, e.value, e.after)] + entries[1..];
    assert moved[1..] == entries[1..];
  }

  /** Blanks behind the bracket go to the first item. */
  lemma {:induction false} ListOf(gap: string, entries: seq<Entry>, rest: string) returns (w: Written)
    requires IsBlank(gap) && entries != [] && AreEntries(entries)
    ensures IsWell(w) && Tree(w) == Array(Trees(entries))
    ensures "[" + (gap + (EntriesText(entries) + "]" + rest)) == TextOf(w) + rest
  {
    hide IsWell, Tree, EntriesText, Trees, AreEntries, IsBlank;
    var moved := MovedToFirst(gap, entries);
    w := List("", moved);
    WellList(moved);
  }

  lemma WellList(entries: seq<Entry>)
    requires AreEntries(entries)
    ensures IsWell(List("", entries)) && Tree(List("", entries)) == Array(Trees(entries))
  {
    hide Trees;
  }

  lemma {:induction false} EntryWas(t: string, depth: nat) returns (e: Entry)
    requires ParseValue(t, depth).Good?
    ensures var r := ParseValue(t, depth);
            Spaced(e) && IsWell(e.value) && Tree(e.value) == r.value && t == EntryText(e) + SkipWs(r.rest)
    decreases |t|, 1
  {
    hide ParseValue, SkipWs, IsBlank, IsWell, TextOf, Tree;
    var before, value := ValueWas(t, depth);
    var rest := ParseValue(t, depth).rest;
    var after := SkippedWas(rest);
    e := Entry(before, value, after);
  }

  lemma {:induction false} EntriesWere(t: string, depth: nat) returns (entries: seq<Entry>)
    requires ParseItems(t, depth).Good?
    ensures entries != [] && AreEntries(entries) && Trees(entries) == ParseItems(t, depth).value
    ensures t == EntriesText(entries) + "]" + ParseItems(t, depth).rest
    decreases |t|, 2
  {
    hide ParseValue, SkipWs, IsWell, EntryText, Tree, Spaced;
    var e := EntryWas(t, depth);
    var u := SkipWs(ParseValue(t, depth).rest);
    if Starts(u, ',') {
      var more := EntriesWere(u[1..], depth);
      entries := [e] + more;
      assert entries[1..] == more;
      assert u == "," + u[1..];
    } else {
      entries := [e];
      assert entries[1..] == [];
      assert u == "]" + u[1..];
    }
  }

  lemma EmptyOnes(gap: string, rest: string)
    requires IsBlank(gap)
    ensures IsWell(List(gap, [])) && Tree(List(gap, [])) == Array([])
    ensures "[" + (gap + ("]" + rest)) == TextOf(List(gap, [])) + rest
    ensures IsWell(Record(gap, [])) && Tree(Record(gap, [])) == Object([])
    ensures "{" + (gap + ("}" + rest)) == TextOf(Record(gap, [])) + rest
  {
  }

  lemma {:induction false} RecordWas(t: string, depth: nat) returns (w: Written)
    requires ParseObject(t, depth).Good?
    ensures var r := ParseObject(t, depth); IsWell(w) && Tree(w) == r.value && "{" + t == TextOf(w) + r.rest
    decreases |t|, 3
  {
    hide ParseMembers, SkipWs, IsBlank, IsWell, Tree, TextOf, FieldsText, Members, AreFields;
    var gap := SkippedWas(t);
    var u := SkipWs(t);
    if Starts(u, '}') {
      w := Record(gap, []);
      assert u == "}" + u[1..];
      EmptyOnes(gap, u[1..]);
    } else {
      var fields := FieldsWere(u, depth);
      w := RecordOf(gap, fields, ParseMembers(u, depth).rest);
    }
  }

  lemma KeyMore(gap: string, f: Field)
    requires IsBlank(gap) && IsKey(f)
    ensures var moved := Field(gap + f.before, f.key, f.behind, f.entry);
            IsKey(moved) && FieldText(moved) == gap + FieldText(f)
  {
    hide FieldText, EntryText, LettersText, AreLetters, Spaced;
    KeyFront(f);
    KeyFront(Field(gap + f.before, f.key, f.behind, f.entry));
    Front(gap, f.before, "\"" + LettersText(f.key) + "\"" + f.behind + ":" + EntryText(f.entry));
  }

  lemma KeyFront(f: Field)
    ensures FieldText(f) == f.before + ("\"" + LettersText(f.key) + "\"" + f.behind + ":" + EntryText(f.entry))
  {
    hide EntryText, LettersText;
  }

  lemma Front(a: string, b: string, c: string)
    ensures a + b + c == a + (b + c)
  {
  }

  lemma {:induction false} MovedToKey(gap: string, fields: seq<Field>) returns (moved: seq<Field>)
    requires IsBlank(gap) && fields != [] && AreFields(fields)
    ensures moved != [] && AreFields(moved)
    ensures Members(moved) == Members(fields) && FieldsText(moved) == gap + FieldsText(fields)
  {
    hide IsWell, Tree, FieldText, IsBlank, Meanings, AreLetters, Spaced;
    var f := fields[0];
    KeyMore(gap, f);
    moved := [Field(gap + f.before, f.key, f.behind, f.entry)] + fields[1..];
    assert moved[1..] == fields[1..];
  }

  lemma {:induction false} RecordOf(gap: string, fields: seq<Field>, rest: string) returns (w: Written)
    requires IsBlank(gap) && fields != [] && AreFields(fields)
    ensures IsWell(w) && Tree(w) == Object(Members(fields))
    ensures "{" + (gap + (FieldsText(fields) + "}" + rest)) == TextOf(w) + rest
  {
    hide IsWell, Tree, FieldsText, Members, AreFields, IsBlank;
    var moved := MovedToKey(gap, fields);
    w := Record("", moved);
    WellRecord(moved);
  }

  lemma WellRecord(fields: seq<Field>)
    requires AreFields(fields)
    ensures IsWell(Record("", fields)) && Tree(Record("", fields)) == Object(Members(fields))
  {
    hide Members;
  }

  lemma {:induction false} FieldWas(t: string, depth: nat) returns (f: Field)
    requires ParseKey(t).Good? && ParseValue(ParseKey(t).rest, depth).Good?
    ensures var (key, r) := (ParseKey(t), ParseValue(ParseKey(t).rest, depth));
            && IsKey(f) && IsWell(f.entry.value)
            && Meanings(f.key) == key.value && Tree(f.entry.value) == r.value
            && t == FieldText(f) + SkipWs(r.rest)
    decreases |t|, 1
  {
    hide ParseValue, ParseKey, SkipWs, IsBlank, IsWell, EntryText, Tree, AreLetters, LettersText, Meanings, Spaced;
    var before, key, behind := KeyWas(t);
    KeyIsShorter(t);
    var e := EntryWas(ParseKey(t).rest, depth);
    f := Field(before, key, behind, e);
  }

  lemma KeyIsShorter(t: string)
    requires ParseKey(t).Good?
    ensures |ParseKey(t).rest| < |t|
  {
    hide ParseKey;
  }

  lemma {:induction false} FieldsWere(t: string, depth: nat) returns (fields: seq<Field>)
    requires ParseMembers(t, depth).Good?
    ensures fields != [] && AreFields(fields) && Members(fields) == ParseMembers(t, depth).value
    ensures t == FieldsText(fields) + "}" + ParseMembers(t, depth).rest
    decreases |t|, 2
  {
    hide ParseValue, ParseKey, SkipWs, IsWell, FieldText, Tree, AreLetters, IsKey, Meanings;
    var f := FieldWas(t, depth);
    KeyOf(f);
    var u := SkipWs(ParseValue(ParseKey(t).rest, depth).rest);
    if Starts(u, ',') {
      var more := FieldsWere(u[1..], depth);
      fields := [f] + more;
      assert fields[1..] == more;
      assert u == "," + u[1..];
    } else {
      fields := [f];
      assert fields[1..] == [];
      assert u == "}" + u[1..];
    }
  }

  lemma KeyOf(f: Field)
    requires IsKey(f)
    ensures forall i :: 0 <= i < |f.key| ==> IsLetter(f.key[i])
  {
    hide IsLetter, Alone;
  }

  /** The text writes the value, blanks around it. */
  ghost predicate Writes(s: string, before: string, w: Written, after: string) {
    IsBlank(before) && IsWell(w) && IsBlank(after) && s == before + TextOf(w) + after
  }

  /** Any text that writes a value is read as that value, unless its containers nest more than 64 deep: then it is
      not read at all. */
  lemma {:induction false} AnyWritingIsRead(s: string, before: string, w: Written, after: string)
    requires Writes(s, before, w, after)
    ensures Parse(s) == if Nests(Tree(w), 64) then Some(Tree(w)) else None
  {
    hide ParseValue, Nests, TextOf, IsWell, Tree, SkipWs;
    WrittenBegins(w);
    assert s == before + (TextOf(w) + after) && TextOf(w)[0] == (TextOf(w) + after)[0];
    BlankBefore(before, TextOf(w) + after, 0);
    BlankIsSkipped(after, "");
    assert after + "" == after;
    WrittenIsRead(w, after, 0);
  }

  /** What is read was written so, and nests no deeper than 64. */
  lemma {:induction false} ReadWasWritten(s: string) returns (before: string, w: Written, after: string)
    requires Parse(s).Some?
    ensures Writes(s, before, w, after) && Tree(w) == Parse(s).value && Nests(Tree(w), 64)
  {
    hide ParseValue, Nests, TextOf, IsWell, Tree, SkipWs, IsBlank;
    before, w := ValueWas(s, 0);
    AcceptedNests(s, 0);
    var rest := ParseValue(s, 0).rest;
    after := SkippedWas(rest);
    assert after + "" == after;
  }
}
