/** The parser as the source writes it: one object whose cursor and depth the methods move
    (src/json.c). Every method is proved against the function of the same name in Json. */
module JsonParser {
  import opened Text
  import opened Json

  function PrependItems<T>(a: seq<T>, r: Parsed<seq<T>>): Parsed<seq<T>> {
    if r.Bad? then Bad else Good(a + r.value, r.rest)
  }

  lemma PrependTwice(a: string, b: string, r: Parsed<string>)
    ensures Prepend(a + b, r) == Prepend(a, Prepend(b, r))
  {
    if r.Good? { assert a + b + r.value == a + (b + r.value); }
  }

  lemma PrependItemsTwice<T>(a: seq<T>, x: T, r: Parsed<seq<T>>)
    ensures PrependItems(a + [x], r) == PrependItems(a, PrependItems([x], r))
  {
    if r.Good? { assert a + [x] + r.value == a + ([x] + r.value); }
  }

  lemma PrependBad(a: string)
    ensures Prepend(a, Bad) == Bad
  {
  }

  lemma PrependEnd(a: string, rest: string)
    ensures Prepend(a, Good("", rest)) == Good(a, rest)
  {
    assert a + "" == a;
  }

  lemma PrependNothing(r: Parsed<string>)
    ensures Prepend("", r) == r
  {
    if r.Good? { assert "" + r.value == r.value; }
  }

  lemma PrependNoItems<T>(r: Parsed<seq<T>>)
    ensures PrependItems([], r) == r
  {
    if r.Good? { assert [] + r.value == r.value; }
  }

  /** One turn of the loop over items. */
  lemma ItemsStart(items: seq<Json>, t: string, depth: nat)
    ensures var whole, p := PrependItems(items, ParseItems(t, depth)), ParseValue(t, depth);
            if p.Bad? then whole.Bad?
            else
              var u := SkipWs(p.rest);
              if Starts(u, ',') then whole == PrependItems(items + [p.value], ParseItems(u[1..], depth))
              else if Starts(u, ']') then whole == Good(items + [p.value], u[1..])
              else whole.Bad?
  {
    hide ParseValue, SkipWs;
    var p := ParseValue(t, depth);
    if p.Good? {
      var u := SkipWs(p.rest);
      if Starts(u, ',') { PrependItemsTwice(items, p.value, ParseItems(u[1..], depth)); }
    }
  }

  /** One turn of the loop over members. */
  lemma MembersStart(members: seq<Member>, t: string, depth: nat)
    ensures var whole, k := PrependItems(members, ParseMembers(t, depth)), ParseKey(t);
            if k.Bad? then whole.Bad?
            else
              var p := ParseValue(k.rest, depth);
              if p.Bad? then whole.Bad?
              else
                var u, m := SkipWs(p.rest), Member(k.value, p.value);
                if Starts(u, ',') then whole == PrependItems(members + [m], ParseMembers(u[1..], depth))
                else if Starts(u, '}') then whole == Good(members + [m], u[1..])
                else whole.Bad?
  {
    hide ParseValue, ParseKey, SkipWs;
    var k := ParseKey(t);
    if k.Good? {
      var p := ParseValue(k.rest, depth);
      if p.Good? {
        var u, m := SkipWs(p.rest), Member(k.value, p.value);
        if Starts(u, ',') { PrependItemsTwice(members, m, ParseMembers(u[1..], depth)); }
      }
    }
  }

  class Parser {
    const input: string
    var cur: nat
    var depth: nat

    constructor (input: string)
      ensures this.input == input && Valid() && cur == 0 && depth == 0
    {
      this.input := input;
      cur, depth := 0, 0;
    }

    ghost predicate Valid()
      reads this
    {
      cur <= |input| && depth <= MAX_DEPTH
    }

    function Rest(): string
      requires Valid()
      reads this
    {
      input[cur..]
    }

    /** The next byte is `c`. */
    predicate At(c: char)
      requires Valid()
      reads this
    {
      cur < |input| && input[cur] == c
    }

    method SkipSpace()
      requires Valid()
      modifies this`cur
      ensures Valid() && Rest() == SkipWs(old(Rest())) && cur >= old(cur)
    {
      while cur < |input| && IsWs(input[cur])
        invariant Valid() && cur >= old(cur) && SkipWs(Rest()) == SkipWs(old(Rest()))
      {
        assert Rest()[1..] == input[cur + 1..];
        cur := cur + 1;
      }
    }

    /** parse_hex4; -1 leaves the cursor where it was. */
    method ReadHex4() returns (v: int)
      requires Valid()
      modifies this`cur
      ensures Valid() && v == Hex4(old(Rest()))
      ensures cur == old(cur) + if v < 0 then 0 else 4
    {
      if |input| - cur < 4 { return -1; }
      v := 0;
      ghost var t := Rest();
      var i := 0;
      while i < 4
        invariant 0 <= i <= 4 && cur == old(cur) && t == Rest()
        invariant forall k :: 0 <= k < i ==> HexValue(t[k]) >= 0
        invariant v == HexPrefix(t, i)
      {
        var h := HexValue(input[cur + i]);
        if h < 0 {
          assert HexValue(t[i]) < 0;
          HexStops(t, i);
          return -1;
        }
        assert t[i] == input[cur + i];
        v := v * 16 + h;
        i := i + 1;
      }
      HexAll(t);
      assert t[4..] == input[cur + 4..];
      cur := cur + 4;
    }

    /** parse_string_body: the decoded text after an opening quote, or None. */
    method ReadStringBody() returns (r: Option<string>)
      requires Valid()
      modifies this`cur
      ensures Valid() && cur >= old(cur)
      ensures var p := StringBody(old(Rest()));
              if p.Bad? then r == None else r == Some(p.value) && Rest() == p.rest
    {
      hide Piece, Prepend;
      var buf := "";
      PrependNothing(StringBody(Rest()));
      ghost var whole := StringBody(Rest());
      while cur < |input| && input[cur] != '"'
        invariant Valid() && cur >= old(cur)
        invariant Prepend(buf, StringBody(Rest())) == whole
        decreases |input| - cur
      {
        ghost var t := Rest();
        PrependBad(buf);
        var piece := ReadPiece();
        if piece.None? { return None; }
        PrependTwice(buf, piece.value, StringBody(Rest()));
        buf := buf + piece.value;
      }
      PrependBad(buf);
      if cur >= |input| { return None; }
      PrependEnd(buf, Rest()[1..]);
      assert Rest()[1..] == input[cur + 1..];
      cur := cur + 1;
      return Some(buf);
    }

    /** One byte or one escape of a string. */
    method ReadPiece() returns (r: Option<string>)
      requires Valid() && cur < |input|
      modifies this`cur
      ensures Valid() && cur >= old(cur)
      ensures var p := Piece(old(Rest()));
              if p.Bad? then r == None else r == Some(p.value) && Rest() == p.rest && cur > old(cur)
    {
      hide UnicodeEscape, Utf8, SimpleEscape;
      ghost var t := Rest();
      var c := input[cur];
      assert t[1..] == input[cur + 1..] && t[..1] == [c];
      cur := cur + 1;
      if c != '\\' { return Some([c]); }
      if cur >= |input| { return None; }
      var esc := input[cur];
      cur := cur + 1;
      assert t[2..] == input[cur..] && t[1] == esc;
      var simple := SimpleEscape(esc);
      if simple.Some? { return Some([simple.value]); }
      if esc != 'u' { return None; }
      assert t[1..][1..] == Rest();
      var cp := ReadUnicode(t[1..]);
      if cp < 0 { return None; }
      return Some(Utf8(cp));
    }

    /** The \u case: the digits at the cursor, and the second half of a pair if one follows. */
    method ReadUnicode(ghost t: string) returns (cp: int)
      requires Valid() && t != "" && t[1..] == Rest()
      modifies this`cur
      ensures Valid() && cur >= old(cur)
      ensures var e := UnicodeEscape(t);
              if e.Bad? then cp == -1 else cp == e.value && Rest() == e.rest && cur > old(cur)
      ensures cp < 0x200000
    {
      hide Hex4;
      cp := ReadHex4();
      if cp < 0 { return -1; }
      assert t[5..] == Rest();
      if 0xD800 <= cp <= 0xDBFF && |input| - cur >= 6 && input[cur] == '\\' && input[cur + 1] == 'u' {
        ghost var u := Rest();
        cur := cur + 2;
        assert u[2..] == Rest();
        var low := ReadHex4();
        if low < 0 { return -1; }
        assert u[6..] == Rest();
        cp := 0x10000 + (cp - 0xD800) * 1024 + (low - 0xDC00);
      }
    }

    method ReadNumber() returns (r: Option<Json>)
      requires Valid()
      modifies this`cur
      ensures Valid() && cur >= old(cur)
      ensures var p := ParseNumber(old(Rest()));
              if p.Bad? then r == None else r == Some(p.value) && Rest() == p.rest
    {
      hide NumberRun, IsNumberByte;
      var start := cur;
      cur := NumberEnd(input, start);
      ghost var t := input[start..];
      assert t[..cur - start] == input[start..cur] && t[cur - start..] == Rest();
      if cur == start { return None; }
      return Some(Number(input[start..cur]));
    }

    method ReadLiteral(word: string, v: Json) returns (r: Option<Json>)
      requires Valid() && word != ""
      modifies this`cur
      ensures Valid() && cur >= old(cur)
      ensures var p := ParseWord(old(Rest()), word, v);
              if p.Bad? then r == None else r == Some(p.value) && Rest() == p.rest
    {
      assert |input| - cur >= |word| ==> Rest()[..|word|] == input[cur..cur + |word|];
      if |input| - cur < |word| || input[cur..cur + |word|] != word { return None; }
      assert Rest()[|word|..] == input[cur + |word|..];
      cur := cur + |word|;
      return Some(v);
    }

    /** parse_value: the only place the nesting is counted. */
    method ReadValue() returns (r: Option<Json>)
      requires Valid()
      modifies this
      ensures Valid() && depth == old(depth) && cur >= old(cur)
      ensures var p := ParseValue(old(Rest()), old(depth));
              if p.Bad? then r == None else r == Some(p.value) && Rest() == p.rest
      decreases |input| - cur, 0
    {
      hide ParseArray, ParseObject, StringBody, NumberRun;
      SkipSpace();
      if cur >= |input| { return None; }
      ghost var u := Rest();
      var c := input[cur];
      assert u[1..] == input[cur + 1..];
      if c == '{' || c == '[' {
        if depth >= MAX_DEPTH { return None; }
        depth := depth + 1;
        cur := cur + 1;
        if c == '{' { r := ReadObject(); } else { r := ReadArray(); }
        depth := depth - 1;
      } else if c == '"' {
        cur := cur + 1;
        var text := ReadStringBody();
        r := if text.Some? then Some(String(text.value)) else None;
      } else if c == 't' {
        r := ReadLiteral("true", Bool(true));
      } else if c == 'f' {
        r := ReadLiteral("false", Bool(false));
      } else if c == 'n' {
        r := ReadLiteral("null", Null);
      } else {
        r := ReadNumber();
      }
    }

    /** What follows an item: a comma (1), the closing byte (2) or neither (0). */
    method ReadSeparator(close: char) returns (sep: int)
      requires Valid() && close != ','
      modifies this`cur
      ensures Valid() && cur >= old(cur)
      ensures var u := SkipWs(old(Rest()));
              && sep == (if Starts(u, ',') then 1 else if Starts(u, close) then 2 else 0)
              && (sep != 0 ==> Rest() == u[1..] && cur > old(cur))
    {
      SkipSpace();
      if At(',') {
        assert Rest()[1..] == input[cur + 1..];
        cur := cur + 1;
        return 1;
      }
      if At(close) {
        assert Rest()[1..] == input[cur + 1..];
        cur := cur + 1;
        return 2;
      }
      return 0;
    }

    /** parse_array, past its bracket. */
    method ReadArray() returns (r: Option<Json>)
      requires Valid()
      modifies this
      ensures Valid() && depth == old(depth) && cur >= old(cur)
      ensures var p := ParseArray(old(Rest()), old(depth));
              if p.Bad? then r == None else r == Some(p.value) && Rest() == p.rest
      decreases |input| - cur, 1
    {
      hide ParseValue, ParseItems, SkipWs, PrependItems;
      SkipSpace();
      if At(']') {
        assert Rest()[1..] == input[cur + 1..];
        cur := cur + 1;
        return Some(Array([]));
      }
      var items := [];
      ghost var whole := ParseItems(Rest(), depth);
      PrependNoItems(whole);
      while true
        invariant Valid() && depth == old(depth) && cur >= old(cur)
        invariant PrependItems(items, ParseItems(Rest(), depth)) == whole
        decreases |input| - cur
      {
        ItemsStart(items, Rest(), depth);
        var child := ReadValue();
        if child.None? { return None; }
        var sep := ReadSeparator(']');
        if sep == 0 { return None; }
        items := items + [child.value];
        if sep == 2 { return Some(Array(items)); }
      }
    }

    /** parse_object, past its brace. */
    method ReadObject() returns (r: Option<Json>)
      requires Valid()
      modifies this
      ensures Valid() && depth == old(depth) && cur >= old(cur)
      ensures var p := ParseObject(old(Rest()), old(depth));
              if p.Bad? then r == None else r == Some(p.value) && Rest() == p.rest
      decreases |input| - cur, 1
    {
      hide ParseValue, ParseMembers, ParseKey, SkipWs, PrependItems;
      SkipSpace();
      if At('}') {
        assert Rest()[1..] == input[cur + 1..];
        cur := cur + 1;
        return Some(Object([]));
      }
      var members := [];
      ghost var whole := ParseMembers(Rest(), depth);
      PrependNoItems(whole);
      while true
        invariant Valid() && depth == old(depth) && cur >= old(cur)
        invariant PrependItems(members, ParseMembers(Rest(), depth)) == whole
        decreases |input| - cur
      {
        MembersStart(members, Rest(), depth);
        var key := ReadKey();
        if key.None? { return None; }
        var child := ReadValue();
        if child.None? { return None; }
        var sep := ReadSeparator('}');
        if sep == 0 { return None; }
        members := members + [Member(key.value, child.value)];
        if sep == 2 { return Some(Object(members)); }
      }
    }

    /** A key and its colon. */
    method ReadKey() returns (r: Option<string>)
      requires Valid()
      modifies this`cur
      ensures Valid() && cur >= old(cur)
      ensures var p := ParseKey(old(Rest()));
              if p.Bad? then r == None else r == Some(p.value) && Rest() == p.rest
    {
      hide StringBody;
      SkipSpace();
      if !At('"') { return None; }
      assert Rest()[1..] == input[cur + 1..];
      cur := cur + 1;
      var key := ReadStringBody();
      if key.None? { return None; }
      SkipSpace();
      if !At(':') { return None; }
      assert Rest()[1..] == input[cur + 1..];
      cur := cur + 1;
      return key;
    }
  }

  function HexPrefix(t: string, i: nat): int
    requires i <= 4 <= |t|
  {
    if i == 0 then 0 else HexPrefix(t, i - 1) * 16 + HexValue(t[i - 1])
  }

  lemma HexAll(t: string)
    requires |t| >= 4 && forall k :: 0 <= k < 4 ==> HexValue(t[k]) >= 0
    ensures HexPrefix(t, 4) == Hex4(t)
  {
    hide HexValue;
    assert HexPrefix(t, 1) == HexValue(t[0]);
    assert HexPrefix(t, 2) == HexPrefix(t, 1) * 16 + HexValue(t[1]);
    assert HexPrefix(t, 3) == HexPrefix(t, 2) * 16 + HexValue(t[2]);
    assert HexPrefix(t, 4) == HexPrefix(t, 3) * 16 + HexValue(t[3]);
  }

  lemma HexStops(t: string, i: nat)
    requires i < 4 <= |t| && HexValue(t[i]) < 0
    ensures Hex4(t) == -1
  {
  }

  /** fl_json_parse. */
  method ParseJson(input: string) returns (r: Option<Json>)
    ensures r == Parse(input)
  {
    hide ParseValue;
    var p := new Parser(input);
    assert p.Rest() == input;
    r := p.ReadValue();
    if r.None? { return; }
    p.SkipSpace();
    if p.cur != |input| { return None; }
  }

  /** Where a number's bytes end: a dash in front is one of them. */
  method NumberEnd(s: string, start: nat) returns (end: nat)
    requires start <= |s|
    ensures start <= end <= |s| && end - start == NumberRun(s[start..])
  {
    hide NumberRun, IsNumberByte;
    end := start;
    NumberSteps(s[start..]);
    if end < |s| && s[end] == '-' {
      assert s[end..][1..] == s[end + 1..];
      end := end + 1;
    }
    while end < |s| && IsNumberByte(s[end])
      invariant start <= end <= |s|
      invariant end - start + NumberRun(s[end..]) == NumberRun(s[start..])
    {
      NumberSteps(s[end..]);
      assert s[end..][1..] == s[end + 1..];
      end := end + 1;
    }
    NumberSteps(s[end..]);
  }

  lemma NumberSteps(t: string)
    ensures NumberRun(t) == if t != "" && IsNumberByte(t[0]) then 1 + NumberRun(t[1..]) else 0
    ensures t != "" && t[0] == '-' ==> IsNumberByte(t[0])
  {
  }
}
