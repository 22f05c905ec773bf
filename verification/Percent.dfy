/** The path a session is deleted under (src/proto.c), its id one segment of it (RFC 3986). */
module Percent {
  import opened Text
  import opened Json
  import opened StrBuf
  import L = Literals

  const SESSIONS := "/api/sessions/"

  /** Section 2.3 of RFC 3986. */
  predicate IsUnreserved(c: char) {
    IsLetter(c) || IsDigit(c) || c == '-' || c == '.' || c == '_' || c == '~'
  }

  function EscapeChar(c: char): string
    requires c as int < 256
  {
    if IsUnreserved(c) then [c] else ['%', L.HexDigit(c as int / 16), L.HexDigit(c as int % 16)]
  }

  function Segment(id: string): string
    requires IsBytes(id)
  {
    if id == "" then "" else EscapeChar(id[0]) + Segment(id[1..])
  }

  /** Percent-decoding (section 2.1 of RFC 3986): None where a `%` is not followed by two digits. */
  function Decoded(s: string): Option<string> {
    if s == "" then Some("")
    else if s[0] != '%' then Prefixed(s[0], Decoded(s[1..]))
    else if |s| < 3 || HexValue(s[1]) < 0 || HexValue(s[2]) < 0 then None
    else Prefixed((HexValue(s[1]) * 16 + HexValue(s[2])) as char, Decoded(s[3..]))
  }

  function Prefixed(c: char, r: Option<string>): Option<string> {
    if r.None? then None else Some([c] + r.value)
  }

  lemma HexPairIsRead(n: nat)
    requires n < 256
    ensures HexValue(L.HexDigit(n / 16)) == n / 16 && HexValue(L.HexDigit(n % 16)) == n % 16
  {
  }

  lemma {:induction false} CharIsDecoded(c: char, rest: string)
    requires c as int < 256
    ensures Decoded(EscapeChar(c) + rest) == Prefixed(c, Decoded(rest))
  {
    hide HexValue, L.HexDigit;
    HexPairIsRead(c as int);
    var s := EscapeChar(c) + rest;
    if IsUnreserved(c) {
      assert s[1..] == rest;
    } else {
      assert s[3..] == rest;
    }
  }

  /** Whatever bytes the id is made of, the segment decodes back to it. */
  lemma {:induction false} SegmentRoundTrip(id: string)
    requires IsBytes(id)
    ensures Decoded(Segment(id)) == Some(id)
  {
    hide EscapeChar;
    if id != "" {
      assert id[0] in id;
      SegmentRoundTrip(id[1..]);
      CharIsDecoded(id[0], Segment(id[1..]));
      assert [id[0]] + id[1..] == id;
    }
  }

  /** And it is one segment, with nothing in it that ends a segment, a path or a request line. */
  lemma {:induction false} SegmentIsPlain(id: string)
    requires IsBytes(id)
    ensures forall i :: 0 <= i < |Segment(id)| ==> IsUnreserved(Segment(id)[i]) || Segment(id)[i] == '%'
  {
    if id != "" {
      assert id[0] in id;
      SegmentIsPlain(id[1..]);
      EscapeIsPlain(id[0]);
    }
  }

  lemma EscapeIsPlain(c: char)
    requires c as int < 256
    ensures forall i :: 0 <= i < |EscapeChar(c)| ==> IsUnreserved(EscapeChar(c)[i]) || EscapeChar(c)[i] == '%'
  {
    hide L.HexDigit;
    HexIsPlain(c as int / 16);
    HexIsPlain(c as int % 16);
  }

  /** Just the unreserved characters stand for themselves. */
  lemma UnreservedStay(c: char)
    requires c as int < 256
    ensures EscapeChar(c) == [c]
            <==> 'A' <= c <= 'Z' || 'a' <= c <= 'z' || '0' <= c <= '9' || c == '-' || c == '.' || c == '_' || c == '~'
  {
    assert |EscapeChar(c)| == 1 <==> IsUnreserved(c);
  }

  lemma HexIsPlain(n: nat)
    requires n < 16
    ensures IsUnreserved(L.HexDigit(n))
  {
  }

  /** Two sessions are never deleted under one path. */
  lemma PathsAreDistinct(a: string, b: string)
    requires IsBytes(a) && IsBytes(b) && SESSIONS + Segment(a) == SESSIONS + Segment(b)
    ensures a == b
  {
    hide Segment, Decoded;
    SegmentRoundTrip(a);
    SegmentRoundTrip(b);
    assert (SESSIONS + Segment(a))[|SESSIONS|..] == Segment(a);
    assert (SESSIONS + Segment(b))[|SESSIONS|..] == Segment(b);
  }

  /** The path is the collection of sessions and one segment, which decodes to the session. */
  lemma PathIsRead(id: string)
    requires IsBytes(id)
    ensures var path := SESSIONS + Segment(id);
            |path| >= 14 && path[..14] == "/api/sessions/" && Decoded(path[14..]) == Some(id) && '/' !in path[14..]
  {
    hide Segment, Decoded;
    SegmentRoundTrip(id);
    SegmentIsPlain(id);
    assert (SESSIONS + Segment(id))[14..] == Segment(id);
  }

  lemma SegmentNext(done: string, id: string, c: nat)
    requires IsBytes(id) && c < |id|
    ensures IsBytes(id[c..]) && IsBytes(id[c + 1..]) && id[c] as int < 256
    ensures done + Segment(id[c..]) == done + EscapeChar(id[c]) + Segment(id[c + 1..])
  {
    hide EscapeChar;
    assert id[c] in id && id[c..][1..] == id[c + 1..];
  }

  lemma SegmentEnds(done: string)
    ensures done + Segment("") == done
  {
  }

  /** The path fl_proto_release builds. */
  method DeletePath(id: string) returns (path: Buffer)
    requires IsBytes(id)
    ensures fresh(path) && fresh(path.data) && path.Valid() && path.Contents() == SESSIONS + Segment(id)
  {
    hide *;
    path := new Buffer();
    path.Append(SESSIONS);
    ghost var whole := SESSIONS + Segment(id);
    assert "" + SESSIONS == SESSIONS;
    var c := 0;
    assert id[0..] == id;
    while c < |id|
      invariant 0 <= c <= |id| && IsBytes(id[c..])
      invariant fresh(path.data) && path.Valid() && path.Contents() + Segment(id[c..]) == whole
    {
      SegmentNext(path.Contents(), id, c);
      if IsUnreserved(id[c]) {
        PlainIsItself(id[c]);
        path.Append([id[c]]);
      } else {
        OtherIsEscaped(id[c]);
        path.Append(['%', L.HexDigit(id[c] as int / 16), L.HexDigit(id[c] as int % 16)]);
      }
      c := c + 1;
    }
    SegmentEnds(path.Contents());
    assert id[c..] == "";
  }

  lemma PlainIsItself(c: char)
    requires c as int < 256 && IsUnreserved(c)
    ensures EscapeChar(c) == [c]
  {
  }

  lemma OtherIsEscaped(c: char)
    requires c as int < 256 && !IsUnreserved(c)
    ensures EscapeChar(c) == ['%', L.HexDigit(c as int / 16), L.HexDigit(c as int % 16)]
  {
  }
}
