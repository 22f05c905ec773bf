/** Reading one cell in pieces with SQLGetData (src/results.c): character reads, which stop on a
    character boundary where they can, and binary reads. */
module Retrieval {
  import opened Text
  import opened Json
  import L = Literals

  datatype Kind = Chars | Raw

  /** What a call answers. A probe gives no buffer, or one of no length, and is told what remains. */
  datatype Answer = NoData | Probe(remaining: nat) | Chunk(text: string, remaining: nat, truncated: bool)

  /** A UTF-8 continuation byte, 10xxxxxx. */
  predicate IsContinuation(c: char) {
    0x80 <= c as int < 0xC0
  }

  /** `copy` moved back over continuation bytes at the cut. */
  function BackUp(data: string, from: nat, copy: nat): (r: nat)
    requires from + copy < |data|
    ensures r <= copy
    ensures r > 0 ==> !IsContinuation(data[from + r])
    ensures forall k :: from + r < k <= from + copy ==> IsContinuation(data[k])
  {
    if copy > 0 && IsContinuation(data[from + copy]) then BackUp(data, from, copy - 1) else copy
  }

  /** How many bytes a buffer of `length` bytes is given. */
  function Take(kind: Kind, data: string, from: nat, length: nat): (n: nat)
    requires from <= |data| && length > 0
    ensures n <= |data| - from && n <= length && (kind.Chars? ==> n < length)
  {
    var remaining := |data| - from;
    var room := if kind.Chars? then length - 1 else length;
    if remaining <= room then remaining
    else if kind.Raw? then room
    else
      var whole := BackUp(data, from, room);
      if whole > 0 then whole else room
  }

  /** One call. The offset is parked past the end once the cell has been delivered. */
  function Read(kind: Kind, data: string, offset: nat, length: int): (Answer, nat) {
    if offset > |data| then (NoData, offset)
    else
      var remaining := |data| - offset;
      if length <= 0 then (Probe(remaining), offset)
      else
        var n := Take(kind, data, offset, length);
        if n < remaining then (Chunk(data[offset..offset + n], remaining, true), offset + n)
        else (Chunk(data[offset..], remaining, false), |data| + 1)
  }

  // Any sequence of calls on one cell

  function OffsetAfter(kind: Kind, data: string, lengths: seq<int>): nat {
    if lengths == [] then 0
    else Read(kind, data, OffsetAfter(kind, data, lengths[..|lengths| - 1]), lengths[|lengths| - 1]).1
  }

  function Reads(kind: Kind, data: string, lengths: seq<int>): (r: seq<Answer>)
    ensures |r| == |lengths|
  {
    if lengths == [] then []
    else
      var n := |lengths| - 1;
      Reads(kind, data, lengths[..n]) + [Read(kind, data, OffsetAfter(kind, data, lengths[..n]), lengths[n]).0]
  }

  function Delivered(answers: seq<Answer>): string {
    if answers == [] then ""
    else
      var n := |answers| - 1;
      Delivered(answers[..n]) + if answers[n].Chunk? then answers[n].text else ""
  }

  predicate Finished(answers: seq<Answer>) {
    exists i :: 0 <= i < |answers| && answers[i].Chunk? && !answers[i].truncated
  }

  /** The offset says how much has been delivered, and whether that is all. */
  lemma {:induction false} OffsetTells(kind: Kind, data: string, lengths: seq<int>)
    ensures var (a, o) := (Reads(kind, data, lengths), OffsetAfter(kind, data, lengths));
            if Finished(a) then o == |data| + 1 && Delivered(a) == data
            else o <= |data| && Delivered(a) == data[..o]
  {
    hide Read, Finished, Reads, Delivered, OffsetAfter;
    NothingRead(kind, data);
    if lengths == [] {
      assert data[..0] == "";
    } else {
      var n := |lengths| - 1;
      var (was, o) := (Reads(kind, data, lengths[..n]), OffsetAfter(kind, data, lengths[..n]));
      OffsetTells(kind, data, lengths[..n]);
      LastRead(kind, data, lengths);
      FinishedAfter(was, Read(kind, data, o, lengths[n]).0);
      StepTells(kind, data, o, lengths[n], Delivered(was));
    }
  }

  lemma NothingRead(kind: Kind, data: string)
    ensures Reads(kind, data, []) == [] && OffsetAfter(kind, data, []) == 0
    ensures Delivered([]) == "" && !Finished([])
  {
  }

  lemma LastRead(kind: Kind, data: string, lengths: seq<int>)
    requires lengths != []
    ensures var n := |lengths| - 1;
            var (a, o) := Read(kind, data, OffsetAfter(kind, data, lengths[..n]), lengths[n]);
            Reads(kind, data, lengths) == Reads(kind, data, lengths[..n]) + [a] && OffsetAfter(kind, data, lengths) == o
  {
    hide Read;
  }

  lemma FinishedAfter(was: seq<Answer>, last: Answer)
    ensures Finished(was + [last]) <==> Finished(was) || (last.Chunk? && !last.truncated)
    ensures Delivered(was + [last]) == Delivered(was) + if last.Chunk? then last.text else ""
  {
    var a := was + [last];
    assert a[..|was|] == was && a[|was|] == last;
    if Finished(was) {
      var i :| 0 <= i < |was| && was[i].Chunk? && !was[i].truncated;
      assert a[i] == was[i];
    }
  }

  lemma StepTells(kind: Kind, data: string, offset: nat, length: int, got: string)
    requires if offset <= |data| then got == data[..offset] else offset == |data| + 1 && got == data
    ensures var (a, o) := Read(kind, data, offset, length);
            var now := got + if a.Chunk? then a.text else "";
            if offset > |data| || (a.Chunk? && !a.truncated) then o == |data| + 1 && now == data
            else o <= |data| && now == data[..o]
  {
    hide Take;
    var (a, o) := Read(kind, data, offset, length);
    if offset > |data| || length <= 0 {
      assert got + "" == got;
    } else {
      var n := Take(kind, data, offset, length);
      assert data[..offset] + data[offset..offset + n] == data[..offset + n];
      assert data[..offset] + data[offset..] == data;
      assert data[offset..offset + n] == data[offset..] || n < |data| - offset;
    }
  }

  /** What the next call answers after any calls before it: once the cell has been delivered there is
      no more data; until then the chunks so far and this one are the front of the cell, the indicator
      is exactly what is left, the call that answers success completes the cell, and a buffer with room
      for a byte makes progress. Probes change nothing. */
  lemma NextCall(kind: Kind, data: string, before: seq<int>, length: int)
    ensures var a := Reads(kind, data, before);
            var next := Reads(kind, data, before + [length]);
            var got := Delivered(a);
            && next == a + [next[|before|]]
            && var r := next[|before|];
               && (r == NoData <==> Finished(a))
               && (Finished(a) ==> got == data)
               && (!Finished(a) ==>
                     && r.remaining == |data| - |got|
                     && (r.Probe? <==> length <= 0)
                     && (r.Chunk? ==>
                           && got + r.text <= data
                           && (r.truncated <==> got + r.text != data)
                           && |r.text| <= length - (if kind.Chars? then 1 else 0)
                           && (r.text == "" ==> got == data || (kind.Chars? && length == 1))))
  {
    hide BackUp, Finished;
    OffsetTells(kind, data, before);
    assert (before + [length])[..|before|] == before;
    var (o, got) := (OffsetAfter(kind, data, before), Delivered(Reads(kind, data, before)));
    StepTells(kind, data, o, length, got);
    var r := Read(kind, data, o, length).0;
    if o <= |data| && length > 0 {
      ChunkIsFront(kind, data, o, length);
      assert r.Chunk? && |got + r.text| == o + |r.text|;
    }
  }

  lemma ChunkIsFront(kind: Kind, data: string, offset: nat, length: nat)
    requires offset <= |data| && length > 0
    ensures var r := Read(kind, data, offset, length).0;
            && r.Chunk? && |r.text| == Take(kind, data, offset, length)
            && data[..offset] + r.text == data[..offset + |r.text|]
            && (r.text == "" ==> offset == |data| || (kind.Chars? && length == 1))
  {
  }

  /** The smallest buffer that makes progress. */
  function Least(kind: Kind): nat {
    if kind.Chars? then 2 else 1
  }

  function Useful(kind: Kind, lengths: seq<int>): nat {
    if lengths == [] then 0
    else Useful(kind, lengths[..|lengths| - 1]) + if lengths[|lengths| - 1] >= Least(kind) then 1 else 0
  }

  /** However the calls are mixed with probes and one-byte buffers, the cell is delivered after at most
      one useful buffer more than it has bytes. */
  lemma {:induction false} ReadingFinishes(kind: Kind, data: string, lengths: seq<int>)
    requires Useful(kind, lengths) > |data|
    ensures Finished(Reads(kind, data, lengths)) && Delivered(Reads(kind, data, lengths)) == data
  {
    UsefulAdvances(kind, data, lengths);
    OffsetTells(kind, data, lengths);
  }

  lemma {:induction false} UsefulAdvances(kind: Kind, data: string, lengths: seq<int>)
    ensures OffsetAfter(kind, data, lengths)
            >= if Useful(kind, lengths) <= |data| then Useful(kind, lengths) else |data| + 1
    ensures OffsetAfter(kind, data, lengths) <= |data| + 1
  {
    if lengths != [] {
      var n := |lengths| - 1;
      UsefulAdvances(kind, data, lengths[..n]);
      CallAdvances(kind, data, OffsetAfter(kind, data, lengths[..n]), lengths[n]);
    }
  }

  lemma CallAdvances(kind: Kind, data: string, offset: nat, length: int)
    requires offset <= |data| + 1
    ensures offset <= Read(kind, data, offset, length).1 <= |data| + 1
    ensures length >= Least(kind) && offset <= |data| ==> Read(kind, data, offset, length).1 > offset
  {
    hide BackUp;
  }

  /** A one-byte character buffer has room for the terminator only, and never gets anywhere. */
  lemma {:induction false} OneByteStalls(data: string, lengths: seq<int>)
    requires data != "" && forall i :: 0 <= i < |lengths| ==> lengths[i] <= 1
    ensures OffsetAfter(Chars, data, lengths) == 0 && !Finished(Reads(Chars, data, lengths))
  {
    if lengths != [] {
      OneByteStalls(data, lengths[..|lengths| - 1]);
    }
    OffsetTells(Chars, data, lengths);
  }

  // Whole characters (section 4 of RFC 3629)

  predicate Tail(s: string, i: nat) {
    i < |s| && IsContinuation(s[i])
  }

  /** The length of the character at the front of `s`, or 0 where there is none. */
  function CharLength(s: string): (n: nat)
    ensures n <= 4 && n <= |s|
    ensures forall i :: 1 <= i < n ==> IsContinuation(s[i])
    ensures n > 0 ==> !IsContinuation(s[0])
  {
    if s == "" then 0
    else
      var b := s[0] as int;
      if b < 0x80 then 1
      else if 0xC2 <= b <= 0xDF then (if Tail(s, 1) then 2 else 0)
      else if 0xE0 <= b <= 0xEF then
        if Tail(s, 1) && Tail(s, 2) && (b == 0xE0 ==> s[1] as int >= 0xA0) && (b == 0xED ==> s[1] as int < 0xA0)
        then 3 else 0
      else if 0xF0 <= b <= 0xF4 then
        if Tail(s, 1) && Tail(s, 2) && Tail(s, 3) && (b == 0xF0 ==> s[1] as int >= 0x90)
           && (b == 0xF4 ==> s[1] as int < 0x90)
        then 4 else 0
      else 0
  }

  /** Nothing but whole characters. */
  predicate IsUtf8(s: string) {
    s == "" || (CharLength(s) > 0 && IsUtf8(s[CharLength(s)..]))
  }

  /** A character is recognised by its own bytes. */
  lemma CharLengthIsLocal(s: string, k: nat)
    requires CharLength(s) > 0 && k <= |s|
    ensures CharLength(s[..k]) == if CharLength(s) <= k then CharLength(s) else 0
  {
  }

  /** A code point that is not half of a pair. */
  predicate IsScalar(cp: nat) {
    cp < 0xD800 || 0xE000 <= cp < 0x110000
  }

  /** The characters are the code points in UTF-8: each of them is one character whatever follows it, and a character is
      one of them. */
  lemma {:induction false} ScalarIsCharacter(cp: nat, t: string)
    requires IsScalar(cp)
    ensures CharLength(Utf8(cp) + t) == |Utf8(cp)| > 0
  {
    Utf8RoundTrip(cp);
    Utf8Continues(cp);
    var s := Utf8(cp) + t;
    assert forall i :: 0 <= i < |Utf8(cp)| ==> s[i] == Utf8(cp)[i];
  }

  lemma SixBits(x: nat, r: nat)
    requires r < 64
    ensures (x * 64 + r) / 64 == x && (x * 64 + r) % 64 == r
  {
  }

  /** Two bytes, three or four, put together again. */
  lemma {:induction false} Continued(front: nat, tail: seq<nat>)
    requires 1 <= |tail| <= 3 && forall i :: 0 <= i < |tail| ==> tail[i] < 64
    requires if |tail| == 1 then 2 <= front < 32
             else if |tail| == 2 then front < 16 && (front == 0 ==> tail[0] >= 32)
             else front < 8 && (front == 0 ==> tail[0] >= 16)
    ensures var cp := if |tail| == 1 then front * 64 + tail[0]
                      else if |tail| == 2 then (front * 64 + tail[0]) * 64 + tail[1]
                      else ((front * 64 + tail[0]) * 64 + tail[1]) * 64 + tail[2];
            && cp < 0x200000 && |Utf8(cp)| == |tail| + 1
            && Utf8(cp)[0] as int == front + (if |tail| == 1 then 0xC0 else if |tail| == 2 then 0xE0 else 0xF0)
            && forall i :: 0 <= i < |tail| ==> Utf8(cp)[i + 1] as int == 0x80 + tail[i]
  {
    var one := front * 64 + tail[0];
    SixBits(front, tail[0]);
    if |tail| > 1 {
      var two := one * 64 + tail[1];
      SixBits(one, tail[1]);
      assert two / 4096 == front;
      if |tail| > 2 {
        SixBits(two, tail[2]);
        var cp := two * 64 + tail[2];
        assert cp / 4096 == one && cp / 262144 == front;
      }
    }
  }

  lemma {:induction false} CharacterIsScalar(s: string) returns (cp: nat)
    requires CharLength(s) > 0
    ensures IsScalar(cp) && s[..CharLength(s)] == Utf8(cp)
  {
    hide Utf8;
    var n := CharLength(s);
    var b := s[0] as int;
    if n == 1 {
      cp := b;
      OneByte(s[0]);
    } else {
      var tail := seq(n - 1, i requires 0 <= i < n - 1 => s[i + 1] as int - 0x80);
      var front := b - (if n == 2 then 0xC0 else if n == 3 then 0xE0 else 0xF0);
      Continued(front, tail);
      cp := if n == 2 then front * 64 + tail[0]
            else if n == 3 then (front * 64 + tail[0]) * 64 + tail[1]
            else ((front * 64 + tail[0]) * 64 + tail[1]) * 64 + tail[2];
      assert forall i :: 1 <= i < n ==> s[i] as int == 0x80 + tail[i - 1];
    }
  }

  lemma OneByte(c: char)
    requires c as int < 0x80
    ensures Utf8(c as int) == [c]
  {
  }

  /** Text may be cut wherever the next byte does not continue a character. */
  lemma {:induction false} CutIsWhole(s: string, k: nat)
    requires IsUtf8(s) && k <= |s| && (k == |s| || !IsContinuation(s[k]))
    ensures IsUtf8(s[..k]) && IsUtf8(s[k..])
    decreases k
  {
    hide CharLength, IsUtf8, IsContinuation;
    Utf8Step(s);
    Utf8Step(s[..k]);
    if k == 0 {
      assert s[..k] == "" && s[k..] == s;
    } else {
      var n := CharLength(s);
      assert n <= k;
      CutParts(s, n, k);
      CutIsWhole(s[n..], k - n);
      CharLengthIsLocal(s, k);
    }
  }

  lemma Utf8Step(s: string)
    ensures IsUtf8(s) <==> s == "" || (CharLength(s) > 0 && IsUtf8(s[CharLength(s)..]))
  {
  }

  lemma CutParts(s: string, n: nat, k: nat)
    requires n <= k <= |s|
    ensures s[..k][n..] == s[n..][..k - n] && s[k..] == s[n..][k - n..]
    ensures k < |s| ==> s[k] == s[n..][k - n]
  {
  }

  /** A chunk is whole characters exactly when its first character fits beside the terminator; the
      one-byte buffer, which delivers nothing, is the other case. What is left is then whole as well. */
  lemma ChunkIsWhole(data: string, from: nat, length: nat)
    requires from <= |data| && IsUtf8(data[from..]) && length > 0
    ensures var n := Take(Chars, data, from, length);
            var whole := IsUtf8(data[from..from + n]);
            && (whole <==> length == 1 || length > CharLength(data[from..]))
            && (whole ==> IsUtf8(data[from + n..]))
  {
    hide IsUtf8, CharLength;
    var s := data[from..];
    var n := Take(Chars, data, from, length);
    assert data[from..from + n] == s[..n] && data[from + n..] == s[n..];
    if |s| < length {
      assert s[..n] == s && s[n..] == "";
      NothingIsWhole();
    } else {
      assert forall k :: 0 <= k < |s| ==> data[from + k] == s[k];
      var c := CharLength(s);
      FirstCharacter(s);
      if c < length {
        assert c < |s| ==> data[from + c] == s[c];
        assert n < |s| ==> data[from + n] == s[n];
        assert n >= c && (n == |s| || !IsContinuation(s[n]));
        CutIsWhole(s, n);
      } else if length == 1 {
        NothingIsWhole();
        assert s[..n] == "" && s[n..] == s;
      } else {
        assert n == length - 1;
        CharLengthIsLocal(s, n);
        BrokenIsNotWhole(s[..n]);
      }
    }
  }

  lemma NothingIsWhole()
    ensures IsUtf8("")
  {
  }

  lemma FirstCharacter(s: string)
    requires IsUtf8(s)
    ensures s != "" ==> CharLength(s) > 0
    ensures CharLength(s) == |s| || !IsContinuation(s[CharLength(s)])
  {
    if s != "" {
      var t := s[CharLength(s)..];
      assert t != "" ==> t[0] == s[CharLength(s)];
    }
  }

  lemma BrokenIsNotWhole(s: string)
    requires s != "" && CharLength(s) == 0
    ensures !IsUtf8(s)
  {
  }

  /** So with buffers of five bytes or more every chunk of valid text is valid text. */
  lemma {:induction false} FiveBytesAreEnough(data: string, lengths: seq<int>)
    requires IsUtf8(data) && forall i :: 0 <= i < |lengths| ==> lengths[i] <= 0 || lengths[i] >= 5
    ensures forall i :: 0 <= i < |lengths| && Reads(Chars, data, lengths)[i].Chunk? ==>
              IsUtf8(Reads(Chars, data, lengths)[i].text)
    ensures var o := OffsetAfter(Chars, data, lengths); o <= |data| ==> IsUtf8(data[o..])
  {
    hide IsUtf8, CharLength, Take;
    if lengths == [] {
      assert data[0..] == data;
    } else {
      var n := |lengths| - 1;
      FiveBytesAreEnough(data, lengths[..n]);
      var o := OffsetAfter(Chars, data, lengths[..n]);
      var (a, was) := (Reads(Chars, data, lengths), Reads(Chars, data, lengths[..n]));
      assert a == was + [Read(Chars, data, o, lengths[n]).0];
      if o <= |data| && lengths[n] > 0 {
        ChunkIsWhole(data, o, lengths[n]);
        var m := Take(Chars, data, o, lengths[n]);
        assert data[o..] == data[o..o + m] || m < |data| - o;
      }
    }
  }

  /** Four bytes are not: a character of four bytes is split. */
  lemma {:induction false} FourBytesSplit()
    ensures var emoji := [0xF0 as char, 0x9F as char, 0x98 as char, 0x80 as char];
            && IsUtf8(emoji)
            && Read(Chars, emoji, 0, 4).0 == Chunk(emoji[..3], 4, true)
            && !IsUtf8(emoji[..3])
  {
    var emoji := [0xF0 as char, 0x9F as char, 0x98 as char, 0x80 as char];
    assert CharLength(emoji) == 4 && emoji[4..] == "";
    CharLengthIsLocal(emoji, 3);
    assert BackUp(emoji, 0, 3) == BackUp(emoji, 0, 2) == BackUp(emoji, 0, 1) == 0;
    BrokenIsNotWhole(emoji[..3]);
  }

  // Hexadecimal cells

  predicate PairAt(text: string, i: nat)
    requires 2 * i + 1 < |text|
  {
    HexValue(text[2 * i]) >= 0 && HexValue(text[2 * i + 1]) >= 0
  }

  /** The byte pair `i` spells. */
  function ByteAt(text: string, i: nat): char
    requires 2 * i + 1 < |text|
  {
    if PairAt(text, i) then (HexValue(text[2 * i]) * 16 + HexValue(text[2 * i + 1])) as char else '\0'
  }

  function Decoded(text: string): (r: string)
    ensures |r| == |text| / 2
    ensures forall i :: 0 <= i < |r| ==> r[i] == ByteAt(text, i)
  {
    seq(|text| / 2, i requires 0 <= i < |text| / 2 => ByteAt(text, i))
  }

  /** The bytes, as the characters that stand for them. */
  function AsText(bytes: seq<L.Byte>): (r: string)
    ensures |r| == |bytes|
    ensures forall i :: 0 <= i < |r| ==> r[i] == bytes[i] as char
  {
    seq(|bytes|, i requires 0 <= i < |bytes| => bytes[i] as char)
  }

  lemma HexLength(bytes: seq<L.Byte>)
    ensures |L.Hex(bytes)| == 2 * |bytes|
  {
  }

  lemma HexDigitValue(n: nat)
    requires n < 16
    ensures HexValue(L.HexDigit(n)) == n
  {
  }

  lemma {:induction false} HexPairs(bytes: seq<L.Byte>, i: nat)
    requires i < |bytes|
    ensures |L.Hex(bytes)| == 2 * |bytes|
    ensures L.Hex(bytes)[2 * i] == L.HexDigit(bytes[i] / 16) && L.Hex(bytes)[2 * i + 1] == L.HexDigit(bytes[i] % 16)
  {
    hide L.HexDigit;
    HexLength(bytes);
    if i > 0 { HexPairs(bytes[1..], i - 1); }
  }

  /** A binary parameter's hexadecimal, read back as a binary cell, is the parameter. */
  lemma {:induction false} BinaryRoundTrip(bytes: seq<L.Byte>)
    ensures Decoded(L.Hex(bytes)) == AsText(bytes)
    ensures |L.Hex(bytes)| == 2 * |bytes| && forall i :: 0 <= i < |bytes| ==> PairAt(L.Hex(bytes), i)
  {
    hide L.HexDigit, HexValue, L.Hex;
    HexLength(bytes);
    forall i | 0 <= i < |bytes| ensures PairAt(L.Hex(bytes), i) && ByteAt(L.Hex(bytes), i) == bytes[i] as char {
      HexPairs(bytes, i);
      HexDigitValue(bytes[i] / 16);
      HexDigitValue(bytes[i] % 16);
    }
  }

  // The source's own branches, into the caller's buffer

  datatype Code = Success | SuccessWithInfo | NoMoreData | BadHex

  function CodeOf(a: Answer): Code {
    if a.NoData? then NoMoreData else if a.Chunk? && a.truncated then SuccessWithInfo else Success
  }

  function IndicatorOf(a: Answer): Option<nat> {
    if a.NoData? then None else Some(a.remaining)
  }

  /** The caller's buffer: the chunk, the terminator if there is one, and what it held before. */
  predicate Holds(buffer: string, was: string, a: Answer, terminator: string) {
    if a.Chunk? then
      var s := a.text + terminator;
      |buffer| == |was| >= |s| && buffer == s + was[|s|..]
    else buffer == was
  }

  /** The character branch of convert_cell. */
  method ConvertCharacters(text: string, offset: nat, buffer: array<char>, length: int)
    returns (code: Code, indicator: Option<nat>, next: nat)
    requires length <= buffer.Length
    modifies buffer
    ensures var (a, o) := Read(Chars, text, offset, length);
            && code == CodeOf(a) && indicator == IndicatorOf(a) && next == o
            && Holds(buffer[..], old(buffer[..]), a, "\0")
  {
    var total := |text|;
    next := offset;
    if offset > total { return NoMoreData, None, offset; }
    var remaining := total - offset;
    indicator := Some(remaining);
    if length <= 0 { return Success, indicator, offset; }
    var room := length - 1;
    var copy := if remaining < room then remaining else room;
    if copy < remaining {
      var whole := copy;
      while whole > 0 && IsContinuation(text[offset + whole])
        invariant 0 <= whole <= copy
        invariant BackUp(text, offset, whole) == BackUp(text, offset, copy)
      {
        whole := whole - 1;
      }
      if whole > 0 { copy := whole; }
    }
    Fill(buffer, text[offset..offset + copy] + "\0");
    next := if copy < remaining then offset + copy else total + 1;
    code := if copy < remaining then SuccessWithInfo else Success;
    assert offset + copy == total ==> text[offset..offset + copy] == text[offset..];
  }

  /** memcpy into the caller's buffer. */
  method Fill(buffer: array<char>, s: string)
    requires |s| <= buffer.Length
    modifies buffer
    ensures buffer[..] == s + old(buffer[..])[|s|..]
  {
    forall i | 0 <= i < |s| { buffer[i] := s[i]; }
  }

  /** The binary branch for a column that is not binary: its bytes as they are. */
  method ConvertBytes(text: string, offset: nat, buffer: array<char>, length: int)
    returns (code: Code, indicator: Option<nat>, next: nat)
    requires length <= buffer.Length
    modifies buffer
    ensures var (a, o) := Read(Raw, text, offset, length);
            && code == CodeOf(a) && indicator == IndicatorOf(a) && next == o
            && Holds(buffer[..], old(buffer[..]), a, "")
  {
    var total := |text|;
    next := offset;
    if offset > total { return NoMoreData, None, offset; }
    var remaining := total - offset;
    indicator := Some(remaining);
    if length <= 0 { return Success, indicator, offset; }
    var copy := if remaining < length then remaining else length;
    Fill(buffer, text[offset..offset + copy]);
    next := if copy < remaining then offset + copy else total + 1;
    code := if copy < remaining then SuccessWithInfo else Success;
    assert text[offset..offset + copy] + "" == text[offset..offset + copy];
    assert offset + copy == total ==> text[offset..offset + copy] == text[offset..];
  }

  lemma PairIsRead(text: string, i: nat)
    requires 2 * i + 1 < |text|
    ensures var (high, low) := (HexValue(text[i * 2]), HexValue(text[i * 2 + 1]));
            && (PairAt(text, i) <==> high >= 0 && low >= 0)
            && (PairAt(text, i) ==> ByteAt(text, i) == (high * 16 + low) as char)
  {
  }

  /** The first byte of the next piece that is not spelt in hexadecimal. */
  predicate Spoilt(text: string, offset: nat, length: int) {
    var total := |text| / 2;
    offset <= total && length > 0
    && exists i :: offset <= i < total && i < offset + length && !PairAt(text, i)
  }

  /** The binary branch for a binary column, whose cells are hexadecimal text. */
  method ConvertHex(text: string, offset: nat, buffer: array<char>, length: int)
    returns (code: Code, indicator: Option<nat>, next: nat)
    requires length <= buffer.Length
    modifies buffer
    ensures code == BadHex <==> Spoilt(text, offset, length)
    ensures code == BadHex ==> next == offset
    ensures code != BadHex ==>
              var (a, o) := Read(Raw, Decoded(text), offset, length);
              && code == CodeOf(a) && indicator == IndicatorOf(a) && next == o
              && Holds(buffer[..], old(buffer[..]), a, "")
  {
    hide HexValue, Decoded, PairAt, ByteAt;
    var total := |text| / 2;
    next := offset;
    if offset > total { return NoMoreData, None, offset; }
    var remaining := total - offset;
    indicator := Some(remaining);
    if length <= 0 { return Success, indicator, offset; }
    var copy := if remaining < length then remaining else length;
    var i := 0;
    while i < copy
      invariant 0 <= i <= copy
      invariant forall k :: offset <= k < offset + i ==> PairAt(text, k)
      invariant forall k :: 0 <= k < i ==> buffer[k] == Decoded(text)[offset + k]
      invariant forall k :: i <= k < buffer.Length ==> buffer[k] == old(buffer[k])
    {
      var high, low := HexValue(text[(offset + i) * 2]), HexValue(text[(offset + i) * 2 + 1]);
      PairIsRead(text, offset + i);
      if high < 0 || low < 0 { return BadHex, indicator, offset; }
      buffer[i] := (high * 16 + low) as char;
      i := i + 1;
    }
    ghost var s := Decoded(text)[offset..offset + copy];
    assert buffer[..] == s + old(buffer[..])[copy..] && s + "" == s;
    next := if copy < remaining then offset + copy else total + 1;
    code := if copy < remaining then SuccessWithInfo else Success;
    assert offset + copy == total ==> s == Decoded(text)[offset..];
  }
}
