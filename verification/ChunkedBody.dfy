/** Decoding a chunked response body within its own buffer (src/http.c). */
module ChunkedBody {
  import opened Text
  import opened Json

  /** memmem for a line end. */
  function FindLineEnd(t: string): (r: Option<nat>)
    ensures r.Some? ==> r.value + 2 <= |t|
  {
    if |t| < 2 then None
    else if t[0] == '\r' && t[1] == '\n' then Some(0)
    else
      var later := FindLineEnd(t[1..]);
      if later.None? then None else Some(later.value + 1)
  }

  predicate IsSpace(c: char) {
    c == ' ' || 0x09 <= c as int <= 0x0D
  }

  function SkipSpace(t: string): string {
    if t != "" && IsSpace(t[0]) then SkipSpace(t[1..]) else t
  }

  /** The hexadecimal digits at the front of `t`, on top of `sum`. */
  function HexRun(t: string, sum: nat): nat {
    if t != "" && HexValue(t[0]) >= 0 then HexRun(t[1..], sum * 16 + HexValue(t[0])) else sum
  }

  /** strtol in base 16: spaces, line ends among them, then a sign, then 0x, then digits. Where the C
      function would stop at the largest long, the number is past the end of any body just the same. */
  function Strtol16(t: string): int {
    var u := SkipSpace(t);
    var signed := u != "" && (u[0] == '-' || u[0] == '+');
    var v := if signed then u[1..] else u;
    var w := if |v| >= 2 && v[0] == '0' && (v[1] == 'x' || v[1] == 'X') then v[2..] else v;
    if signed && u[0] == '-' then 0 - HexRun(w, 0) else HexRun(w, 0)
  }

  function SkipLineEnd(t: string): (r: string)
    ensures |r| <= |t|
  {
    if |t| >= 2 && t[0] == '\r' && t[1] == '\n' then t[2..] else t
  }

  function Before(data: string, r: Option<string>): Option<string> {
    if r.None? then None else Some(data + r.value)
  }

  /** What the chunks of `t` hold, or None where the body is cut short. */
  function Decode(t: string): Option<string>
    decreases |t|
  {
    if t == "" then Some("")
    else
      var end := FindLineEnd(t);
      if end.None? then None
      else
        var (chunk, rest) := (Strtol16(t), t[end.value + 2..]);
        if chunk == 0 then Some("")
        else if chunk < 0 || chunk > |rest| then None
        else Before(rest[..chunk], Decode(SkipLineEnd(rest[chunk..])))
  }

  /** No size line the decoder reaches has a minus sign in front of a number so small that, taken for an
      enormous size, it leads back into the body of `total` bytes: the code would then move far more bytes
      than there are, which C leaves undefined. Any other such size is refused. */
  predicate SizesAreDefined(t: string, total: nat)
    requires |t| <= total
    decreases |t|
  {
    t == "" || FindLineEnd(t).None?
    || var (chunk, rest) := (Strtol16(t), t[FindLineEnd(t).value + 2..]);
       && (chunk < 0 ==> -chunk > total - |rest|)
       && (0 < chunk <= |rest| ==> SizesAreDefined(SkipLineEnd(rest[chunk..]), total))
  }

  lemma DefinedStep(t: string, total: nat)
    requires t != "" && |t| <= total
    ensures FindLineEnd(t).None? ==> SizesAreDefined(t, total)
    ensures FindLineEnd(t).Some? ==>
              var (chunk, rest) := (Strtol16(t), t[FindLineEnd(t).value + 2..]);
              && (chunk < 0 ==> (SizesAreDefined(t, total) <==> -chunk > total - |rest|))
              && (chunk == 0 || chunk > |rest| ==> SizesAreDefined(t, total))
              && (0 < chunk <= |rest| ==>
                    (SizesAreDefined(t, total) <==> SizesAreDefined(SkipLineEnd(rest[chunk..]), total)))
  {
    hide Strtol16, FindLineEnd, SkipLineEnd;
  }

  lemma NothingIsDefined(total: nat)
    ensures SizesAreDefined("", total)
  {
  }

  lemma DecodeStep(t: string, total: nat)
    requires t != "" && |t| <= total
    ensures FindLineEnd(t).None? ==> Decode(t) == None
    ensures FindLineEnd(t).Some? ==>
              var (chunk, rest) := (Strtol16(t), t[FindLineEnd(t).value + 2..]);
              && (chunk < 0 ==> Decode(t) == None)
              && (chunk == 0 ==> Decode(t) == Some(""))
              && (chunk > |rest| ==> Decode(t) == None)
              && (0 < chunk <= |rest| ==>
                    Decode(t) == Before(rest[..chunk], Decode(SkipLineEnd(rest[chunk..]))))
  {
    hide Strtol16, FindLineEnd, SkipLineEnd;
  }

  /** strtol's result as it stands in a long, and then as a size of sixty-four bits. */
  function AsSize(chunk: int): (r: nat)
    ensures r < WORD
    ensures 0 <= chunk < WORD / 2 ==> r == chunk
  {
    var long := if chunk >= WORD / 2 then WORD / 2 - 1 else if chunk < -(WORD / 2) then -(WORD / 2) else chunk;
    if long >= 0 then long else long + WORD
  }

  const WORD := 0x1_0000_0000_0000_0000

  /** The code's own test, wrap-around and all, refuses a chunk exactly where it runs past the end, or before the
      front. */
  lemma TestIsSound(read: nat, chunk: int, length: nat)
    requires read <= length < 0x7FFF_FFFF_FFFF_FFFF
    ensures (read + AsSize(chunk)) % 0x1_0000_0000_0000_0000 > length
            <==> if chunk < 0 then -chunk > read else read + chunk > length
  {
    var size := AsSize(chunk);
    if chunk >= 0 {
      assert read + size < WORD;
    } else if -chunk > read {
      assert WORD / 2 <= read + size < WORD;
    } else {
      assert read + size == WORD + (read + chunk);
      assert (WORD + (read + chunk)) % WORD == read + chunk;
    }
  }

  lemma NothingLeft(done: string)
    ensures Decode("") == Some("") && Before(done, Some("")) == Some(done) && Before(done, None) == None
  {
    assert done + "" == done;
  }

  /** The size line at `read`, and the position after it; -1 where there is no line. */
  method ReadLine(body: array<char>, read: nat, length: nat) returns (next: int, chunk: int)
    requires read < length <= body.Length
    ensures var (t, end) := (body[read..length], FindLineEnd(body[read..length]));
            if end.None? then next == -1
            else
              && read < next <= length && chunk == Strtol16(t)
              && body[next..length] == t[end.value + 2..]
  {
    hide Strtol16, FindLineEnd;
    var end := FindLineEnd(body[read..length]);
    if end.None? { return -1, 0; }
    return read + end.value + 2, Strtol16(body[read..length]);
  }

  /** memmove within the body, towards its front; `left` is what has not been read. */
  method Move(body: array<char>, to: nat, from: nat, count: nat, length: nat, ghost left: string)
    requires to <= from && from + count <= length <= body.Length && body[from..length] == left
    modifies body
    ensures body[..to + count] == old(body[..to]) + left[..count]
    ensures body[from + count..length] == left[count..]
    ensures forall k :: to + count <= k < body.Length ==> body[k] == old(body[k])
  {
    assert forall k :: from <= k < length ==> body[k] == left[k - from];
    forall i | 0 <= i < count { body[to + i] := body[from + i]; }
    assert forall k :: from + count <= k < length ==> body[k] == left[k - from];
  }

  method SkipEnd(body: array<char>, read: nat, length: nat) returns (next: nat)
    requires read <= length <= body.Length
    ensures read <= next <= length && body[next..length] == SkipLineEnd(body[read..length])
  {
    next := if read + 2 <= length && body[read] == '\r' && body[read + 1] == '\n' then read + 2 else read;
  }

  /** The test itself, in words that wrap. */
  method RunsPast(read: nat, chunk: int, length: nat) returns (yes: bool)
    requires read <= length < WORD / 2 - 1
    ensures yes <==> if chunk < 0 then -chunk > read else read + chunk > length
  {
    hide AsSize;
    TestIsSound(read, chunk, length);
    yes := (read + AsSize(chunk)) % WORD > length;
  }

  /** One chunk moved to the front, and the line end after it skipped. */
  method Take(body: array<char>, to: nat, from: nat, count: nat, length: nat, ghost left: string) returns (next: nat)
    requires to <= from && from + count <= length <= body.Length && body[from..length] == left
    modifies body
    ensures from + count <= next <= length
    ensures body[..to + count] == old(body[..to]) + left[..count]
    ensures body[next..length] == SkipLineEnd(left[count..])
    ensures forall k :: to + count <= k < body.Length ==> body[k] == old(body[k])
  {
    hide SkipLineEnd;
    Move(body, to, from, count, length, left);
    next := SkipEnd(body, from + count, length);
  }

  /** decode_chunked: the body is `length` bytes and room for a terminator. The write position never
      passes the read position, so nothing is overwritten before it is read. It is given up as undefined exactly
      where a minus size leads back into the body. */
  method DecodeChunked(body: array<char>, length: nat) returns (n: int, defined: bool)
    requires length < body.Length && length < WORD / 2 - 1
    modifies body
    ensures defined <==> SizesAreDefined(old(body[..length]), length)
    ensures var d := Decode(old(body[..length]));
            defined ==>
              if d.None? then n == -1
              else n == |d.value| <= length && body[..n] == d.value && body[n] == '\0'
    ensures n >= 0 ==> forall k :: n < k < body.Length ==> body[k] == old(body[k])
  {
    hide *;
    var read, write := 0, 0;
    ghost var left := body[..length];
    ghost var whole, sound := Decode(left), SizesAreDefined(left, length);
    NothingBefore(whole);
    assert body[..0] == "" && body[0..length] == left;
    while read < length
      invariant 0 <= write <= read <= length
      invariant forall k :: write <= k < body.Length ==> body[k] == old(body[k])
      invariant body[read..length] == left
      invariant SizesAreDefined(left, length) == sound
      invariant whole == Before(body[..write], Decode(left))
      decreases length - read
    {
      DecodeStep(left, length);
      DefinedStep(left, length);
      NothingLeft(body[..write]);
      var next, chunk := ReadLine(body, read, length);
      if next == -1 { return -1, true; }
      read, left := next, body[next..length];
      if chunk == 0 {
        assert whole == Some(body[..write]) && sound;
        break;
      }
      var past := RunsPast(read, chunk, length);
      if past { return -1, true; }
      if chunk < 0 { return -1, false; }
      BeforeTwice(body[..write], left[..chunk], Decode(SkipLineEnd(left[chunk..])));
      read := Take(body, write, read, chunk, length, left);
      write, left := write + chunk, SkipLineEnd(left[chunk..]);
    }
    NothingLeft(body[..write]);
    NothingIsDefined(length);
    assert read == length ==> left == "" || (whole == Some(body[..write]) && sound);
    body[write] := '\0';
    return write, true;
  }

  lemma BeforeTwice(a: string, b: string, r: Option<string>)
    ensures Before(a, Before(b, r)) == Before(a + b, r)
  {
    if r.Some? { assert a + (b + r.value) == a + b + r.value; }
  }

  // Well-formed bodies (section 7.1 of RFC 9112)

  /** A chunk as sent: its size in hexadecimal, extensions, data, and whether a line end follows the data,
      as it should. */
  datatype Chunk = Chunk(size: string, extension: string, data: string, ended: bool)

  predicate IsHex(s: string) {
    s != "" && forall i :: 0 <= i < |s| ==> HexValue(s[i]) >= 0
  }

  predicate IsExtension(s: string) {
    (s == "" || s[0] == ';' || s[0] == ' ' || s[0] == '\t') && '\r' !in s
  }

  predicate WellFormed(c: Chunk) {
    IsHex(c.size) && IsExtension(c.extension) && c.data != "" && HexRun(c.size, 0) == |c.data|
  }

  function Line(size: string, extension: string): string {
    size + extension + "\r\n"
  }

  function Sent(chunks: seq<Chunk>): string {
    if chunks == [] then ""
    else
      var c := chunks[0];
      Line(c.size, c.extension) + c.data + (if c.ended then "\r\n" else "") + Sent(chunks[1..])
  }

  function Data(chunks: seq<Chunk>): string {
    if chunks == [] then "" else chunks[0].data + Data(chunks[1..])
  }

  lemma {:induction false} HexRunStops(size: string, sum: nat, t: string)
    requires t == "" || HexValue(t[0]) < 0
    ensures HexRun(size + t, sum) == HexRun(size, sum) || !(forall i :: 0 <= i < |size| ==> HexValue(size[i]) >= 0)
  {
    hide HexValue;
    if size == "" {
      assert size + t == t;
    } else if HexValue(size[0]) >= 0 {
      assert (size + t)[1..] == size[1..] + t;
      HexRunStops(size[1..], sum * 16 + HexValue(size[0]), t);
    }
  }

  lemma HexIsPlain(c: char)
    requires HexValue(c) >= 0
    ensures !IsSpace(c) && c != '-' && c != '+' && c != 'x' && c != 'X' && c != '\r'
  {
  }

  /** A size line says its size. */
  lemma SizeIsRead(size: string, extension: string, t: string)
    requires IsHex(size) && IsExtension(extension)
    ensures Strtol16(Line(size, extension) + t) == HexRun(size, 0)
  {
    hide HexRun, HexValue, SkipSpace;
    var all := Line(size, extension) + t;
    var tail := extension + "\r\n" + t;
    assert all == size + tail;
    HexIsPlain(size[0]);
    if |size| > 1 { HexIsPlain(size[1]); }
    assert all[0] == size[0] && (|size| > 1 ==> all[1] == size[1]) && (|size| == 1 ==> all[1] == tail[0]);
    TailIsNoDigit(extension, t);
    HexRunStops(size, 0, tail);
    NoSpaceToSkip(all);
  }

  lemma NoSpaceToSkip(t: string)
    requires t != "" && !IsSpace(t[0])
    ensures SkipSpace(t) == t
  {
  }

  lemma TailIsNoDigit(extension: string, t: string)
    requires IsExtension(extension)
    ensures var tail := extension + "\r\n" + t;
            HexValue(tail[0]) < 0 && tail[0] != 'x' && tail[0] != 'X'
  {
    if extension == "" { assert extension + "\r\n" + t == "\r\n" + t; }
  }

  lemma {:induction false} LineEndIsFound(line: string, t: string)
    requires '\r' !in line
    ensures FindLineEnd(line + "\r\n" + t) == Some(|line|)
  {
    if line == "" {
      assert line + "\r\n" + t == "\r\n" + t;
    } else {
      LineEndIsFound(line[1..], t);
      assert (line + "\r\n" + t)[1..] == line[1..] + "\r\n" + t;
      assert line[0] in line;
    }
  }

  /** One size line taken off the front. */
  lemma {:induction false} LineIsRead(size: string, extension: string, t: string)
    requires IsHex(size) && IsExtension(extension)
    ensures var s := Line(size, extension) + t;
            && s != "" && FindLineEnd(s) == Some(|size| + |extension|) && s[|size| + |extension| + 2..] == t
            && Strtol16(s) == HexRun(size, 0)
  {
    hide HexRun, HexValue, FindLineEnd, Strtol16;
    SizeIsRead(size, extension, t);
    forall i | 0 <= i < |size| ensures size[i] != '\r' { HexIsPlain(size[i]); }
    LineEndIsFound(size + extension, t);
    assert size + extension + "\r\n" + t == Line(size, extension) + t;
  }

  /** What may follow a chunk whose data has no line end after it. */
  predicate NotALineEnd(t: string) {
    SkipLineEnd(t) == t
  }

  lemma LineIsNotALineEnd(size: string, extension: string, t: string)
    requires IsHex(size)
    ensures NotALineEnd(Line(size, extension) + t)
  {
    HexIsPlain(size[0]);
    assert (Line(size, extension) + t)[0] == size[0];
  }

  /** The data of well-formed chunks is what is decoded, in front of whatever is decoded after them; a
      missing line end after a chunk is put up with. */
  lemma {:induction false} ChunksAreDecoded(chunks: seq<Chunk>, t: string, total: nat)
    requires forall i :: 0 <= i < |chunks| ==> WellFormed(chunks[i])
    requires NotALineEnd(t)
    ensures Decode(Sent(chunks) + t) == Before(Data(chunks), Decode(t))
    ensures |Sent(chunks) + t| <= total && SizesAreDefined(t, total) ==> SizesAreDefined(Sent(chunks) + t, total)
    ensures NotALineEnd(Sent(chunks) + t)
  {
    hide HexRun, FindLineEnd, Strtol16, Decode, SizesAreDefined, NotALineEnd, Line;
    if chunks == [] {
      assert Sent(chunks) + t == t;
      NothingBefore(Decode(t));
    } else {
      var c := chunks[0];
      var rest := Sent(chunks[1..]) + t;
      var end := if c.ended then "\r\n" else "";
      ChunksAreDecoded(chunks[1..], t, total);
      FirstChunk(chunks, end, t);
      ChunkIsDecoded(c, end, rest, total);
      BeforeTwice(c.data, Data(chunks[1..]), Decode(t));
      LineIsNotALineEnd(c.size, c.extension, c.data + end + rest);
    }
  }

  lemma FirstChunk(chunks: seq<Chunk>, end: string, t: string)
    requires chunks != [] && end == (if chunks[0].ended then "\r\n" else "")
    ensures var c := chunks[0];
            Sent(chunks) + t == Line(c.size, c.extension) + (c.data + end + (Sent(chunks[1..]) + t))
  {
    hide Line;
  }

  lemma NothingBefore(r: Option<string>)
    ensures Before("", r) == r
  {
    if r.Some? { assert "" + r.value == r.value; }
  }

  lemma {:induction false} ChunkIsDecoded(c: Chunk, end: string, rest: string, total: nat)
    requires WellFormed(c) && NotALineEnd(rest) && end == (if c.ended then "\r\n" else "")
    ensures var s := Line(c.size, c.extension) + (c.data + end + rest);
            && Decode(s) == Before(c.data, Decode(rest))
            && (|s| <= total && SizesAreDefined(rest, total) ==> SizesAreDefined(s, total))
  {
    hide HexRun, FindLineEnd, Strtol16, HexValue;
    var after := c.data + end + rest;
    LineIsRead(c.size, c.extension, after);
    assert after[..|c.data|] == c.data && after[|c.data|..] == end + rest;
    if c.ended {
      assert SkipLineEnd(end + rest) == rest;
    } else {
      assert end + rest == rest;
    }
  }

  /** The size that leads back: one byte before the end of its own line. */
  lemma MinusOne()
    ensures !SizesAreDefined("-1\r\n", 4) && Strtol16("-1\r\n") == -1
  {
    hide HexRun;
    var t := "-1\r\n";
    assert t[1..] == "1\r\n" && t[1..][1..] == "\r\n";
    OneDigit();
    LineEndIsFound("-1", "");
    assert "-1" + "\r\n" + "" == t && t[4..] == "";
  }

  lemma OneDigit()
    ensures HexRun("1\r\n", 0) == 1
  {
    assert "1\r\n"[1..] == "\r\n";
    assert HexRun("\r\n", 1) == 1;
  }

  /** A well-formed body decodes to the concatenation of its chunks: with a last chunk, any trailer
      after it is ignored; without one, the end of the body will do. */
  lemma {:induction false} BodyIsDecoded(chunks: seq<Chunk>, zeros: string, extension: string, trailer: string)
    requires forall i :: 0 <= i < |chunks| ==> WellFormed(chunks[i])
    requires zeros != "" && (forall i :: 0 <= i < |zeros| ==> zeros[i] == '0') && IsExtension(extension)
    ensures var body := Sent(chunks) + (Line(zeros, extension) + trailer);
            Decode(body) == Some(Data(chunks)) && SizesAreDefined(body, |body|)
    ensures Decode(Sent(chunks)) == Some(Data(chunks)) && SizesAreDefined(Sent(chunks), |Sent(chunks)|)
  {
    hide HexRun, FindLineEnd, Strtol16, HexValue, IsExtension;
    var last := Line(zeros, extension) + trailer;
    ZerosAreHex(zeros, 0);
    LineIsRead(zeros, extension, trailer);
    LineIsNotALineEnd(zeros, extension, trailer);
    ChunksAreDecoded(chunks, last, |Sent(chunks) + last|);
    ChunksAreDecoded(chunks, "", |Sent(chunks)|);
    assert Sent(chunks) + "" == Sent(chunks);
    assert Data(chunks) + "" == Data(chunks);
  }

  lemma {:induction false} ZerosAreHex(zeros: string, from: nat)
    requires from <= |zeros| && forall i :: 0 <= i < |zeros| ==> zeros[i] == '0'
    ensures zeros != "" ==> IsHex(zeros)
    ensures HexRun(zeros[from..], 0) == 0
    decreases |zeros| - from
  {
    if from < |zeros| {
      ZerosAreHex(zeros, from + 1);
      assert zeros[from..][1..] == zeros[from + 1..];
    }
    assert zeros[0..] == zeros;
  }
}
