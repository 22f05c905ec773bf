/** From the table an engine prints to the bytes an application reads: sent, parsed, decoded, fetched and read in
    pieces (src/proto.c, src/util.c, src/results.c). */
module Delivery {
  import opened Text
  import opened Json
  import opened Responses
  import opened ResultSets
  import opened Cursors
  import R = Retrieval
  import L = Literals

  // Names of types

  /** Nothing, or a length or a precision in parentheses. */
  predicate IsLength(s: string) {
    s == "" || (|s| >= 2 && s[0] == '(' && s[|s| - 1] == ')'
                && forall i :: 1 <= i < |s| - 1 ==> IsDigit(s[i]) || s[i] == ',' || s[i] == ' ')
  }

  /** That name, in any letter case, with a length or not. */
  predicate IsNamed(t: string, name: string) {
    |t| >= |name| && Upper(t[..|name|]) == name && IsLength(t[|name|..])
  }

  lemma LettersOf(t: string, name: string, c: char)
    requires IsNamed(t, name) && c !in name && 'A' <= c <= 'Z'
    ensures c !in Upper(t)
  {
    forall i | 0 <= i < |t| ensures Upper(t)[i] != c {
      if i < |name| {
        assert Upper(t[..|name|])[i] == name[i] == Upper(t)[i];
      } else {
        assert t[|name|..][i - |name|] == t[i];
      }
    }
  }

  lemma Lacks(t: string, w: string, c: char)
    requires c in w && c !in Upper(t)
    ensures !Has(t, w)
  {
    forall i: nat | i <= |t| ensures !OccursAt(t, w, i) { PartIsWithin(Upper(t), w, i, c); }
  }

  lemma PartIsWithin(s: string, w: string, i: nat, c: char)
    ensures c in w && i + |w| <= |s| && s[i..i + |w|] == w ==> c in s
  {
  }

  lemma StartsWith(t: string, name: string, w: string, i: nat)
    requires IsNamed(t, name) && i + |w| <= |name| && name[i..i + |w|] == w
    ensures Has(t, w)
  {
    assert Upper(t)[i..i + |w|] == Upper(t[..|name|])[i..i + |w|];
    assert OccursAt(t, w, i);
  }

  /** A name without the letter B is neither a boolean's nor a binary's: texts, numbers, dates and times. */
  lemma {:induction false} OtherNames(t: string)
    requires 'B' !in Upper(t)
    ensures !IsBooleanType(t) && !IsBinaryType(t)
  {
    hide Has;
    Lacks(t, "BOOLEAN", 'B');
    Lacks(t, "BINARY", 'B');
    Lacks(t, "BYTES", 'B');
    assert 'B' in "BOOL";
  }

  lemma {:induction false} BooleanNames(t: string)
    requires Upper(t) == "BOOLEAN" || Upper(t) == "BOOL"
    ensures IsBooleanType(t)
  {
    hide Has;
    assert 'T' !in Upper(t) && 'M' !in Upper(t) && 'D' !in Upper(t) && 'R' !in Upper(t) && 'F' !in Upper(t);
    assert 'I' !in Upper(t) && 'U' !in Upper(t);
    Lacks(t, "TIMESTAMP", 'T');
    Lacks(t, "DATETIME", 'T');
    Lacks(t, "DATE", 'T');
    Lacks(t, "TIME", 'T');
    Lacks(t, "INT", 'T');
    Lacks(t, "DECIMAL", 'D');
    Lacks(t, "NUMBER", 'M');
    Lacks(t, "NUMERIC", 'M');
    Lacks(t, "DOUBLE", 'D');
    Lacks(t, "REAL", 'R');
    Lacks(t, "FLOAT", 'T');
    if Upper(t) == "BOOLEAN" { WholeName(t, "BOOLEAN"); }
  }

  lemma WholeName(t: string, w: string)
    requires Upper(t) == w
    ensures Has(t, w)
  {
    assert Upper(t)[0..0 + |w|] == w;
    assert OccursAt(t, w, 0);
  }

  lemma NoneButBinary(t: string)
    requires 'T' !in Upper(t) && 'M' !in Upper(t) && 'D' !in Upper(t) && 'L' !in Upper(t) && 'O' !in Upper(t)
    ensures !IsNumberOrTime(t) && !IsBooleanType(t)
  {
    hide Has;
    Lacks(t, "TIMESTAMP", 'T');
    Lacks(t, "DATETIME", 'T');
    Lacks(t, "DATE", 'T');
    Lacks(t, "TIME", 'T');
    Lacks(t, "INT", 'T');
    Lacks(t, "DECIMAL", 'D');
    Lacks(t, "NUMBER", 'M');
    Lacks(t, "NUMERIC", 'M');
    Lacks(t, "DOUBLE", 'D');
    Lacks(t, "REAL", 'L');
    Lacks(t, "FLOAT", 'T');
    Lacks(t, "BOOLEAN", 'O');
    assert 'O' in "BOOL";
  }

  lemma NoneButBytes(t: string)
    requires 'I' !in Upper(t) && 'M' !in Upper(t) && 'D' !in Upper(t) && 'L' !in Upper(t) && 'O' !in Upper(t)
    ensures !IsNumberOrTime(t) && !IsBooleanType(t)
  {
    hide Has;
    Lacks(t, "TIMESTAMP", 'I');
    Lacks(t, "DATETIME", 'I');
    Lacks(t, "DATE", 'D');
    Lacks(t, "TIME", 'I');
    Lacks(t, "INT", 'I');
    Lacks(t, "DECIMAL", 'D');
    Lacks(t, "NUMBER", 'M');
    Lacks(t, "NUMERIC", 'M');
    Lacks(t, "DOUBLE", 'D');
    Lacks(t, "REAL", 'L');
    Lacks(t, "FLOAT", 'L');
    Lacks(t, "BOOLEAN", 'O');
    assert 'O' in "BOOL";
  }

  predicate IsBinaryName(t: string) {
    IsNamed(t, "BINARY") || IsNamed(t, "VARBINARY") || IsNamed(t, "BYTES")
  }

  lemma NamesHold()
    ensures |"BINARY"| == 6 && "BINARY"[0..6] == "BINARY"
    ensures |"VARBINARY"| == 9 && "VARBINARY"[3..9] == "BINARY"
    ensures |"BYTES"| == 5 && "BYTES"[0..5] == "BYTES"
  {
  }

  lemma BinaryName(t: string, name: string)
    requires (name == "BINARY" || name == "VARBINARY") && IsNamed(t, name)
    ensures Has(t, "BINARY")
  {
    hide Has, IsNamed;
    NamesHold();
    if name == "BINARY" { StartsWith(t, "BINARY", "BINARY", 0); } else { StartsWith(t, "VARBINARY", "BINARY", 3); }
  }

  /** BINARY, VARBINARY and BYTES, in any letter case and with any length. */
  lemma {:induction false} BinaryNames(t: string)
    requires IsBinaryName(t)
    ensures IsBinaryType(t)
  {
    hide Has, IsNamed, IsNumberOrTime, IsBooleanType;
    var name := if IsNamed(t, "BINARY") then "BINARY" else if IsNamed(t, "VARBINARY") then "VARBINARY" else "BYTES";
    LettersOf(t, name, 'M');
    LettersOf(t, name, 'D');
    LettersOf(t, name, 'L');
    LettersOf(t, name, 'O');
    if name == "BYTES" {
      LettersOf(t, name, 'I');
      NoneButBytes(t);
      NamesHold();
      StartsWith(t, "BYTES", "BYTES", 0);
    } else {
      LettersOf(t, name, 'T');
      NoneButBinary(t);
      BinaryName(t, name);
    }
  }

  // Reading

  /** What calls on one column are answered, in order. */
  function Replies(c: Cursor, column: nat, target: Target, lengths: seq<int>): (r: seq<Reply>)
    requires c.Valid()
    ensures |r| == |lengths|
  {
    if lengths == [] then []
    else
      var n := |lengths| - 1;
      Replies(c, column, target, lengths[..n])
      + [Step(Run(c, Readings(column, target, lengths[..n])), GetData(column, target, lengths[n], true)).1]
  }

  /** The bytes the application has in the end. */
  function Pieces(replies: seq<Reply>): string {
    if replies == [] then ""
    else
      var n := |replies| - 1;
      Pieces(replies[..n])
      + if replies[n].Piece? && replies[n].answer.Chunk? then replies[n].answer.text else ""
  }

  lemma {:induction false} ReplyIsRead(
      c: Cursor, column: nat, target: Target, data: string, front: seq<int>, last: int)
    requires OnText(c, column, target, data) && c.column != column
    ensures Step(Run(c, Readings(column, target, front)), GetData(column, target, last, true)).1
            == Piece(R.Read(KindOf(target), data, R.OffsetAfter(KindOf(target), data, front), last).0)
  {
    hide R.Read, Step, Run, KindOf, R.Reads, R.OffsetAfter;
    ReadsAreChunks(c, column, target, data, front, last);
    assert (front + [last])[..|front|] == front;
    R.LastRead(KindOf(target), data, front + [last]);
  }

  lemma {:induction false} RepliesAreReads(
      c: Cursor, column: nat, target: Target, data: string, lengths: seq<int>)
    requires OnText(c, column, target, data) && c.column != column
    ensures Pieces(Replies(c, column, target, lengths)) == R.Delivered(R.Reads(KindOf(target), data, lengths))
  {
    assert c.Valid();
    hide R.Read, Step, OnText, Run, KindOf, R.Reads, R.Delivered, R.OffsetAfter, Pieces, Replies, Readings;
    if lengths == [] {
      NothingYet(c, column, target, data);
    } else {
      var front := lengths[..|lengths| - 1];
      var last := lengths[|lengths| - 1];
      RepliesAreReads(c, column, target, data, front);
      ReplyIsRead(c, column, target, data, front, last);
      LastReply(c, column, target, lengths);
      R.LastRead(KindOf(target), data, lengths);
      var a := R.Read(KindOf(target), data, R.OffsetAfter(KindOf(target), data, front), last).0;
      R.FinishedAfter(R.Reads(KindOf(target), data, front), a);
      LastPiece(Replies(c, column, target, front), Piece(a));
    }
  }

  lemma LastReply(c: Cursor, column: nat, target: Target, lengths: seq<int>)
    requires c.Valid() && lengths != []
    ensures var n := |lengths| - 1;
            Replies(c, column, target, lengths)
            == Replies(c, column, target, lengths[..n])
               + [Step(Run(c, Readings(column, target, lengths[..n])), GetData(column, target, lengths[n], true)).1]
  {
    hide Step, Run;
  }

  lemma NothingYet(c: Cursor, column: nat, target: Target, data: string)
    requires c.Valid()
    ensures Pieces(Replies(c, column, target, [])) == R.Delivered(R.Reads(KindOf(target), data, []))
  {
  }

  lemma LastPiece(replies: seq<Reply>, last: Reply)
    ensures Pieces(replies + [last])
            == Pieces(replies) + if last.Piece? && last.answer.Chunk? then last.answer.text else ""
  {
    assert (replies + [last])[..|replies|] == replies;
  }

  /** Enough buffers with room for a byte, whatever is mixed in, and the application has all of it. */
  lemma {:induction false} CellIsDelivered(c: Cursor, column: nat, target: Target, data: string, lengths: seq<int>)
    requires OnText(c, column, target, data) && c.column != column
    requires R.Useful(KindOf(target), lengths) > |data|
    ensures Pieces(Replies(c, column, target, lengths)) == data
  {
    hide R.Reads, OnText, Replies, Pieces;
    RepliesAreReads(c, column, target, data, lengths);
    R.ReadingFinishes(KindOf(target), data, lengths);
  }

  // Getting to a cell

  function Repeat(op: Op, n: nat): (r: seq<Op>)
    ensures |r| == n && forall i :: 0 <= i < n ==> r[i] == op
  {
    seq(n, i requires 0 <= i < n => op)
  }

  /** To the k-th set and its r-th row. */
  function WayTo(k: nat, r: nat): seq<Op> {
    Repeat(MoreResults, k) + Repeat(Fetch, r + 1)
  }

  lemma {:induction false} MovesCounted(sets: nat, k: nat)
    requires k < sets
    ensures Counted(sets, Repeat(MoreResults, k)) == (k, 0)
  {
    if k > 0 {
      MovesCounted(sets, k - 1);
      assert Repeat(MoreResults, k)[..k - 1] == Repeat(MoreResults, k - 1);
    }
  }

  lemma {:induction false} FetchesCounted(sets: nat, before: seq<Op>, n: nat)
    requires sets > 0
    ensures var (s, f) := Counted(sets, before); Counted(sets, before + Repeat(Fetch, n)) == (s, f + n)
  {
    var ops := before + Repeat(Fetch, n);
    if n == 0 {
      assert ops == before;
    } else {
      FetchesCounted(sets, before, n - 1);
      assert ops[..|ops| - 1] == before + Repeat(Fetch, n - 1);
    }
  }

  lemma FreshAfterFetch(c: Cursor)
    requires c.Valid() && Step(c, Fetch).1 == Fetched
    ensures Step(c, Fetch).0.column == -1
  {
  }

  lemma {:induction false} WayLeads(sets: seq<ResultSet>, k: nat, r: nat)
    requires forall i :: 0 <= i < |sets| ==> sets[i].Rectangular()
    requires k < |sets| && r < |sets[k].rows|
    ensures var c := Run(Opened(sets, 0), WayTo(k, r)); c.current == k && c.row == r && c.column == -1
  {
    hide Step, Run;
    var (moves, fetches, ops) := (Repeat(MoreResults, k), Repeat(Fetch, r + 1), WayTo(k, r));
    MovesCounted(|sets|, k);
    FetchesCounted(|sets|, moves, r + 1);
    PlaceIsCounted(sets, 0, ops);
    FetchesCounted(|sets|, moves, r);
    var before := moves + Repeat(Fetch, r);
    assert ops[..|ops| - 1] == before && ops[|ops| - 1] == Fetch;
    NextCall(sets, 0, before, Fetch);
    RunStep(Opened(sets, 0), ops);
    FreshAfterFetch(Run(Opened(sets, 0), before));
  }

  lemma RunStep(c: Cursor, ops: seq<Op>)
    requires c.Valid() && ops != []
    ensures Run(c, ops) == Step(Run(c, ops[..|ops| - 1]), ops[|ops| - 1]).0
  {
    hide Step;
  }

  // End to end

  /** What the driver makes of a reply with those tables. */
  function Received(session: Option<string>, newSession: Option<bool>, ts: seq<Table>): (r: seq<ResultSet>)
    ensures forall i :: 0 <= i < |r| ==> r[i].Rectangular()
  {
    var root := Parse(CString(Print(ReplyTree(session, newSession, Some(Array(TableTrees(ts))), ""))));
    if root.None? then [] else SetsOf(root.value)
  }

  predicate IsCell(ts: seq<Table>, k: nat, r: nat, col: nat) {
    k < |ts| && IsTable(ts[k]) && r < |ts[k].rows| && col < |ts[k].columns|
  }

  /** The bytes of a column declared BINARY, VARBINARY or BYTES, printed as hexadecimal, are what the application
      reads as bytes, in whatever pieces. */
  lemma {:induction false} DeclaredBinaryIsDelivered(
      session: Option<string>, newSession: Option<bool>, ts: seq<Table>, k: nat, r: nat, col: nat,
      bytes: seq<L.Byte>, lengths: seq<int>)
    requires session.Some? ==> NulFree(session.value)
    requires (forall i :: 0 <= i < |ts| ==> IsTable(ts[i])) && IsCell(ts, k, r, col)
    requires IsBinaryName(ts[k].columns[col].dataType) && ts[k].rows[r][col] == String(L.Hex(bytes))
    requires R.Useful(R.Raw, lengths) > |bytes|
    ensures var c := Run(Opened(Received(session, newSession, ts), 0), WayTo(k, r));
            Pieces(Replies(c, col + 1, AsBytes, lengths)) == R.AsText(bytes)
  {
    hide Parse, Print, ReplyTree, TableTrees, SetsOf, IsTable, Pieces, Replies, WayTo, R.Useful;
    hide IsBinaryName, IsBinaryType;
    SetsOverTheWire(session, newSession, ts);
    BinaryNames(ts[k].columns[col].dataType);
    var sets := Received(session, newSession, ts);
    TableCell(sets[k], ts[k], r, col);
    WayLeads(sets, k, r);
    R.BinaryRoundTrip(bytes);
    CellIsDelivered(Run(Opened(sets, 0), WayTo(k, r)), col + 1, AsBytes, R.AsText(bytes), lengths);
  }

  lemma TableCell(s: ResultSet, t: Table, r: nat, col: nat)
    requires ResultSets.Holds(s, t) && r < |t.rows| && col < |t.columns| && IsTable(t)
    ensures r < |s.rows| && col < |s.binary| && col < |s.rows[r]| && col < |t.rows[r]|
    ensures s.binary[col] <==> IsBinaryType(t.columns[col].dataType)
    ensures s.rows[r][col] == Spelling(t.rows[r][col], t.columns[col].dataType)
  {
    hide Spelling, IsBinaryType;
  }

  /** Read as characters, a boolean of a column declared BOOLEAN or BOOL is 1 or 0; of a column whose declared name
      has no B, a VARCHAR's say, true or false. */
  lemma {:induction false} BooleanIsDelivered(
      session: Option<string>, newSession: Option<bool>, ts: seq<Table>, k: nat, r: nat, col: nat, on: bool,
      lengths: seq<int>)
    requires session.Some? ==> NulFree(session.value)
    requires (forall i :: 0 <= i < |ts| ==> IsTable(ts[i])) && IsCell(ts, k, r, col)
    requires ts[k].rows[r][col] == Bool(on) && R.Useful(R.Chars, lengths) > 5
    ensures var c := Run(Opened(Received(session, newSession, ts), 0), WayTo(k, r));
            var name := Upper(ts[k].columns[col].dataType);
            var pieces := Pieces(Replies(c, col + 1, AsChars, lengths));
            && (name == "BOOLEAN" || name == "BOOL" ==> pieces == if on then "1" else "0")
            && ('B' !in name ==> pieces == if on then "true" else "false")
  {
    hide Parse, Print, ReplyTree, TableTrees, SetsOf, IsTable, Pieces, Replies, WayTo, R.Useful;
    hide IsBooleanType, IsBinaryType;
    SetsOverTheWire(session, newSession, ts);
    var dataType := ts[k].columns[col].dataType;
    var sets := Received(session, newSession, ts);
    TableCell(sets[k], ts[k], r, col);
    WayLeads(sets, k, r);
    if 'B' !in Upper(dataType) { OtherNames(dataType); }
    if Upper(dataType) == "BOOLEAN" || Upper(dataType) == "BOOL" { BooleanNames(dataType); }
    var text := Spelling(Bool(on), dataType).text;
    CellIsDelivered(Run(Opened(sets, 0), WayTo(k, r)), col + 1, AsChars, text, lengths);
  }

  /** Read as characters, a text or a number of any column is itself. */
  lemma {:induction false} TextIsDelivered(
      session: Option<string>, newSession: Option<bool>, ts: seq<Table>, k: nat, r: nat, col: nat, text: string,
      lengths: seq<int>)
    requires session.Some? ==> NulFree(session.value)
    requires (forall i :: 0 <= i < |ts| ==> IsTable(ts[i])) && IsCell(ts, k, r, col)
    requires ts[k].rows[r][col] == String(text) || ts[k].rows[r][col] == Number(text)
    requires R.Useful(R.Chars, lengths) > |text|
    ensures var c := Run(Opened(Received(session, newSession, ts), 0), WayTo(k, r));
            Pieces(Replies(c, col + 1, AsChars, lengths)) == text
  {
    hide Parse, Print, ReplyTree, TableTrees, SetsOf, IsTable, Pieces, Replies, WayTo, R.Useful;
    hide IsBooleanType, IsBinaryType;
    SetsOverTheWire(session, newSession, ts);
    var sets := Received(session, newSession, ts);
    TableCell(sets[k], ts[k], r, col);
    WayLeads(sets, k, r);
    CellIsDelivered(Run(Opened(sets, 0), WayTo(k, r)), col + 1, AsChars, text, lengths);
  }
}
