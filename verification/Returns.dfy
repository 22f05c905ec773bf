/** What the calls on a result set return, and the row count (src/results.c, src/execute.c, src/util.c). */
module Returns {
  import opened Text
  import opened Json
  import opened Cursors
  import R = Retrieval

  // Codes

  /** After any calls at all: a fetch succeeds while there is a row left within the limit, then says there is no more
      data; the sets are moved through to the last, and then there is no more data. */
  lemma {:induction false} MovingReturns(sets: seq<ResultSet>, maxRows: nat, ops: seq<Op>)
    requires forall i :: 0 <= i < |sets| ==> sets[i].Rectangular()
    ensures var (s, f) := Counted(|sets|, ops);
            var c := Run(Opened(sets, maxRows), ops);
            && ReturnOf(Step(c, Fetch).1)
               == (if sets == [] then Error("24000")
                   else if f < |sets[s].rows| && (maxRows == 0 || f < maxRows) then Success
                   else NoData)
            && ReturnOf(Step(c, MoreResults).1) == if s + 1 < |sets| then Success else NoData
  {
    hide Run, Counted;
    PlaceIsCounted(sets, maxRows, ops);
  }

  /** After any calls at all, reading a cell: an error off the rows and off the columns; a null cell needs an
      indicator, and is told by it. */
  lemma {:induction false} ReadingReturns(sets: seq<ResultSet>, maxRows: nat, ops: seq<Op>, op: Op)
    requires forall i :: 0 <= i < |sets| ==> sets[i].Rectangular()
    requires op.GetData?
    ensures var (s, f) := Counted(|sets|, ops);
            var r := ReturnOf(Step(Run(Opened(sets, maxRows), ops), op).1);
            if sets == [] || f == 0 || f > |sets[s].rows| || (maxRows > 0 && f > maxRows) then r == Error("24000")
            else if op.column == 0 || op.column > |sets[s].binary| then r == Error("07009")
            else if sets[s].rows[f - 1][op.column - 1].Null? then
              r == if op.indicator then Success else Error("22002")
            else r in {Success, SuccessWithInfo, NoData, Error("22018")}
  {
    hide Run, Counted, R.Read, R.Spoilt, R.Decoded;
    PlaceIsCounted(sets, maxRows, ops);
  }

  /** Reading on through a cell: once all of it has been delivered there is no more data; a buffer that what is left
      fits into gets it and success, a smaller one is told that there is more, and a probe succeeds. */
  lemma {:induction false} PieceReturns(
      c: Cursor, column: nat, target: Target, data: string, lengths: seq<int>, length: int)
    requires OnText(c, column, target, data) && c.column != column
    ensures var before := R.Reads(KindOf(target), data, lengths);
            var left := |data| - |R.Delivered(before)|;
            var room := if target.AsChars? then length - 1 else length;
            ReturnOf(Step(Run(c, Readings(column, target, lengths)), GetData(column, target, length, true)).1)
            == if R.Finished(before) then NoData
               else if length > 0 && left > room then SuccessWithInfo
               else Success
  {
    hide R.Read, R.Finished, R.Reads, R.Delivered, Step, Run, OnText;
    ReadsAreChunks(c, column, target, data, lengths, length);
    R.NextCall(KindOf(target), data, lengths, length);
    PieceFits(KindOf(target), data, lengths, length);
  }

  /** A piece stops short exactly where what is left does not fit. */
  lemma {:induction false} PieceFits(kind: R.Kind, data: string, lengths: seq<int>, length: int)
    ensures var before := R.Reads(kind, data, lengths);
            var r := R.Reads(kind, data, lengths + [length])[|lengths|];
            var room := if kind.Chars? then length - 1 else length;
            !R.Finished(before) && length > 0 ==>
              r.Chunk? && (r.truncated <==> |data| - |R.Delivered(before)| > room)
  {
    hide R.BackUp, R.Finished, R.Delivered;
    R.OffsetTells(kind, data, lengths);
    R.NextCall(kind, data, lengths, length);
    assert (lengths + [length])[..|lengths|] == lengths;
  }

  /** A binary cell that is not spelt in hexadecimal is refused at the first byte the buffer has room for. */
  lemma {:induction false} BadHexReturns(c: Cursor, op: Op)
    requires c.Valid() && c.sets != [] && 0 <= c.row < |c.sets[c.current].rows|
    requires op.GetData? && op.target.AsBytes? && 1 <= op.column <= |c.sets[c.current].binary|
    requires c.sets[c.current].binary[op.column - 1] && c.sets[c.current].rows[c.row][op.column - 1].Value?
    ensures var text := c.sets[c.current].rows[c.row][op.column - 1].text;
            var from := if c.column == op.column then c.offset else 0;
            ReturnOf(Step(c, op).1) == Error("22018")
            <==> exists i :: 0 <= i < |text| / 2 && from <= i < from + op.length && !IsPair(text, i)
  {
    hide R.Read, R.Decoded, R.Spoilt, IsPair;
    var text := c.sets[c.current].rows[c.row][op.column - 1].text;
    var from := if c.column == op.column then c.offset else 0;
    SpoiltIs(text, from, op.length);
    assert Step(c, op).1 == NotHex <==> R.Spoilt(text, from, op.length);
  }

  lemma SpoiltIs(text: string, from: nat, length: int)
    ensures R.Spoilt(text, from, length)
            <==> exists i :: 0 <= i < |text| / 2 && from <= i < from + length && !IsPair(text, i)
  {
    forall i | 0 <= i < |text| / 2 ensures IsPair(text, i) <==> R.PairAt(text, i) { PairIs(text, i); }
  }

  lemma PairIs(text: string, i: nat)
    requires i < |text| / 2
    ensures IsPair(text, i) <==> R.PairAt(text, i)
  {
    HexDigits(text[2 * i]);
    HexDigits(text[2 * i + 1]);
  }

  lemma HexDigits(c: char)
    ensures c in "0123456789abcdefABCDEF" <==> HexValue(c) >= 0
  {
  }

  /** The two characters for a byte are hexadecimal digits. */
  predicate IsPair(text: string, i: int)
    requires 0 <= i < |text| / 2
  {
    text[2 * i] in "0123456789abcdefABCDEF" && text[2 * i + 1] in "0123456789abcdefABCDEF"
  }

  /** Where there is a piece, the caller's buffer begins with it, a NUL behind it where it was read as characters, and
      is otherwise as it was; the indicator says what was left. A null is told by the indicator; whatever is refused
      without looking at the cell leaves the buffer alone. */
  lemma WhatIsShown(reply: Reply, indicator: Option<int>, buffer: string, was: string, target: Target)
    requires Shown(reply, indicator, buffer, was, target)
    ensures match reply
            case Piece(Chunk(text, remaining, _)) =>
              var n := |text| + if target.AsChars? then 1 else 0;
              && |buffer| == |was| && indicator == Some(remaining) && n <= |buffer|
              && buffer[..|text|] == text && buffer[n..] == was[n..]
              && (target.AsChars? ==> buffer[|text|] == '\0')
            case Piece(Probe(remaining)) => indicator == Some(remaining) && buffer == was
            case NullData => indicator == Some(-1) && buffer == was
            case NotHex => true
            case _ => indicator == None && buffer == was
  {
  }

  // Bound columns

  lemma {:induction false} WorstIs(codes: seq<Return>)
    requires forall k :: 0 <= k < |codes| - 1 ==> IsFine(codes[k])
    ensures Worst(codes) ==
              if codes != [] && !IsFine(codes[|codes| - 1]) then codes[|codes| - 1]
              else if SuccessWithInfo in codes then SuccessWithInfo
              else Success
  {
    if codes != [] {
      assert forall k :: 0 <= k < |codes[1..]| - 1 ==> codes[1..][k] == codes[k + 1];
      WorstIs(codes[1..]);
      assert codes == [codes[0]] + codes[1..];
    }
  }

  /** What a fetch with bound columns returns: the error of the first column that fails, with none behind it delivered;
      else success, with information if any column has it. */
  lemma {:induction false} FetchTells(
      s: ResultSet, row: nat, bound: seq<Option<Bound>>, r: Return, indicators: seq<Option<int>>)
    requires s.Rectangular() && row < |s.rows| && DeliveredOf(s, row, bound, r, indicators)
    ensures var n := |indicators|;
            var codes := seq(n, i requires 0 <= i < n <= |bound| && n <= |s.binary| =>
                               if bound[i].Some? then ReturnOf(BoundReply(s, row, bound[i].value, i)) else Success);
            && n <= |bound| && n <= |s.binary|
            && (forall k :: 0 <= k < n - 1 ==> codes[k] in {Success, SuccessWithInfo})
            && (n < |bound| && n < |s.binary| ==> n > 0 && codes[n - 1] !in {Success, SuccessWithInfo})
            && r == if n > 0 && codes[n - 1] !in {Success, SuccessWithInfo} then codes[n - 1]
                    else if SuccessWithInfo in codes then SuccessWithInfo
                    else Success
  {
    hide BoundReply, ReturnOf, Worst;
    var n := |indicators|;
    var codes := BoundCodes(s, row, bound, n);
    CodesAre(s, row, bound, n);
    WorstIs(codes);
    assert codes == seq(n, i requires 0 <= i < n <= |bound| && n <= |s.binary| =>
                          if bound[i].Some? then ReturnOf(BoundReply(s, row, bound[i].value, i)) else Success);
  }

  /** A bound column is delivered what the first SQLGetData of it on that row would be. */
  lemma BoundIsFirstRead(c: Cursor, b: Bound, i: nat)
    requires c.Valid() && c.sets != [] && 0 <= c.row < |c.sets[c.current].rows|
    requires i < |c.sets[c.current].binary| && c.column != i + 1
    ensures BoundReply(c.sets[c.current], c.row, b, i) == Step(c, GetData(i + 1, b.target, b.length, b.indicator)).1
  {
    hide R.Read, R.Decoded, R.Spoilt;
  }

  lemma {:induction false} CodesAre(s: ResultSet, row: nat, bound: seq<Option<Bound>>, n: nat)
    requires s.Rectangular() && row < |s.rows| && n <= |s.binary| && n <= |bound|
    ensures forall i :: 0 <= i < n ==>
              BoundCodes(s, row, bound, n)[i]
              == if bound[i].Some? then ReturnOf(BoundReply(s, row, bound[i].value, i)) else Success
  {
    hide BoundReply, ReturnOf;
    if n > 0 { CodesAre(s, row, bound, n - 1); }
  }

  // Row counts

  /** A column whose name begins with the words, in any letter case, and whose cell is not null. */
  predicate Counts(name: string, cell: Cell) {
    "NUMBER OF ROWS" <= Upper(name) && cell.Value?
  }

  function Total(names: seq<string>, cells: seq<Cell>): int
    requires |names| == |cells|
  {
    if names == [] then 0
    else (if Counts(names[0], cells[0]) then Strtoll10(cells[0].text) else 0) + Total(names[1..], cells[1..])
  }

  lemma {:induction false} TotalLast(names: seq<string>, cells: seq<Cell>)
    requires |names| == |cells| && names != []
    ensures var n := |names| - 1;
            Total(names, cells)
            == Total(names[..n], cells[..n]) + if Counts(names[n], cells[n]) then Strtoll10(cells[n].text) else 0
  {
    hide Counts, Strtoll10;
    var n := |names| - 1;
    if n > 0 {
      TotalLast(names[1..], cells[1..]);
      assert names[1..][..n - 1] == names[..n][1..] && cells[1..][..n - 1] == cells[..n][1..];
    }
  }

  lemma ReportCounts(name: string, cell: Cell)
    ensures IsReport(name) && cell.Value? <==> Counts(name, cell)
  {
    if |name| >= 14 { assert Upper(name[..14]) == Upper(name)[..14]; }
  }

  lemma {:induction false} ReportedIsTotal(names: seq<string>, cells: seq<Cell>)
    requires |names| == |cells|
    ensures var any := exists i :: 0 <= i < |names| && Counts(names[i], cells[i]);
            Reported(names, cells) == if any then Some(Total(names, cells)) else None
    ensures Reported(names, cells).None? ==> Total(names, cells) == 0
  {
    hide Counts, Strtoll10, IsReport;
    if names != [] {
      var n := |names| - 1;
      ReportedIsTotal(names[..n], cells[..n]);
      TotalLast(names, cells);
      ReportCounts(names[n], cells[n]);
    }
  }

  /** The row count is the sum of what the reporting columns of the first row say, unless there is none or the sum is
      below zero: then it is the rows there are. */
  lemma {:induction false} RowCountIs(s: ResultSet)
    requires s.Rectangular()
    ensures var reported := s.rows != [] && exists i :: 0 <= i < |s.names| && Counts(s.names[i], s.rows[0][i]);
            RowCount(s) == if reported && Total(s.names, s.rows[0]) >= 0 then Total(s.names, s.rows[0]) else |s.rows|
  {
    hide Counts, Reported, Total;
    if s.rows != [] { ReportedIsTotal(s.names, s.rows[0]); }
  }
}
