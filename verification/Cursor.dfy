/** A statement's cursor: fetching rows, reading their cells, and moving between result sets
    (src/results.c, src/execute.c). */
module Cursors {
  import opened Text
  import R = Retrieval
  import C = ChunkedBody
  import D = Decimal

  datatype Cell = Null | Value(text: string)

  /** The columns' names, which of them are declared BINARY, and the rows. */
  datatype ResultSet = ResultSet(names: seq<string>, binary: seq<bool>, rows: seq<seq<Cell>>) {
    predicate Rectangular() {
      |names| == |binary| && forall i :: 0 <= i < |rows| ==> |rows[i]| == |binary|
    }
  }

  /** The C types a cell is read as here. */
  datatype Target = AsChars | AsBytes

  datatype Op =
    | Fetch
    | GetData(column: nat, target: Target, length: int, indicator: bool)
    | MoreResults

  datatype Reply =
    | Fetched | NoRow | Moved | NoMoreSets
    | NoSet | NotOnRow | NoSuchColumn | NoIndicator | NotHex
    | NullData
    | Piece(answer: R.Answer)

  datatype Cursor = Cursor(sets: seq<ResultSet>, maxRows: nat, current: nat, row: int, column: int, offset: nat) {
    ghost predicate Valid() {
      && (forall i :: 0 <= i < |sets| ==> sets[i].Rectangular())
      && -1 <= row
      && (sets == [] ==> current == 0 && row == -1)
      && (sets != [] ==> current < |sets| && row <= |sets[current].rows|)
    }
  }

  function Opened(sets: seq<ResultSet>, maxRows: nat): Cursor {
    Cursor(sets, maxRows, 0, -1, -1, 0)
  }

  /** How many rows of the set the application is given. */
  function Limit(rows: nat, maxRows: nat): (r: nat)
    ensures r <= rows
  {
    if maxRows > 0 && rows > maxRows then maxRows else rows
  }

  /** The cell as convert_cell delivers it, and the offset it leaves. */
  function ReadCell(cell: Cell, binary: bool, op: Op, offset: nat): (Reply, nat)
    requires op.GetData?
  {
    if cell.Null? then (if op.indicator then NullData else NoIndicator, offset)
    else if op.target.AsChars? then
      var (a, o) := R.Read(R.Chars, cell.text, offset, op.length);
      (Piece(a), o)
    else if !binary then
      var (a, o) := R.Read(R.Raw, cell.text, offset, op.length);
      (Piece(a), o)
    else if R.Spoilt(cell.text, offset, op.length) then (NotHex, offset)
    else
      var (a, o) := R.Read(R.Raw, R.Decoded(cell.text), offset, op.length);
      (Piece(a), o)
  }

  function Step(c: Cursor, op: Op): (r: (Cursor, Reply))
    requires c.Valid()
    ensures r.0.Valid() && r.0.sets == c.sets && r.0.maxRows == c.maxRows
  {
    match op
    case Fetch =>
      if c.current >= |c.sets| then (c, NoSet)
      else
        var n := |c.sets[c.current].rows|;
        if c.row + 1 >= Limit(n, c.maxRows) then (c.(row := n), NoRow)
        else (c.(row := c.row + 1, column := -1, offset := 0), Fetched)
    case GetData(column, _, _, _) =>
      if c.current >= |c.sets| || c.row < 0 || c.row >= |c.sets[c.current].rows| then (c, NotOnRow)
      else
        var s := c.sets[c.current];
        if column < 1 || column > |s.binary| then (c, NoSuchColumn)
        else
          var offset := if c.column != column then 0 else c.offset;
          var (reply, o) := ReadCell(s.rows[c.row][column - 1], s.binary[column - 1], op, offset);
          (c.(column := column, offset := o), reply)
    case MoreResults =>
      if c.current + 1 >= |c.sets| then (c, NoMoreSets)
      else (c.(current := c.current + 1, row := -1, column := -1, offset := 0), Moved)
  }

  function Run(c: Cursor, ops: seq<Op>): (r: Cursor)
    requires c.Valid()
    ensures r.Valid() && r.sets == c.sets && r.maxRows == c.maxRows
  {
    if ops == [] then c else Step(Run(c, ops[..|ops| - 1]), ops[|ops| - 1]).0
  }

  /** Counting calls, nothing else: the set moved to, and the fetches since. */
  function Counted(sets: nat, ops: seq<Op>): (r: (nat, nat))
    ensures sets > 0 ==> r.0 < sets
    ensures sets == 0 ==> r == (0, 0)
  {
    if ops == [] then (0, 0)
    else
      var (s, f) := Counted(sets, ops[..|ops| - 1]);
      match ops[|ops| - 1]
      case Fetch => if sets > 0 then (s, f + 1) else (s, f)
      case MoreResults => if s + 1 < sets then (s + 1, 0) else (s, f)
      case GetData(_, _, _, _) => (s, f)
  }

  /** Where `fetches` fetches leave the cursor: before the rows, on the last one fetched, or past them all. */
  function RowAfter(fetches: nat, rows: nat, maxRows: nat): int {
    if fetches == 0 then -1
    else if fetches <= Limit(rows, maxRows) then fetches - 1
    else rows
  }

  /** The cursor's place is a matter of counting, whatever was read in between. */
  lemma {:induction false} PlaceIsCounted(sets: seq<ResultSet>, maxRows: nat, ops: seq<Op>)
    requires forall i :: 0 <= i < |sets| ==> sets[i].Rectangular()
    ensures var (s, f) := Counted(|sets|, ops);
            var c := Run(Opened(sets, maxRows), ops);
            c.current == s && c.row == if sets == [] then -1 else RowAfter(f, |sets[s].rows|, maxRows)
  {
    hide ReadCell;
    if ops != [] { PlaceIsCounted(sets, maxRows, ops[..|ops| - 1]); }
  }

  /** After any calls at all on any results: the next fetch brings the next row of the set in hand while
      the limit allows, and is told there is none ever after; a cell is read from the row last fetched,
      and refused before the first fetch and after the one that found none; and the sets are moved
      through one by one to the last. */
  lemma NextCall(sets: seq<ResultSet>, maxRows: nat, ops: seq<Op>, op: Op)
    requires forall i :: 0 <= i < |sets| ==> sets[i].Rectangular()
    requires sets != []
    ensures var (s, f) := Counted(|sets|, ops);
            var c := Run(Opened(sets, maxRows), ops);
            var limit := Limit(|sets[s].rows|, maxRows);
            var (next, reply) := Step(c, op);
            match op
            case Fetch => if f < limit then reply == Fetched && next.row == f
                          else reply == NoRow && next.row == |sets[s].rows|
            case GetData(column, _, _, _) =>
              && (reply == NotOnRow <==> !(1 <= f <= limit))
              && (1 <= f <= limit && 1 <= column <= |sets[s].binary| ==>
                    reply == ReadCell(sets[s].rows[f - 1][column - 1], sets[s].binary[column - 1], op,
                                      if c.column == column then c.offset else 0).0)
            case MoreResults => if s + 1 < |sets| then reply == Moved && next.current == s + 1 && next.row == -1
                                else reply == NoMoreSets && next == c
  {
    PlaceIsCounted(sets, maxRows, ops);
    if op.GetData? { ReadingIsNotRefused(op); }
  }

  lemma ReadingIsNotRefused(op: Op)
    requires op.GetData?
    ensures forall cell, binary, offset :: ReadCell(cell, binary, op, offset).0 != NotOnRow
  {
  }

  /** The rows the fetches among the calls brought, in order. */
  function RowsFetched(c: Cursor, ops: seq<Op>): seq<int>
    requires c.Valid()
  {
    if ops == [] then []
    else
      var n := |ops| - 1;
      var (next, reply) := Step(Run(c, ops[..n]), ops[n]);
      RowsFetched(c, ops[..n]) + if reply == Fetched then [next.row] else []
  }

  /** On one set, however cells are read in between, the fetches bring the first rows up to the limit,
      each once and in order, and nothing else. */
  lemma {:induction false} RowsComeInOrder(sets: seq<ResultSet>, maxRows: nat, ops: seq<Op>)
    requires sets != [] && forall i :: 0 <= i < |sets| ==> sets[i].Rectangular()
    requires forall i :: 0 <= i < |ops| ==> !ops[i].MoreResults?
    ensures var (s, f) := Counted(|sets|, ops);
            var limit := Limit(|sets[0].rows|, maxRows);
            && s == 0
            && |RowsFetched(Opened(sets, maxRows), ops)| == (if f < limit then f else limit)
            && forall i :: 0 <= i < |RowsFetched(Opened(sets, maxRows), ops)| ==>
                 RowsFetched(Opened(sets, maxRows), ops)[i] == i
  {
    hide Step, Run;
    if ops != [] {
      var n := |ops| - 1;
      RowsComeInOrder(sets, maxRows, ops[..n]);
      NextCall(sets, maxRows, ops[..n], ops[n]);
      OnlyFetchesFetch(Run(Opened(sets, maxRows), ops[..n]), ops[n]);
    }
  }

  lemma OnlyFetchesFetch(c: Cursor, op: Op)
    requires c.Valid()
    ensures Step(c, op).1 == Fetched ==> op.Fetch?
  {
  }

  /** Reading one column of the current row, once for each length. */
  function Readings(column: nat, target: Target, lengths: seq<int>): (r: seq<Op>)
    ensures |r| == |lengths|
    ensures forall i :: 0 <= i < |r| ==> r[i] == GetData(column, target, lengths[i], true)
  {
    seq(|lengths|, i requires 0 <= i < |lengths| => GetData(column, target, lengths[i], true))
  }

  /** What a cell is to a reader: its text, or, of a binary column read as bytes, the bytes its text spells. */
  predicate Holding(cell: Cell, binary: bool, target: Target, data: string) {
    && cell.Value?
    && if binary && target.AsBytes? then
         && |cell.text| == 2 * |data| && R.Decoded(cell.text) == data
         && forall i: nat :: i < |data| ==> R.PairAt(cell.text, i)
       else cell.text == data
  }

  ghost predicate OnText(c: Cursor, column: nat, target: Target, data: string) {
    && c.Valid() && c.sets != [] && 0 <= c.row < |c.sets[c.current].rows|
    && 1 <= column <= |c.sets[c.current].binary|
    && Holding(c.sets[c.current].rows[c.row][column - 1], c.sets[c.current].binary[column - 1], target, data)
  }

  function KindOf(target: Target): R.Kind {
    if target.AsChars? then R.Chars else R.Raw
  }

  lemma OneReading(c: Cursor, column: nat, target: Target, data: string, length: int)
    requires OnText(c, column, target, data)
    ensures var offset := if c.column != column then 0 else c.offset;
            var (a, o) := R.Read(KindOf(target), data, offset, length);
            Step(c, GetData(column, target, length, true)) == (c.(column := column, offset := o), Piece(a))
  {
    hide R.Read, R.Decoded;
  }

  lemma {:induction false} ReadingsMove(c: Cursor, column: nat, target: Target, data: string, lengths: seq<int>)
    requires OnText(c, column, target, data) && c.column != column
    ensures var now := Run(c, Readings(column, target, lengths));
            if lengths == [] then now == c
            else now == c.(column := column, offset := R.OffsetAfter(KindOf(target), data, lengths))
  {
    hide R.Read, Step, KindOf, OnText;
    var n := |lengths| - 1;
    if n >= 0 {
      ReadingsMove(c, column, target, data, lengths[..n]);
      assert Readings(column, target, lengths)[..n] == Readings(column, target, lengths[..n]);
      var was := Run(c, Readings(column, target, lengths[..n]));
      SameText(c, was, column, target, data);
      OneReading(was, column, target, data, lengths[n]);
    }
  }

  lemma SameText(c: Cursor, now: Cursor, column: nat, target: Target, data: string)
    requires OnText(c, column, target, data) && now == c.(column := now.column, offset := now.offset)
    ensures OnText(now, column, target, data)
  {
  }

  /** Reads of a column that begin afresh, after a fetch or another column, are the chunked reads of its
      cell, one after another. */
  lemma {:induction false} ReadsAreChunks(
      c: Cursor, column: nat, target: Target, data: string, lengths: seq<int>, length: int)
    requires OnText(c, column, target, data) && c.column != column
    ensures var now := Run(c, Readings(column, target, lengths));
            && now.row == c.row && now.current == c.current
            && Step(now, GetData(column, target, length, true)).1
               == Piece(R.Reads(KindOf(target), data, lengths + [length])[|lengths|])
  {
    hide R.Read, Step, KindOf;
    assert (lengths + [length])[..|lengths|] == lengths;
    var now := Run(c, Readings(column, target, lengths));
    ReadingsMove(c, column, target, data, lengths);
    SameText(c, now, column, target, data);
    OneReading(now, column, target, data, length);
  }

  // The statement

  /** What a call returns: a code, with the SQLSTATE where it is an error. */
  datatype Return = Success | SuccessWithInfo | NoData | Error(state: string)

  function ReturnOf(r: Reply): Return {
    match r
    case Fetched => Success
    case Moved => Success
    case NullData => Success
    case NoRow => NoData
    case NoMoreSets => NoData
    case NoSet => Error("24000")
    case NotOnRow => Error("24000")
    case NoSuchColumn => Error("07009")
    case NoIndicator => Error("22002")
    case NotHex => Error("22018")
    case Piece(a) => ReturnFor(R.CodeOf(a))
  }

  function ReturnFor(code: R.Code): Return {
    match code
    case Success => Success
    case SuccessWithInfo => SuccessWithInfo
    case NoMoreData => NoData
    case BadHex => Error("22018")
  }

  /** convert_cell, as far as characters and bytes go. A null indicator is `indicator` false. */
  method ConvertCell(cell: Cell, binary: bool, op: Op, offset: nat, buffer: array<char>)
    returns (r: Return, indicator: Option<int>, next: nat)
    requires op.GetData? && op.length <= buffer.Length
    modifies buffer
    ensures var (reply, o) := ReadCell(cell, binary, op, offset);
            r == ReturnOf(reply) && next == o && Shown(reply, indicator, buffer[..], old(buffer[..]), op.target)
  {
    hide R.Read, R.Spoilt, R.Holds, R.Decoded;
    if cell.Null? {
      if !op.indicator { return Error("22002"), None, offset; }
      return Success, Some(-1), offset;
    }
    var code, left;
    if op.target.AsChars? {
      code, left, next := R.ConvertCharacters(cell.text, offset, buffer, op.length);
    } else if binary {
      code, left, next := R.ConvertHex(cell.text, offset, buffer, op.length);
    } else {
      code, left, next := R.ConvertBytes(cell.text, offset, buffer, op.length);
    }
    indicator := if left.Some? then Some(left.value) else None;
    r := ReturnFor(code);
  }

  /** What the caller finds in its indicator and its buffer. */
  predicate Shown(reply: Reply, indicator: Option<int>, buffer: string, was: string, target: Target) {
    match reply
    case Piece(a) =>
      && indicator == (if a.NoData? then None else Some(a.remaining))
      && R.Holds(buffer, was, a, if target.AsChars? then "\0" else "")
    case NullData => indicator == Some(-1) && buffer == was
    case NotHex => true
    case _ => indicator == None && buffer == was
  }

  // Row counts

  const LONG_MAX := 0x7FFF_FFFF_FFFF_FFFF

  /** strtoll in base 10. */
  function Strtoll10(t: string): int {
    var u := C.SkipSpace(t);
    var signed := D.IsSign(u);
    var v := if signed then u[1..] else u;
    var n: int := DigitsValue(v[..D.DigitRun(v)]);
    if signed && u[0] == '-' then (if n > LONG_MAX then -LONG_MAX - 1 else -n)
    else if n > LONG_MAX then LONG_MAX else n
  }

  /** A column in which the engine reports the rows a statement changed. */
  predicate IsReport(name: string) {
    |name| >= 14 && Upper(name[..14]) == "NUMBER OF ROWS"
  }

  /** The sum over the reporting columns, None without any. */
  function Reported(names: seq<string>, cells: seq<Cell>): Option<int>
    requires |names| == |cells|
  {
    if names == [] then None
    else
      var (last, n) := (|names| - 1, Reported(names[..|names| - 1], cells[..|names| - 1]));
      if IsReport(names[last]) && cells[last].Value? then
        Some((if n.Some? then n.value else 0) + Strtoll10(cells[last].text))
      else n
  }

  /** What SQLRowCount answers on a set: the rows reported as changed, or the rows there are. */
  function RowCount(s: ResultSet): int
    requires s.Rectangular()
  {
    var n := if s.rows == [] then None else Reported(s.names, s.rows[0]);
    if n.Some? && n.value >= 0 then n.value else |s.rows|
  }

  /** fl_rows_affected. */
  method RowsAffected(s: ResultSet) returns (n: int)
    requires s.Rectangular()
    ensures n == if s.rows == [] || Reported(s.names, s.rows[0]).None? then -1
                 else Reported(s.names, s.rows[0]).value
  {
    if s.rows == [] { return -1; }
    var cells := s.rows[0];
    var total, found := 0, false;
    var i := 0;
    while i < |s.names|
      invariant 0 <= i <= |s.names|
      invariant Reported(s.names[..i], cells[..i]) == if found then Some(total) else None
      invariant !found ==> total == 0
    {
      assert s.names[..i + 1][..i] == s.names[..i] && cells[..i + 1][..i] == cells[..i];
      if IsReport(s.names[i]) && cells[i].Value? {
        total := total + Strtoll10(cells[i].text);
        found := true;
      }
      i := i + 1;
    }
    assert s.names[..i] == s.names && cells[..i] == cells;
    return if found then total else -1;
  }

  // Bound columns

  /** A column bound to a buffer: what it is read as, the room there is, and whether there is an indicator. */
  datatype Bound = Bound(target: Target, buffer: array<char>, length: int, indicator: bool)

  /** What a fetch returns for what its bound columns returned, in order. */
  function Worst(codes: seq<Return>): Return {
    if codes == [] then Success
    else if codes[0] == Success then Worst(codes[1..])
    else if codes[0] == SuccessWithInfo then
      (if Worst(codes[1..]) == Success then SuccessWithInfo else Worst(codes[1..]))
    else codes[0]
  }

  predicate IsFine(r: Return) {
    r == Success || r == SuccessWithInfo
  }

  lemma {:induction false} WorstLast(codes: seq<Return>, r: Return)
    requires forall c <- codes :: IsFine(c)
    ensures IsFine(Worst(codes))
    ensures Worst(codes + [r]) == if r == Success then Worst(codes) else r
  {
    if codes == [] {
      assert codes + [r] == [r] && [r][1..] == [];
    } else {
      WorstLast(codes[1..], r);
      assert (codes + [r])[1..] == codes[1..] + [r];
    }
  }

  /** Buffers with the room said, no two the same. */
  predicate BoundWell(bound: seq<Option<Bound>>) {
    && (forall i :: 0 <= i < |bound| && bound[i].Some? ==> bound[i].value.length <= bound[i].value.buffer.Length)
    && (forall i, j :: 0 <= i < j < |bound| && bound[i].Some? && bound[j].Some? ==>
          bound[i].value.buffer != bound[j].value.buffer)
  }

  ghost function Buffers(bound: seq<Option<Bound>>): set<array<char>> {
    set i | 0 <= i < |bound| && bound[i].Some? :: bound[i].value.buffer
  }

  /** What a bound column is delivered of a row: its cell from the front. */
  function BoundReply(s: ResultSet, row: nat, b: Bound, i: nat): Reply
    requires s.Rectangular() && row < |s.rows| && i < |s.binary|
  {
    ReadCell(s.rows[row][i], s.binary[i], GetData(i + 1, b.target, b.length, b.indicator), 0).0
  }

  /** What the first n columns return; a column that is not bound, nothing worse than success. */
  function BoundCodes(s: ResultSet, row: nat, bound: seq<Option<Bound>>, n: nat): (r: seq<Return>)
    requires s.Rectangular() && row < |s.rows| && n <= |s.binary| && n <= |bound|
    ensures |r| == n
  {
    if n == 0 then []
    else
      BoundCodes(s, row, bound, n - 1)
      + [if bound[n - 1].Some? then ReturnOf(BoundReply(s, row, bound[n - 1].value, n - 1)) else Success]
  }

  /** The columns delivered are those up to the first that fails, and the worst of their codes is returned. */
  predicate DeliveredOf(
      s: ResultSet, row: nat, bound: seq<Option<Bound>>, r: Return, indicators: seq<Option<int>>)
    requires s.Rectangular() && row < |s.rows|
  {
    && |indicators| <= |bound| && |indicators| <= |s.binary|
    && var codes := BoundCodes(s, row, bound, |indicators|);
       && r == Worst(codes)
       && (IsFine(r) ==> |indicators| == |bound| || |indicators| == |s.binary|)
       && (forall k :: 0 <= k < |codes| - 1 ==> IsFine(codes[k]))
  }

  /** The loop over the bound columns: each is delivered its cell, up to the first that fails. */
  method Deliver(s: ResultSet, row: nat, bound: seq<Option<Bound>>)
    returns (r: Return, indicators: seq<Option<int>>)
    requires s.Rectangular() && row < |s.rows| && BoundWell(bound)
    modifies Buffers(bound)
    ensures DeliveredOf(s, row, bound, r, indicators)
    ensures forall i :: 0 <= i < |indicators| && bound[i].Some? ==>
              Shown(BoundReply(s, row, bound[i].value, i), indicators[i],
                    bound[i].value.buffer[..], old(bound[i].value.buffer[..]), bound[i].value.target)
    ensures forall i :: |indicators| <= i < |bound| && bound[i].Some? ==>
              bound[i].value.buffer[..] == old(bound[i].value.buffer[..])
  {
    hide ReadCell, Shown, ReturnOf, IsFine, Worst;
    r, indicators := Success, [];
    var i := 0;
    NoCodes();
    while i < |bound| && i < |s.binary|
      invariant 0 <= i <= |bound| && i <= |s.binary| && |indicators| == i
      invariant r == Worst(BoundCodes(s, row, bound, i)) && forall c <- BoundCodes(s, row, bound, i) :: IsFine(c)
      invariant forall k :: 0 <= k < i && bound[k].Some? ==>
                  Shown(BoundReply(s, row, bound[k].value, k), indicators[k],
                        bound[k].value.buffer[..], old(bound[k].value.buffer[..]), bound[k].value.target)
      invariant forall k :: i <= k < |bound| && bound[k].Some? ==>
                  bound[k].value.buffer[..] == old(bound[k].value.buffer[..])
    {
      ghost var codes := BoundCodes(s, row, bound, i);
      var code, indicator := Success, None;
      if bound[i].Some? {
        var b := bound[i].value;
        var next;
        assert b.buffer in Buffers(bound);
        code, indicator, next :=
          ConvertCell(s.rows[row][i], s.binary[i], GetData(i + 1, b.target, b.length, b.indicator), 0, b.buffer);
      }
      WorstLast(codes, code);
      FineCodes(code);
      indicators := indicators + [indicator];
      i := i + 1;
      assert BoundCodes(s, row, bound, i) == codes + [code];
      if code == SuccessWithInfo && r == Success {
        r := SuccessWithInfo;
      } else if code != Success && code != SuccessWithInfo {
        return code, indicators;
      }
    }
  }

  lemma NoCodes()
    ensures Worst([]) == Success
  {
  }

  lemma FineCodes(r: Return)
    ensures IsFine(r) <==> r == Success || r == SuccessWithInfo
  {
  }

  class Statement {
    var sets: seq<ResultSet>
    var bound: seq<Option<Bound>>
    var maxRows: nat
    var currentSet: nat
    var currentRow: int
    var getdataCol: int
    var getdataOffset: nat
    var rowCount: int
    var rowsFetched: nat
    var rowStatus: bool

    ghost function View(): Cursor
      reads this
    {
      Cursor(sets, maxRows, currentSet, currentRow, getdataCol, getdataOffset)
    }

    /** What run_sql leaves of a statement that succeeded: its sets, from before the first row. */
    method TakeResults(results: seq<ResultSet>)
      requires forall i :: 0 <= i < |results| ==> results[i].Rectangular()
      modifies this
      ensures View() == Opened(results, old(maxRows)) && View().Valid() && bound == old(bound)
      ensures rowCount == if results == [] then 0 else RowCount(results[0])
    {
      sets, currentSet, currentRow, getdataCol, getdataOffset := results, 0, -1, -1, 0;
      if results == [] {
        rowCount := 0;
      } else {
        var affected := RowsAffected(results[0]);
        rowCount := if affected >= 0 then affected else |results[0].rows|;
      }
    }

    /** The next row, the counter and the status the application asked for, and every bound column. */
    method SQLFetch() returns (r: Return, indicators: seq<Option<int>>)
      requires View().Valid() && BoundWell(bound)
      modifies this, Buffers(bound)
      ensures View() == Step(old(View()), Fetch).0
      ensures sets == old(sets) && bound == old(bound) && rowCount == old(rowCount)
      ensures var reply := Step(old(View()), Fetch).1;
              && (reply == NoSet ==> rowsFetched == old(rowsFetched) && rowStatus == old(rowStatus))
              && (reply == NoRow ==> rowsFetched == 0 && !rowStatus)
              && (reply != Fetched ==>
                    && r == ReturnOf(reply) && indicators == []
                    && forall b :: b in Buffers(bound) ==> b[..] == old(b[..]))
              && (reply == Fetched ==>
                    && rowsFetched == 1 && rowStatus
                    && currentSet < |sets| && sets[currentSet].Rectangular()
                    && 0 <= currentRow < |sets[currentSet].rows|
                    && DeliveredOf(sets[currentSet], currentRow, bound, r, indicators))
      ensures Step(old(View()), Fetch).1 == Fetched ==>
                && (forall i :: 0 <= i < |indicators| <= |bound| && bound[i].Some? && i < |sets[currentSet].binary| ==>
                      Shown(BoundReply(sets[currentSet], currentRow, bound[i].value, i), indicators[i],
                            bound[i].value.buffer[..], old(bound[i].value.buffer[..]), bound[i].value.target))
                && (forall i :: |indicators| <= i < |bound| && bound[i].Some? ==>
                      bound[i].value.buffer[..] == old(bound[i].value.buffer[..]))
    {
      hide BoundReply, Shown, Worst, BoundCodes;
      indicators := [];
      if currentSet >= |sets| { return Error("24000"), []; }
      var count := |sets[currentSet].rows|;
      var limit := count;
      if maxRows > 0 && limit > maxRows { limit := maxRows; }
      if currentRow + 1 >= limit {
        currentRow := count;
        rowsFetched, rowStatus := 0, false;
        return NoData, [];
      }
      currentRow := currentRow + 1;
      getdataCol := -1;
      getdataOffset := 0;
      rowsFetched, rowStatus := 1, true;
      r, indicators := Deliver(sets[currentSet], currentRow, bound);
    }

    method SQLMoreResults() returns (r: Return)
      requires View().Valid()
      modifies this
      ensures View() == Step(old(View()), MoreResults).0 && r == ReturnOf(Step(old(View()), MoreResults).1)
      ensures sets == old(sets) && bound == old(bound)
      ensures rowCount == if r == Success then RowCount(sets[currentSet]) else old(rowCount)
    {
      if currentSet + 1 >= |sets| { return NoData; }
      currentSet := currentSet + 1;
      currentRow := -1;
      getdataCol := -1;
      getdataOffset := 0;
      var affected := RowsAffected(sets[currentSet]);
      rowCount := if affected >= 0 then affected else |sets[currentSet].rows|;
      return Success;
    }

    method SQLGetData(op: Op, buffer: array<char>) returns (r: Return, indicator: Option<int>)
      requires View().Valid() && op.GetData? && op.length <= buffer.Length
      modifies this, buffer
      ensures var (c, reply) := Step(old(View()), op);
              View() == c && r == ReturnOf(reply) && Shown(reply, indicator, buffer[..], old(buffer[..]), op.target)
      ensures bound == old(bound) && rowCount == old(rowCount)
      ensures rowsFetched == old(rowsFetched) && rowStatus == old(rowStatus)
    {
      hide ReadCell;
      if currentSet >= |sets| || currentRow < 0 || currentRow >= |sets[currentSet].rows| {
        return Error("24000"), None;
      }
      var s := sets[currentSet];
      if op.column < 1 || op.column > |s.binary| { return Error("07009"), None; }
      if getdataCol != op.column {
        getdataCol := op.column;
        getdataOffset := 0;
      }
      var next;
      var cell := s.rows[currentRow][op.column - 1];
      r, indicator, next := ConvertCell(cell, s.binary[op.column - 1], op, getdataOffset, buffer);
      getdataOffset := next;
    }
  }
}
