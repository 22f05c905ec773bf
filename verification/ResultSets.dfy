/** The result sets of a reply, taken out of its tree into the grid the cursor runs over (src/proto.c). */
module ResultSets {
  import opened Text
  import opened Json
  import opened RequestJson
  import opened Responses
  import opened Cursors

  // Column types

  /** strcasestr: the needle somewhere in the text, letter case aside. */
  predicate Mentions(t: string, needle: string) {
    (|t| >= |needle| && Upper(t[..|needle|]) == Upper(needle)) || (t != "" && Mentions(t[1..], needle))
  }

  predicate MentionsOne(t: string, needles: seq<string>) {
    exists n <- needles :: Mentions(t, n)
  }

  /** What of a column's type the cells depend on. */
  datatype ColumnType = Bits | Bytes | Other

  const EARLIER: seq<string> := [
    "TIMESTAMP", "DATETIME", "DATE", "TIME", "INT", "DECIMAL", "NUMBER", "NUMERIC", "DOUBLE", "REAL", "FLOAT"]

  /** fl_sql_type_for: the first word it knows decides. */
  function TypeFor(name: Option<string>): ColumnType {
    if name.None? || MentionsOne(name.value, EARLIER) then Other
    else if Upper(name.value) == "BOOL" || Mentions(name.value, "BOOLEAN") then Bits
    else if MentionsOne(name.value, ["BINARY", "BYTES"]) then Bytes
    else Other
  }

  /** The word in the text, letter case aside; the word is in upper case. */
  predicate OccursAt(t: string, w: string, i: nat) {
    i + |w| <= |t| && Upper(t)[i..i + |w|] == w
  }

  predicate Has(t: string, w: string) {
    exists i: nat :: i <= |t| && OccursAt(t, w, i)
  }

  /** Types of numbers, dates and times, whatever else their name says. */
  predicate IsNumberOrTime(t: string) {
    || Has(t, "TIMESTAMP") || Has(t, "DATETIME") || Has(t, "DATE") || Has(t, "TIME") || Has(t, "INT")
    || Has(t, "DECIMAL") || Has(t, "NUMBER") || Has(t, "NUMERIC") || Has(t, "DOUBLE") || Has(t, "REAL")
    || Has(t, "FLOAT")
  }

  predicate IsBooleanType(t: string) {
    !IsNumberOrTime(t) && (Upper(t) == "BOOL" || Has(t, "BOOLEAN"))
  }

  predicate IsBinaryType(t: string) {
    !IsNumberOrTime(t) && !IsBooleanType(t) && (Has(t, "BINARY") || Has(t, "BYTES"))
  }

  lemma {:induction false} MentionsIsHas(t: string, w: string)
    requires Upper(w) == w
    ensures Mentions(t, w) <==> Has(t, w)
    decreases |t|
  {
    hide Mentions;
    MentionsStep(t, w);
    if t == "" {
      if w == "" { assert OccursAt(t, w, 0); }
    } else {
      MentionsIsHas(t[1..], w);
      assert Upper(t)[1..] == Upper(t[1..]);
      if Mentions(t[1..], w) {
        var i: nat :| i <= |t[1..]| && OccursAt(t[1..], w, i);
        assert Upper(t)[i + 1..i + 1 + |w|] == Upper(t[1..])[i..i + |w|];
        assert OccursAt(t, w, i + 1);
      } else if Mentions(t, w) {
        assert OccursAt(t, w, 0);
      }
      if i: nat :| i <= |t| && OccursAt(t, w, i) {
        if i == 0 {
          assert Upper(t)[..|w|] == Upper(t[..|w|]);
        } else {
          assert Upper(t)[i..i + |w|] == Upper(t[1..])[i - 1..i - 1 + |w|];
          assert OccursAt(t[1..], w, i - 1);
        }
      }
    }
  }

  lemma MentionsStep(t: string, w: string)
    ensures Mentions(t, w)
            <==> (|t| >= |w| && Upper(t[..|w|]) == Upper(w)) || (t != "" && Mentions(t[1..], w))
  {
  }

  lemma EarlierAreUpper()
    ensures forall w <- EARLIER + ["BOOLEAN", "BINARY", "BYTES"] :: Upper(w) == w
  {
  }

  lemma EarlierAre(t: string)
    ensures MentionsOne(t, EARLIER) <==> IsNumberOrTime(t)
    ensures Mentions(t, "BOOLEAN") <==> Has(t, "BOOLEAN")
    ensures MentionsOne(t, ["BINARY", "BYTES"]) <==> Has(t, "BINARY") || Has(t, "BYTES")
  {
    hide Mentions, Has;
    EarlierAreUpper();
    forall w | w in EARLIER + ["BOOLEAN", "BINARY", "BYTES"] ensures Mentions(t, w) <==> Has(t, w) {
      MentionsIsHas(t, w);
    }
    assert "BOOLEAN" in EARLIER + ["BOOLEAN", "BINARY", "BYTES"];
    assert "BINARY" in EARLIER + ["BOOLEAN", "BINARY", "BYTES"];
    assert "BYTES" in EARLIER + ["BOOLEAN", "BINARY", "BYTES"];
    AmongEarlier(t);
  }

  lemma AmongEarlier(t: string)
    requires forall w <- EARLIER :: Mentions(t, w) <==> Has(t, w)
    ensures MentionsOne(t, EARLIER) <==> IsNumberOrTime(t)
  {
    hide Mentions, Has;
    assert "TIMESTAMP" in EARLIER && "DATETIME" in EARLIER && "DATE" in EARLIER && "TIME" in EARLIER;
    assert "INT" in EARLIER && "DECIMAL" in EARLIER && "NUMBER" in EARLIER && "NUMERIC" in EARLIER;
    assert "DOUBLE" in EARLIER && "REAL" in EARLIER && "FLOAT" in EARLIER;
  }

  /** The type of a column, whatever its declared name, said without the driver's own search. */
  lemma {:induction false} TypesAreRead(t: string)
    ensures TypeFor(Some(t)).Bits? <==> IsBooleanType(t)
    ensures TypeFor(Some(t)).Bytes? <==> IsBinaryType(t)
    ensures TypeFor(None) == Other
  {
    hide Mentions, MentionsOne, Has, IsNumberOrTime, EARLIER;
    EarlierAre(t);
  }

  // Decoding

  /** child_count, where there is a node at all. */
  function Count(v: Option<Json>): nat {
    match v
    case Some(Array(items)) => |items|
    case Some(Object(members)) => |members|
    case _ => 0
  }

  /** fl_json_at. */
  function At(v: Option<Json>, i: nat): Option<Json> {
    match v
    case Some(Array(items)) => if i < |items| then Some(items[i]) else None
    case _ => None
  }

  function MemberOf(v: Option<Json>, key: string): Option<Json> {
    if v.Some? then Get(v.value, key) else None
  }

  function TextOf(v: Option<Json>, key: string): Option<string> {
    if v.Some? then GetText(v.value, key) else None
  }

  function NameOf(column: Option<Json>): string {
    if TextOf(column, "name").Some? then TextOf(column, "name").value else ""
  }

  /** A cell's text is its spelling on the wire, except that a boolean of a boolean column is 1 or 0. */
  function CellOf(value: Option<Json>, t: ColumnType): Cell {
    match value
    case None => Cell.Null
    case Some(Null) => Cell.Null
    case Some(Number(text)) => Value(CString(text))
    case Some(Bool(on)) =>
      if t.Bits? then Value(if on then "1" else "0") else Value(if on then "true" else "false")
    case Some(String(text)) => Value(CString(text))
    case Some(_) => Value("")
  }

  /** A text ends where C ends it. */
  lemma CellEndsAtNul(text: string, shown: string, t: ColumnType)
    requires NulFree(shown) && shown <= text && (|shown| == |text| || text[|shown|] == '\0')
    ensures CellOf(Some(String(text)), t) == Value(shown)
  {
    CStringIs(text, shown);
  }

  function RowOf(row: Option<Json>, types: seq<ColumnType>): (r: seq<Cell>)
    ensures |r| == |types|
  {
    seq(|types|, c requires 0 <= c < |types| => CellOf(At(row, c), types[c]))
  }

  function TypesOf(columns: Option<Json>): (r: seq<ColumnType>)
    ensures |r| == Count(columns)
  {
    seq(Count(columns), c requires 0 <= c < Count(columns) => TypeFor(TextOf(At(columns, c), "dataType")))
  }

  function NamesOf(columns: Option<Json>): (r: seq<string>)
    ensures |r| == Count(columns)
  {
    seq(Count(columns), c requires 0 <= c < Count(columns) => NameOf(At(columns, c)))
  }

  function Binaries(types: seq<ColumnType>): (r: seq<bool>)
    ensures |r| == |types|
  {
    seq(|types|, c requires 0 <= c < |types| => types[c].Bytes?)
  }

  function RowsOf(rows: Option<Json>, types: seq<ColumnType>): (r: seq<seq<Cell>>)
    ensures |r| == Count(rows) && forall i :: 0 <= i < |r| ==> |r[i]| == |types|
  {
    seq(Count(rows), i requires 0 <= i < Count(rows) => RowOf(At(rows, i), types))
  }

  function SetOf(v: Option<Json>): (r: ResultSet)
    ensures r.Rectangular()
  {
    var types := TypesOf(MemberOf(v, "columns"));
    ResultSet(NamesOf(MemberOf(v, "columns")), Binaries(types), RowsOf(MemberOf(v, "rows"), types))
  }

  /** Every result set of a reply, in order. */
  function SetsOf(root: Json): (r: seq<ResultSet>)
    ensures forall i :: 0 <= i < |r| ==> r[i].Rectangular()
  {
    var sets := Get(root, "resultSets");
    seq(Count(sets), i requires 0 <= i < Count(sets) => SetOf(At(sets, i)))
  }

  /** Where a reply has no columns or no rows, or something else in their place, there are none. */
  lemma AbsentIsEmpty(v: Option<Json>)
    ensures var (columns, rows) := (MemberOf(v, "columns"), MemberOf(v, "rows"));
            && (columns.None? || (!columns.value.Array? && !columns.value.Object?) ==> SetOf(v).names == [])
            && (rows.None? || (!rows.value.Array? && !rows.value.Object?) ==> SetOf(v).rows == [])
  {
    hide Get, TypeFor;
  }

  // Tables as an engine prints them

  datatype Column = Column(name: string, dataType: string)

  datatype Table = Table(columns: seq<Column>, rows: seq<seq<Json>>)

  predicate IsScalar(v: Json) {
    !v.Array? && !v.Object?
  }

  /** Rows of scalars, as wide as the columns, and nothing a C string cannot hold. */
  predicate IsTable(t: Table) {
    && (forall i :: 0 <= i < |t.columns| ==> NulFree(t.columns[i].name) && NulFree(t.columns[i].dataType))
    && (forall i :: 0 <= i < |t.rows| ==> IsRow(t.rows[i]) && |t.rows[i]| == |t.columns|)
  }

  predicate IsRow(row: seq<Json>) {
    forall c :: 0 <= c < |row| ==> IsScalar(row[c]) && Printable(row[c])
  }

  function ColumnTree(c: Column): Json {
    Object([Member("name", String(c.name)), Member("dataType", String(c.dataType))])
  }

  function ColumnTrees(columns: seq<Column>): (r: seq<Json>)
    ensures |r| == |columns|
  {
    seq(|columns|, i requires 0 <= i < |columns| => ColumnTree(columns[i]))
  }

  function RowTrees(rows: seq<seq<Json>>): (r: seq<Json>)
    ensures |r| == |rows|
  {
    seq(|rows|, i requires 0 <= i < |rows| => Array(rows[i]))
  }

  function TableTree(t: Table): Json {
    Object([Member("columns", Array(ColumnTrees(t.columns))), Member("rows", Array(RowTrees(t.rows)))])
  }

  function TableTrees(ts: seq<Table>): (r: seq<Json>)
    ensures |r| == |ts|
  {
    seq(|ts|, i requires 0 <= i < |ts| => TableTree(ts[i]))
  }

  /** What a scalar is shown as in a column of some declared type. */
  function Spelling(v: Json, dataType: string): Cell {
    match v
    case Null => Cell.Null
    case Number(text) => Value(text)
    case String(text) => Value(text)
    case Bool(on) =>
      if IsBooleanType(dataType) then Value(if on then "1" else "0")
      else Value(if on then "true" else "false")
    case _ => Value("")
  }

  /** The grid holds the table: its names, which columns are binary, and every cell in its place. */
  predicate Holds(s: ResultSet, t: Table) {
    && |s.names| == |s.binary| == |t.columns| && |s.rows| == |t.rows|
    && (forall c :: 0 <= c < |t.columns| ==>
          && s.names[c] == t.columns[c].name
          && (s.binary[c] <==> IsBinaryType(t.columns[c].dataType)))
    && (forall i :: 0 <= i < |t.rows| ==> HoldsRow(s.rows[i], t.rows[i], t.columns))
  }

  predicate HoldsRow(cells: seq<Cell>, row: seq<Json>, columns: seq<Column>) {
    && |cells| == |row| == |columns|
    && forall c :: 0 <= c < |row| ==> cells[c] == Spelling(row[c], columns[c].dataType)
  }

  lemma TwoMembers(a: Member, b: Member)
    requires NulFree(a.key) && NulFree(b.key) && a.key != b.key
    ensures Get(Object([a, b]), a.key) == Some(a.value) && Get(Object([a, b]), b.key) == Some(b.value)
  {
    hide Find;
    assert [a, b] == [a] + [b];
    FindAppend([a], [b], a.key);
    FindAppend([a], [b], b.key);
    FindOne(a, a.key);
    FindOne(a, b.key);
    FindOne(b, b.key);
  }

  lemma TableKeys()
    ensures NulFree("name") && NulFree("dataType") && NulFree("columns") && NulFree("rows")
    ensures "name" != "dataType" && "columns" != "rows"
  {
    assert |"name"| != |"dataType"| && |"columns"| != |"rows"|;
  }

  lemma ColumnIsDecoded(c: Column)
    requires NulFree(c.name) && NulFree(c.dataType)
    ensures NameOf(Some(ColumnTree(c))) == c.name
    ensures TextOf(Some(ColumnTree(c)), "dataType") == Some(c.dataType)
  {
    hide Get;
    TableKeys();
    TwoMembers(Member("name", String(c.name)), Member("dataType", String(c.dataType)));
  }

  lemma NumberIsCString(text: string)
    requires IsNumberText(text)
    ensures CString(text) == text
  {
    NumberIsNulFree(text);
  }

  lemma CellIsDecoded(v: Json, dataType: string)
    requires IsScalar(v) && Printable(v)
    ensures CellOf(Some(v), TypeFor(Some(dataType))) == Spelling(v, dataType)
  {
    hide TypeFor, IsBooleanType;
    TypesAreRead(dataType);
    if v.Number? { NumberIsCString(v.text); }
  }

  lemma {:induction false} TableIsDecoded(t: Table)
    requires IsTable(t)
    ensures Holds(SetOf(Some(TableTree(t))), t)
  {
    hide Get, TypeFor, CellOf, Spelling, NameOf, ColumnTree, IsRow, IsBinaryType;
    TableKeys();
    var (cs, rs) := (Array(ColumnTrees(t.columns)), Array(RowTrees(t.rows)));
    TwoMembers(Member("columns", cs), Member("rows", rs));
    forall c | 0 <= c < |t.columns|
      ensures At(Some(cs), c) == Some(ColumnTree(t.columns[c])) && NameOf(At(Some(cs), c)) == t.columns[c].name
      ensures TextOf(At(Some(cs), c), "dataType") == Some(t.columns[c].dataType)
    {
      ColumnIsDecoded(t.columns[c]);
    }
    forall c | 0 <= c < |t.columns|
      ensures TypeFor(Some(t.columns[c].dataType)).Bytes? <==> IsBinaryType(t.columns[c].dataType)
    {
      TypesAreRead(t.columns[c].dataType);
    }
    var types := TypesOf(Some(cs));
    forall i | 0 <= i < |t.rows| ensures HoldsRow(RowOf(At(Some(rs), i), types), t.rows[i], t.columns) {
      RowIsDecoded(t.rows[i], types, t.columns);
    }
  }

  lemma RowIsDecoded(row: seq<Json>, types: seq<ColumnType>, columns: seq<Column>)
    requires IsRow(row) && |row| == |columns| == |types|
    requires forall c :: 0 <= c < |columns| ==> types[c] == TypeFor(Some(columns[c].dataType))
    ensures HoldsRow(RowOf(Some(Array(row)), types), row, columns)
  {
    hide TypeFor, CellOf, Spelling;
    forall c | 0 <= c < |row|
      ensures CellOf(At(Some(Array(row)), c), types[c]) == Spelling(row[c], columns[c].dataType)
    {
      CellIsDecoded(row[c], columns[c].dataType);
    }
  }

  // Over the wire

  lemma ColumnIsPrintable(c: Column)
    requires NulFree(c.name) && NulFree(c.dataType)
    ensures Printable(ColumnTree(c)) && Nests(ColumnTree(c), 1)
  {
    TableKeys();
  }

  lemma ScalarNests(v: Json, room: int)
    requires IsScalar(v)
    ensures Nests(v, room)
  {
  }

  lemma RowIsPrintable(row: seq<Json>)
    requires IsRow(row)
    ensures Printable(Array(row)) && Nests(Array(row), 1)
  {
    hide Printable, Nests, IsScalar;
    forall c | 0 <= c < |row| ensures Printable(row[c]) && Nests(row[c], 0) { ScalarNests(row[c], 0); }
    ItemsArePrintable(row, 0);
  }

  lemma ItemsArePrintable(items: seq<Json>, room: int)
    requires room >= 0 && forall i :: 0 <= i < |items| ==> Printable(items[i]) && Nests(items[i], room)
    ensures Printable(Array(items)) && Nests(Array(items), room + 1)
  {
  }

  lemma TableIsPrintable(t: Table)
    requires IsTable(t)
    ensures Printable(TableTree(t)) && Nests(TableTree(t), 3)
  {
    hide Printable, Nests, IsRow, ColumnTree;
    TableKeys();
    forall i | 0 <= i < |t.columns| ensures Printable(ColumnTree(t.columns[i])) && Nests(ColumnTree(t.columns[i]), 1) {
      ColumnIsPrintable(t.columns[i]);
    }
    forall i | 0 <= i < |t.rows| ensures Printable(Array(t.rows[i])) && Nests(Array(t.rows[i]), 1) {
      RowIsPrintable(t.rows[i]);
    }
    ItemsArePrintable(ColumnTrees(t.columns), 1);
    ItemsArePrintable(RowTrees(t.rows), 1);
    PairIsPrintable(Member("columns", Array(ColumnTrees(t.columns))), Member("rows", Array(RowTrees(t.rows))), 2);
  }

  lemma PairIsPrintable(a: Member, b: Member, room: int)
    requires NulFree(a.key) && NulFree(b.key) && room >= 0
    requires Printable(a.value) && Nests(a.value, room) && Printable(b.value) && Nests(b.value, room)
    ensures Printable(Object([a, b])) && Nests(Object([a, b]), room + 1)
  {
  }

  lemma {:induction false} MoreRoom(v: Json, room: int, more: int)
    requires Nests(v, room) && room <= more
    ensures Nests(v, more)
    decreases v
  {
    match v
    case Array(items) =>
      forall i | 0 <= i < |items| ensures Nests(items[i], more - 1) { MoreRoom(items[i], room - 1, more - 1); }
    case Object(members) =>
      forall i | 0 <= i < |members| ensures Nests(members[i].value, more - 1) {
        MoreRoom(members[i].value, room - 1, more - 1);
      }
    case _ =>
  }

  /** Whatever tables an engine answers with, printed, sent and parsed, the driver's result sets hold them: every
      name, every type and every cell in its place, set by set. */
  lemma {:induction false} SetsOverTheWire(session: Option<string>, newSession: Option<bool>, ts: seq<Table>)
    requires session.Some? ==> NulFree(session.value)
    requires forall i :: 0 <= i < |ts| ==> IsTable(ts[i])
    ensures var root := Parse(CString(Print(ReplyTree(session, newSession, Some(Array(TableTrees(ts))), ""))));
            && root.Some? && |SetsOf(root.value)| == |ts|
            && forall i :: 0 <= i < |ts| ==> Holds(SetsOf(root.value)[i], ts[i])
  {
    hide Parse, Print, Printable, Nests, ReplyTree, Get, IsTable, TableTree, Holds, SetOf;
    var sets := Array(TableTrees(ts));
    forall i | 0 <= i < |ts| ensures Printable(TableTree(ts[i])) && Nests(TableTree(ts[i]), 3) {
      TableIsPrintable(ts[i]);
    }
    ItemsArePrintable(TableTrees(ts), 3);
    MoreRoom(sets, 4, MAX_DEPTH - 1);
    var v := ReplyTree(session, newSession, Some(sets), "");
    ReplyIsPrintable(session, newSession, Some(sets), "");
    ParseInvertsPrint(v);
    PrintedIsNulFree(v);
    ReplySays(session, newSession, Some(sets), "", "resultSets");
    forall i | 0 <= i < |ts| ensures Holds(SetsOf(v)[i], ts[i]) { TableIsDecoded(ts[i]); }
  }

  // The source's own loops

  method DecodeColumns(columns: Option<Json>) returns (names: seq<string>, types: seq<ColumnType>)
    ensures names == NamesOf(columns) && types == TypesOf(columns)
  {
    hide NameOf, TypeFor, TextOf;
    names, types := [], [];
    var c := 0;
    while c < Count(columns)
      invariant 0 <= c <= Count(columns)
      invariant names == NamesOf(columns)[..c] && types == TypesOf(columns)[..c]
    {
      var column := At(columns, c);
      names := names + [NameOf(column)];
      types := types + [TypeFor(TextOf(column, "dataType"))];
      c := c + 1;
    }
  }

  /** The cells row by row; a row that is short is filled with nulls, one that is long is cut. */
  method DecodeRows(rows: Option<Json>, types: seq<ColumnType>) returns (cells: seq<seq<Cell>>)
    ensures cells == RowsOf(rows, types)
  {
    hide CellOf;
    cells := [];
    var r := 0;
    while r < Count(rows)
      invariant 0 <= r <= Count(rows)
      invariant cells == RowsOf(rows, types)[..r]
    {
      var row, line := At(rows, r), [];
      var c := 0;
      while c < |types|
        invariant 0 <= c <= |types|
        invariant line == RowOf(row, types)[..c]
      {
        line := line + [CellOf(At(row, c), types[c])];
        c := c + 1;
      }
      assert RowOf(row, types)[..c] == RowOf(row, types);
      cells := cells + [line];
      r := r + 1;
    }
  }

  /** The response's result sets, as `post` builds them. */
  method DecodeSets(root: Json) returns (sets: seq<ResultSet>)
    ensures sets == SetsOf(root)
  {
    hide Get, SetOf;
    var tree := GetMember(root, "resultSets");
    sets := [];
    var i := 0;
    while i < Count(tree)
      invariant 0 <= i <= Count(tree)
      invariant sets == SetsOf(root)[..i]
    {
      var decoded := DecodeSet(At(tree, i));
      sets := sets + [decoded];
      i := i + 1;
    }
  }

  method DecodeSet(tree: Option<Json>) returns (s: ResultSet)
    ensures s == SetOf(tree)
  {
    var names, types := DecodeColumns(MemberOf(tree, "columns"));
    var rows := DecodeRows(MemberOf(tree, "rows"), types);
    return ResultSet(names, Binaries(types), rows);
  }
}
