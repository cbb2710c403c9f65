/** Parsing and printing Markdown tables. */
module Formatting {
  import opened Unicode
  import opened Wrappers
  import opened Scanning
  import opened Lines

  const BAR: CodePoint := 0x7C
  const DASH: CodePoint := 0x2D
  const SPACE: CodePoint := 0x20

  /** The characters that `str.strip` removes. */
  type Spaces = CodePoint -> bool

  ghost predicate IsSpaces(sp: Spaces) {
    sp(SPACE) && sp(LF) && !sp(BAR) && !sp(DASH)
  }

  /* Strings */

  function StripEnd(sp: Spaces, s: Text): (r: Text)
    ensures |r| <= |s| && r == s[..|r|]
  {
    if s == [] || !sp(s[|s| - 1]) then s else StripEnd(sp, s[..|s| - 1])
  }

  function Strip(sp: Spaces, s: Text): Text {
    StripEnd(sp, s[Span(sp, s)..])
  }

  /** `str.split("|")` */
  function Split(s: Text): (r: seq<Text>)
    ensures r != []
  {
    if s == [] then [[]]
    else
      var r := Split(s[1..]);
      if s[0] == BAR then [[]] + r else [[s[0]] + r[0]] + r[1..]
  }

  /** `"|".join` */
  function Join(fields: seq<Text>): Text {
    if fields == [] then [] else if |fields| == 1 then fields[0] else fields[0] + [BAR] + Join(fields[1..])
  }

  function Repeat(c: CodePoint, n: nat): (r: Text)
    ensures |r| == n && forall i :: 0 <= i < n ==> r[i] == c
  {
    seq(n, _ => c)
  }

  /** `str.center`: an odd padding leaves the extra space on the left exactly if the width is odd. */
  function Center(s: Text, width: nat): Text {
    if width <= |s| then s
    else
      var pad := width - |s|;
      var left := pad / 2 + (if pad % 2 == 1 && width % 2 == 1 then 1 else 0);
      Repeat(SPACE, left) + s + Repeat(SPACE, pad - left)
  }

  ghost predicate Stripped(sp: Spaces, s: Text) {
    s != [] ==> !sp(s[0]) && !sp(s[|s| - 1])
  }

  lemma {:induction false} StripEndIs(sp: Spaces, s: Text, b: Text)
    requires All(sp, b) && (s != [] ==> !sp(s[|s| - 1]))
    ensures StripEnd(sp, s + b) == s
  {
    if b == [] {
      assert s + b == s;
    } else {
      assert (s + b)[..|s + b| - 1] == s + b[..|b| - 1];
      StripEndIs(sp, s, b[..|b| - 1]);
    }
  }

  lemma {:induction false} StripIs(sp: Spaces, a: Text, s: Text, b: Text)
    requires All(sp, a) && All(sp, b) && Stripped(sp, s)
    ensures Strip(sp, a + s + b) == s
  {
    if s == [] {
      assert a + s + b == (a + b) + [];
      SpanIs(sp, a + b, []);
    } else {
      assert a + s + b == a + (s + b);
      SpanIs(sp, a, s + b);
      StripEndIs(sp, s, b);
    }
  }

  lemma {:induction false} StripStripped(sp: Spaces, s: Text)
    ensures Stripped(sp, Strip(sp, s)) && forall c :: c in Strip(sp, s) ==> c in s
  {
    var t := s[Span(sp, s)..];
    StripEndLast(sp, t);
    assert forall c :: c in t ==> c in s;
    assert forall c :: c in t[..|StripEnd(sp, t)|] ==> c in t;
  }

  lemma {:induction false} StripEndLast(sp: Spaces, s: Text)
    ensures var r := StripEnd(sp, s); r != [] ==> !sp(r[|r| - 1])
  {
    if s != [] && sp(s[|s| - 1]) {
      StripEndLast(sp, s[..|s| - 1]);
    }
  }

  lemma {:induction false} StripCenter(sp: Spaces, s: Text, width: nat)
    requires IsSpaces(sp) && Stripped(sp, s)
    ensures Strip(sp, Center(s, width)) == s
  {
    if width <= |s| {
      assert s == [] + s + [];
      StripIs(sp, [], s, []);
    } else {
      var pad := width - |s|;
      var left := pad / 2 + (if pad % 2 == 1 && width % 2 == 1 then 1 else 0);
      var a, b := Repeat(SPACE, left), Repeat(SPACE, pad - left);
      assert Center(s, width) == a + s + b;
      assert All(sp, a) && All(sp, b);
      hide Center, Strip, All;
      StripIs(sp, a, s, b);
    }
  }

  lemma {:induction false} SplitParts(s: Text)
    ensures forall i :: 0 <= i < |Split(s)| ==> BAR !in Split(s)[i]
    ensures s != [] && s[0] == BAR ==> |Split(s)| >= 2 && Split(s)[0] == []
  {
    if s != [] {
      SplitParts(s[1..]);
    }
  }

  lemma {:induction false} SplitField(f: Text, rest: Text)
    requires BAR !in f
    ensures Split(f) == [f] && Split(f + [BAR] + rest) == [f] + Split(rest)
  {
    if f == [] {
      assert ([BAR] + rest)[1..] == rest && f + [BAR] + rest == [BAR] + rest;
    } else {
      SplitField(f[1..], rest);
      assert (f + [BAR] + rest)[1..] == f[1..] + [BAR] + rest;
      assert f == [f[0]] + f[1..];
    }
  }

  ghost predicate BarFree(fields: seq<Text>) {
    forall i :: 0 <= i < |fields| ==> BAR !in fields[i]
  }

  lemma {:induction false} SplitJoin(fields: seq<Text>)
    requires fields != [] && BarFree(fields)
    ensures Split(Join(fields)) == fields
  {
    if |fields| == 1 {
      SplitField(fields[0], []);
    } else {
      SplitJoin(fields[1..]);
      SplitField(fields[0], Join(fields[1..]));
      assert fields == [fields[0]] + fields[1..];
    }
  }

  lemma {:induction false} JoinSnoc(fields: seq<Text>, f: Text)
    requires fields != []
    ensures Join(fields + [f]) == Join(fields) + [BAR] + f
  {
    if |fields| > 1 {
      assert (fields + [f])[1..] == fields[1..] + [f];
      JoinSnoc(fields[1..], f);
    } else {
      assert (fields + [f])[1..] == [f];
    }
  }

  /* Rows */

  datatype Row = Row(cells: seq<Text>, lineNumber: nat)

  datatype LineRange = LineRange(start: nat, end: nat)

  predicate SkipLine(line: nat, range: Option<LineRange>) {
    range.Some? && (line < range.value.start || range.value.end < line)
  }

  function StripAll(sp: Spaces, fields: seq<Text>): seq<Text> {
    seq(|fields|, i requires 0 <= i < |fields| => Strip(sp, fields[i]))
  }

  /** The fields of a line between its bars. */
  function CellsOf(sp: Spaces, stripped: Text): seq<Text> {
    SplitParts(stripped);
    var cells := StripAll(sp, Split(stripped));
    var tail := if stripped != [] && stripped[0] == BAR then cells[1..] else cells;
    if stripped != [] && stripped[|stripped| - 1] == BAR then tail[..|tail| - 1] else tail
  }

  function Chars(cells: seq<Text>): set<CodePoint> {
    set i, c | 0 <= i < |cells| && c in cells[i] :: c
  }

  /** A row of dashes has no cells; a line without fields is no row. */
  function RowCells(cells: seq<Text>): Option<seq<Text>> {
    if Chars(cells) == {DASH} then Some([]) else if cells == [] then None else Some(cells)
  }

  function ParseLine(sp: Spaces, line: Text): Option<seq<Text>> {
    RowCells(CellsOf(sp, Strip(sp, line)))
  }

  /** A document as a table: the cells of each line that is a row. */
  type Table = seq<Option<seq<Text>>>

  function TableOf(sp: Spaces, lines: seq<Text>, range: Option<LineRange>): (t: Table)
    ensures |t| == |lines|
  {
    seq(|lines|, n requires 0 <= n < |lines| => if SkipLine(n, range) then None else ParseLine(sp, lines[n]))
  }

  function Rows(t: Table): seq<Row> {
    if t == [] then []
    else
      var n := |t| - 1;
      Rows(t[..n]) + if t[n].Some? then [Row(t[n].value, n)] else []
  }

  /** One line: its fields, without those before and after the outer bars, or none for dashes. */
  method ParseFields(sp: Spaces, line: Text) returns (r: Option<seq<Text>>)
    ensures r == RowCells(CellsOf(sp, line))
  {
    hide Split, Strip;
    SplitParts(line);
    var cells := StripAll(sp, Split(line));
    if line != [] && line[0] == BAR {
      cells := cells[1..];
    }
    if line != [] && line[|line| - 1] == BAR {
      cells := cells[..|cells| - 1];
    }
    assert cells == CellsOf(sp, line);
    hide CellsOf, StripAll;
    var chars := {};
    for i := 0 to |cells|
      invariant chars == Chars(cells[..i])
    {
      CharsSnoc(cells, i);
      chars := chars + set c | c in cells[i];
    }
    assert cells[..|cells|] == cells;
    hide Chars;
    if chars == {DASH} {
      r := Some([]);
    } else if |cells| == 0 {
      r := None;
    } else {
      r := Some(cells);
    }
  }

  method ParseDocument(sp: Spaces, lines: seq<Text>, range: Option<LineRange>) returns (rows: seq<Row>)
    ensures rows == Rows(TableOf(sp, lines, range))
  {
    ghost var t := TableOf(sp, lines, range);
    rows := [];
    for linum := 0 to |lines|
      invariant rows == Rows(t[..linum])
    {
      assert t[..linum + 1][..linum] == t[..linum];
      if SkipLine(linum, range) {
        continue;
      }
      var cells := ParseFields(sp, Strip(sp, lines[linum]));
      if cells.None? {
        continue;
      }
      rows := rows + [Row(cells.value, linum)];
    }
    assert t[..|t|] == t;
  }

  lemma {:induction false} CharsSnoc(cells: seq<Text>, i: nat)
    requires i < |cells|
    ensures Chars(cells[..i + 1]) == Chars(cells[..i]) + set c | c in cells[i]
  {
    forall c ensures c in Chars(cells[..i + 1]) <==> c in Chars(cells[..i]) || c in cells[i] {
      if c in cells[i] {
        assert c in cells[..i + 1][i];
      } else if c in Chars(cells[..i]) {
        var j :| 0 <= j < i && c in cells[..i][j];
        assert c in cells[..i + 1][j];
      }
    }
  }

  /* Formatting */

  function Max(a: nat, b: nat): nat {
    if a < b then b else a
  }

  function Columns(rows: seq<Row>): nat {
    if rows == [] then 0 else Max(Columns(rows[..|rows| - 1]), |rows[|rows| - 1].cells|)
  }

  function Width(rows: seq<Row>, i: nat): nat
    decreases |rows|, 0
  {
    if rows == [] then 0
    else WidthWith(rows[..|rows| - 1], rows[|rows| - 1].cells, i)
  }

  function WidthWith(rows: seq<Row>, cells: seq<Text>, i: nat): nat
    decreases |rows|, 1
  {
    if i < |cells| then Max(Width(rows, i), |cells[i]|) else Width(rows, i)
  }

  function Widths(rows: seq<Row>): seq<nat> {
    seq(Columns(rows), i requires 0 <= i < Columns(rows) => Width(rows, i))
  }

  const CELL_PADDING := 2

  function Fields(widths: seq<nat>, cells: seq<Text>): seq<Text>
    requires |cells| <= |widths|
  {
    seq(|widths|, i requires 0 <= i < |widths| =>
      if cells == [] then Repeat(DASH, widths[i] + CELL_PADDING)
      else if i < |cells| then Center(cells[i], widths[i] + CELL_PADDING)
      else [SPACE])
  }

  function FormatLine(widths: seq<nat>, cells: seq<Text>): Text
    requires |cells| <= |widths|
  {
    [BAR] + Join(Fields(widths, cells)) + [BAR] + [LF]
  }

  /** One whole line replaced. */
  datatype TextEdit = TextEdit(line: nat, newText: Text)

  lemma {:induction false} ColumnsBound(rows: seq<Row>)
    ensures forall r :: r in rows ==> |r.cells| <= Columns(rows)
    ensures Columns(rows) > 0 ==> exists r :: r in rows && |r.cells| == Columns(rows)
    ensures forall r, i :: r in rows && 0 <= i < |r.cells| ==> |r.cells[i]| <= Width(rows, i)
  {
    if rows != [] {
      var n := |rows| - 1;
      ColumnsBound(rows[..n]);
      assert forall r :: r in rows ==> r in rows[..n] || r == rows[n];
      assert rows[n] in rows;
      forall r, i | r in rows && 0 <= i < |r.cells| ensures |r.cells[i]| <= Width(rows, i) {
        assert Width(rows, i) == WidthWith(rows[..n], rows[n].cells, i);
        assert r in rows[..n] ==> |r.cells[i]| <= Width(rows[..n], i);
      }
    }
  }

  function Edits(widths: seq<nat>, rows: seq<Row>, range: Option<LineRange>): seq<TextEdit>
    requires forall r :: r in rows ==> |r.cells| <= |widths|
  {
    if rows == [] then []
    else
      var r := rows[|rows| - 1];
      Edits(widths, rows[..|rows| - 1], range)
      + if SkipLine(r.lineNumber, range) then [] else [TextEdit(r.lineNumber, FormatLine(widths, r.cells))]
  }

  /** The widest cell of each column. */
  method MeasureColumns(rows: seq<Row>) returns (columns: map<nat, nat>)
    ensures forall i :: i in columns <==> 0 <= i < Columns(rows)
    ensures forall i :: i in columns ==> columns[i] == Width(rows, i)
  {
    columns := map[];
    assert rows[..0] == [];
    for k := 0 to |rows|
      invariant forall i :: i in columns <==> 0 <= i < Columns(rows[..k])
      invariant forall i :: i in columns ==> columns[i] == Width(rows[..k], i)
    {
      columns := MeasureRow(rows[..k], rows[k].cells, columns);
      WidthSnoc(rows, k);
    }
    assert rows[..|rows|] == rows;
  }

  method MeasureRow(rows: seq<Row>, cells: seq<Text>, before: map<nat, nat>) returns (columns: map<nat, nat>)
    requires forall i :: i in before <==> 0 <= i < Columns(rows)
    requires forall i :: i in before ==> before[i] == Width(rows, i)
    ensures forall i :: i in columns <==> 0 <= i < Max(Columns(rows), |cells|)
    ensures forall i :: i in columns ==> columns[i] == WidthWith(rows, cells, i)
  {
    hide Columns, Width;
    columns := before;
    for idx := 0 to |cells|
      invariant forall i :: i in columns <==> 0 <= i < Max(Columns(rows), idx)
      invariant forall i :: i in columns ==> columns[i] == if i < idx then WidthWith(rows, cells, i) else Width(rows, i)
    {
      BeyondColumns(rows, idx);
      columns := columns[idx := Max(|cells[idx]|, if idx in columns then columns[idx] else 0)];
    }
  }

  lemma {:induction false} WidthSnoc(rows: seq<Row>, k: nat)
    requires k < |rows|
    ensures Columns(rows[..k + 1]) == Max(Columns(rows[..k]), |rows[k].cells|)
    ensures forall i :: Width(rows[..k + 1], i) == WidthWith(rows[..k], rows[k].cells, i)
  {
    assert rows[..k + 1][..k] == rows[..k];
  }

  method FormatTable(rows: seq<Row>, range: Option<LineRange>) returns (edits: seq<TextEdit>)
    ensures forall r :: r in rows ==> |r.cells| <= |Widths(rows)|
    ensures edits == Edits(Widths(rows), rows, range)
  {
    hide Columns, Width, Join, Center;
    ColumnsBound(rows);
    ghost var widths := Widths(rows);
    var columns := MeasureColumns(rows);
    var n := |columns|;
    KeysCount(columns.Keys, |widths|);
    edits := [];
    for k := 0 to |rows|
      invariant edits == Edits(widths, rows[..k], range)
    {
      var row := rows[k];
      assert rows[..k + 1][..k] == rows[..k];
      if SkipLine(row.lineNumber, range) {
        continue;
      }
      var line := FormatCells(columns, n, row.cells, widths);
      edits := edits + [TextEdit(row.lineNumber, line)];
    }
    assert rows[..|rows|] == rows;
  }

  method FormatCells(columns: map<nat, nat>, n: nat, rowCells: seq<Text>, ghost widths: seq<nat>) returns (line: Text)
    requires |rowCells| <= n == |widths| && forall i :: 0 <= i < n ==> i in columns && columns[i] == widths[i]
    ensures line == FormatLine(widths, rowCells)
  {
    hide Join, Center;
    var cells: seq<Text> := [];
    var emptyCells: seq<Text>;
    if |rowCells| == 0 {
      emptyCells := seq(n, i requires 0 <= i < n => Repeat(DASH, columns[i] + CELL_PADDING));
    } else {
      emptyCells := seq(n - |rowCells|, i => [SPACE]);
      cells := seq(|rowCells|, i requires 0 <= i < |rowCells| => Center(rowCells[i], columns[i] + CELL_PADDING));
    }
    assert cells + emptyCells == Fields(widths, rowCells);
    line := [BAR] + Join(cells + emptyCells) + [BAR] + [LF];
  }

  lemma {:induction false} BeyondColumns(rows: seq<Row>, i: nat)
    ensures Columns(rows) <= i ==> Width(rows, i) == 0
  {
    if rows != [] {
      BeyondColumns(rows[..|rows| - 1], i);
    }
  }

  lemma {:induction false} KeysCount(keys: set<nat>, n: nat)
    requires forall i :: i in keys <==> 0 <= i < n
    ensures |keys| == n
  {
    if n > 0 {
      KeysCount(keys - {n - 1}, n - 1);
    }
  }

  /* The formatted document */

  function EditedLines(lines: seq<Text>, edits: seq<TextEdit>): (r: seq<Text>)
    ensures |r| == |lines|
  {
    if edits == [] then lines
    else
      var before, e := EditedLines(lines, edits[..|edits| - 1]), edits[|edits| - 1];
      if e.line < |lines| then before[e.line := e.newText] else before
  }

  function Formatted(sp: Spaces, lines: seq<Text>, range: Option<LineRange>): (r: seq<Text>)
    ensures |r| == |lines|
  {
    var rows := Rows(TableOf(sp, lines, range));
    ColumnsBound(rows);
    EditedLines(lines, Edits(Widths(rows), rows, range))
  }

  /** What a formatted row is read as: rows are filled up with empty cells, and without columns there is
      one empty cell. */
  function Reparsed(columns: nat, cells: seq<Text>): seq<Text> {
    if columns == 0 then [[]]
    else if cells == [] || columns <= |cells| then cells
    else cells + seq(columns - |cells|, _ => [])
  }

  /** What the parser makes sure of. */
  ghost predicate Clean(sp: Spaces, cells: seq<Text>) {
    BarFree(cells) && Chars(cells) != {DASH} && forall i :: 0 <= i < |cells| ==> Stripped(sp, cells[i])
  }

  lemma {:induction false} ParsedClean(sp: Spaces, line: Text)
    requires ParseLine(sp, line).Some?
    ensures Clean(sp, ParseLine(sp, line).value)
  {
    var s := Strip(sp, line);
    SplitParts(s);
    forall i | 0 <= i < |Split(s)| ensures Stripped(sp, StripAll(sp, Split(s))[i]) && BAR !in StripAll(sp, Split(s))[i] {
      StripStripped(sp, Split(s)[i]);
    }
    assert Chars([]) == {};
  }

  lemma {:induction false} SplitBetweenBars(between: seq<Text>)
    requires between != [] && BarFree(between)
    ensures Split([BAR] + Join(between) + [BAR]) == [[]] + (between + [[]])
  {
    hide Split, Join;
    assert [BAR] + Join(between) + [BAR] == [] + [BAR] + (Join(between) + [BAR] + []);
    SplitField([], Join(between) + [BAR] + []);
    JoinSnoc(between, []);
    SplitJoin(between + [[]]);
  }

  lemma {:induction false} StripLine(sp: Spaces, inner: Text)
    requires IsSpaces(sp)
    ensures Strip(sp, [BAR] + inner + [BAR] + [LF]) == [BAR] + inner + [BAR]
  {
    hide Strip;
    var s := [BAR] + inner + [BAR];
    assert s + [LF] == [] + s + [LF];
    StripIs(sp, [], s, [LF]);
  }

  lemma {:induction false} StripOuter(sp: Spaces, between: seq<Text>)
    ensures var all := StripAll(sp, [[]] + (between + [[]])); all[1..|all| - 1] == StripAll(sp, between)
  {
    hide Strip;
  }

  lemma {:induction false} CellsBetweenBars(sp: Spaces, fields: seq<Text>)
    requires IsSpaces(sp) && BarFree(fields)
    ensures var line := [BAR] + Join(fields) + [BAR] + [LF];
            CellsOf(sp, Strip(sp, line)) == StripAll(sp, if fields == [] then [[]] else fields)
  {
    var between := if fields == [] then [[]] else fields;
    var s := [BAR] + Join(between) + [BAR];
    assert Join(fields) == Join(between);
    hide Strip, Split, Join, StripAll;
    StripLine(sp, Join(between));
    SplitBetweenBars(between);
    StripOuter(sp, between);
    var all := StripAll(sp, Split(s));
    assert s[0] == BAR && s[|s| - 1] == BAR;
    assert CellsOf(sp, s) == all[1..][..|all| - 2];
    assert all[1..|all| - 1] == all[1..][..|all| - 2];
  }

  lemma {:induction false} FieldsBarFree(widths: seq<nat>, cells: seq<Text>)
    requires |cells| <= |widths| && BarFree(cells)
    ensures BarFree(Fields(widths, cells))
  {}

  lemma {:induction false} StripFields(sp: Spaces, widths: seq<nat>, cells: seq<Text>)
    requires IsSpaces(sp) && 0 < |cells| <= |widths| && Clean(sp, cells)
    ensures StripAll(sp, Fields(widths, cells)) == Reparsed(|widths|, cells)
  {
    hide Strip, Center, Chars, BarFree;
    forall i | 0 <= i < |widths| ensures StripAll(sp, Fields(widths, cells))[i] == Reparsed(|widths|, cells)[i] {
      if i < |cells| {
        StripCenter(sp, cells[i], widths[i] + CELL_PADDING);
      } else {
        StripIs(sp, [SPACE], [], []);
        assert [SPACE] + [] + [] == [SPACE];
      }
    }
  }

  lemma {:induction false} StripDashes(sp: Spaces, widths: seq<nat>)
    requires IsSpaces(sp) && widths != []
    ensures RowCells(StripAll(sp, Fields(widths, []))) == Some([])
  {
    var fields := Fields(widths, []);
    forall i | 0 <= i < |widths| ensures StripAll(sp, fields)[i] == fields[i] {
      assert [] + fields[i] + [] == fields[i];
      StripIs(sp, [], fields[i], []);
    }
    assert DASH in fields[0];
    assert Chars(fields) == {DASH};
    assert StripAll(sp, fields) == fields;
  }

  lemma {:induction false} CharsFilled(cells: seq<Text>, n: nat)
    ensures Chars(cells + seq(n, _ => [])) == Chars(cells)
  {
    var filled := cells + seq(n, _ => []);
    forall c ensures c in Chars(filled) <==> c in Chars(cells) {
      if c in Chars(cells) {
        var i :| 0 <= i < |cells| && c in cells[i];
        assert c in filled[i];
      }
    }
  }

  lemma {:induction false} ParseFormatted(sp: Spaces, widths: seq<nat>, cells: seq<Text>)
    requires IsSpaces(sp) && |cells| <= |widths| && Clean(sp, cells)
    ensures ParseLine(sp, FormatLine(widths, cells)) == Some(Reparsed(|widths|, cells))
  {
    FieldsBarFree(widths, cells);
    CellsBetweenBars(sp, Fields(widths, cells));
    if widths == [] {
      assert Strip(sp, []) == [];
      assert StripAll(sp, [[]]) == [[]];
      assert Chars([[]]) == {};
    } else if cells == [] {
      StripDashes(sp, widths);
    } else {
      StripFields(sp, widths, cells);
      CharsFilled(cells, |widths| - |cells|);
    }
  }

  /* Tables and their rows */

  lemma {:induction false} RowsOfTable(t: Table)
    ensures forall r :: r in Rows(t) <==> r.lineNumber < |t| && t[r.lineNumber] == Some(r.cells)
  {
    if t != [] {
      var n := |t| - 1;
      RowsOfTable(t[..n]);
      forall r: Row ensures r in Rows(t) <==> r.lineNumber < |t| && t[r.lineNumber] == Some(r.cells) {
        assert r in Rows(t) <==> r in Rows(t[..n]) || (t[n].Some? && r == Row(t[n].value, n));
      }
    }
  }

  /** Different tables of one size have different rows. */
  lemma {:induction false} RowsInjective(t: Table, u: Table)
    requires |t| == |u| && Rows(t) == Rows(u)
    ensures t == u
  {
    RowsOfTable(t);
    RowsOfTable(u);
    forall n | 0 <= n < |t| ensures t[n] == u[n] {
      if t[n].Some? {
        assert Row(t[n].value, n) in Rows(t);
      } else if u[n].Some? {
        assert Row(u[n].value, n) in Rows(u);
      }
    }
  }

  /** A line is replaced if it is a row and otherwise left alone. */
  ghost predicate FormattedAs(widths: seq<nat>, t: Table, lines: seq<Text>, r: seq<Text>) {
    && |r| == |lines| == |t|
    && forall n :: 0 <= n < |t| ==>
         match t[n]
         case None => r[n] == lines[n]
         case Some(cells) => |cells| <= |widths| && r[n] == FormatLine(widths, cells)
  }

  lemma {:induction false} RowsSnoc(t: Table, k: nat)
    requires k < |t|
    ensures Rows(t[..k + 1]) == Rows(t[..k]) + if t[k].Some? then [Row(t[k].value, k)] else []
  {
    assert t[..k + 1][..k] == t[..k];
  }

  lemma {:induction false} EditsSnoc(widths: seq<nat>, rows: seq<Row>, r: Row, range: Option<LineRange>)
    requires (forall q :: q in rows ==> |q.cells| <= |widths|) && |r.cells| <= |widths| && !SkipLine(r.lineNumber, range)
    ensures Edits(widths, rows + [r], range)
         == Edits(widths, rows, range) + [TextEdit(r.lineNumber, FormatLine(widths, r.cells))]
  {
    hide FormatLine;
    assert (rows + [r])[..|rows|] == rows;
  }

  lemma {:induction false} EditedSnoc(lines: seq<Text>, edits: seq<TextEdit>, e: TextEdit)
    requires e.line < |lines|
    ensures EditedLines(lines, edits + [e]) == EditedLines(lines, edits)[e.line := e.newText]
  {
    assert (edits + [e])[..|edits|] == edits;
  }

  /** The first `k` lines are formatted. */
  ghost predicate EditedUpTo(widths: seq<nat>, t: Table, lines: seq<Text>, k: nat, e: seq<Text>) {
    && |e| == |lines| == |t|
    && forall n :: 0 <= n < |t| ==>
         if n < k && t[n].Some? then |t[n].value| <= |widths| && e[n] == FormatLine(widths, t[n].value) else e[n] == lines[n]
  }

  lemma {:induction false} EditedNext(widths: seq<nat>, t: Table, lines: seq<Text>, k: nat, e: seq<Text>)
    requires EditedUpTo(widths, t, lines, k, e) && k < |t|
    ensures t[k].None? ==> EditedUpTo(widths, t, lines, k + 1, e)
    ensures t[k].Some? && |t[k].value| <= |widths| ==>
              EditedUpTo(widths, t, lines, k + 1, e[k := FormatLine(widths, t[k].value)])
  {
    hide FormatLine;
  }

  lemma {:induction false} EditsOfRows(widths: seq<nat>, t: Table, lines: seq<Text>, range: Option<LineRange>, k: nat)
    requires k <= |t| == |lines|
    requires forall n :: 0 <= n < |t| && t[n].Some? ==> |t[n].value| <= |widths| && !SkipLine(n, range)
    ensures forall r :: r in Rows(t[..k]) ==> |r.cells| <= |widths|
    ensures EditedUpTo(widths, t, lines, k, EditedLines(lines, Edits(widths, Rows(t[..k]), range)))
  {
    if k == 0 {
      assert t[..0] == [];
    } else {
      EditsOfRows(widths, t, lines, range, k - 1);
      RowsSnoc(t, k - 1);
      hide FormatLine, Rows, Edits, EditedLines, SkipLine, EditedUpTo;
      var before := Rows(t[..k - 1]);
      var edits := Edits(widths, before, range);
      EditedNext(widths, t, lines, k - 1, EditedLines(lines, edits));
      if t[k - 1].Some? {
        var row := Row(t[k - 1].value, k - 1);
        EditsSnoc(widths, before, row, range);
        EditedSnoc(lines, edits, TextEdit(k - 1, FormatLine(widths, row.cells)));
        assert Rows(t[..k]) == before + [row];
      } else {
        assert Rows(t[..k]) == before;
      }
    }
  }

  /** The edits of the formatter, applied to the document. */
  lemma {:induction false} FormattedLines(sp: Spaces, lines: seq<Text>, range: Option<LineRange>)
    ensures var t := TableOf(sp, lines, range);
            FormattedAs(Widths(Rows(t)), t, lines, Formatted(sp, lines, range))
  {
    var t := TableOf(sp, lines, range);
    var rows := Rows(t);
    assert forall n :: 0 <= n < |t| && t[n].Some? ==> !SkipLine(n, range);
    hide TableOf, Rows, Columns, Width, Edits, EditedLines, FormatLine, FormattedAs, EditedUpTo, SkipLine;
    RowsOfTable(t);
    ColumnsBound(rows);
    forall n | 0 <= n < |t| && t[n].Some? ensures |t[n].value| <= |Widths(rows)| {
      assert Row(t[n].value, n) in rows;
    }
    assert t[..|t|] == t;
    EditsOfRows(Widths(rows), t, lines, range, |t|);
    EditedAll(Widths(rows), t, lines, Formatted(sp, lines, range));
  }

  lemma {:induction false} EditedAll(widths: seq<nat>, t: Table, lines: seq<Text>, e: seq<Text>)
    requires EditedUpTo(widths, t, lines, |t|, e)
    ensures FormattedAs(widths, t, lines, e)
  {
    hide FormatLine;
  }

  /** How the formatted document is read. */
  lemma {:induction false} FormattedTable(sp: Spaces, lines: seq<Text>, range: Option<LineRange>)
    requires IsSpaces(sp)
    ensures var t, u := TableOf(sp, lines, range), TableOf(sp, Formatted(sp, lines, range), range);
            forall n :: 0 <= n < |t| ==>
              u[n] == if t[n].None? then None else Some(Reparsed(Columns(Rows(t)), t[n].value))
  {
    var t := TableOf(sp, lines, range);
    var widths := Widths(Rows(t));
    FormattedLines(sp, lines, range);
    hide Formatted, ParseLine, FormatLine, Rows, Columns;
    forall n | 0 <= n < |t| && t[n].Some? ensures ParseLine(sp, FormatLine(widths, t[n].value)) == Some(Reparsed(|widths|, t[n].value)) {
      ParsedClean(sp, lines[n]);
      ParseFormatted(sp, widths, t[n].value);
    }
  }

  /** All rows that have cells have equally many. */
  ghost predicate Uniform(rows: seq<Row>) {
    forall q, r :: q in rows && r in rows && q.cells != [] && r.cells != [] ==> |q.cells| == |r.cells|
  }

  /** And there are not only rows of dashes. */
  ghost predicate Regular(rows: seq<Row>) {
    Uniform(rows) && (rows != [] ==> exists r :: r in rows && r.cells != [])
  }

  lemma {:induction false} UniformIs(rows: seq<Row>)
    ensures Uniform(rows) <==> forall r :: r in rows && r.cells != [] ==> |r.cells| == Columns(rows)
    ensures (exists r :: r in rows && r.cells != []) <==> Columns(rows) > 0
  {
    ColumnsBound(rows);
  }

  lemma {:induction false} RegularIs(rows: seq<Row>)
    ensures Regular(rows) <==> forall r :: r in rows ==> Reparsed(Columns(rows), r.cells) == r.cells
  {
    UniformIs(rows);
    ColumnsBound(rows);
    if rows != [] {
      assert rows[0] in rows;
    }
  }

  /** Reading the formatted document gives the same cells on the same lines if and only if the table is
      regular. */
  lemma {:induction false} FormatRoundTrip(sp: Spaces, lines: seq<Text>, range: Option<LineRange>)
    requires IsSpaces(sp)
    ensures Rows(TableOf(sp, Formatted(sp, lines, range), range)) == Rows(TableOf(sp, lines, range))
            <==> Regular(Rows(TableOf(sp, lines, range)))
  {
    hide TableOf, Formatted, Reparsed, Regular, Rows, Columns;
    var t, u := TableOf(sp, lines, range), TableOf(sp, Formatted(sp, lines, range), range);
    FormattedTable(sp, lines, range);
    RegularIs(Rows(t));
    SameTable(t, u);
  }

  /** The table is read back if and only if each of its rows is. */
  lemma {:induction false} SameTable(t: Table, u: Table)
    requires |t| == |u|
    requires forall n :: 0 <= n < |t| ==>
               u[n] == if t[n].None? then None else Some(Reparsed(Columns(Rows(t)), t[n].value))
    ensures Rows(u) == Rows(t) <==> forall r :: r in Rows(t) ==> Reparsed(Columns(Rows(t)), r.cells) == r.cells
  {
    hide Rows, Columns, Reparsed;
    RowsOfTable(t);
    if forall r :: r in Rows(t) ==> Reparsed(Columns(Rows(t)), r.cells) == r.cells {
      forall n | 0 <= n < |t| && t[n].Some? ensures u[n] == t[n] {
        assert Row(t[n].value, n) in Rows(t);
      }
      assert u == t;
    }
    if Rows(u) == Rows(t) {
      RowsInjective(t, u);
    }
  }

  /* Line lengths */

  lemma {:induction false} JoinLonger(f: seq<Text>, g: seq<Text>)
    requires |f| == |g| && forall i :: 0 <= i < |f| ==> |f[i]| <= |g[i]|
    ensures |Join(f)| <= |Join(g)|
    ensures (exists i :: 0 <= i < |f| && |f[i]| < |g[i]|) ==> |Join(f)| < |Join(g)|
  {
    if |f| > 1 {
      JoinLonger(f[1..], g[1..]);
      if i :| 0 < i < |f| && |f[i]| < |g[i]| {
        assert |f[1..][i - 1]| < |g[1..][i - 1]|;
      }
    }
  }

  lemma {:induction false} CenterLength(s: Text, width: nat)
    requires |s| <= width
    ensures |Center(s, width)| == width
  {}

  /** A line with a cell in every column is as long as a line of dashes, and any other is shorter. */
  lemma {:induction false} LineLength(widths: seq<nat>, cells: seq<Text>)
    requires |cells| <= |widths| && forall i :: 0 <= i < |cells| ==> |cells[i]| <= widths[i]
    ensures cells == [] || |cells| == |widths| ==> |FormatLine(widths, cells)| == |FormatLine(widths, [])|
    ensures 0 < |cells| < |widths| ==> |FormatLine(widths, cells)| < |FormatLine(widths, [])|
  {
    hide Center, Join;
    var f, g := Fields(widths, cells), Fields(widths, []);
    forall i | 0 <= i < |cells| ensures |f[i]| == |g[i]| {
      CenterLength(cells[i], widths[i] + CELL_PADDING);
    }
    JoinLonger(f, g);
    if |cells| == |widths| {
      JoinLonger(g, f);
    } else if cells != [] {
      assert |f[|cells|]| < |g[|cells|]|;
    }
  }

  /** The formatted rows are equally long if and only if the rows that have cells have equally many. */
  lemma {:induction false} EqualLengths(sp: Spaces, lines: seq<Text>, range: Option<LineRange>)
    ensures var t, r := TableOf(sp, lines, range), Formatted(sp, lines, range);
            (forall m, n :: 0 <= m < |t| && 0 <= n < |t| && t[m].Some? && t[n].Some? ==> |r[m]| == |r[n]|)
            <==> Uniform(Rows(t))
  {
    var t, r := TableOf(sp, lines, range), Formatted(sp, lines, range);
    var rows := Rows(t);
    var widths := Widths(rows);
    FormattedLines(sp, lines, range);
    RowsOfTable(t);
    ColumnsBound(rows);
    UniformIs(rows);
    hide TableOf, Formatted, Rows, Columns, Width, FormatLine, Uniform;
    forall n | 0 <= n < |t| && t[n].Some?
      ensures |r[n]| <= |FormatLine(widths, [])|
      ensures |r[n]| == |FormatLine(widths, [])| <==> t[n].value == [] || |t[n].value| == |widths|
    {
      assert Row(t[n].value, n) in rows;
      LineLength(widths, t[n].value);
    }
    if !Uniform(rows) {
      var q :| q in rows && q.cells != [] && |q.cells| != |widths|;
      var w :| w in rows && |w.cells| == |widths|;
      assert |r[q.lineNumber]| != |r[w.lineNumber]|;
    } else {
      forall n | 0 <= n < |t| && t[n].Some? ensures |r[n]| == |FormatLine(widths, [])| {
        assert Row(t[n].value, n) in rows;
      }
    }
  }

  /* Formatting twice */

  lemma {:induction false} FieldsOfLine(widths: seq<nat>, cells: seq<Text>, widths': seq<nat>, cells': seq<Text>)
    requires |cells| <= |widths| && BarFree(cells) && |cells'| <= |widths'| && BarFree(cells')
    requires FormatLine(widths, cells) == FormatLine(widths', cells')
    ensures Join(Fields(widths, cells)) == Join(Fields(widths', cells'))
    ensures widths != [] && widths' != [] ==> Fields(widths, cells) == Fields(widths', cells')
  {
    var f, g := Fields(widths, cells), Fields(widths', cells');
    FieldsBarFree(widths, cells);
    FieldsBarFree(widths', cells');
    assert Join(f) == FormatLine(widths, cells)[1..][..|Join(f)|];
    assert Join(g) == FormatLine(widths', cells')[1..][..|Join(g)|];
    if widths != [] && widths' != [] {
      SplitJoin(f);
      SplitJoin(g);
    }
  }

  /** A row that is not read back as itself is formatted differently the second time. */
  lemma {:induction false} SecondLineDiffers(widths: seq<nat>, cells: seq<Text>, widths': seq<nat>)
    requires |cells| <= |widths| && BarFree(cells) && Reparsed(|widths|, cells) != cells
    requires |Reparsed(|widths|, cells)| <= |widths'|
    ensures FormatLine(widths, cells) != FormatLine(widths', Reparsed(|widths|, cells))
  {
    var again := Reparsed(|widths|, cells);
    var f, g := Fields(widths, cells), Fields(widths', again);
    CenterLength([], widths'[|cells|] + CELL_PADDING);
    assert |g[|cells|]| >= 2;
    if widths == [] {
      JoinAtLeast(g);
    } else {
      assert f[|cells|] == [SPACE];
    }
    if FormatLine(widths, cells) == FormatLine(widths', again) {
      FieldsOfLine(widths, cells, widths', again);
      assert false;
    }
  }

  lemma {:induction false} JoinAtLeast(fields: seq<Text>)
    requires fields != []
    ensures |Join(fields)| >= |fields[0]|
  {}

  /** Formatting a formatted document changes nothing if and only if the table is regular. */
  lemma {:induction false} FormatTwice(sp: Spaces, lines: seq<Text>, range: Option<LineRange>)
    requires IsSpaces(sp)
    ensures Formatted(sp, Formatted(sp, lines, range), range) == Formatted(sp, lines, range)
            <==> Regular(Rows(TableOf(sp, lines, range)))
  {
    hide TableOf, Formatted, Rows, Columns, Width, FormatLine, Regular, Reparsed, Chars, Stripped;
    var once := Formatted(sp, lines, range);
    var t, u := TableOf(sp, lines, range), TableOf(sp, once, range);
    FormattedLines(sp, lines, range);
    FormattedLines(sp, once, range);
    FormattedTable(sp, lines, range);
    FormatRoundTrip(sp, lines, range);
    RowsOfTable(t);
    RegularIs(Rows(t));
    CleanTable(sp, lines, range);
    if Regular(Rows(t)) {
      RowsInjective(t, u);
    } else {
      var r :| r in Rows(t) && Reparsed(Columns(Rows(t)), r.cells) != r.cells;
      var n := r.lineNumber;
      SecondLineDiffers(Widths(Rows(t)), r.cells, Widths(Rows(u)));
      assert Formatted(sp, once, range)[n] != once[n];
    }
  }

  lemma {:induction false} CleanTable(sp: Spaces, lines: seq<Text>, range: Option<LineRange>)
    ensures var t := TableOf(sp, lines, range); forall n :: 0 <= n < |t| && t[n].Some? ==> Clean(sp, t[n].value)
  {
    hide ParseLine, Clean;
    forall n | 0 <= n < |lines| && ParseLine(sp, lines[n]).Some? ensures Clean(sp, ParseLine(sp, lines[n]).value) {
      ParsedClean(sp, lines[n]);
    }
  }

  lemma {:induction false} ReparsedRegular(t: Table, u: Table)
    requires |t| == |u|
    requires forall n :: 0 <= n < |t| ==>
               u[n] == if t[n].None? then None else Some(Reparsed(Columns(Rows(t)), t[n].value))
    ensures Regular(Rows(u))
  {
    var k := Columns(Rows(t));
    RowsOfTable(t);
    RowsOfTable(u);
    ColumnsBound(Rows(t));
    hide Rows, Columns, Width;
    forall r | r in Rows(u) ensures (r.cells == [] && k > 0) || |r.cells| == Max(1, k) {
      assert Row(t[r.lineNumber].value, r.lineNumber) in Rows(t);
    }
    if Rows(u) != [] {
      assert Rows(u)[0] in Rows(u);
      if k > 0 {
        var r :| r in Rows(t) && |r.cells| == k;
        assert r in Rows(u);
      }
    }
  }

  /** Whatever the document, the second pass leaves nothing to do for a third. */
  lemma {:induction false} TwoPassesSettle(sp: Spaces, lines: seq<Text>, range: Option<LineRange>)
    requires IsSpaces(sp)
    ensures var once := Formatted(sp, lines, range);
            var twice := Formatted(sp, once, range);
            Regular(Rows(TableOf(sp, once, range))) && Formatted(sp, twice, range) == twice
  {
    var once := Formatted(sp, lines, range);
    hide ParseLine, Rows, Columns, Reparsed, Regular, Formatted;
    FormattedTable(sp, lines, range);
    FormatTwice(sp, once, range);
    ReparsedRegular(TableOf(sp, lines, range), TableOf(sp, once, range));
  }

  /* The formatted text */

  ghost predicate Breakless(s: Text) {
    forall c :: c in s ==> !IsBreak(c)
  }

  /** `str.strip` removes every line terminator. */
  ghost predicate StripsBreaks(sp: Spaces) {
    IsSpaces(sp) && forall c :: IsBreak(c) ==> sp(c)
  }

  lemma {:induction false} StripEndTrailing(sp: Spaces, s: Text, t: Text)
    requires All(sp, t)
    ensures StripEnd(sp, s + t) == StripEnd(sp, s)
  {
    if t == [] {
      assert s + t == s;
    } else {
      assert (s + t)[..|s + t| - 1] == s + t[..|t| - 1];
      StripEndTrailing(sp, s, t[..|t| - 1]);
    }
  }

  lemma {:induction false} StripTrailing(sp: Spaces, s: Text, t: Text)
    requires All(sp, t)
    ensures Strip(sp, s + t) == Strip(sp, s)
  {
    var n := Span(sp, s);
    SpanCut(sp, s);
    if n == |s| {
      SpanIs(sp, s + t, []);
      assert s + t + [] == s + t && s[n..] == [];
    } else {
      var rest := s[n..] + t;
      assert s + t == s[..n] + rest;
      SpanIs(sp, s[..n], rest);
      StripEndTrailing(sp, s[n..], t);
    }
  }

  lemma {:induction false} StrippedLineBreakless(sp: Spaces, line: Text)
    requires StripsBreaks(sp) && IsLine(line)
    ensures Breakless(Strip(sp, line))
  {
    var content, t := line[..ContentLength(line)], line[ContentLength(line)..];
    assert line == content + t;
    StripTrailing(sp, content, t);
    StripStripped(sp, content);
  }

  lemma {:induction false} SplitChars(s: Text, c: CodePoint)
    ensures forall i :: 0 <= i < |Split(s)| && c in Split(s)[i] ==> c in s
  {
    if s != [] {
      SplitChars(s[1..], c);
    }
  }

  lemma {:induction false} CellsBreakless(sp: Spaces, line: Text)
    requires StripsBreaks(sp) && IsLine(line) && ParseLine(sp, line).Some?
    ensures var cells := ParseLine(sp, line).value; forall i :: 0 <= i < |cells| ==> Breakless(cells[i])
  {
    var s := Strip(sp, line);
    StrippedLineBreakless(sp, line);
    var parts := Split(s);
    SplitParts(s);
    forall i, c | 0 <= i < |parts| && c in StripAll(sp, parts)[i] ensures !IsBreak(c) {
      StripStripped(sp, parts[i]);
      SplitChars(s, c);
    }
    hide Strip, Split, IsBreak;
    var cells := StripAll(sp, parts);
    assert forall i :: 0 <= i < |CellsOf(sp, s)| ==> CellsOf(sp, s)[i] in cells;
  }

  lemma {:induction false} JoinBreakless(fields: seq<Text>)
    requires forall i :: 0 <= i < |fields| ==> Breakless(fields[i])
    ensures Breakless(Join(fields))
  {
    if |fields| > 1 {
      JoinBreakless(fields[1..]);
    }
  }

  lemma {:induction false} FieldsBreakless(widths: seq<nat>, cells: seq<Text>)
    requires |cells| <= |widths| && forall i :: 0 <= i < |cells| ==> Breakless(cells[i])
    ensures forall i :: 0 <= i < |widths| ==> Breakless(Fields(widths, cells)[i])
  {}

  /** A formatted row is one line, and it does not start with a line feed. */
  lemma {:induction false} FormattedIsLine(widths: seq<nat>, cells: seq<Text>)
    requires |cells| <= |widths| && forall i :: 0 <= i < |cells| ==> Breakless(cells[i])
    ensures var line := FormatLine(widths, cells);
            IsLine(line) && IsTerminated(line) && line != [] && line[|line| - 1] == LF && line[0] == BAR
  {
    FieldsBreakless(widths, cells);
    JoinBreakless(Fields(widths, cells));
    var inner := [BAR] + Join(Fields(widths, cells)) + [BAR];
    hide Join, Fields;
    assert Breakless(inner);
    assert FormatLine(widths, cells) == inner + [LF] && inner[|inner| - 1] == BAR;
    forall i | 0 <= i < |inner| ensures !IsBreak((inner + [LF])[i]) {
      assert inner[i] in inner;
    }
  }

  lemma {:induction false} FormattedWellSplit(sp: Spaces, lines: seq<Text>, range: Option<LineRange>)
    requires StripsBreaks(sp) && WellSplit(lines)
    ensures WellSplit(Formatted(sp, lines, range))
  {
    hide ParseLine, FormatLine, Formatted, IsLine, IsTerminated, Rows, Columns, IsBreak, Breakless;
    var t, r := TableOf(sp, lines, range), Formatted(sp, lines, range);
    var widths := Widths(Rows(t));
    FormattedLines(sp, lines, range);
    forall n | 0 <= n < |t| && t[n].Some?
      ensures IsLine(r[n]) && IsTerminated(r[n]) && r[n] != [] && r[n][|r[n]| - 1] == LF && r[n][0] == BAR
    {
      CellsBreakless(sp, lines[n]);
      FormattedIsLine(widths, t[n].value);
    }
    forall n | 0 < n < |r| ensures Follows(r[n - 1], r[n]) {
      assert Follows(lines[n - 1], lines[n]);
    }
  }

  /** The edits applied to a whole text. */
  function FormattedText(sp: Spaces, s: Text, range: Option<LineRange>): Text {
    Flatten(Formatted(sp, SplitLines(s), range))
  }

  function RowsOfText(sp: Spaces, s: Text, range: Option<LineRange>): seq<Row> {
    Rows(TableOf(sp, SplitLines(s), range))
  }

  /** The formatted text splits into the formatted lines. */
  lemma {:induction false} SplitFormatted(sp: Spaces, s: Text, range: Option<LineRange>)
    requires StripsBreaks(sp)
    ensures SplitLines(FormattedText(sp, s, range)) == Formatted(sp, SplitLines(s), range)
  {
    SplitLinesAreLines(s);
    FormattedWellSplit(sp, SplitLines(s), range);
    SplitFlatten(Formatted(sp, SplitLines(s), range));
  }

  /** Reading the formatted text gives the same cells on the same lines if and only if the table is regular. */
  lemma {:induction false} TextRoundTrip(sp: Spaces, s: Text, range: Option<LineRange>)
    requires StripsBreaks(sp)
    ensures RowsOfText(sp, FormattedText(sp, s, range), range) == RowsOfText(sp, s, range)
            <==> Regular(RowsOfText(sp, s, range))
  {
    hide Regular, SplitLines, Formatted, Rows, TableOf, FormattedText;
    SplitFormatted(sp, s, range);
    FormatRoundTrip(sp, SplitLines(s), range);
  }

  /** Formatting a formatted text changes nothing if and only if the table is regular. */
  lemma {:induction false} TextTwice(sp: Spaces, s: Text, range: Option<LineRange>)
    requires StripsBreaks(sp)
    ensures FormattedText(sp, FormattedText(sp, s, range), range) == FormattedText(sp, s, range)
            <==> Regular(RowsOfText(sp, s, range))
  {
    hide Regular, SplitLines, Formatted, Rows, TableOf, Flatten;
    var once := FormattedText(sp, s, range);
    SplitFormatted(sp, s, range);
    SplitFormatted(sp, once, range);
    FormatTwice(sp, SplitLines(s), range);
  }

  /** Whatever the text, a third pass changes nothing. */
  lemma {:induction false} TextSettles(sp: Spaces, s: Text, range: Option<LineRange>)
    requires StripsBreaks(sp)
    ensures var twice := FormattedText(sp, FormattedText(sp, s, range), range);
            FormattedText(sp, twice, range) == twice
  {
    hide Regular, SplitLines, Formatted, Rows, TableOf, Flatten;
    var once := FormattedText(sp, s, range);
    SplitFormatted(sp, s, range);
    SplitFormatted(sp, once, range);
    TwoPassesSettle(sp, SplitLines(s), range);
  }
}
