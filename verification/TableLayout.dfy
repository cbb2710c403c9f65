/** The rows of a table, character by character: which lines are read as which rows, and what is written for each. */
module TableLayout {
  import opened Unicode
  import opened Wrappers
  import opened Scanning
  import opened Formatting

  /* Reading */

  predicate WithoutBars(fields: seq<Text>) {
    forall i :: 0 <= i < |fields| ==> '|' as int !in fields[i]
  }

  /** Fields with a bar between each two. */
  function BetweenBars(fields: seq<Text>): Text
    requires fields != []
  {
    var bar: CodePoint := '|' as int;
    fields[0] + Concat(seq(|fields| - 1, i requires 0 <= i < |fields| - 1 => [bar] + fields[i + 1]))
  }

  lemma {:induction false} JoinIs(fields: seq<Text>)
    requires fields != []
    ensures Join(fields) == BetweenBars(fields)
  {
    var parts := seq(|fields| - 1, i requires 0 <= i < |fields| - 1 => [BAR] + fields[i + 1]);
    if |fields| > 1 {
      JoinIs(fields[1..]);
      assert parts[1..] == seq(|fields| - 2, i requires 0 <= i < |fields| - 2 => [BAR] + fields[1..][i + 1]);
      assert Concat(parts) == [BAR] + fields[1] + Concat(parts[1..]);
      assert fields[0] + [BAR] + (fields[1] + Concat(parts[1..])) == fields[0] + ([BAR] + fields[1] + Concat(parts[1..]));
    } else {
      assert fields[0] + [] == fields[0];
    }
  }

  /** Every text is that of some fields, in one way. */
  lemma {:induction false} EveryTextHasFields(s: Text)
    ensures WithoutBars(Split(s)) && s == BetweenBars(Split(s))
    ensures forall fields :: fields != [] && WithoutBars(fields) && s == BetweenBars(fields) ==> fields == Split(s)
  {
    SplitParts(s);
    JoinSplit(s);
    JoinIs(Split(s));
    forall fields | fields != [] && WithoutBars(fields) && s == BetweenBars(fields) ensures fields == Split(s) {
      JoinIs(fields);
      SplitJoin(fields);
    }
  }

  lemma {:induction false} JoinSplit(s: Text)
    ensures Join(Split(s)) == s
  {
    if s != [] {
      var r := Split(s[1..]);
      JoinSplit(s[1..]);
      assert s == [s[0]] + s[1..];
      if s[0] == BAR {
        assert ([[]] + r)[1..] == r && Split(s) == [[]] + r;
        assert [] + [BAR] + Join(r) == [BAR] + Join(r);
      } else {
        var t := [[s[0]] + r[0]] + r[1..];
        assert t[1..] == r[1..] && Split(s) == t;
        if |r| > 1 {
          assert ([s[0]] + r[0]) + [BAR] + Join(r[1..]) == [s[0]] + (r[0] + [BAR] + Join(r[1..]));
        }
      }
    }
  }

  /** Stripping takes the spaces from both ends, and there is one text that is left. */
  lemma {:induction false} StripBoth(sp: Spaces, a: Text, s: Text, b: Text)
    requires (forall c :: c in a || c in b ==> sp(c)) && (s != [] ==> !sp(s[0]) && !sp(s[|s| - 1]))
    ensures Strip(sp, a + s + b) == s
  {
    StripIs(sp, a, s, b);
  }

  ghost predicate OnlyDashes(cells: seq<Text>) {
    && (exists i :: 0 <= i < |cells| && cells[i] != [])
    && (forall i, c :: 0 <= i < |cells| && c in cells[i] ==> c == '-' as int)
  }

  lemma {:induction false} OnlyDashesIs(cells: seq<Text>)
    ensures OnlyDashes(cells) <==> Chars(cells) == {DASH}
  {
    if OnlyDashes(cells) {
      var i :| 0 <= i < |cells| && cells[i] != [];
      assert cells[i][0] in cells[i];
      assert cells[i][0] in Chars(cells);
    }
    if Chars(cells) == {DASH} {
      assert DASH in Chars(cells);
      forall i, c | 0 <= i < |cells| && c in cells[i] ensures c == DASH {
        assert c in Chars(cells);
      }
    }
  }

  /** A line, its fields between outer spaces: the field before a bar at the start and that after a bar at the end are
      not cells; the others are, stripped; if they are nothing but dashes the row has no cells, and without any the
      line is no row. */
  lemma {:induction false} LineIsRow(sp: Spaces, a: Text, fields: seq<Text>, b: Text) returns (cells: seq<Text>)
    requires (forall c :: c in a || c in b ==> sp(c)) && fields != [] && WithoutBars(fields)
    requires var s := BetweenBars(fields); s != [] ==> !sp(s[0]) && !sp(s[|s| - 1])
    ensures var s := BetweenBars(fields);
            var from := if s != [] && s[0] == '|' as int then 1 else 0;
            var to := if s != [] && s[|s| - 1] == '|' as int then |fields| - 1 else |fields|;
            |cells| == to - from && forall i :: 0 <= i < |cells| ==> cells[i] == Strip(sp, fields[from + i])
    ensures ParseLine(sp, a + BetweenBars(fields) + b)
         == if OnlyDashes(cells) then Some([]) else if cells == [] then None else Some(cells)
  {
    var s := BetweenBars(fields);
    EveryTextHasFields(s);
    StripBoth(sp, a, s, b);
    cells := CellsOf(sp, s);
    OnlyDashesIs(cells);
    CellsFrom(sp, s, fields);
    hide BetweenBars, Strip, Split, OnlyDashes, Chars, CellsOf, WithoutBars;
  }

  lemma {:induction false} CellsFrom(sp: Spaces, s: Text, fields: seq<Text>)
    requires fields == Split(s)
    ensures var from := if s != [] && s[0] == '|' as int then 1 else 0;
            var to := if s != [] && s[|s| - 1] == '|' as int then |fields| - 1 else |fields|;
            var cells := CellsOf(sp, s);
            |cells| == to - from && forall i :: 0 <= i < |cells| ==> cells[i] == Strip(sp, fields[from + i])
  {
    SplitParts(s);
    hide Split, Strip;
  }

  /** The rows of a document: the lines from the first to the last of the range, both counted, that are rows, each
      once and with its number, in order. */
  lemma {:induction false} RowsRead(sp: Spaces, lines: seq<Text>, range: Option<LineRange>)
    ensures var rows := Rows(TableOf(sp, lines, range));
            && (forall r :: r in rows <==>
                  && r.lineNumber < |lines| && ParseLine(sp, lines[r.lineNumber]) == Some(r.cells)
                  && (range.Some? ==> range.value.start <= r.lineNumber <= range.value.end))
            && (forall i, j :: 0 <= i < j < |rows| ==> rows[i].lineNumber < rows[j].lineNumber)
  {
    hide ParseLine, Rows;
    RowsOfTable(TableOf(sp, lines, range));
    RowsOrdered(TableOf(sp, lines, range));
  }

  lemma {:induction false} RowsOrdered(t: Table)
    ensures forall i, j :: 0 <= i < j < |Rows(t)| ==> Rows(t)[i].lineNumber < Rows(t)[j].lineNumber
  {
    if t != [] {
      var n := |t| - 1;
      RowsOrdered(t[..n]);
      RowsOfTable(t[..n]);
      forall i | 0 <= i < |Rows(t[..n])| ensures Rows(t[..n])[i].lineNumber < n {
        assert Rows(t[..n])[i] in Rows(t[..n]);
      }
    }
  }

  /* Writing */

  ghost predicate SomeCell(rows: seq<Row>, i: nat, width: nat) {
    exists r :: r in rows && i < |r.cells| && |r.cells[i]| == width
  }

  /** As many widths as the longest row has cells, each that of the widest cell of its column. */
  lemma {:induction false} WidthsTight(rows: seq<Row>)
    ensures forall r :: r in rows ==> |r.cells| <= |Widths(rows)|
    ensures forall i, r :: r in rows && 0 <= i < |r.cells| ==> |r.cells[i]| <= Widths(rows)[i]
    ensures forall i :: 0 <= i < |Widths(rows)| ==> SomeCell(rows, i, Widths(rows)[i])
  {
    ColumnsBound(rows);
    hide SomeCell, Columns, Width;
    forall i | 0 <= i < |Widths(rows)| ensures SomeCell(rows, i, Widths(rows)[i]) {
      WidthTaken(rows, i);
    }
  }

  lemma {:induction false} WidthTaken(rows: seq<Row>, i: nat)
    requires i < Columns(rows)
    ensures SomeCell(rows, i, Width(rows, i))
  {
    var n := |rows| - 1;
    var init, last := rows[..n], rows[n];
    assert last in rows && forall r :: r in init ==> r in rows;
    if i < Columns(init) {
      WidthTaken(init, i);
      var r :| r in init && i < |r.cells| && |r.cells[i]| == Width(init, i);
      assert Width(rows, i) == WidthWith(init, last.cells, i);
      if Width(rows, i) == Width(init, i) {
        assert r in rows;
      }
    } else {
      BeyondColumns(init, i);
      assert Width(rows, i) == WidthWith(init, last.cells, i);
    }
  }

  /** A cell in its column: as wide as the widest and two more, the spaces of both sides differing by one at most;
      the left has more exactly if the padding and the width are odd, the right if only the padding is. */
  ghost predicate Centred(cell: Text, width: nat, field: Text) {
    exists l: nat, r: nat :: CentredBy(cell, width, field, l, r)
  }

  ghost predicate CentredBy(cell: Text, width: nat, field: Text, l: nat, r: nat) {
    && |field| == l + |cell| + r == width
    && (forall i :: 0 <= i < l ==> field[i] == ' ' as int)
    && field[l..l + |cell|] == cell
    && (forall i :: l + |cell| <= i < |field| ==> field[i] == ' ' as int)
    && -1 <= l - r <= 1
    && (l > r <==> (l + r) % 2 == 1 && width % 2 == 1)
    && (l < r <==> (l + r) % 2 == 1 && width % 2 == 0)
  }

  lemma {:induction false} CenterIsCentred(cell: Text, width: nat)
    requires |cell| <= width
    ensures Centred(cell, width, Center(cell, width))
  {
    if |cell| == width {
      assert CentredBy(cell, width, Center(cell, width), 0, 0);
    } else {
      var pad := width - |cell|;
      var l := pad / 2 + (if pad % 2 == 1 && width % 2 == 1 then 1 else 0);
      var a, b := Repeat(SPACE, l), Repeat(SPACE, pad - l);
      assert Center(cell, width) == a + cell + b;
      hide Center;
      assert CentredBy(cell, width, a + cell + b, l, pad - l);
    }
  }

  /** In a row without cells, dashes, two more than the column is wide; in any other the cell, centred, or a single
      space if there is none. */
  ghost predicate FieldIs(width: nat, cells: seq<Text>, i: nat, field: Text) {
    if cells == [] then |field| == width + 2 && forall c :: c in field ==> c == '-' as int
    else if i < |cells| then Centred(cells[i], width + 2, field)
    else field == [' ' as int]
  }

  /** What is written for a row: a field for each column, between bars and with a line feed at the end. */
  lemma {:induction false} LineOfRow(widths: seq<nat>, cells: seq<Text>)
    requires |cells| <= |widths| && forall i :: 0 <= i < |cells| ==> |cells[i]| <= widths[i]
    ensures var fields := Fields(widths, cells);
            && |fields| == |widths|
            && FormatLine(widths, cells)
               == ['|' as int] + (if fields == [] then [] else BetweenBars(fields)) + ['|' as int, '\n' as int]
            && forall i :: 0 <= i < |fields| ==> FieldIs(widths[i], cells, i, fields[i])
  {
    var fields := Fields(widths, cells);
    if fields != [] {
      JoinIs(fields);
    }
    forall i | 0 <= i < |fields| ensures FieldIs(widths[i], cells, i, fields[i]) {
      FieldOfRow(widths, cells, i);
    }
    hide Join, BetweenBars, FieldIs;
    assert FormatLine(widths, cells) == [BAR] + Join(fields) + ([BAR] + [LF]);
  }

  lemma {:induction false} FieldOfRow(widths: seq<nat>, cells: seq<Text>, i: nat)
    requires |cells| <= |widths| && i < |widths| && (i < |cells| ==> |cells[i]| <= widths[i])
    ensures FieldIs(widths[i], cells, i, Fields(widths, cells)[i])
  {
    hide Centred, Center;
    if i < |cells| {
      CenterIsCentred(cells[i], widths[i] + 2);
    }
  }

  /** One edit for each row in the range, in order. */
  lemma {:induction false} EditsInRange(widths: seq<nat>, a: seq<Row>, r: Row, b: seq<Row>, range: Option<LineRange>)
    requires forall q :: q in a + [r] + b ==> |q.cells| <= |widths|
    ensures (forall q :: q in a || q in b || q == r ==> |q.cells| <= |widths|) && Edits(widths, [], range) == []
    ensures Edits(widths, a + [r] + b, range)
         == Edits(widths, a, range)
            + (if range.None? || range.value.start <= r.lineNumber <= range.value.end
               then [TextEdit(r.lineNumber, FormatLine(widths, r.cells))] else [])
            + Edits(widths, b, range)
    decreases |b|
  {
    hide FormatLine, Edits, SkipLine;
    EditsLast(widths, a, r, range);
    if b == [] {
      assert a + [r] + b == a + [r];
    } else {
      var init, last := b[..|b| - 1], b[|b| - 1];
      assert a + [r] + b == (a + [r] + init) + [last] && b == init + [last];
      EditsInRange(widths, a, r, init, range);
      EditsLast(widths, a + [r] + init, last, range);
      EditsLast(widths, init, last, range);
    }
  }

  lemma {:induction false} EditsLast(widths: seq<nat>, rows: seq<Row>, r: Row, range: Option<LineRange>)
    requires forall q :: q in rows + [r] ==> |q.cells| <= |widths|
    ensures (forall q :: q in rows || q == r ==> |q.cells| <= |widths|) && Edits(widths, [], range) == []
    ensures Edits(widths, rows + [r], range)
         == Edits(widths, rows, range)
            + if range.None? || range.value.start <= r.lineNumber <= range.value.end
              then [TextEdit(r.lineNumber, FormatLine(widths, r.cells))] else []
  {
    hide FormatLine;
    var all := rows + [r];
    assert (forall q :: q in rows ==> q in all) && r in all && all[..|rows|] == rows;
  }
}
