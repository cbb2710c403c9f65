/** The formatter's edits, applied by a client that splits its document only at the protocol's line terminators. */
module ClientFormatting {
  import opened Unicode
  import opened Lines
  import opened PositionCodec
  import opened TextDocument
  import opened Convergence
  import opened Formatting
  import opened Wrappers

  /* Where the client's lines start */

  predicate LspTerminated(line: Text) {
    line != [] && (line[|line| - 1] == LF || line[|line| - 1] == CR)
  }

  lemma {:induction false} UnitsOfOther(enc: Encoding, c: CodePoint)
    requires c != LF && c != CR
    ensures forall i :: 0 <= i < |EncodeChar(enc, c)| ==> !IsEol(EncodeChar(enc, c)[i])
  {
    match enc
    case Utf32 =>
    case Utf16 => assert EncodeChar(enc, c) == EncodeUtf16(c);
    case Utf8 => assert EncodeChar(enc, c) == EncodeUtf8(c);
  }

  lemma {:induction false} OtherUnits(enc: Encoding, s: Text)
    requires LF !in s && CR !in s
    ensures forall i :: 0 <= i < |Encode(enc, s)| ==> !IsEol(Encode(enc, s)[i])
  {
    if s != [] {
      OtherUnits(enc, s[..|s| - 1]);
      UnitsOfOther(enc, s[|s| - 1]);
    }
  }

  /** What a line is, for the client: content and a terminator, or no terminator at all. */
  lemma {:induction false} LineParts(line: Text) returns (content: Text, t: Text)
    requires IsLine(line)
    ensures line == content + t && LF !in content && CR !in content
    ensures if LspTerminated(line) then t == [CR, LF] || t == [LF] || t == [CR] else t == [] && content != []
  {
    if LspTerminated(line) {
      content, t := line[..ContentLength(line)], line[ContentLength(line)..];
    } else {
      content, t := line, [];
    }
  }

  /** The client's first line is the server's, or goes on into the next if it ends otherwise. */
  lemma {:induction false} FirstClientLine(enc: Encoding, line: Text, rest: Text)
    requires IsLine(line) && (rest != [] ==> Follows(line, rest))
    ensures Encode(enc, line) != []
    ensures LspTerminated(line) || rest == [] ==>
              ClientLine(Encode(enc, line) + Encode(enc, rest)) == |Encode(enc, line)|
    ensures !LspTerminated(line) && rest != [] ==>
              && Encode(enc, rest) != []
              && ClientLine(Encode(enc, line) + Encode(enc, rest)) == |Encode(enc, line)| + ClientLine(Encode(enc, rest))
  {
    var content, t := LineParts(line);
    assert line[|line| - 1] == CR ==> t != [] && t[|t| - 1] == CR;
    EncodeLength(enc, line);
    UnitsPositive(enc, line);
    hide Encode, ClientNumUnits, IsLine, ContentLength, ClientLine, IsEol;
    EncodeAppend(enc, content, t);
    OtherUnits(enc, content);
    if rest != [] {
      FirstUnitLf(enc, rest);
    }
    if t == [] {
      assert content == line;
      if rest != [] {
        ClientLineSkips(Encode(enc, line), Encode(enc, rest));
      } else {
        NoUnits(enc);
        assert Encode(enc, line) + Encode(enc, rest) == Encode(enc, line);
        ClientLineWhole(Encode(enc, line));
      }
    } else {
      EncodeTerminator(enc, t);
      NoUnits(enc);
      UnitsOfLine(Encode(enc, content), t, Encode(enc, rest));
    }
  }

  lemma {:induction false} NoUnits(enc: Encoding)
    ensures Encode(enc, []) == []
  {}

  lemma {:induction false} LineStartMore(b: seq<nat>, k: nat)
    ensures LineStart(b, k) <= LineStart(b, k + 1)
  {
    if k > 0 && b != [] {
      LineStartMore(b[ClientLine(b)..], k - 1);
    }
  }

  lemma {:induction false} LineStartCons(e: seq<nat>, r: seq<nat>, k: nat)
    requires e != [] && k > 0
    ensures ClientLine(e + r) == |e| ==> LineStart(e + r, k) == |e| + LineStart(r, k - 1)
    ensures r != [] && ClientLine(e + r) == |e| + ClientLine(r) ==> LineStart(e + r, k) == |e| + LineStart(r, k)
  {
    assert (e + r)[|e|..] == r;
    if r != [] {
      assert (e + r)[|e| + ClientLine(r)..] == r[ClientLine(r)..];
    }
  }

  ghost predicate OwnLines(lines: seq<Text>, k: nat)
    requires k <= |lines|
  {
    forall j :: 0 <= j < k ==> LspTerminated(lines[j])
  }

  /** A line starts at the same place for both, or later for the client; at the same if and only if the lines before
      it end as the protocol says, or it is the end of the text. */
  lemma {:induction false} LineStarts(enc: Encoding, lines: seq<Text>, k: nat)
    requires WellSplit(lines) && k <= |lines|
    ensures var b, o := Encode(enc, Flatten(lines)), |Encode(enc, Flatten(lines[..k]))|;
            && o <= LineStart(b, k)
            && (LineStart(b, k) == o <==> k == |lines| || OwnLines(lines, k))
            && (k == |lines| ==> LineStart(b, k) == |b|)
    decreases |lines|, 0
  {
    hide Encode, Flatten, LineStart, ClientLine, IsLine, IsTerminated, LspTerminated, OwnLines;
    if k == 0 {
      NoLineBefore(enc, lines);
    } else {
      var line, rest := lines[0], lines[1..];
      TailFollows(lines);
      LinePrefix(enc, lines, k);
      FirstClientLine(enc, line, Flatten(rest));
      LineStartCons(Encode(enc, line), Encode(enc, Flatten(rest)), k);
      if LspTerminated(line) || rest == [] {
        LineStarts(enc, rest, k - 1);
        OwnTail(lines, k);
      } else {
        LaterStart(enc, rest, k);
        NotOwn(lines, k);
      }
    }
  }

  lemma {:induction false} NoLineBefore(enc: Encoding, lines: seq<Text>)
    ensures Encode(enc, Flatten(lines[..0])) == [] && OwnLines(lines, 0)
    ensures LineStart(Encode(enc, Flatten(lines)), 0) == 0 && (lines == [] ==> Encode(enc, Flatten(lines)) == [])
  {}

  lemma {:induction false} LinePrefix(enc: Encoding, lines: seq<Text>, k: nat)
    requires 0 < k <= |lines|
    ensures Encode(enc, Flatten(lines)) == Encode(enc, lines[0]) + Encode(enc, Flatten(lines[1..]))
    ensures Encode(enc, Flatten(lines[..k])) == Encode(enc, lines[0]) + Encode(enc, Flatten(lines[1..][..k - 1]))
  {
    hide Encode, Flatten;
    FlattenCons(lines);
    FlattenCons(lines[..k]);
    assert lines[..k][1..] == lines[1..][..k - 1] && lines[..k][0] == lines[0];
    EncodeAppend(enc, lines[0], Flatten(lines[1..]));
    EncodeAppend(enc, lines[0], Flatten(lines[1..][..k - 1]));
  }

  lemma {:induction false} NotOwn(lines: seq<Text>, k: nat)
    requires 0 < k <= |lines| && !LspTerminated(lines[0])
    ensures !OwnLines(lines, k)
  {}

  lemma {:induction false} TailFollows(lines: seq<Text>)
    requires WellSplit(lines) && lines != []
    ensures WellSplit(lines[1..]) && (Flatten(lines[1..]) == [] <==> lines[1..] == [])
    ensures Flatten(lines[1..]) != [] ==> Follows(lines[0], Flatten(lines[1..]))
  {
    var rest := lines[1..];
    if rest != [] {
      FlattenCons(rest);
      assert Follows(lines[0], lines[1]);
      assert rest[0] == lines[1];
    }
    forall i | 0 < i < |rest| ensures Follows(rest[i - 1], rest[i]) {
      assert Follows(lines[i], lines[i + 1]);
    }
  }

  lemma {:induction false} OwnTail(lines: seq<Text>, k: nat)
    requires 0 < k <= |lines|
    ensures LspTerminated(lines[0]) ==> (OwnLines(lines, k) <==> OwnLines(lines[1..], k - 1))
  {
    if OwnLines(lines[1..], k - 1) && LspTerminated(lines[0]) {
      forall j | 0 <= j < k ensures LspTerminated(lines[j]) {
        assert j > 0 ==> lines[1..][j - 1] == lines[j];
      }
    }
  }

  /** Where the client's first line has swallowed a line of the server's. */
  lemma {:induction false} LaterStart(enc: Encoding, rest: seq<Text>, k: nat)
    requires WellSplit(rest) && rest != [] && 0 < k <= |rest| + 1
    ensures var b := Encode(enc, Flatten(rest));
            && |Encode(enc, Flatten(rest[..k - 1]))| <= LineStart(b, k)
            && (k <= |rest| ==> |Encode(enc, Flatten(rest[..k - 1]))| < LineStart(b, k))
            && (k == |rest| + 1 ==> LineStart(b, k) == |b| == |Encode(enc, Flatten(rest[..k - 1]))|)
    decreases |rest|, 2
  {
    assert forall i :: 0 <= i < |rest| ==> rest[i] != [];
    hide Encode, Flatten, LineStart, ClientLine, IsLine, Follows, WellSplit;
    var b := Encode(enc, Flatten(rest));
    if k <= |rest| {
      LineStarts(enc, rest, k);
      LongerPrefix(enc, rest, k - 1);
    } else {
      WholeStart(enc, rest);
    }
  }

  lemma {:induction false} WholeStart(enc: Encoding, rest: seq<Text>)
    requires WellSplit(rest) && rest != []
    ensures LineStart(Encode(enc, Flatten(rest)), |rest| + 1) == |Encode(enc, Flatten(rest))|
    ensures rest[..|rest|] == rest
    decreases |rest|, 1
  {
    hide Encode, Flatten, LineStart, WellSplit, OwnLines;
    LineStarts(enc, rest, |rest|);
    LineStartMore(Encode(enc, Flatten(rest)), |rest|);
  }

  lemma {:induction false} LongerPrefix(enc: Encoding, lines: seq<Text>, k: nat)
    requires k < |lines| && lines[k] != []
    ensures |Encode(enc, Flatten(lines[..k]))| < |Encode(enc, Flatten(lines[..k + 1]))|
  {
    hide Encode, Flatten, ClientNumUnits;
    FlattenSnoc(lines, k);
    EncodeAppend(enc, Flatten(lines[..k]), lines[k]);
    EncodeLength(enc, lines[k]);
    UnitsPositive(enc, lines[k]);
  }

  /** The start of a line, as a place of the client's. */
  lemma {:induction false} StartPlaces(enc: Encoding, lines: seq<Text>, k: nat)
    requires WellSplit(lines) && k <= |lines|
    ensures ClientOffset(Encode(enc, Flatten(lines)), Pos(k, 0)) == |Encode(enc, Flatten(lines[..k]))|
            <==> k == |lines| || OwnLines(lines, k)
  {
    LineStarts(enc, lines, k);
  }

  /* The edits */

  /** One whole line replaced. */
  function LineEdit(e: TextEdit): Edit {
    Replace(Span(Pos(e.line, 0), Pos(e.line + 1, 0)), e.newText)
  }

  /** The edits refer to the document as it was, so the client applies the last one first. */
  function ClientEdits(enc: Encoding, b: seq<nat>, edits: seq<TextEdit>): seq<nat>
    decreases |edits|
  {
    if edits == [] then b
    else ClientEdits(enc, ClientApply(enc, b, LineEdit(edits[|edits| - 1])), edits[..|edits| - 1])
  }

  function EditsOf(sp: Spaces, s: Text, range: Option<LineRange>): seq<TextEdit> {
    var rows := RowsOfText(sp, s, range);
    ColumnsBound(rows);
    Edits(Widths(rows), rows, range)
  }

  /** What the client has after formatting the document. */
  function ClientPass(enc: Encoding, sp: Spaces, s: Text, range: Option<LineRange>): seq<nat> {
    ClientEdits(enc, Encode(enc, s), EditsOf(sp, s, range))
  }

  /** Up to the last row, every line ends as the protocol says; the very last line may end otherwise. */
  ghost predicate RowsPlaced(lines: seq<Text>, t: Table) {
    |t| == |lines| && forall n :: 0 <= n < |t| && t[n].Some? ==> LinePlaced(lines, n)
  }

  ghost predicate LinePlaced(lines: seq<Text>, n: nat)
    requires n < |lines|
  {
    OwnLines(lines, n) && (n + 1 == |lines| || LspTerminated(lines[n]))
  }

  /** The client finds the line where it is. */
  ghost predicate Found(enc: Encoding, s: Text, lines: seq<Text>, n: nat)
    requires n < |lines|
  {
    && ClientOffset(Encode(enc, s), Pos(n, 0)) == |Encode(enc, Flatten(lines[..n]))|
    && ClientOffset(Encode(enc, s), Pos(n + 1, 0)) == |Encode(enc, Flatten(lines[..n + 1]))|
  }

  lemma {:induction false} LineFound(enc: Encoding, lines: seq<Text>, n: nat)
    requires WellSplit(lines) && n < |lines|
    ensures Found(enc, Flatten(lines), lines, n) <==> LinePlaced(lines, n)
  {
    hide Encode, Flatten, ClientOffset, WellSplit, LspTerminated;
    StartPlaces(enc, lines, n);
    StartPlaces(enc, lines, n + 1);
  }

  /** The client finds every row if and only if that is so. */
  lemma {:induction false} RowsFound(enc: Encoding, sp: Spaces, s: Text, range: Option<LineRange>)
    ensures var lines := SplitLines(s);
            var t := TableOf(sp, lines, range);
            RowsPlaced(lines, t) <==> forall n :: 0 <= n < |t| && t[n].Some? ==> Found(enc, s, lines, n)
  {
    var lines := SplitLines(s);
    SplitLinesAreLines(s);
    FlattenSplitLines(s);
    hide SplitLines, Found, LinePlaced, WellSplit, TableOf, Flatten;
    forall n | 0 <= n < |lines| ensures Found(enc, s, lines, n) <==> LinePlaced(lines, n) {
      LineFound(enc, lines, n);
    }
  }

  lemma {:induction false} SpliceOfThree(enc: Encoding, before: Text, line: Text, after: Text, text: Text)
    ensures var b := Encode(enc, before + line + after);
            var i, j := |Encode(enc, before)|, |Encode(enc, before + line)|;
            i <= |b| && j <= |b| && b[..i] + Encode(enc, text) + b[j..] == Encode(enc, before + text + after)
  {
    hide Encode;
    EncodeAppend(enc, before + line, after);
    EncodeAppend(enc, before, line);
    EncodeAppend(enc, before + text, after);
    EncodeAppend(enc, before, text);
  }

  /** Replacing a line whose start and end the client finds. */
  lemma {:induction false} LineReplaced(enc: Encoding, lines: seq<Text>, n: nat, text: Text)
    requires WellSplit(lines) && n < |lines| && LinePlaced(lines, n)
    ensures ClientApply(enc, Encode(enc, Flatten(lines)), LineEdit(TextEdit(n, text))) == Encode(enc, Flatten(lines[n := text]))
  {
    hide Encode, Flatten, ClientOffset, WellSplit, LinePlaced;
    LineFound(enc, lines, n);
    var before, after := Flatten(lines[..n]), Flatten(lines[n + 1..]);
    FlattenAround(lines, n);
    FlattenSnoc(lines, n);
    FlattenAround(lines[n := text], n);
    assert lines[n := text][..n] == lines[..n] && lines[n := text][n + 1..] == lines[n + 1..];
    SpliceOfThree(enc, before, lines[n], after, text);
  }

  /** The document when the rows from line `k` on have been replaced. */
  function HalfWay(lines: seq<Text>, r: seq<Text>, k: nat): seq<Text>
    requires k <= |lines| == |r|
  {
    lines[..k] + r[k..]
  }

  lemma {:induction false} HalfWaySplit(sp: Spaces, lines: seq<Text>, range: Option<LineRange>, k: nat)
    requires StripsBreaks(sp) && WellSplit(lines) && k <= |lines|
    ensures WellSplit(HalfWay(lines, Formatted(sp, lines, range), k))
  {
    hide ParseLine, FormatLine, Formatted, IsLine, IsTerminated, Rows, Columns, IsBreak, Breakless;
    var t, r := TableOf(sp, lines, range), Formatted(sp, lines, range);
    var h := HalfWay(lines, r, k);
    FormattedLines(sp, lines, range);
    FormattedWellSplit(sp, lines, range);
    forall n | 0 < n < |h| ensures Follows(h[n - 1], h[n]) {
      assert Follows(lines[n - 1], lines[n]) && Follows(r[n - 1], r[n]);
      if n == k && t[n].Some? {
        CellsBreakless(sp, lines[n]);
        FormattedIsLine(Widths(Rows(t)), t[n].value);
      }
    }
  }

  lemma {:induction false} EditsBackwards(enc: Encoding, sp: Spaces, lines: seq<Text>, range: Option<LineRange>, k: nat)
    requires StripsBreaks(sp) && WellSplit(lines) && k <= |lines| && RowsPlaced(lines, TableOf(sp, lines, range))
    ensures var t, r := TableOf(sp, lines, range), Formatted(sp, lines, range);
            var widths := Widths(Rows(t));
            && (forall q :: q in Rows(t[..k]) ==> |q.cells| <= |widths|)
            && ClientEdits(enc, Encode(enc, Flatten(HalfWay(lines, r, k))), Edits(widths, Rows(t[..k]), range)) == Encode(enc, Flatten(r))
  {
    hide TableOf, Formatted, FormatLine, Rows, Columns, Width, Edits, Encode, Flatten, ClientApply, ClientEdits, HalfWay, WellSplit, LinePlaced, RowsPlaced;
    var t, r := TableOf(sp, lines, range), Formatted(sp, lines, range);
    var widths := Widths(Rows(t));
    if k == 0 {
      NoEditsYet(enc, widths, t, lines, r, range);
    } else {
      EditsBackwards(enc, sp, lines, range, k - 1);
      OneEditMore(sp, lines, range, k);
      NextHalf(lines, r, k);
      var before := Rows(t[..k - 1]);
      if t[k - 1].Some? {
        var row := Row(t[k - 1].value, k - 1);
        HalfWaySplit(sp, lines, range, k);
        HalfWayPlaced(lines, r, t, k);
        LineReplaced(enc, HalfWay(lines, r, k), k - 1, r[k - 1]);
        LastEdit(enc, Encode(enc, Flatten(HalfWay(lines, r, k))), Edits(widths, before, range), TextEdit(k - 1, r[k - 1]));
      }
    }
  }

  lemma {:induction false} NoEditsYet(enc: Encoding, widths: seq<nat>, t: Table, lines: seq<Text>, r: seq<Text>, range: Option<LineRange>)
    requires |lines| == |r|
    ensures Rows(t[..0]) == [] && HalfWay(lines, r, 0) == r && Edits(widths, [], range) == []
    ensures ClientEdits(enc, Encode(enc, Flatten(r)), []) == Encode(enc, Flatten(r))
  {}

  /** The edit of one row more, if the line is a row. */
  lemma {:induction false} OneEditMore(sp: Spaces, lines: seq<Text>, range: Option<LineRange>, k: nat)
    requires 0 < k <= |lines|
    requires var t := TableOf(sp, lines, range); forall q :: q in Rows(t[..k - 1]) ==> |q.cells| <= |Widths(Rows(t))|
    ensures var t, r := TableOf(sp, lines, range), Formatted(sp, lines, range);
            var widths := Widths(Rows(t));
            && (forall q :: q in Rows(t[..k]) ==> |q.cells| <= |widths|)
            && (if t[k - 1].Some? then
                  Edits(widths, Rows(t[..k]), range) == Edits(widths, Rows(t[..k - 1]), range) + [TextEdit(k - 1, r[k - 1])]
                else Rows(t[..k]) == Rows(t[..k - 1]) && r[k - 1] == lines[k - 1])
  {
    var t := TableOf(sp, lines, range);
    FormattedLines(sp, lines, range);
    RowsSnoc(t, k - 1);
    assert t[k - 1].Some? ==> !SkipLine(k - 1, range);
    hide TableOf, Formatted, FormatLine, Rows, Columns, Width, Edits, SkipLine;
    if t[k - 1].Some? {
      var row := Row(t[k - 1].value, k - 1);
      EditsSnoc(Widths(Rows(t)), Rows(t[..k - 1]), row, range);
    } else {
      assert Rows(t[..k]) == Rows(t[..k - 1]);
    }
  }

  lemma {:induction false} LastEdit(enc: Encoding, b: seq<nat>, edits: seq<TextEdit>, e: TextEdit)
    ensures ClientEdits(enc, b, edits + [e]) == ClientEdits(enc, ClientApply(enc, b, LineEdit(e)), edits)
  {
    assert (edits + [e])[..|edits|] == edits;
  }

  lemma {:induction false} NextHalf(lines: seq<Text>, r: seq<Text>, k: nat)
    requires 0 < k <= |lines| == |r|
    ensures HalfWay(lines, r, k)[k - 1 := r[k - 1]] == HalfWay(lines, r, k - 1)
    ensures lines[k - 1] == r[k - 1] ==> HalfWay(lines, r, k) == HalfWay(lines, r, k - 1)
  {
    assert lines[..k][..k - 1] == lines[..k - 1];
  }

  lemma {:induction false} HalfWayPlaced(lines: seq<Text>, r: seq<Text>, t: Table, k: nat)
    requires 0 < k <= |lines| == |r| && RowsPlaced(lines, t) && t[k - 1].Some?
    ensures var h := HalfWay(lines, r, k);
            |h| == |lines| && LinePlaced(h, k - 1)
  {}

  /** Then the client has the formatted text. */
  lemma {:induction false} ClientFormats(enc: Encoding, sp: Spaces, s: Text, range: Option<LineRange>)
    requires StripsBreaks(sp) && RowsPlaced(SplitLines(s), TableOf(sp, SplitLines(s), range))
    ensures ClientPass(enc, sp, s, range) == Encode(enc, FormattedText(sp, s, range))
  {
    var lines := SplitLines(s);
    var t, r := TableOf(sp, lines, range), Formatted(sp, lines, range);
    SplitLinesAreLines(s);
    FlattenSplitLines(s);
    EditsBackwards(enc, sp, lines, range, |lines|);
    assert t[..|t|] == t && HalfWay(lines, r, |lines|) == lines;
  }

  /** The formatted text can be formatted again. */
  lemma {:induction false} PlacedAgain(sp: Spaces, s: Text, range: Option<LineRange>)
    requires StripsBreaks(sp) && RowsPlaced(SplitLines(s), TableOf(sp, SplitLines(s), range))
    ensures var next := SplitLines(FormattedText(sp, s, range)); RowsPlaced(next, TableOf(sp, next, range))
  {
    hide Formatted, TableOf, SplitLines, Rows, Columns, FormatLine, Reparsed, FormattedText, LspTerminated;
    var lines := SplitLines(s);
    var t, r := TableOf(sp, lines, range), Formatted(sp, lines, range);
    SplitFormatted(sp, s, range);
    FormattedLines(sp, lines, range);
    FormattedTable(sp, lines, range);
    forall n | 0 <= n < |t| && (t[n].Some? || LspTerminated(lines[n])) ensures LspTerminated(r[n]) {
      if t[n].Some? {
        FormattedTerminated(Widths(Rows(t)), t[n].value);
      }
    }
    StillPlaced(lines, r, t, TableOf(sp, r, range));
  }

  lemma {:induction false} FormattedTerminated(widths: seq<nat>, cells: seq<Text>)
    requires |cells| <= |widths|
    ensures LspTerminated(FormatLine(widths, cells))
  {
    hide Join, Fields;
  }

  lemma {:induction false} StillPlaced(lines: seq<Text>, r: seq<Text>, t: Table, u: Table)
    requires RowsPlaced(lines, t) && |r| == |lines| == |u|
    requires forall n :: 0 <= n < |t| && u[n].Some? ==> t[n].Some?
    requires forall n :: 0 <= n < |t| && (t[n].Some? || LspTerminated(lines[n])) ==> LspTerminated(r[n])
    ensures RowsPlaced(r, u)
  {
    hide LspTerminated;
  }

  /* Characters */

  lemma {:induction false} CellChars(sp: Spaces, line: Text, c: CodePoint)
    requires ParseLine(sp, line).Some?
    ensures var cells := ParseLine(sp, line).value; forall i :: 0 <= i < |cells| && c in cells[i] ==> c in line
  {
    var s := Strip(sp, line);
    StripStripped(sp, line);
    SplitParts(s);
    SplitChars(s, c);
    forall i | 0 <= i < |Split(s)| && c in StripAll(sp, Split(s))[i] ensures c in line {
      StripStripped(sp, Split(s)[i]);
    }
    hide Strip, Split;
    var cells := StripAll(sp, Split(s));
    assert forall i :: 0 <= i < |CellsOf(sp, s)| ==> CellsOf(sp, s)[i] in cells;
  }

  lemma {:induction false} JoinChars(fields: seq<Text>, c: CodePoint)
    ensures c in Join(fields) && c != BAR ==> exists i :: 0 <= i < |fields| && c in fields[i]
  {
    if |fields| > 1 {
      JoinChars(fields[1..], c);
      if c in Join(fields[1..]) && c != BAR {
        var i :| 0 <= i < |fields[1..]| && c in fields[1..][i];
        assert c in fields[i + 1];
      }
    }
  }

  predicate IsLayout(c: CodePoint) {
    c == BAR || c == DASH || c == SPACE || c == LF
  }

  lemma {:induction false} FormatChars(widths: seq<nat>, cells: seq<Text>, c: CodePoint)
    requires |cells| <= |widths| && c in FormatLine(widths, cells) && !IsLayout(c)
    ensures exists i :: 0 <= i < |cells| && c in cells[i]
  {
    JoinChars(Fields(widths, cells), c);
    assert c in Join(Fields(widths, cells));
    var i :| 0 <= i < |widths| && c in Fields(widths, cells)[i];
  }

  lemma {:induction false} FlattenChars(lines: seq<Text>, c: CodePoint)
    ensures c in Flatten(lines) <==> exists i :: 0 <= i < |lines| && c in lines[i]
  {
    if lines != [] {
      var n := |lines| - 1;
      FlattenChars(lines[..n], c);
      if i :| 0 <= i < |lines| && c in lines[i] && i < n {
        assert c in lines[..n][i];
      }
    }
  }

  /** Formatting brings in bars, dashes, spaces and line feeds only. */
  lemma {:induction false} FormattedChars(sp: Spaces, s: Text, range: Option<LineRange>, c: CodePoint)
    requires c in FormattedText(sp, s, range) && !IsLayout(c)
    ensures c in s
  {
    var lines := SplitLines(s);
    var t, r := TableOf(sp, lines, range), Formatted(sp, lines, range);
    FlattenSplitLines(s);
    FlattenChars(lines, c);
    FlattenChars(r, c);
    FormattedLines(sp, lines, range);
    hide Formatted, SplitLines, Rows, Columns, FormatLine, ParseLine;
    var n :| 0 <= n < |r| && c in r[n];
    if t[n].Some? {
      FormatChars(Widths(Rows(t)), t[n].value, c);
      CellChars(sp, lines[n], c);
    }
  }

  /* What the client sees */

  /** For a client, with a document in which the rows are placed: each pass leaves it the formatted text; the second
      changes nothing if and only if the table is regular, which is when the first leaves the same rows; and the
      third never does. */
  lemma {:induction false} ClientPasses(enc: Encoding, sp: Spaces, s: Text, range: Option<LineRange>)
    requires StripsBreaks(sp) && SurrogateFree(s) && RowsPlaced(SplitLines(s), TableOf(sp, SplitLines(s), range))
    ensures var once, twice := FormattedText(sp, s, range), FormattedText(sp, FormattedText(sp, s, range), range);
            && ClientPass(enc, sp, s, range) == Encode(enc, once)
            && (RowsOfText(sp, once, range) == RowsOfText(sp, s, range) <==> Regular(RowsOfText(sp, s, range)))
            && (ClientPass(enc, sp, once, range) == ClientPass(enc, sp, s, range) <==> Regular(RowsOfText(sp, s, range)))
            && ClientPass(enc, sp, twice, range) == ClientPass(enc, sp, once, range)
  {
    var once, twice := FormattedText(sp, s, range), FormattedText(sp, FormattedText(sp, s, range), range);
    PlacedAgain(sp, s, range);
    PlacedAgain(sp, once, range);
    ClientFormats(enc, sp, s, range);
    ClientFormats(enc, sp, once, range);
    ClientFormats(enc, sp, twice, range);
    TextRoundTrip(sp, s, range);
    TextTwice(sp, s, range);
    TextSettles(sp, s, range);
    FormattedSurrogateFree(sp, s, range);
    FormattedSurrogateFree(sp, once, range);
    hide FormattedText, Regular, RowsOfText, ClientPass, Encode, SurrogateFree, RowsPlaced;
    if Encode(enc, twice) == Encode(enc, once) {
      EncodeInjective(enc, twice, once);
    }
  }

  lemma {:induction false} FormattedSurrogateFree(sp: Spaces, s: Text, range: Option<LineRange>)
    requires SurrogateFree(s)
    ensures SurrogateFree(FormattedText(sp, s, range))
  {
    hide FormattedText;
    var r := FormattedText(sp, s, range);
    forall i | 0 <= i < |r| ensures !IsSurrogate(r[i]) {
      if !IsLayout(r[i]) {
        FormattedChars(sp, s, range, r[i]);
      }
    }
  }

  /** Texts with the protocol's terminators only are such documents. */
  lemma {:induction false} LspTextPlaced(sp: Spaces, s: Text, range: Option<LineRange>)
    requires LspText(s)
    ensures RowsPlaced(SplitLines(s), TableOf(sp, SplitLines(s), range))
  {
    var lines := SplitLines(s);
    SplitLinesAreLines(s);
    SplitLspText(s);
    hide SplitLines, TableOf, ContentLength;
    forall j | 0 <= j < |lines| - 1 ensures LspTerminated(lines[j]) {
      assert Follows(lines[j], lines[j + 1]);
      TerminatedByEol(lines[j]);
    }
  }

  lemma {:induction false} TerminatedByEol(line: Text)
    requires IsTerminated(line) && LspText(line)
    ensures LspTerminated(line)
  {}

  /* A form feed */

  const FORM_FEED: CodePoint := 0x0C
  const FED: seq<Text> := [[BAR, FORM_FEED], [BAR, LF], AB + [LF]]

  lemma {:induction false} FedLines()
    ensures SplitLines(Flatten(FED)) == FED && WellSplit(FED)
    ensures Flatten(FED) == [BAR, FORM_FEED, BAR, LF] + AB + [LF]
  {
    FlattenCons(FED);
    FlattenCons(FED[1..]);
    FlattenSingle(FED[2]);
    assert FED[1..][1..] == [FED[2]] && FED[1..][0] == FED[1];
    FedSplit();
    SplitFlatten(FED);
  }

  lemma {:induction false} FedSplit()
    ensures WellSplit(FED)
  {
    forall i | 0 <= i < 3 ensures IsLine(FED[i]) {
    }
    assert Follows(FED[0], FED[1]) && Follows(FED[1], FED[2]);
  }

  lemma {:induction false} LoneBar(sp: Spaces, c: CodePoint)
    requires StripsBreaks(sp) && sp(c)
    ensures ParseLine(sp, [BAR, c]) == None
  {
    assert [] + [BAR] + [c] == [BAR, c];
    StripIs(sp, [], [BAR], [c]);
    SplitParts([BAR]);
    assert Split([]) == [[]] && [BAR][1..] == [];
    assert Split([BAR]) == [[], []];
    assert CellsOf(sp, [BAR]) == [];
    assert Chars([]) == {};
  }

  lemma {:induction false} LoneCell(sp: Spaces)
    requires StripsBreaks(sp) && !sp(AB[0]) && !sp(AB[1])
    ensures ParseLine(sp, AB + [LF]) == Some([AB])
  {
    assert [] + AB + [LF] == AB + [LF] && [] + AB + [] == AB;
    StripIs(sp, [], AB, [LF]);
    StripIs(sp, [], AB, []);
    SplitField(AB, []);
    SplitParts(AB);
    hide Strip, Split;
    assert StripAll(sp, [AB]) == [AB];
    assert CellsOf(sp, AB) == [AB];
    assert AB[0] in AB && AB in [AB];
    assert AB[0] in Chars([AB]);
  }

  lemma {:induction false} FedTable(sp: Spaces)
    requires StripsBreaks(sp) && !sp(AB[0]) && !sp(AB[1])
    ensures TableOf(sp, FED, None) == [None, None, Some([AB])]
    ensures Rows(TableOf(sp, FED, None)) == [Row([AB], 2)]
  {
    hide ParseLine, Rows;
    LoneBar(sp, FORM_FEED);
    LoneBar(sp, LF);
    LoneCell(sp);
    assert TableOf(sp, FED, None) == [None, None, Some([AB])];
    RowsOfThree([AB]);
  }

  lemma {:induction false} RowsOfThree(cells: seq<Text>)
    ensures Rows([None, None, Some(cells)]) == [Row(cells, 2)]
  {
    var t: Table := [None, None, Some(cells)];
    assert t[..0] == [] && t[..3] == t && Rows([]) == [];
    hide Rows;
    RowsSnoc(t, 0);
    RowsSnoc(t, 1);
    RowsSnoc(t, 2);
  }

  /** A table of one row, after a form feed that is a line break for the server and not for the client: the client
      keeps the row and adds the formatted one after it. */
  lemma {:induction false} FormFeedMisplaces(enc: Encoding, sp: Spaces)
    requires StripsBreaks(sp) && !sp(AB[0]) && !sp(AB[1])
    ensures var s := Flatten(FED);
            && Regular(RowsOfText(sp, s, None)) && !RowsPlaced(SplitLines(s), TableOf(sp, SplitLines(s), None))
            && ClientPass(enc, sp, s, None) != Encode(enc, FormattedText(sp, s, None))
            && ClientPass(enc, sp, s, None) == Encode(enc, s) + Encode(enc, FormatLine(Widths([Row([AB], 2)]), [AB]))
  {
    var s, rows := Flatten(FED), [Row([AB], 2)];
    FedLines();
    FedTable(sp);
    assert RowsOfText(sp, s, None) == rows;
    assert rows[0] in rows && Regular(rows);
    var t := TableOf(sp, FED, None);
    assert t[2].Some? && !LspTerminated(FED[0]);
    assert !RowsPlaced(FED, t);
    FedEdits(sp);
    FedPass(enc, sp);
    FormattedLines(sp, FED, None);
    FedFormatted(enc, sp);
  }

  lemma {:induction false} FedEdits(sp: Spaces)
    requires StripsBreaks(sp) && !sp(AB[0]) && !sp(AB[1])
    ensures var rows := [Row([AB], 2)];
            |Widths(rows)| == 1 && EditsOf(sp, Flatten(FED), None) == [TextEdit(2, FormatLine(Widths(rows), [AB]))]
  {
    FedLines();
    FedTable(sp);
    var rows := [Row([AB], 2)];
    assert rows[..0] == [];
    assert Columns(rows) == 1;
    hide FormatLine, SplitLines, TableOf, Flatten;
    assert Edits(Widths(rows), rows, None) == Edits(Widths(rows), [], None) + [TextEdit(2, FormatLine(Widths(rows), [AB]))];
  }

  /** For the client the document has two lines. */
  lemma {:induction false} FedPass(enc: Encoding, sp: Spaces)
    requires StripsBreaks(sp) && !sp(AB[0]) && !sp(AB[1])
    ensures ClientPass(enc, sp, Flatten(FED), None)
         == Encode(enc, Flatten(FED)) + Encode(enc, FormatLine(Widths([Row([AB], 2)]), [AB]))
  {
    hide Encode, FormatLine, Flatten, ClientOffset, EditsOf, ClientEdits;
    FedEdits(sp);
    FedOffsets(enc);
    EditAtEnd(enc, Encode(enc, Flatten(FED)), TextEdit(2, FormatLine(Widths([Row([AB], 2)]), [AB])));
  }

  lemma {:induction false} EditAtEnd(enc: Encoding, b: seq<nat>, e: TextEdit)
    requires ClientOffset(b, Pos(e.line, 0)) == |b| == ClientOffset(b, Pos(e.line + 1, 0))
    ensures ClientEdits(enc, b, [e]) == b + Encode(enc, e.newText)
  {
    hide Encode, ClientOffset;
    assert [e][..0] == [];
    assert b[..|b|] + Encode(enc, e.newText) + b[|b|..] == b + Encode(enc, e.newText);
  }

  lemma {:induction false} FedOffsets(enc: Encoding)
    ensures var b := Encode(enc, Flatten(FED)); ClientOffset(b, Pos(2, 0)) == |b| && ClientOffset(b, Pos(3, 0)) == |b|
  {
    hide Encode, Flatten, SplitLines, ClientLine, LineStart;
    FedLines();
    AsciiText(enc, Flatten(FED));
    FedClientLines();
    TwoLines([BAR, FORM_FEED, BAR, LF, 0x61, 0x62, LF], 4, 3);
    assert Encode(enc, Flatten(FED)) == [BAR, FORM_FEED, BAR, LF, 0x61, 0x62, LF];
  }

  lemma {:induction false} FedClientLines()
    ensures ClientLine([BAR, FORM_FEED, BAR, LF, 0x61, 0x62, LF]) == 4 && ClientLine([0x61, 0x62, LF]) == 3
  {
    ClientLineSkips([BAR, FORM_FEED, BAR], [LF, 0x61, 0x62, LF]);
    ClientLineSkips([0x61, 0x62], [LF]);
    assert [BAR, FORM_FEED, BAR] + [LF, 0x61, 0x62, LF] == [BAR, FORM_FEED, BAR, LF, 0x61, 0x62, LF];
    assert [0x61, 0x62] + [LF] == [0x61, 0x62, LF];
  }

  lemma {:induction false} TwoLines(b: seq<nat>, m: nat, n: nat)
    requires b != [] && ClientLine(b) == m < |b| && ClientLine(b[m..]) == n && m + n == |b|
    ensures LineStart(b, 2) == |b| == LineStart(b, 3)
  {
    hide ClientLine;
    assert b[m..][n..] == [];
    assert LineStart(b[m..], 1) == n + LineStart([], 0) && LineStart(b[m..], 2) == n + LineStart([], 1);
  }

  lemma {:induction false} FedResult(sp: Spaces)
    requires StripsBreaks(sp) && !sp(AB[0]) && !sp(AB[1])
    ensures Formatted(sp, FED, None) == [FED[0], FED[1], FormatLine(Widths([Row([AB], 2)]), [AB])]
  {
    hide Formatted, FormatLine, TableOf, Rows, Widths, ParseLine;
    FedTable(sp);
    FormattedLines(sp, FED, None);
  }

  lemma {:induction false} FedFormatted(enc: Encoding, sp: Spaces)
    requires StripsBreaks(sp) && !sp(AB[0]) && !sp(AB[1])
    ensures |Encode(enc, FormattedText(sp, Flatten(FED), None))|
         < |Encode(enc, Flatten(FED)) + Encode(enc, FormatLine(Widths([Row([AB], 2)]), [AB]))|
  {
    hide Formatted, FormatLine, Encode, SplitLines, Flatten;
    var r, line := Formatted(sp, FED, None), FormatLine(Widths([Row([AB], 2)]), [AB]);
    FedLines();
    FedResult(sp);
    FlattenSnoc(r, 2);
    FlattenSnoc(FED, 2);
    assert r[..3] == r && FED[..3] == FED && r[..2] == FED[..2];
    ShorterWithout(enc, Flatten(FED[..2]), FED[2], line);
  }

  lemma {:induction false} ShorterWithout(enc: Encoding, before: Text, last: Text, line: Text)
    requires last != []
    ensures |Encode(enc, before + line)| < |Encode(enc, before + last) + Encode(enc, line)|
  {
    hide Encode, ClientNumUnits;
    EncodeAppend(enc, before, line);
    EncodeAppend(enc, before, last);
    EncodeLength(enc, last);
    UnitsPositive(enc, last);
  }
}
