/** A document kept in memory and the changes a client sends for it. */
module TextDocument {
  import opened Unicode
  import opened Lines
  import opened PositionCodec
  import opened Wrappers

  datatype SyncKind = NoSync | FullSync | IncrementalSync

  /** A content change as it arrives: a range with its replacement, or a whole new text. */
  datatype Edit = Replace(span: Span, text: Text) | Whole(text: Text)

  /** The same after deserialisation, the positions being objects. */
  datatype ChangeEvent = Partial(start: Position, end: Position, newText: Text) | WholeDocument(newText: Text)

  function LengthSum(lines: seq<Text>): nat {
    if lines == [] then 0 else LengthSum(lines[..|lines| - 1]) + |lines[|lines| - 1]|
  }

  lemma {:induction false} LengthSumIsFlattenLength(lines: seq<Text>)
    ensures LengthSum(lines) == |Flatten(lines)|
  {
    if lines != [] {
      LengthSumIsFlattenLength(lines[..|lines| - 1]);
    }
  }

  /** What `offset_at_position` returns. */
  function Offset(enc: Encoding, source: Text, p: Pos): nat {
    var lines := SplitLines(source);
    OffsetAt(lines, FromClientUnits(enc, lines, p))
  }

  /** The index of a converted position. */
  function OffsetAt(lines: seq<Text>, q: Pos): nat {
    q.character + LengthSum(lines[..if q.line < |lines| then q.line else |lines|])
  }

  /** The effect of one ranged change, as a splice of the whole text. */
  function Spliced(enc: Encoding, source: Text, span: Span, text: Text): Text {
    var lines := SplitLines(source);
    SplicedAt(lines, source, FromClientUnits(enc, lines, span.start), FromClientUnits(enc, lines, span.end), text)
  }

  function SplicedAt(lines: seq<Text>, source: Text, s: Pos, e: Pos, text: Text): Text {
    if e.line < s.line then source else Splice(source, OffsetAt(lines, s), OffsetAt(lines, e), text)
  }

  /** A slice assignment, indices stopping at the end of the text as in Python. */
  function Splice(source: Text, i: nat, j: nat, text: Text): Text {
    source[..Cap(i, source)] + text + source[Cap(j, source)..]
  }

  function Applied(kind: SyncKind, enc: Encoding, source: Text, edit: Edit): Text {
    if edit.Replace? && kind.IncrementalSync? then Spliced(enc, source, edit.span, edit.text)
    else if kind.NoSync? then source
    else edit.text
  }

  /** The text up to a line and column, and from it on. */
  function Head(lines: seq<Text>, q: Pos): Text
    requires q.line < |lines|
  {
    Flatten(lines[..q.line]) + lines[q.line][..Cap(q.character, lines[q.line])]
  }

  function Tail(lines: seq<Text>, q: Pos): Text
    requires q.line < |lines|
  {
    lines[q.line][Cap(q.character, lines[q.line])..] + Flatten(lines[q.line + 1..])
  }

  /** Only a position past the last line can be converted to a column past its line's end. */
  ghost predicate Fits(lines: seq<Text>, q: Pos) {
    q.line < |lines| && (q.character <= |lines[q.line]| || q.line == |lines| - 1)
  }

  lemma {:induction false} ConvertedFits(enc: Encoding, lines: seq<Text>, p: Pos)
    requires lines != []
    ensures Fits(lines, FromClientUnits(enc, lines, p))
  {}

  lemma {:induction false} SplitAt(lines: seq<Text>, q: Pos)
    requires Fits(lines, q)
    ensures Flatten(lines)[..Cap(OffsetAt(lines, q), Flatten(lines))] == Head(lines, q)
    ensures Flatten(lines)[Cap(OffsetAt(lines, q), Flatten(lines))..] == Tail(lines, q)
  {
    hide LengthSum;
    var line, before, after := lines[q.line], Flatten(lines[..q.line]), Flatten(lines[q.line + 1..]);
    LengthSumIsFlattenLength(lines[..q.line]);
    FlattenAround(lines, q.line);
    if q.line == |lines| - 1 {
      assert lines[q.line + 1..] == [];
    }
    var all, c := before + line + after, Cap(q.character, line);
    var o := Cap(q.character + |before|, all);
    assert o == |before| + c;
    assert all[..o] == before + line[..c];
    assert all[o..] == line[c..] + after;
  }

  /** The end-of-file branch of an incremental change is taken exactly on an empty document. */
  lemma {:induction false} EndOfFileBranch(enc: Encoding, source: Text, p: Pos)
    ensures FromClientUnits(enc, SplitLines(source), p).line == |SplitLines(source)| <==> source == []
  {
    SplitLinesAreLines(source);
  }

  /** A splice, said by lines. */
  lemma {:induction false} SplicedByLines(lines: seq<Text>, s: Pos, e: Pos, text: Text)
    requires Fits(lines, s) && Fits(lines, e)
    ensures SplicedAt(lines, Flatten(lines), s, e, text) ==
            if e.line < s.line then Flatten(lines) else Head(lines, s) + text + Tail(lines, e)
  {
    SplitAt(lines, s);
    SplitAt(lines, e);
  }

  /** Writes out the lines, with `text` in place of what lies between the two line-and-column places. */
  method RebuildLines(lines: seq<Text>, s: nat, sc: nat, e: nat, ec: nat, text: Text) returns (result: Text)
    requires s < |lines| && e < |lines|
    ensures result ==
            if e < s then Flatten(lines) else Head(lines, Pos(s, sc)) + text + Tail(lines, Pos(e, ec))
  {
    ghost var opening := Head(lines, Pos(s, sc)) + text;
    ghost var rest := lines[e][Cap(ec, lines[e])..];
    assert Flatten([]) == [] && lines[..0] == [] && Tail(lines, Pos(e, ec)) == rest + Flatten(lines[e + 1..]);
    assert opening == Flatten(lines[..s]) + lines[s][..Cap(sc, lines[s])] + text;
    hide Cap, Flatten, Head, Tail;
    result := [];
    for i := 0 to |lines|
      invariant i <= s || e < s ==> result == Flatten(lines[..i])
      invariant s < i <= e ==> result == opening
      invariant s <= e < i ==> result == opening + (rest + Flatten(lines[e + 1..i]))
    {
      var line := lines[i];
      FlattenSnoc(lines, i);
      if i < s || i > e {
        if s <= e < i {
          OneMoreLine(opening, rest, lines, e + 1, i);
        }
        result := result + line;
        continue;
      }
      if i == s {
        result := result + line[..Cap(sc, line)];
        result := result + text;
      }
      if i == e {
        result := result + line[Cap(ec, line)..];
        assert lines[e + 1..i + 1] == [];
      }
    }
    assert lines[..|lines|] == lines && lines[e + 1..|lines|] == lines[e + 1..];
  }

  lemma {:induction false} OneMoreLine(opening: Text, rest: Text, lines: seq<Text>, i: nat, j: nat)
    requires i <= j < |lines|
    ensures opening + (rest + Flatten(lines[i..j])) + lines[j] == opening + (rest + Flatten(lines[i..j + 1]))
  {
    hide Flatten;
    FlattenSliceSnoc(lines, i, j);
    assert opening + (rest + Flatten(lines[i..j])) + lines[j] == opening + (rest + (Flatten(lines[i..j]) + lines[j]));
  }

  lemma {:induction false} FlattenSliceSnoc(lines: seq<Text>, i: nat, j: nat)
    requires i <= j < |lines|
    ensures Flatten(lines[i..j + 1]) == Flatten(lines[i..j]) + lines[j]
  {
    assert lines[i..j + 1][..j - i] == lines[i..j];
  }

  class TextDocument {
    const uri: string
    const encoding: Encoding
    const syncKind: SyncKind
    var version: int
    var source: Text

    constructor (uri: string, source: Text, version: int, syncKind: SyncKind, encoding: Encoding)
      ensures this.uri == uri && this.source == source && this.version == version
      ensures this.syncKind == syncKind && this.encoding == encoding
    {
      this.uri, this.source, this.version := uri, source, version;
      this.syncKind, this.encoding := syncKind, encoding;
    }

    /** The line-by-line rebuild is the splice. */
    method ApplyIncrementalChange(start: Position, end: Position, text: Text)
      modifies this`source, start`character, end`character
      ensures source == Spliced(encoding, old(source), Span(old(start.Value()), old(end.Value())), text)
      ensures var lines := SplitLines(old(source));
              && start.Value() == Pos(old(start.line), Overwritten(encoding, lines, old(start.Value())))
              && end.Value() == Pos(old(end.line), Overwritten(encoding, lines, old(end.Value())))
    {
      var lines := SplitLines(source);
      SplitLinesAreLines(source);
      FlattenSplitLines(source);
      var newStart, newEnd := RangeFromClientUnits(encoding, lines, start, end);
      var s, sc, e, ec := newStart.line, newStart.character, newEnd.line, newEnd.character;

      // An edit at the very end of the file
      EndOfFileBranch(encoding, source, old(start.Value()));
      if s == |lines| {
        source := source + text;
        return;
      }

      ConvertedFits(encoding, lines, old(start.Value()));
      ConvertedFits(encoding, lines, old(end.Value()));
      SplicedByLines(lines, newStart.Value(), newEnd.Value(), text);
      source := RebuildLines(lines, s, sc, e, ec, text);
    }

    method ApplyChange(change: ChangeEvent)
      modifies this`source, if change.Partial? then {change.start, change.end} else {}
      ensures source == Applied(syncKind, encoding, old(source), old(EditOf(change)))
      ensures syncKind == NoSync ==> source == old(source)
      ensures syncKind == FullSync || (syncKind == IncrementalSync && change.WholeDocument?) ==> source == change.newText
      ensures change.Partial? ==>
                var lines := if syncKind == IncrementalSync then Some(SplitLines(old(source))) else None;
                && change.start.Value() == Converted(encoding, lines, old(change.start.Value()))
                && change.end.Value() == Converted(encoding, lines, old(change.end.Value()))
    {
      if change.Partial? {
        if syncKind == IncrementalSync {
          ApplyIncrementalChange(change.start, change.end, change.newText);
          return;
        }
        // The client was told not to send this; the text is used as a full update.
      }
      if syncKind != NoSync {
        source := change.newText;
      }
    }

    method OffsetAtPosition(clientPosition: Position) returns (offset: nat)
      modifies clientPosition`character
      ensures offset == Offset(encoding, source, old(clientPosition.Value()))
      ensures var lines := SplitLines(source);
              clientPosition.line >= |lines| > 0 ==>
                offset == |Flatten(lines[..|lines| - 1])| + |Encode(encoding, lines[|lines| - 1])|
      ensures clientPosition.Value()
           == Pos(old(clientPosition.line), Overwritten(encoding, SplitLines(source), old(clientPosition.Value())))
    {
      var lines := SplitLines(source);
      SplitLinesAreLines(source);
      OffsetPastLines(encoding, source, clientPosition.Value());
      var server := PositionFromClientUnits(encoding, lines, clientPosition);
      offset := server.character
                + LengthSum(lines[..if server.line < |lines| then server.line else |lines|]);
    }
  }

  /** A position of a change afterwards: overwritten by the conversion, if there was one. */
  function Converted(enc: Encoding, lines: Option<seq<Text>>, p: Pos): Pos {
    if lines.Some? then Pos(p.line, Overwritten(enc, lines.value, p)) else p
  }

  function EditOf(change: ChangeEvent): Edit
    reads if change.Partial? then {change.start, change.end} else {}
  {
    match change
    case Partial(start, end, text) => Replace(Span(start.Value(), end.Value()), text)
    case WholeDocument(text) => Whole(text)
  }

  /** The position, in client units, of the code point at an offset. */
  function PositionOf(lines: seq<Text>, o: nat): (p: Pos)
    requires o < LengthSum(lines)
    ensures p.line < |lines| && p.character < |lines[p.line]|
    ensures LengthSum(lines[..p.line]) + p.character == o
  {
    var init := lines[..|lines| - 1];
    if o < LengthSum(init) then
      var p := PositionOf(init, o);
      assert init[..p.line] == lines[..p.line];
      p
    else Pos(|lines| - 1, o - LengthSum(init))
  }

  lemma {:induction false} LengthSumMonotone(lines: seq<Text>, i: nat, j: nat)
    requires i < j <= |lines|
    ensures LengthSum(lines[..i]) + |lines[i]| <= LengthSum(lines[..j])
    decreases j
  {
    assert lines[..j][..j - 1] == lines[..j - 1];
    if i < j - 1 {
      LengthSumMonotone(lines, i, j - 1);
    }
  }

  ghost predicate InText(lines: seq<Text>, p: Pos) {
    p.line < |lines| && p.character < |lines[p.line]|
  }

  ghost predicate Before(p: Pos, q: Pos) {
    p.line < q.line || (p.line == q.line && p.character < q.character)
  }

  lemma {:induction false} PlaceInText(lines: seq<Text>, p: Pos)
    requires InText(lines, p)
    ensures LengthSum(lines[..p.line]) + p.character < |Flatten(lines)|
    ensures Flatten(lines)[LengthSum(lines[..p.line]) + p.character] == lines[p.line][p.character]
  {
    LengthSumIsFlattenLength(lines[..p.line]);
    FlattenAround(lines, p.line);
  }

  /** Sent to the client and back, the place of a code point is its index in the source: `Offset` after
      `ToClientUnits` maps the places of a text one to one, in order, onto 0..|source| - 1. */
  lemma {:induction false} OffsetOfPlace(enc: Encoding, source: Text, p: Pos)
    requires InText(SplitLines(source), p)
    ensures var lines := SplitLines(source);
            var o := Offset(enc, source, ToClientUnits(enc, lines, p));
            && o == LengthSum(lines[..p.line]) + p.character
            && o < |source| && source[o] == lines[p.line][p.character]
  {
    hide SplitLines, Flatten, LengthSum, FromClientUnits, ToClientUnits, IsLine;
    var lines := SplitLines(source);
    SplitLinesAreLines(source);
    FlattenSplitLines(source);
    PlaceSurvives(enc, lines, p);
    PlaceInText(lines, p);
  }

  lemma {:induction false} PlaceSurvives(enc: Encoding, lines: seq<Text>, p: Pos)
    requires InText(lines, p) && IsLine(lines[p.line])
    ensures OffsetAt(lines, FromClientUnits(enc, lines, ToClientUnits(enc, lines, p))) == LengthSum(lines[..p.line]) + p.character
  {
    ServerRoundTrip(enc, lines, p);
  }

  lemma {:induction false} OffsetOntoSource(enc: Encoding, source: Text, o: nat)
    requires o < |source|
    ensures var lines := SplitLines(source);
            && LengthSum(lines) == |source|
            && InText(lines, PositionOf(lines, o))
            && Offset(enc, source, ToClientUnits(enc, lines, PositionOf(lines, o))) == o
  {
    FlattenSplitLines(source);
    LengthSumIsFlattenLength(SplitLines(source));
    OffsetOfPlace(enc, source, PositionOf(SplitLines(source), o));
  }

  lemma {:induction false} OffsetIncreasing(enc: Encoding, source: Text, p: Pos, q: Pos)
    requires InText(SplitLines(source), p) && InText(SplitLines(source), q)
    ensures var lines := SplitLines(source);
            Before(p, q) <==>
            Offset(enc, source, ToClientUnits(enc, lines, p)) < Offset(enc, source, ToClientUnits(enc, lines, q))
  {
    var lines := SplitLines(source);
    OffsetOfPlace(enc, source, p);
    OffsetOfPlace(enc, source, q);
    if p.line < q.line {
      LengthSumMonotone(lines, p.line, q.line);
    } else if q.line < p.line {
      LengthSumMonotone(lines, q.line, p.line);
    }
  }

  lemma {:induction false} OffsetPastLines(enc: Encoding, source: Text, p: Pos)
    ensures var lines := SplitLines(source);
            p.line >= |lines| > 0 ==>
              Offset(enc, source, p) == |Flatten(lines[..|lines| - 1])| + |Encode(enc, lines[|lines| - 1])|
  {
    SplitLinesAreLines(source);
    if p.line >= |SplitLines(source)| {
      OffsetPastTheEnd(enc, source, p);
    }
  }

  /** A position past the last line: the offset counts code points up to the last line and client units on it, so that
      it lies beyond the source exactly if some character of that line takes several units. */
  lemma {:induction false} OffsetPastTheEnd(enc: Encoding, source: Text, p: Pos)
    requires p.line >= |SplitLines(source)|
    ensures source == [] ==> Offset(enc, source, p) == 0
    ensures source != [] ==>
              var lines := SplitLines(source);
              var last := lines[|lines| - 1];
              && Offset(enc, source, p) == |Flatten(lines[..|lines| - 1])| + |Encode(enc, last)| >= |source|
              && (Offset(enc, source, p) > |source| <==> exists i :: 0 <= i < |last| && |EncodeChar(enc, last[i])| > 1)
  {
    hide Encode, EncodeChar, SplitLines;
    var lines := SplitLines(source);
    SplitLinesAreLines(source);
    FlattenSplitLines(source);
    if source != [] {
      PastTheEnd(enc, lines, p);
      LengthSumIsFlattenLength(lines[..|lines| - 1]);
      hide FromClientUnits;
    }
  }
}
