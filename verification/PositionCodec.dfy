/** Conversion of positions between client code units and code points. */
module PositionCodec {
  import opened Unicode
  import opened Lines

  datatype Pos = Pos(line: nat, character: nat)

  datatype Span = Span(start: Pos, end: Pos)

  /** The column the search loop stops at when it stands at `i`: the least index whose prefix costs
      at least `k` units, or the end of the line. */
  function Column(enc: Encoding, line: Text, k: nat, i: nat): (r: nat)
    requires i <= |line|
    ensures i <= r <= |line|
    ensures r < |line| ==> k <= ClientNumUnits(enc, line[..r])
    ensures forall j :: i <= j < r ==> ClientNumUnits(enc, line[..j]) < k
    decreases |line| - i
  {
    if i < |line| && ClientNumUnits(enc, line[..i]) < k then Column(enc, line, k, i + 1) else i
  }

  /** The character that `position_from_client_units` leaves in the position it is given. */
  function Overwritten(enc: Encoding, lines: seq<Text>, p: Pos): (k: nat) {
    if p.line >= |lines| then p.character
    else
      var units := ClientNumUnits(enc, ReplaceCrLf(lines[p.line]));
      if units != 0 && p.character > units then units - 1 else p.character
  }

  /** The position that `position_from_client_units` returns. */
  function FromClientUnits(enc: Encoding, lines: seq<Text>, p: Pos): Pos {
    if lines == [] then Pos(0, 0)
    else if p.line >= |lines| then Pos(|lines| - 1, ClientNumUnits(enc, lines[|lines| - 1]))
    else Pos(p.line, Column(enc, ReplaceCrLf(lines[p.line]), Overwritten(enc, lines, p), 0))
  }

  /** The position that `position_to_client_units` returns; slicing stops at the end of the line. */
  function ToClientUnits(enc: Encoding, lines: seq<Text>, p: Pos): Pos {
    if p.line >= |lines| then Pos(|lines|, 0)
    else
      var line := lines[p.line];
      Pos(p.line, ClientNumUnits(enc, line[..if p.character < |line| then p.character else |line|]))
  }

  /** `types.Position`, which the codec changes in place. */
  class Position {
    var line: nat
    var character: nat

    constructor (line: nat, character: nat)
      ensures this.line == line && this.character == character
    {
      this.line, this.character := line, character;
    }

    function Value(): Pos
      reads this
    {
      Pos(line, character)
    }
  }

  lemma {:induction false} PrefixStep(enc: Encoding, line: Text, i: nat)
    requires i < |line|
    ensures ClientNumUnits(enc, line[..i + 1]) == ClientNumUnits(enc, line[..i]) + Units(enc, line[i])
  {
    assert line[..i + 1] == line[..i] + [line[i]];
    NumUnitsSnoc(enc, line[..i], line[i]);
  }

  /** The search: `client_index` is at all times the cost of the prefix read so far. */
  method SearchColumn(enc: Encoding, line: Text, character: nat) returns (utf32Index: nat)
    ensures utf32Index == Column(enc, line, character, 0)
  {
    assert line[..0] == [] && ClientNumUnits(enc, []) == 0;
    hide ClientNumUnits;
    var clientIndex := 0;
    utf32Index := 0;
    while clientIndex < character && utf32Index < |line|
      invariant utf32Index <= |line|
      invariant clientIndex == ClientNumUnits(enc, line[..utf32Index])
      invariant Column(enc, line, character, 0) == Column(enc, line, character, utf32Index)
    {
      PrefixStep(enc, line, utf32Index);
      var currentChar := line[utf32Index];
      match enc {
        case Utf8 => clientIndex := clientIndex + Utf8Bytes(currentChar);
        case Utf16 => clientIndex := clientIndex + if IsCharBeyondMultilingualPlane(currentChar) then 2 else 1;
        case Utf32 => clientIndex := clientIndex + 1;
      }
      utf32Index := utf32Index + 1;
    }
  }

  method PositionFromClientUnits(enc: Encoding, lines: seq<Text>, position: Position)
    returns (result: Position)
    modifies position`character
    ensures fresh(result)
    ensures result.Value() == FromClientUnits(enc, lines, old(position.Value()))
    ensures position.line >= |lines| > 0 ==> result.Value() == Pos(|lines| - 1, |Encode(enc, lines[|lines| - 1])|)
    ensures position.Value() == Pos(old(position.line), Overwritten(enc, lines, old(position.Value())))
  {
    hide ClientNumUnits, ReplaceCrLf, Column;
    if |lines| == 0 {
      result := new Position(0, 0);
      return;
    }
    if position.line >= |lines| {
      EncodeLength(enc, lines[|lines| - 1]);
      result := new Position(|lines| - 1, ClientNumUnits(enc, lines[|lines| - 1]));
      return;
    }
    var line := ReplaceCrLf(lines[position.line]);
    var clientLen := ClientNumUnits(enc, line);
    UnitsPositive(enc, line);
    if clientLen == 0 {
      result := new Position(position.line, 0);
      return;
    }
    if position.character > clientLen {
      position.character := clientLen - 1;
    }
    var utf32Index := SearchColumn(enc, line, position.character);
    result := new Position(position.line, utf32Index);
  }

  /** Converting twice is converting once: the overwritten position has the same image. */
  lemma {:induction false} FromClientUnitsRepeatable(enc: Encoding, lines: seq<Text>, p: Pos)
    ensures var p' := Pos(p.line, Overwritten(enc, lines, p));
            && FromClientUnits(enc, lines, p') == FromClientUnits(enc, lines, p)
            && Overwritten(enc, lines, p') == p'.character
  {}

  /** Both ends are converted as they were passed in, also when they are the same object. */
  method RangeFromClientUnits(enc: Encoding, lines: seq<Text>, start: Position, end: Position)
    returns (newStart: Position, newEnd: Position)
    modifies start`character, end`character
    ensures newStart.Value() == FromClientUnits(enc, lines, old(start.Value()))
    ensures newEnd.Value() == FromClientUnits(enc, lines, old(end.Value()))
    ensures start.Value() == Pos(old(start.line), Overwritten(enc, lines, old(start.Value())))
    ensures end.Value() == Pos(old(end.line), Overwritten(enc, lines, old(end.Value())))
  {
    newStart := PositionFromClientUnits(enc, lines, start);
    FromClientUnitsRepeatable(enc, lines, old(start.Value()));
    newEnd := PositionFromClientUnits(enc, lines, end);
  }

  /** On a line that exists, the returned column is the only index with this description: the least
      one whose prefix costs the requested units, or one unit less than the line's when the request
      exceeds it. `\r\n` counts as `\n`. */
  lemma {:induction false} FromClientUnitsLeast(enc: Encoding, lines: seq<Text>, p: Pos, c: nat)
    requires p.line < |lines|
    ensures var line := ReplaceCrLf(lines[p.line]);
            var units := ClientNumUnits(enc, line);
            var k := if p.character > units then units - 1 else p.character;
            FromClientUnits(enc, lines, p) == Pos(p.line, c) <==>
            && c <= |line|
            && k <= ClientNumUnits(enc, line[..c])
            && forall j :: 0 <= j < c ==> ClientNumUnits(enc, line[..j]) < k
  {
    var line := ReplaceCrLf(lines[p.line]);
    assert line[..|line|] == line;
    UnitsPositive(enc, line);
    var k := Overwritten(enc, lines, p);
    var r := Column(enc, line, k, 0);
    assert line != [] ==> k <= ClientNumUnits(enc, line[..r]);
  }

  /** Is `k` the cost of some prefix of the line? */
  ghost predicate IsBoundary(enc: Encoding, line: Text, k: nat) {
    exists j :: 0 <= j <= |line| && ClientNumUnits(enc, line[..j]) == k
  }

  /** A boundary is the cost of exactly one prefix, and the search finds it. */
  lemma {:induction false} ColumnOfPrefix(enc: Encoding, line: Text, j: nat)
    requires j <= |line|
    ensures Column(enc, line, ClientNumUnits(enc, line[..j]), 0) == j
  {
    var k := ClientNumUnits(enc, line[..j]);
    var r := Column(enc, line, k, 0);
    if r < j {
      NumUnitsPrefix(enc, line, r, j);
    }
  }

  /** The search never overshoots by a whole code point, so by at most 3 units in UTF-8, 1 in UTF-16
      and 0 in UTF-32, and not at all exactly at code point boundaries. */
  lemma {:induction false} ColumnOvershoot(enc: Encoding, line: Text, k: nat)
    requires k <= ClientNumUnits(enc, line)
    ensures var back := ClientNumUnits(enc, line[..Column(enc, line, k, 0)]);
            && k <= back <= k + (match enc case Utf8 => 3 case Utf16 => 1 case Utf32 => 0)
            && (back == k <==> IsBoundary(enc, line, k))
  {
    var r := Column(enc, line, k, 0);
    assert line[..|line|] == line;
    if r > 0 {
      NumUnitsPrefix(enc, line, r - 1, r);
    }
    if IsBoundary(enc, line, k) {
      var j :| 0 <= j <= |line| && ClientNumUnits(enc, line[..j]) == k;
      ColumnOfPrefix(enc, line, j);
    }
  }

  lemma {:induction false} UnitsPositive(enc: Encoding, s: Text)
    ensures ClientNumUnits(enc, s) == 0 <==> s == []
  {
    NumUnitsAtLeastLength(enc, s);
  }

  /** A prefix costs the same before and after `\r\n` became `\n`. */
  lemma {:induction false} NormalisedPrefix(enc: Encoding, line: Text, c: nat)
    requires IsLine(line) && c <= |ReplaceCrLf(line)|
    ensures ClientNumUnits(enc, ReplaceCrLf(line)[..c]) == ClientNumUnits(enc, line[..c])
  {
    var norm := ReplaceCrLf(line);
    ReplaceCrLfOfLine(line);
    if EndsCrLf(line) && c == |norm| {
      var content := line[..|line| - 2];
      assert norm[..c] == content + [LF] && line[..c] == content + [CR];
      NumUnitsSnoc(enc, content, LF);
      NumUnitsSnoc(enc, content, CR);
    } else {
      assert line[..c] == norm[..c];
    }
  }

  /** Client units to code points and back, on an existing line of `splitlines`. */
  lemma {:induction false} ClientRoundTrip(enc: Encoding, lines: seq<Text>, p: Pos)
    requires p.line < |lines| && IsLine(lines[p.line])
    requires p.character <= ClientNumUnits(enc, ReplaceCrLf(lines[p.line]))
    ensures var back := ToClientUnits(enc, lines, FromClientUnits(enc, lines, p));
            && back.line == p.line
            && p.character <= back.character
            && back.character <= p.character + (match enc case Utf8 => 3 case Utf16 => 1 case Utf32 => 0)
            && (back == p <==> IsBoundary(enc, ReplaceCrLf(lines[p.line]), p.character))
  {
    var line := lines[p.line];
    var norm := ReplaceCrLf(line);
    ColumnOvershoot(enc, norm, p.character);
    var c := Column(enc, norm, p.character, 0);
    NormalisedPrefix(enc, line, c);
    assert FromClientUnits(enc, lines, p) == Pos(p.line, c);
    assert ToClientUnits(enc, lines, Pos(p.line, c)) == Pos(p.line, ClientNumUnits(enc, line[..c]));
  }

  /** Code points to client units and back is the identity up to the end of the line; of the columns
      0..len it fails at exactly one, the end of a `\r\n` line. */
  lemma {:induction false} ServerRoundTrip(enc: Encoding, lines: seq<Text>, p: Pos)
    requires p.line < |lines| && IsLine(lines[p.line])
    requires p.character <= |lines[p.line]|
    ensures FromClientUnits(enc, lines, ToClientUnits(enc, lines, p)) == p <==>
            !(EndsCrLf(lines[p.line]) && p.character == |lines[p.line]|)
  {
    var line, c := lines[p.line], p.character;
    var norm := ReplaceCrLf(line);
    ReplaceCrLfOfLine(line);
    assert ToClientUnits(enc, lines, p) == Pos(p.line, ClientNumUnits(enc, line[..c]));
    if c <= |norm| {
      NormalisedPrefix(enc, line, c);
      PrefixWithin(enc, norm, c);
      ColumnOfPrefix(enc, norm, c);
    }
  }

  lemma {:induction false} PrefixWithin(enc: Encoding, s: Text, c: nat)
    requires c <= |s|
    ensures ClientNumUnits(enc, s[..c]) <= ClientNumUnits(enc, s)
  {
    assert s[..|s|] == s;
    if c < |s| {
      NumUnitsPrefix(enc, s, c, |s|);
    }
  }

  /** A line past the end means the end of the last line, and the column returned counts the client's units of that
      line, not its code points: it is beyond the line exactly if some character of the line takes several. */
  lemma {:induction false} PastTheEnd(enc: Encoding, lines: seq<Text>, p: Pos)
    requires p.line >= |lines| > 0
    ensures var last, r := lines[|lines| - 1], FromClientUnits(enc, lines, p);
            && r == Pos(|lines| - 1, |Encode(enc, last)|) && |last| <= r.character
            && (|last| < r.character <==> exists i :: 0 <= i < |last| && |EncodeChar(enc, last[i])| > 1)
  {
    var last := lines[|lines| - 1];
    EncodeLength(enc, last);
    NumUnitsAtLeastLength(enc, last);
    NarrowUnits(enc, last);
    hide EncodeChar, Encode, ClientNumUnits;
    if i :| 0 <= i < |last| && Units(enc, last[i]) != 1 {
      assert |EncodeChar(enc, last[i])| > 1;
    }
  }

  /** The way to the client: the line stays, and the column counts the units of what stands before it on the line, of
      which there is no more than the whole line; past the end it is the place below the last line. */
  lemma {:induction false} UnitsOfPlace(enc: Encoding, lines: seq<Text>, p: Pos)
    ensures var r := ToClientUnits(enc, lines, p);
            && (p.line >= |lines| ==> r == Pos(|lines|, 0))
            && (p.line < |lines| ==> r.line == p.line)
            && (p.line < |lines| && p.character < |lines[p.line]| ==>
                  r.character == |Encode(enc, lines[p.line][..p.character])|)
            && (p.line < |lines| && p.character >= |lines[p.line]| ==> r.character == |Encode(enc, lines[p.line])|)
  {
    if p.line < |lines| {
      var line := lines[p.line];
      assert line[..|line|] == line;
      EncodeLength(enc, line);
      if p.character < |line| {
        EncodeLength(enc, line[..p.character]);
      }
    }
  }
}
