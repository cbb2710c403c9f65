/** A client that keeps its document as code units and knows only the line terminators of the
    Language Server Protocol (LSP 3.17, "Text Documents"), against the server's document. */
module Convergence {
  import opened Unicode
  import opened Lines
  import opened PositionCodec
  import opened TextDocument
  import opened Wrappers

  predicate IsEol(u: nat) {
    u == 0x0A || u == 0x0D
  }

  /** Length in units of the first line of a buffer, terminator included. */
  function ClientLine(b: seq<nat>): (n: nat)
    requires b != []
    ensures 1 <= n <= |b|
  {
    if |b| >= 2 && b[0] == 0x0D && b[1] == 0x0A then 2
    else if IsEol(b[0]) || |b| == 1 then 1
    else 1 + ClientLine(b[1..])
  }

  /** Where a line starts; the end of the buffer for a line past the last. */
  function LineStart(b: seq<nat>, line: nat): (o: nat)
    ensures o <= |b|
  {
    if line == 0 || b == [] then 0
    else ClientLine(b) + LineStart(b[ClientLine(b)..], line - 1)
  }

  /** How many units precede the first terminator. */
  function ContentUnits(b: seq<nat>): (n: nat)
    ensures n <= |b|
  {
    if b == [] || IsEol(b[0]) then 0 else 1 + ContentUnits(b[1..])
  }

  /** LSP 3.17, "Position": a character past the line's length defaults to the line's length. */
  function ClientOffset(b: seq<nat>, p: Pos): (o: nat)
    ensures o <= |b|
  {
    var start := LineStart(b, p.line);
    var content := ContentUnits(b[start..]);
    start + if p.character < content then p.character else content
  }

  /** Does a code point start, or the buffer end, at offset `o`? */
  predicate AtCodePoint(enc: Encoding, b: seq<nat>, o: nat)
    requires o <= |b|
  {
    o == |b| ||
    match enc
    case Utf8 => !(0x80 <= b[o] < 0xC0)
    case Utf16 => !(0xDC00 <= b[o] < 0xE000)
    case Utf32 => true
  }

  /** The positions at which client and server mean the same place. On a line that exists: code point
      boundaries of its content; past the content only if the line is terminated and the character is
      not the very next one, or if it is the last line and ends in a code point of several units. */
  predicate Agreeable(enc: Encoding, b: seq<nat>, p: Pos) {
    var start := LineStart(b, p.line);
    start == |b| || AgreeableOnLine(enc, b, start, ContentUnits(b[start..]), p.character)
  }

  predicate AgreeableOnLine(enc: Encoding, b: seq<nat>, start: nat, content: nat, character: nat)
    requires start < |b| && start + content <= |b|
  {
    if character <= content then AtCodePoint(enc, b, start + character)
    else if start + content < |b| then character != content + 1
    else !AtCodePoint(enc, b, |b| - 1)
  }

  /** Texts that both parties split at the same places and that can be encoded. */
  predicate LspText(s: Text) {
    SurrogateFree(s) && forall i :: 0 <= i < |s| ==> IsBreak(s[i]) ==> s[i] == LF || s[i] == CR
  }

  /* Code units and lines */

  lemma {:induction false} UnitsOfEol(enc: Encoding, c: CodePoint)
    requires !IsBreak(c)
    ensures forall i :: 0 <= i < |EncodeChar(enc, c)| ==> !IsEol(EncodeChar(enc, c)[i])
  {
    match enc
    case Utf32 =>
    case Utf16 => assert EncodeChar(enc, c) == EncodeUtf16(c);
    case Utf8 => assert EncodeChar(enc, c) == EncodeUtf8(c);
  }

  /** The units of a text without line breaks contain no terminator. */
  lemma {:induction false} PlainUnits(enc: Encoding, s: Text)
    requires forall i :: 0 <= i < |s| ==> !IsBreak(s[i])
    ensures forall i :: 0 <= i < |Encode(enc, s)| ==> !IsEol(Encode(enc, s)[i])
  {
    if s != [] {
      PlainUnits(enc, s[..|s| - 1]);
      UnitsOfEol(enc, s[|s| - 1]);
    }
  }

  lemma {:induction false} EncodeAscii(enc: Encoding, c: CodePoint)
    requires c < 0x80
    ensures Encode(enc, [c]) == [c]
  {
    EncodeSingle(enc, c);
  }

  lemma {:induction false} ClientLineSkips(u: seq<nat>, r: seq<nat>)
    requires r != [] && forall i :: 0 <= i < |u| ==> !IsEol(u[i])
    ensures ClientLine(u + r) == |u| + ClientLine(r)
  {
    if u == [] {
      assert u + r == r;
    } else {
      ClientLineSkips(u[1..], r);
      assert (u + r)[1..] == u[1..] + r;
    }
  }

  lemma {:induction false} ClientLineWhole(u: seq<nat>)
    requires u != [] && forall i :: 0 <= i < |u| ==> !IsEol(u[i])
    ensures ClientLine(u) == |u|
  {
    if |u| > 1 {
      ClientLineWhole(u[1..]);
    }
  }

  lemma {:induction false} ContentSkips(u: seq<nat>, r: seq<nat>)
    requires forall i :: 0 <= i < |u| ==> !IsEol(u[i])
    ensures ContentUnits(u + r) == |u| + ContentUnits(r)
  {
    if u == [] {
      assert u + r == r;
    } else {
      ContentSkips(u[1..], r);
      assert (u + r)[1..] == u[1..] + r;
    }
  }

  lemma {:induction false} LfUnit(enc: Encoding, c: CodePoint)
    ensures EncodeChar(enc, c)[0] == LF <==> c == LF
  {
    match enc
    case Utf32 =>
    case Utf16 => assert EncodeChar(enc, c) == EncodeUtf16(c);
    case Utf8 => assert EncodeChar(enc, c) == EncodeUtf8(c);
  }

  lemma {:induction false} FirstUnitLf(enc: Encoding, s: Text)
    requires s != []
    ensures Encode(enc, s) != []
    ensures Encode(enc, s)[0] == LF <==> s[0] == LF
  {
    hide Encode, EncodeChar;
    EncodeCons(enc, s);
    LfUnit(enc, s[0]);
    assert Encode(enc, s)[0] == EncodeChar(enc, s[0])[0];
  }

  lemma {:induction false} EncodeTerminator(enc: Encoding, t: Text)
    requires t == [CR, LF] || t == [LF] || t == [CR]
    ensures Encode(enc, t) == t
  {
    EncodeAscii(enc, CR);
    EncodeAscii(enc, LF);
    EncodeAppend(enc, [CR], [LF]);
    assert [CR] + [LF] == [CR, LF];
  }

  lemma {:induction false} TerminatorLine(t: seq<nat>, r: seq<nat>)
    requires t == [CR, LF] || t == [LF] || t == [CR]
    requires t == [CR] && r != [] ==> r[0] != LF
    ensures ClientLine(t + r) == |t|
    ensures ContentUnits(t + r) == 0
  {
    assert (t + r)[0] == t[0];
    if |t + r| >= 2 {
      assert (t + r)[1] == if |t| == 2 then t[1] else r[0];
    }
  }

  lemma {:induction false} TerminatorOfLine(line: Text)
    requires IsLine(line) && LspText(line)
    ensures var t := line[ContentLength(line)..]; t == [] || t == [CR, LF] || t == [LF] || t == [CR]
  {
    var t := line[ContentLength(line)..];
    if EndsCrLf(line) {
      assert t == [CR, LF];
    } else if t != [] {
      assert t == [line[|line| - 1]];
    }
  }

  /** A line as the client sees it: content, terminator and what follows, in units. */
  lemma {:induction false} UnitsOfLine(u: seq<nat>, t: seq<nat>, r: seq<nat>)
    requires forall i :: 0 <= i < |u| ==> !IsEol(u[i])
    requires t == [CR, LF] || t == [LF] || t == [CR] || (t == [] && r == [] && u != [])
    requires t == [CR] && r != [] ==> r[0] != LF
    ensures ClientLine(u + t + r) == |u| + |t|
    ensures ContentUnits(u + t + r) == |u|
  {
    hide ClientLine, ContentUnits;
    if t == [] {
      assert u + t + r == u && u + [] == u;
      ClientLineWhole(u);
      ContentSkips(u, []);
    } else {
      assert u + t + r == u + (t + r);
      TerminatorLine(t, r);
      ClientLineSkips(u, t + r);
      ContentSkips(u, t + r);
    }
  }

  lemma {:induction false} LineUnits(enc: Encoding, line: Text, rest: Text)
    requires IsLine(line) && LspText(line)
    requires rest != [] ==> Follows(line, rest)
    ensures Encode(enc, line) != []
    ensures ClientLine(Encode(enc, line) + Encode(enc, rest)) == |Encode(enc, line)|
    ensures ContentUnits(Encode(enc, line) + Encode(enc, rest))
         == |Encode(enc, line[..ContentLength(line)])|
  {
    hide ClientLine, ContentUnits;
    TerminatorOfLine(line);
    var content, t := line[..ContentLength(line)], line[ContentLength(line)..];
    assert line == content + t;
    EncodeAppend(enc, content, t);
    PlainUnits(enc, content);
    if t == [] {
      EncodeCons(enc, content);
    } else {
      EncodeTerminator(enc, t);
    }
    if rest != [] {
      FirstUnitLf(enc, rest);
    }
    UnitsOfLine(Encode(enc, content), t, Encode(enc, rest));
    assert Encode(enc, line) == Encode(enc, content) + t;
  }

  ghost predicate LspLines(lines: seq<Text>) {
    WellSplit(lines) && forall i :: 0 <= i < |lines| ==> LspText(lines[i])
  }

  lemma {:induction false} LspLinesFrom(lines: seq<Text>, i: nat)
    requires LspLines(lines) && i <= |lines|
    ensures LspLines(lines[i..])
  {
    forall j | 0 < j < |lines[i..]| ensures Follows(lines[i..][j - 1], lines[i..][j]) {
      assert Follows(lines[i + j - 1], lines[i + j]);
    }
  }

  function Min(i: nat, j: nat): nat {
    if i < j then i else j
  }

  ghost predicate ClientSplit(us: seq<seq<nat>>) {
    us != [] ==> us[0] != [] && ClientLine(us[0] + Concat(us[1..])) == |us[0]| && ClientSplit(us[1..])
  }

  function EncodeLines(enc: Encoding, lines: seq<Text>): (us: seq<seq<nat>>)
    ensures |us| == |lines| && forall i :: 0 <= i < |us| ==> us[i] == Encode(enc, lines[i])
  {
    seq(|lines|, i requires 0 <= i < |lines| => Encode(enc, lines[i]))
  }

  lemma {:induction false} JoinEncodeLines(enc: Encoding, lines: seq<Text>)
    ensures Concat(EncodeLines(enc, lines)) == Encode(enc, Flatten(lines))
  {
    if lines != [] {
      assert EncodeLines(enc, lines)[1..] == EncodeLines(enc, lines[1..]);
      JoinEncodeLines(enc, lines[1..]);
      FlattenCons(lines);
      EncodeAppend(enc, lines[0], Flatten(lines[1..]));
    }
  }

  lemma {:induction false} FirstLineUnits(enc: Encoding, lines: seq<Text>)
    requires LspLines(lines) && lines != []
    ensures var u, b := Encode(enc, lines[0]), Encode(enc, lines[0]) + Encode(enc, Flatten(lines[1..]));
            && u != [] && ClientLine(b) == |u|
            && ContentUnits(b) == |Encode(enc, lines[0][..ContentLength(lines[0])])|
  {
    if |lines| > 1 {
      FlattenCons(lines[1..]);
      assert Follows(lines[0], lines[1]);
    }
    LineUnits(enc, lines[0], Flatten(lines[1..]));
  }

  lemma {:induction false} EncodeLinesSplit(enc: Encoding, lines: seq<Text>)
    requires LspLines(lines)
    ensures ClientSplit(EncodeLines(enc, lines))
  {
    if lines != [] {
      assert EncodeLines(enc, lines)[1..] == EncodeLines(enc, lines[1..]);
      LspLinesFrom(lines, 1);
      EncodeLinesSplit(enc, lines[1..]);
      JoinEncodeLines(enc, lines[1..]);
      FirstLineUnits(enc, lines);
    }
  }

  lemma {:induction false} LineStartNext(us: seq<seq<nat>>, row: nat)
    requires ClientSplit(us) && us != [] && row > 0
    ensures Concat(us)[LineStart(Concat(us), row)..] == Concat(us[1..])[LineStart(Concat(us[1..]), row - 1)..]
  {
    var b, rest := Concat(us), Concat(us[1..]);
    assert b == us[0] + rest && ClientLine(b) == |us[0]|;
    hide Concat, ClientLine, ClientSplit;
    assert b[|us[0]|..] == rest;
    assert LineStart(b, row) == |us[0]| + LineStart(rest, row - 1);
  }

  lemma {:induction false} ClientSplitTail(us: seq<seq<nat>>, row: nat)
    requires ClientSplit(us)
    ensures us != [] ==> ClientSplit(us[1..])
    ensures row == 0 || us == [] ==> LineStart(Concat(us), row) == 0
  {
    hide ClientLine;
  }

  lemma {:induction false} LineStartOfJoin(us: seq<seq<nat>>, row: nat, i: nat)
    requires ClientSplit(us) && i == Min(row, |us|)
    ensures Concat(us)[LineStart(Concat(us), row)..] == Concat(us[i..])
  {
    hide Concat, ClientLine, ClientSplit, LineStart;
    ClientSplitTail(us, row);
    if row > 0 && us != [] {
      assert us[1..][i - 1..] == us[i..];
      LineStartOfJoin(us[1..], row - 1, i - 1);
      LineStartNext(us, row);
    } else {
      assert us[i..] == us && Concat(us)[0..] == Concat(us);
    }
  }

  /** From the start of a line on, client and server have the same text. */
  lemma {:induction false} LineStartAgrees(enc: Encoding, lines: seq<Text>, row: nat, i: nat)
    requires LspLines(lines) && i == Min(row, |lines|)
    ensures var b := Encode(enc, Flatten(lines));
            b[LineStart(b, row)..] == Encode(enc, Flatten(lines[i..]))
  {
    hide LineStart, Concat, ClientSplit, Encode, Flatten;
    var us := EncodeLines(enc, lines);
    EncodeLinesSplit(enc, lines);
    JoinEncodeLines(enc, lines);
    LineStartOfJoin(us, row, i);
    assert us[i..] == EncodeLines(enc, lines[i..]);
    JoinEncodeLines(enc, lines[i..]);
  }

  lemma {:induction false} ContentAgrees(enc: Encoding, lines: seq<Text>, row: nat)
    requires LspLines(lines) && row < |lines|
    ensures var b, line := Encode(enc, Flatten(lines)), lines[row];
            ContentUnits(b[LineStart(b, row)..]) == |Encode(enc, line[..ContentLength(line)])|
  {
    LineStartAgrees(enc, lines, row, row);
    LspLinesFrom(lines, row);
    var rest := lines[row..];
    FirstLineUnits(enc, rest);
    FlattenCons(rest);
    EncodeAppend(enc, rest[0], Flatten(rest[1..]));
  }

  lemma {:induction false} SplitLspText(s: Text)
    requires LspText(s)
    ensures LspLines(SplitLines(s)) && Flatten(SplitLines(s)) == s
  {
    hide SplitLines, Flatten, IsLine, Follows;
    var lines := SplitLines(s);
    SplitLinesAreLines(s);
    FlattenSplitLines(s);
    forall i | 0 <= i < |lines| ensures LspText(lines[i]) {
      FlattenAround(lines, i);
      var before := Flatten(lines[..i]);
      assert forall j :: 0 <= j < |lines[i]| ==> lines[i][j] == s[|before| + j];
    }
  }

  /* Columns */

  lemma {:induction false} BoundaryInPrefix(enc: Encoding, s: Text, n: nat, k: nat)
    requires n <= |s| && k <= ClientNumUnits(enc, s[..n])
    ensures IsBoundary(enc, s, k) <==> IsBoundary(enc, s[..n], k)
  {
    if IsBoundary(enc, s, k) {
      var j :| 0 <= j <= |s| && ClientNumUnits(enc, s[..j]) == k;
      if j > n {
        NumUnitsPrefix(enc, s, n, j);
      }
      assert s[..n][..j] == s[..j];
    }
    if IsBoundary(enc, s[..n], k) {
      var j :| 0 <= j <= n && ClientNumUnits(enc, s[..n][..j]) == k;
      assert s[..n][..j] == s[..j];
    }
  }

  lemma {:induction false} Continuation(enc: Encoding, c: CodePoint, i: nat)
    requires !IsSurrogate(c) && i < Units(enc, c)
    ensures AtCodePoint(enc, EncodeChar(enc, c), i) <==> i == 0
  {
    match enc
    case Utf32 =>
    case Utf16 => assert EncodeChar(enc, c) == EncodeUtf16(c);
    case Utf8 => assert EncodeChar(enc, c) == EncodeUtf8(c);
  }

  /** Code point boundaries can be read off the units. */
  lemma {:induction false} BoundaryUnits(enc: Encoding, s: Text, r: seq<nat>, k: nat)
    requires SurrogateFree(s) && k <= |Encode(enc, s)|
    requires r == [] || AtCodePoint(enc, r, 0)
    ensures AtCodePoint(enc, Encode(enc, s) + r, k) <==> IsBoundary(enc, s, k)
  {
    EncodeLength(enc, s);
    assert s != [] ==> Encode(enc, s) == Encode(enc, s[..|s| - 1]) + EncodeChar(enc, s[|s| - 1]);
    assert s == [] ==> Encode(enc, s) == [];
    hide Encode, EncodeChar, ClientNumUnits, IsBoundary, AtCodePoint;
    if k == |Encode(enc, s)| {
      WholeBoundary(enc, s, r);
    } else {
      var s', c := s[..|s| - 1], s[|s| - 1];
      EncodeLength(enc, s');
      var e', u := Encode(enc, s'), EncodeChar(enc, c);
      assert e' + u + r == e' + (u + r);
      if k <= |e'| {
        BoundaryInPrefix(enc, s, |s'|, k);
        CharStarts(enc, c, r);
        BoundaryUnits(enc, s', u + r, k);
      } else {
        InsideChar(enc, e', c, r, k);
        NotWithin(enc, s, k);
      }
    }
  }

  lemma {:induction false} WholeBoundary(enc: Encoding, s: Text, r: seq<nat>)
    requires r == [] || AtCodePoint(enc, r, 0)
    ensures IsBoundary(enc, s, |Encode(enc, s)|) && AtCodePoint(enc, Encode(enc, s) + r, |Encode(enc, s)|)
  {
    hide Encode, ClientNumUnits;
    EncodeLength(enc, s);
    assert s[..|s|] == s;
    assert r != [] ==> (Encode(enc, s) + r)[|Encode(enc, s)|] == r[0];
  }

  lemma {:induction false} CharStarts(enc: Encoding, c: CodePoint, r: seq<nat>)
    requires !IsSurrogate(c)
    ensures AtCodePoint(enc, EncodeChar(enc, c) + r, 0)
  {
    Continuation(enc, c, 0);
  }

  lemma {:induction false} InsideChar(enc: Encoding, before: seq<nat>, c: CodePoint, r: seq<nat>, k: nat)
    requires !IsSurrogate(c) && |before| < k < |before| + |EncodeChar(enc, c)|
    ensures !AtCodePoint(enc, before + (EncodeChar(enc, c) + r), k)
  {
    Continuation(enc, c, k - |before|);
    assert (before + (EncodeChar(enc, c) + r))[k] == EncodeChar(enc, c)[k - |before|];
  }

  lemma {:induction false} NotWithin(enc: Encoding, s: Text, k: nat)
    requires s != [] && ClientNumUnits(enc, s[..|s| - 1]) < k < ClientNumUnits(enc, s)
    ensures !IsBoundary(enc, s, k)
  {
    forall j | 0 <= j <= |s| ensures ClientNumUnits(enc, s[..j]) != k {
      if j < |s| - 1 {
        NumUnitsPrefix(enc, s, j, |s| - 1);
      }
      assert s[..|s|] == s;
    }
  }

  /** The units that precede the column the server finds on a normalised line, for `k` requested ones. */
  function ServerUnits(enc: Encoding, norm: Text, k: nat): nat {
    var units := ClientNumUnits(enc, norm);
    var k' := if units != 0 && k > units then units - 1 else k;
    ClientNumUnits(enc, norm[..Column(enc, norm, k', 0)])
  }

  /** When that is what the protocol means, for a line with this content. */
  ghost predicate LineAgreeable(enc: Encoding, content: Text, terminated: bool, k: nat) {
    var u := ClientNumUnits(enc, content);
    if k <= u then IsBoundary(enc, content, k)
    else if terminated then k != u + 1
    else u > 0 && !IsBoundary(enc, content, u - 1)
  }

  lemma {:induction false} FullOrShort(enc: Encoding, line: Text, k: nat)
    requires k <= ClientNumUnits(enc, line)
    ensures ClientNumUnits(enc, line[..Column(enc, line, k, 0)]) == k <==> IsBoundary(enc, line, k)
    ensures ClientNumUnits(enc, line[..Column(enc, line, k, 0)]) <= ClientNumUnits(enc, line)
  {
    ColumnOvershoot(enc, line, k);
    PrefixWithin(enc, line, Column(enc, line, k, 0));
  }

  lemma {:induction false} TerminatedAgrees(enc: Encoding, content: Text, t: CodePoint, k: nat)
    requires t < 0x80
    ensures ServerUnits(enc, content + [t], k) == Min(k, ClientNumUnits(enc, content))
            <==> LineAgreeable(enc, content, true, k)
  {
    var u, norm := ClientNumUnits(enc, content), content + [t];
    NumUnitsSnoc(enc, content, t);
    assert norm[..|content|] == content && norm[..|norm|] == norm;
    if k <= u {
      FullOrShort(enc, norm, k);
      BoundaryInPrefix(enc, norm, |content|, k);
    } else if k == u + 1 {
      FullOrShort(enc, norm, k);
    } else {
      ColumnOfPrefix(enc, norm, |content|);
    }
  }

  lemma {:induction false} UnterminatedAgrees(enc: Encoding, content: Text, k: nat)
    requires content != []
    ensures ServerUnits(enc, content, k) == Min(k, ClientNumUnits(enc, content))
            <==> LineAgreeable(enc, content, false, k)
  {
    UnitsPositive(enc, content);
    var u := ClientNumUnits(enc, content);
    var k' := if k > u then u - 1 else k;
    FullOrShort(enc, content, k');
    ColumnOvershoot(enc, content, k');
  }

  lemma {:induction false} NormalisedLine(line: Text)
    requires IsLine(line) && LspText(line)
    ensures var content, norm := line[..ContentLength(line)], ReplaceCrLf(line);
            if IsTerminated(line) then norm == content + [LF] || norm == content + [CR] else norm == content
  {
    ReplaceCrLfOfLine(line);
  }

  /** On one line, when the server's column is the place the protocol means. */
  lemma {:induction false} LineAgrees(enc: Encoding, line: Text, k: nat)
    requires IsLine(line) && LspText(line)
    ensures var content := line[..ContentLength(line)];
            ServerUnits(enc, ReplaceCrLf(line), k) == Min(k, ClientNumUnits(enc, content))
            <==> LineAgreeable(enc, content, IsTerminated(line), k)
  {
    var content := line[..ContentLength(line)];
    NormalisedLine(line);
    if ReplaceCrLf(line) == content + [LF] {
      TerminatedAgrees(enc, content, LF, k);
    } else if ReplaceCrLf(line) == content + [CR] {
      TerminatedAgrees(enc, content, CR, k);
    } else {
      UnterminatedAgrees(enc, content, k);
    }
  }

  /* Places in the document */

  lemma {:induction false} ServerColumn(enc: Encoding, lines: seq<Text>, p: Pos)
    requires p.line < |lines| && IsLine(lines[p.line])
    ensures var q, line := FromClientUnits(enc, lines, p), lines[p.line];
            && q.line == p.line && q.character <= |line|
            && ClientNumUnits(enc, line[..q.character]) == ServerUnits(enc, ReplaceCrLf(line), p.character)
  {
    NormalisedPrefix(enc, lines[p.line], FromClientUnits(enc, lines, p).character);
  }

  lemma {:induction false} HeadUnits(enc: Encoding, lines: seq<Text>, q: Pos)
    requires q.line < |lines| && q.character <= |lines[q.line]|
    ensures |Encode(enc, Head(lines, q))|
         == |Encode(enc, Flatten(lines[..q.line]))| + ClientNumUnits(enc, lines[q.line][..q.character])
  {
    EncodeAppend(enc, Flatten(lines[..q.line]), lines[q.line][..q.character]);
    EncodeLength(enc, lines[q.line][..q.character]);
  }

  /** Past the last line both mean the end of the document. */
  lemma {:induction false} PlacePastEnd(enc: Encoding, lines: seq<Text>, p: Pos)
    requires LspLines(lines) && lines != [] && p.line >= |lines|
    ensures Head(lines, FromClientUnits(enc, lines, p)) == Flatten(lines)
    ensures LineStart(Encode(enc, Flatten(lines)), p.line) == |Encode(enc, Flatten(lines))|
  {
    var last := |lines| - 1;
    NumUnitsAtLeastLength(enc, lines[last]);
    assert lines[last][..|lines[last]|] == lines[last];
    LineStartAgrees(enc, lines, p.line, |lines|);
    assert lines[|lines|..] == [];
  }

  /** A document cut at a line: what is before, the content, the terminator and what is after. */
  lemma {:induction false} CutAtLine(enc: Encoding, lines: seq<Text>, row: nat)
    requires LspLines(lines) && row < |lines|
    ensures var line := lines[row];
            var content, after := line[..ContentLength(line)], line[ContentLength(line)..] + Flatten(lines[row + 1..]);
            && Flatten(lines) == Flatten(lines[..row]) + (content + after)
            && Encode(enc, Flatten(lines[row..])) == Encode(enc, content) + Encode(enc, after)
            && content + after != [] && (after != [] <==> IsTerminated(line))
            && (after != [] ==> after[0] == LF || after[0] == CR)
  {
    var line, rest := lines[row], Flatten(lines[row + 1..]);
    var content, t := line[..ContentLength(line)], line[ContentLength(line)..];
    FlattenAround(lines, row);
    FlattenCons(lines[row..]);
    assert lines[row..][1..] == lines[row + 1..];
    TerminatorOfLine(line);
    LastUnterminated(lines, row);
    assert IsTerminated(line) <==> t != [];
    hide Encode, Flatten, LspLines, IsTerminated;
    assert if t == [] then t + rest == [] else (t + rest)[0] == t[0];
    CutText(Flatten(lines[..row]), line, content, t, rest);
    EncodeAppend(enc, content, t + rest);
  }

  lemma {:induction false} CutText(before: Text, line: Text, content: Text, t: Text, rest: Text)
    requires line == content + t
    ensures line + rest == content + (t + rest) && before + line + rest == before + (content + (t + rest))
  {}

  lemma {:induction false} LastUnterminated(lines: seq<Text>, row: nat)
    requires LspLines(lines) && row < |lines|
    ensures !IsTerminated(lines[row]) ==> Flatten(lines[row + 1..]) == []
  {
    if row + 1 < |lines| {
      assert Follows(lines[row], lines[row + 1]);
    } else {
      assert lines[row + 1..] == [];
    }
  }

  lemma {:induction false} StartOfLine(enc: Encoding, lines: seq<Text>, row: nat)
    requires LspLines(lines) && row < |lines|
    ensures var b, line := Encode(enc, Flatten(lines)), lines[row];
            var start := LineStart(b, row);
            var u := ClientNumUnits(enc, line[..ContentLength(line)]);
            && start == |Encode(enc, Flatten(lines[..row]))| < |b|
            && ContentUnits(b[start..]) == u
            && (start + u < |b| <==> IsTerminated(line))
  {
    var b, line := Encode(enc, Flatten(lines)), lines[row];
    var before, content, after := Flatten(lines[..row]), line[..ContentLength(line)], line[ContentLength(line)..] + Flatten(lines[row + 1..]);
    LineStartAgrees(enc, lines, row, row);
    ContentAgrees(enc, lines, row);
    CutAtLine(enc, lines, row);
    EncodeAppend(enc, before, content + after);
    EncodeAppend(enc, content, after);
    EncodeLength(enc, content);
    EncodeLength(enc, after);
    UnitsPositive(enc, content);
    UnitsPositive(enc, after);
  }

  lemma {:induction false} EolFirst(enc: Encoding, s: Text)
    requires s != [] && (s[0] == LF || s[0] == CR)
    ensures Encode(enc, s) != [] && AtCodePoint(enc, Encode(enc, s), 0)
  {
    EncodeCons(enc, s);
    EncodeAscii(enc, s[0]);
    EncodeSingle(enc, s[0]);
  }

  lemma {:induction false} AtCodePointFrom(enc: Encoding, b: seq<nat>, o: nat, k: nat)
    requires o + k <= |b|
    ensures AtCodePoint(enc, b, o + k) <==> AtCodePoint(enc, b[o..], k)
  {}

  lemma {:induction false} BoundaryAhead(enc: Encoding, b: seq<nat>, o: nat, content: Text, after: Text, k: nat)
    requires o <= |b| && b[o..] == Encode(enc, content) + Encode(enc, after)
    requires SurrogateFree(content) && k <= ClientNumUnits(enc, content)
    requires after != [] ==> after[0] == LF || after[0] == CR
    ensures o + k <= |b| && (AtCodePoint(enc, b, o + k) <==> IsBoundary(enc, content, k))
  {
    var r := Encode(enc, after);
    assert after == [] ==> r == [];
    hide Encode, IsBoundary, ClientNumUnits;
    EncodeLength(enc, content);
    if after != [] {
      EolFirst(enc, after);
    }
    BoundaryUnits(enc, content, r, k);
    AtCodePointFrom(enc, b, o, k);
  }

  /** The client's code point boundaries in the content of a line are the server's. */
  lemma {:induction false} BoundaryAgrees(enc: Encoding, lines: seq<Text>, row: nat, k: nat)
    requires LspLines(lines) && row < |lines|
    requires k <= ClientNumUnits(enc, lines[row][..ContentLength(lines[row])])
    ensures var b, line := Encode(enc, Flatten(lines)), lines[row];
            && LineStart(b, row) + k <= |b|
            && (AtCodePoint(enc, b, LineStart(b, row) + k) <==> IsBoundary(enc, line[..ContentLength(line)], k))
  {
    hide Encode, Flatten, LineStart, ContentLength, IsBoundary, AtCodePoint, ClientNumUnits, WellSplit;
    var b, line := Encode(enc, Flatten(lines)), lines[row];
    LineStartAgrees(enc, lines, row, row);
    CutAtLine(enc, lines, row);
    BoundaryAhead(enc, b, LineStart(b, row), line[..ContentLength(line)],
                  line[ContentLength(line)..] + Flatten(lines[row + 1..]), k);
  }

  lemma {:induction false} AgreeableUnits(enc: Encoding, b: seq<nat>, start: nat, content: Text, terminated: bool, k: nat)
    requires start < |b| && start + ClientNumUnits(enc, content) <= |b|
    requires start + ClientNumUnits(enc, content) < |b| <==> terminated
    requires forall j :: 0 <= j <= ClientNumUnits(enc, content) ==>
                           (AtCodePoint(enc, b, start + j) <==> IsBoundary(enc, content, j))
    ensures AgreeableOnLine(enc, b, start, ClientNumUnits(enc, content), k)
            <==> LineAgreeable(enc, content, terminated, k)
  {
    var u := ClientNumUnits(enc, content);
    if k > u && !terminated {
      assert AtCodePoint(enc, b, start + (u - 1)) <==> IsBoundary(enc, content, u - 1);
    }
  }

  /** The client's condition, in the server's terms. */
  lemma {:induction false} AgreeableInLine(enc: Encoding, lines: seq<Text>, p: Pos)
    requires LspLines(lines) && p.line < |lines|
    ensures var line := lines[p.line];
            Agreeable(enc, Encode(enc, Flatten(lines)), p)
            <==> LineAgreeable(enc, line[..ContentLength(line)], IsTerminated(line), p.character)
  {
    hide Encode, Flatten, LineStart, ContentUnits, IsBoundary, AtCodePoint, ClientNumUnits, LineAgreeable, AgreeableOnLine;
    var line := lines[p.line];
    var b, content := Encode(enc, Flatten(lines)), line[..ContentLength(line)];
    var start := LineStart(b, p.line);
    StartOfLine(enc, lines, p.line);
    forall j | 0 <= j <= ClientNumUnits(enc, content)
      ensures AtCodePoint(enc, b, start + j) <==> IsBoundary(enc, content, j)
    {
      BoundaryAgrees(enc, lines, p.line, j);
    }
    AgreeableUnits(enc, b, start, content, IsTerminated(line), p.character);
  }

  lemma {:induction false} ClientOffsetInLine(enc: Encoding, lines: seq<Text>, p: Pos)
    requires LspLines(lines) && p.line < |lines|
    ensures var line := lines[p.line];
            ClientOffset(Encode(enc, Flatten(lines)), p)
            == |Encode(enc, Flatten(lines[..p.line]))|
               + Min(p.character, ClientNumUnits(enc, line[..ContentLength(line)]))
  {
    StartOfLine(enc, lines, p.line);
  }

  lemma {:induction false} ServerOffsetInLine(enc: Encoding, lines: seq<Text>, p: Pos)
    requires LspLines(lines) && p.line < |lines|
    ensures |Encode(enc, Head(lines, FromClientUnits(enc, lines, p)))|
         == |Encode(enc, Flatten(lines[..p.line]))| + ServerUnits(enc, ReplaceCrLf(lines[p.line]), p.character)
  {
    ServerColumn(enc, lines, p);
    HeadUnits(enc, lines, FromClientUnits(enc, lines, p));
  }

  lemma {:induction false} OffsetsInLine(enc: Encoding, lines: seq<Text>, p: Pos)
    requires LspLines(lines) && p.line < |lines|
    ensures var line := lines[p.line];
            ClientOffset(Encode(enc, Flatten(lines)), p)
            == |Encode(enc, Head(lines, FromClientUnits(enc, lines, p)))|
            <==> LineAgreeable(enc, line[..ContentLength(line)], IsTerminated(line), p.character)
  {
    ClientOffsetInLine(enc, lines, p);
    ServerOffsetInLine(enc, lines, p);
    LineAgrees(enc, lines[p.line], p.character);
  }

  /** The two parties mean the same place by a position exactly when it is agreeable. */
  lemma {:induction false} PlacesAgree(enc: Encoding, s: Text, p: Pos)
    requires LspText(s)
    ensures ClientOffset(Encode(enc, s), p) == |Encode(enc, s[..Cap(Offset(enc, s, p), s)])|
            <==> Agreeable(enc, Encode(enc, s), p)
  {
    var lines := SplitLines(s);
    SplitLspText(s);
    if s != [] {
      SplitLinesAreLines(s);
      ConvertedFits(enc, lines, p);
      SplitAt(lines, FromClientUnits(enc, lines, p));
      if p.line >= |lines| {
        PlacePastEnd(enc, lines, p);
      } else {
        OffsetsInLine(enc, lines, p);
        AgreeableInLine(enc, lines, p);
      }
    }
  }

  /* Runs */

  /** The client edits its own code units. */
  function ClientApply(enc: Encoding, b: seq<nat>, edit: Edit): seq<nat> {
    match edit
    case Whole(text) => Encode(enc, text)
    case Replace(span, text) =>
      b[..ClientOffset(b, span.start)] + Encode(enc, text) + b[ClientOffset(b, span.end)..]
  }

  /** What the client must observe, in terms of its own buffer. */
  predicate Conforming(enc: Encoding, b: seq<nat>, edit: Edit) {
    && LspText(edit.text)
    && (edit.Replace? ==>
          && Agreeable(enc, b, edit.span.start) && Agreeable(enc, b, edit.span.end)
          && ClientOffset(b, edit.span.start) <= ClientOffset(b, edit.span.end))
  }

  function ClientRun(enc: Encoding, b: seq<nat>, edits: seq<Edit>): seq<nat>
    decreases |edits|
  {
    if edits == [] then b else ClientRun(enc, ClientApply(enc, b, edits[0]), edits[1..])
  }

  predicate ConformingRun(enc: Encoding, b: seq<nat>, edits: seq<Edit>)
    decreases |edits|
  {
    edits == [] ||
    (Conforming(enc, b, edits[0]) && ConformingRun(enc, ClientApply(enc, b, edits[0]), edits[1..]))
  }

  /** The server's document after a list of changes. */
  function ServerRun(kind: SyncKind, enc: Encoding, source: Text, edits: seq<Edit>): Text
    decreases |edits|
  {
    if edits == [] then source else ServerRun(kind, enc, Applied(kind, enc, source, edits[0]), edits[1..])
  }

  lemma {:induction false} LineWithinNext(enc: Encoding, lines: seq<Text>, row: nat)
    requires LspLines(lines) && row + 1 < |lines|
    ensures var line := lines[row];
            |Encode(enc, Flatten(lines[..row]))| + ClientNumUnits(enc, line[..ContentLength(line)])
            < |Encode(enc, Flatten(lines[..row + 1]))|
  {
    var line := lines[row];
    assert Follows(lines[row], lines[row + 1]);
    FlattenSnoc(lines, row);
    EncodeAppend(enc, Flatten(lines[..row]), line);
    EncodeLength(enc, line);
    assert line[..|line|] == line;
    NumUnitsPrefix(enc, line, ContentLength(line), |line|);
  }

  lemma {:induction false} HeadAtLeast(enc: Encoding, lines: seq<Text>, q: Pos, row: nat)
    requires row <= q.line < |lines|
    ensures |Encode(enc, Flatten(lines[..row]))| <= |Encode(enc, Head(lines, q))|
  {
    FlattenPrefix(lines, row, q.line);
    EncodeAppend(enc, Flatten(lines[..row]), Flatten(lines[row..q.line]));
    EncodeAppend(enc, Flatten(lines[..q.line]), lines[q.line][..Cap(q.character, lines[q.line])]);
  }

  lemma {:induction false} OffsetBeforeNextLine(enc: Encoding, lines: seq<Text>, p: Pos)
    requires LspLines(lines) && p.line + 1 < |lines|
    ensures ClientOffset(Encode(enc, Flatten(lines)), p) < |Encode(enc, Flatten(lines[..p.line + 1]))|
  {
    ClientOffsetInLine(enc, lines, p);
    LineWithinNext(enc, lines, p.line);
  }

  /** A position on an earlier line is earlier. */
  lemma {:induction false} EarlierLine(enc: Encoding, lines: seq<Text>, end: Pos, s: Pos)
    requires LspLines(lines) && end.line < s.line < |lines|
    ensures ClientOffset(Encode(enc, Flatten(lines)), end) < |Encode(enc, Head(lines, s))|
  {
    OffsetBeforeNextLine(enc, lines, end);
    HeadAtLeast(enc, lines, s, end.line + 1);
  }

  lemma {:induction false} ConvertedLine(enc: Encoding, lines: seq<Text>, p: Pos)
    requires lines != []
    ensures FromClientUnits(enc, lines, p).line == Min(p.line, |lines| - 1)
  {}

  /** Cutting the text and cutting its units. */
  lemma {:induction false} EncodeCut(enc: Encoding, s: Text, o: nat)
    requires o <= |s|
    ensures var i := |Encode(enc, s[..o])|;
            && i <= |Encode(enc, s)|
            && Encode(enc, s)[..i] == Encode(enc, s[..o])
            && Encode(enc, s)[i..] == Encode(enc, s[o..])
  {
    assert s == s[..o] + s[o..];
    EncodeAppend(enc, s[..o], s[o..]);
  }

  lemma {:induction false} SpliceLspText(s: Text, i: nat, j: nat, text: Text)
    requires LspText(s) && LspText(text)
    ensures LspText(Splice(s, i, j, text))
  {}

  lemma {:induction false} EncodeSplice(enc: Encoding, s: Text, i: nat, j: nat, text: Text)
    ensures var b, u, v := Encode(enc, s), |Encode(enc, s[..Cap(i, s)])|, |Encode(enc, s[..Cap(j, s)])|;
            && u <= |b| && v <= |b|
            && Encode(enc, Splice(s, i, j, text)) == b[..u] + Encode(enc, text) + b[v..]
  {
    EncodeCut(enc, s, Cap(i, s));
    EncodeCut(enc, s, Cap(j, s));
    EncodeAppend(enc, s[..Cap(i, s)], text);
    EncodeAppend(enc, s[..Cap(i, s)] + text, s[Cap(j, s)..]);
  }

  /** A conforming range is spliced, not dropped. */
  lemma {:induction false} SplicedIsSplice(enc: Encoding, s: Text, span: Span, text: Text)
    requires LspText(s) && Conforming(enc, Encode(enc, s), Replace(span, text))
    ensures Spliced(enc, s, span, text) == Splice(s, Offset(enc, s, span.start), Offset(enc, s, span.end), text)
  {
    var lines := SplitLines(s);
    SplitLspText(s);
    PlacesAgree(enc, s, span.start);
    if s != [] {
      SplitLinesAreLines(s);
      ConvertedFits(enc, lines, span.start);
      SplitAt(lines, FromClientUnits(enc, lines, span.start));
      ConvertedLine(enc, lines, span.start);
      ConvertedLine(enc, lines, span.end);
      if span.end.line < Min(span.start.line, |lines| - 1) {
        EarlierLine(enc, lines, span.end, FromClientUnits(enc, lines, span.start));
      }
    }
  }

  lemma {:induction false} EditAgrees(enc: Encoding, s: Text, edit: Edit)
    requires LspText(s) && Conforming(enc, Encode(enc, s), edit)
    ensures Encode(enc, Applied(IncrementalSync, enc, s, edit)) == ClientApply(enc, Encode(enc, s), edit)
    ensures LspText(Applied(IncrementalSync, enc, s, edit))
  {
    if edit.Replace? {
      var span := edit.span;
      var i, j := Offset(enc, s, span.start), Offset(enc, s, span.end);
      SplicedIsSplice(enc, s, span, edit.text);
      PlacesAgree(enc, s, span.start);
      PlacesAgree(enc, s, span.end);
      EncodeSplice(enc, s, i, j, edit.text);
      SpliceLspText(s, i, j, edit.text);
    }
  }

  /** After any run of conforming changes to an opened document, the server's text is the client's. */
  lemma {:induction false} Convergence(enc: Encoding, opened_: Text, edits: seq<Edit>)
    requires LspText(opened_) && ConformingRun(enc, Encode(enc, opened_), edits)
    ensures Encode(enc, ServerRun(IncrementalSync, enc, opened_, edits)) == ClientRun(enc, Encode(enc, opened_), edits)
    ensures LspText(ServerRun(IncrementalSync, enc, opened_, edits))
    decreases |edits|
  {
    if edits != [] {
      EditAgrees(enc, opened_, edits[0]);
      Convergence(enc, Applied(IncrementalSync, enc, opened_, edits[0]), edits[1..]);
    }
  }

  /** With full synchronisation the document is the text that came last, a ranged change's text being taken as the
      whole one; without synchronisation it stays as it was opened. */
  lemma {:induction false} LastTextCounts(enc: Encoding, opened_: Text, edits: seq<Edit>)
    ensures ServerRun(FullSync, enc, opened_, edits) == if edits == [] then opened_ else edits[|edits| - 1].text
    ensures ServerRun(NoSync, enc, opened_, edits) == opened_
    decreases |edits|
  {
    if edits != [] {
      assert Applied(FullSync, enc, opened_, edits[0]) == edits[0].text && Applied(NoSync, enc, opened_, edits[0]) == opened_;
      LastTextCounts(enc, edits[0].text, edits[1..]);
      LastTextCounts(enc, opened_, edits[1..]);
    }
  }

  /** A client that was told to send whole texts, and does, agrees with the server after each of them. */
  lemma {:induction false} FullSyncConverges(enc: Encoding, opened_: Text, edits: seq<Edit>)
    requires forall i :: 0 <= i < |edits| ==> edits[i].Whole?
    ensures Encode(enc, ServerRun(FullSync, enc, opened_, edits)) == ClientRun(enc, Encode(enc, opened_), edits)
    decreases |edits|
  {
    hide Encode;
    if edits != [] {
      assert Applied(FullSync, enc, opened_, edits[0]) == edits[0].text;
      assert ClientApply(enc, Encode(enc, opened_), edits[0]) == Encode(enc, edits[0].text);
      FullSyncConverges(enc, edits[0].text, edits[1..]);
    }
  }

  /** So whatever text the client's units stand for is the server's text. */
  lemma {:induction false} ConvergedText(enc: Encoding, opened_: Text, edits: seq<Edit>, shown: Text)
    requires LspText(opened_) && ConformingRun(enc, Encode(enc, opened_), edits)
    requires SurrogateFree(shown) && Encode(enc, shown) == ClientRun(enc, Encode(enc, opened_), edits)
    ensures ServerRun(IncrementalSync, enc, opened_, edits) == shown
  {
    Convergence(enc, opened_, edits);
    EncodeInjective(enc, shown, ServerRun(IncrementalSync, enc, opened_, edits));
  }

  const AB: Text := [0x61, 0x62]

  lemma {:induction false} AsciiText(enc: Encoding, s: Text)
    requires forall i :: 0 <= i < |s| ==> s[i] < 0x80
    ensures Encode(enc, s) == s && ClientNumUnits(enc, s) == |s|
  {
    hide ClientNumUnits, EncodeChar;
    EncodeLength(enc, s);
    if s != [] {
      AsciiText(enc, s[..|s| - 1]);
      assert s == s[..|s| - 1] + [s[|s| - 1]];
      EncodeAscii(enc, s[|s| - 1]);
      EncodeSingle(enc, s[|s| - 1]);
    }
  }

  lemma {:induction false} PlainFirstLine()
    ensures SplitLines(AB + [LF]) == [AB + [LF]] && ReplaceCrLf(AB + [LF]) == AB + [LF]
  {
    var line := AB + [LF];
    assert FirstLine(line[2..]) == 1 && FirstLine(line[1..]) == 2 && FirstLine(line) == 3;
    assert line[..3] == line && line[3..] == [];
    hide FirstLine;
    assert SplitLines(line) == [line] + SplitLines([]);
    ReplaceCrLfOfLine(line);
  }

  /** Asking for one unit more than the content of a plain, terminated first line. */
  lemma {:induction false} PlainOffset(enc: Encoding)
    ensures Offset(enc, AB + [LF], Pos(0, 3)) == 3
    ensures FromClientUnits(enc, SplitLines(AB + [LF]), Pos(0, 3)) == Pos(0, 3)
  {
    hide SplitLines, ReplaceCrLf, Encode, ClientNumUnits;
    var line := AB + [LF];
    PlainFirstLine();
    AsciiText(enc, line);
    var k := Column(enc, line, 3, 0);
    if k < 3 {
      AsciiText(enc, line[..k]);
    }
  }

  /** A character one past a terminated line means the end of that line to the client and the start of the
      next one to the server. */
  lemma {:induction false} JustPastTheLine(enc: Encoding)
    ensures var s, p := AB + [LF], Pos(0, 3);
            && !Agreeable(enc, Encode(enc, s), p)
            && ClientOffset(Encode(enc, s), p) == 2 && Offset(enc, s, p) == 3
  {
    var s := AB + [LF];
    assert ContentUnits(s[2..]) == 0 && ContentUnits(s[1..]) == 1 && ContentUnits(s) == 2 && s[0..] == s;
    hide ContentUnits, Encode, SplitLines, Offset;
    AsciiText(enc, s);
    PlainOffset(enc);
  }

  /** A single insertion there makes the two texts differ. */
  lemma {:induction false} InsertionDiverges(enc: Encoding)
    ensures var s, edit := AB + [LF], Replace(Span(Pos(0, 3), Pos(0, 3)), AB);
            Encode(enc, Applied(IncrementalSync, enc, s, edit)) != ClientApply(enc, Encode(enc, s), edit)
  {
    hide Encode, SplitLines, ClientOffset, FromClientUnits, OffsetAt;
    var s := AB + [LF];
    PlainOffset(enc);
    JustPastTheLine(enc);
    AsciiText(enc, s);
    AsciiText(enc, AB);
    var server, client := Splice(s, 3, 3, AB), s[..2] + AB + s[2..];
    AsciiText(enc, server);
    assert server[2] == LF && client[2] == AB[0];
  }

  lemma {:induction false} PlainLastLine()
    ensures SplitLines(AB) == [AB] && ReplaceCrLf(AB) == AB
  {
    assert FirstLine(AB[1..]) == 1 && FirstLine(AB) == 2;
    assert AB[..2] == AB && AB[2..] == [];
    hide FirstLine;
    assert SplitLines(AB) == [AB] + SplitLines([]);
    ReplaceCrLfOfLine(AB);
  }

  lemma {:induction false} PlainLastOffset(enc: Encoding, k: nat)
    requires k > 2
    ensures Offset(enc, AB, Pos(0, k)) == 1
  {
    hide SplitLines, ReplaceCrLf, Encode, ClientNumUnits;
    PlainLastLine();
    AsciiText(enc, AB);
    AsciiText(enc, AB[..0]);
    AsciiText(enc, AB[..1]);
  }

  lemma {:induction false} PlainContent()
    ensures ContentUnits(AB[0..]) == 2
  {
    assert ContentUnits(AB[2..]) == 0 && ContentUnits(AB[1..]) == 1 && AB[0..] == AB;
  }

  /** Past the end of an unterminated last line of plain characters, the server stops one short of it. */
  lemma {:induction false} PastTheLastLine(enc: Encoding, k: nat)
    requires k > 2
    ensures !Agreeable(enc, Encode(enc, AB), Pos(0, k))
    ensures ClientOffset(Encode(enc, AB), Pos(0, k)) == 2 && Offset(enc, AB, Pos(0, k)) == 1
  {
    hide ContentUnits, Encode, SplitLines, Offset;
    PlainContent();
    AsciiText(enc, AB);
    PlainLastOffset(enc, k);
  }

  /* Exactly which insertions agree */

  /** Inserting the same unit at two places gives different buffers, if it is not the unit at the first. */
  lemma {:induction false} InsertedApart(b: seq<nat>, i: nat, j: nat, u: nat)
    requires i < j <= |b| && b[i] != u
    ensures b[..i] + [u] + b[i..] != b[..j] + [u] + b[j..]
  {
    assert (b[..i] + [u] + b[i..])[i] == u && (b[..j] + [u] + b[j..])[i] == b[i];
  }

  /** A character that is not the unit at this place. */
  function OtherThan(b: seq<nat>, i: nat): (c: CodePoint)
    ensures i < |b| ==> b[i] != c
  {
    if i < |b| && b[i] == 0x61 then 0x62 else 0x61
  }

  lemma {:induction false} InsertionOffsets(enc: Encoding, s: Text, p: Pos, text: Text)
    requires LspText(s)
    ensures var b, j := Encode(enc, s), |Encode(enc, s[..Cap(Offset(enc, s, p), s)])|;
            && j <= |b|
            && Encode(enc, Applied(IncrementalSync, enc, s, Replace(Span(p, p), text))) == b[..j] + Encode(enc, text) + b[j..]
            && ClientApply(enc, b, Replace(Span(p, p), text)) == b[..ClientOffset(b, p)] + Encode(enc, text) + b[ClientOffset(b, p)..]
  {
    EncodeSplice(enc, s, Offset(enc, s, p), Offset(enc, s, p), text);
  }

  /** Every insertion at a position leaves the two parties with one text if and only if the position is
      agreeable. */
  lemma {:induction false} InsertionAgrees(enc: Encoding, s: Text, p: Pos)
    requires LspText(s)
    ensures Agreeable(enc, Encode(enc, s), p) <==>
            forall text :: LspText(text) ==>
              Encode(enc, Applied(IncrementalSync, enc, s, Replace(Span(p, p), text)))
              == ClientApply(enc, Encode(enc, s), Replace(Span(p, p), text))
  {
    hide Encode, Applied, ClientApply, Agreeable, ClientOffset, Offset;
    var b := Encode(enc, s);
    var i, j := ClientOffset(b, p), |Encode(enc, s[..Cap(Offset(enc, s, p), s)])|;
    PlacesAgree(enc, s, p);
    forall text | LspText(text) && i == j
      ensures Encode(enc, Applied(IncrementalSync, enc, s, Replace(Span(p, p), text))) == ClientApply(enc, b, Replace(Span(p, p), text))
    {
      InsertionOffsets(enc, s, p, text);
    }
    if i != j {
      var text := [OtherThan(b, if i < j then i else j)];
      InsertionOffsets(enc, s, p, text);
      EncodeAscii(enc, text[0]);
      if i < j {
        InsertedApart(b, i, j, text[0]);
      } else {
        InsertedApart(b, j, i, text[0]);
      }
      assert LspText(text);
    }
  }
}
