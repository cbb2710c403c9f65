/** A lexer that reports its tokens by relative positions (LSP 3.17, "Semantic Tokens", "Integer Encoding
    for Tokens"), and the rule that turns them back into places. */
module SemanticTokens {
  import opened Unicode
  import opened Wrappers
  import opened Scanning

  datatype Result<T> = Success(value: T) | NoMatch | InfiniteLoop

  datatype TokenType = Unclassified | Keyword | Variable | Function | Operator | Parameter | Type

  datatype Modifier = Deprecated | Readonly | DefaultLibrary | Definition

  datatype Token = Token(line: nat, offset: nat, text: Text, tokType: TokenType, modifiers: seq<Modifier>)

  /** The character classes of the patterns `\s` and `\w`, and `str.isupper`. */
  datatype Classes = Classes(isSpace: CodePoint -> bool, isWord: CodePoint -> bool, isUpper: CodePoint -> bool)

  const MINUS: CodePoint := 0x2D
  const GREATER: CodePoint := 0x3E

  /** `[\{\}\(\)\.,+:*-=]`, where `*-=` is a range. */
  predicate IsOpChar(c: CodePoint) {
    c == 0x7B || c == 0x7D || c == 0x28 || c == 0x29 || 0x2A <= c <= 0x3D
  }

  predicate StartsArrow(s: Text) {
    |s| >= 2 && s[0] == MINUS && s[1] == GREATER
  }

  /** Length of the match of `OP`; 0 if there is none. */
  function OpLength(s: Text): (n: nat)
    requires s != []
    ensures n <= |s|
  {
    if StartsArrow(s) then 2 else if IsOpChar(s[0]) then 1 else 0
  }

  /** The operators: an arrow, or one of these characters, among which the range has digits, `-` and `/`. */
  lemma {:induction false} Operators(s: Text)
    requires s != []
    ensures OpLength(s)
         == if |s| >= 2 && s[0] == '-' as int && s[1] == '>' as int then 2
            else if s[0] in {'{' as int, '}' as int, '(' as int, ')' as int, '*' as int, '+' as int, ',' as int, '-' as int,
                             '.' as int, '/' as int, ':' as int, ';' as int, '<' as int, '=' as int}
                    || '0' as int <= s[0] <= '9' as int then 1
            else 0
  {}

  /** A token's place in the document. */
  datatype Place = Place(row: nat, column: nat, text: Text, isOp: bool)

  /* What lexing means */

  /** How much the lexer takes at the start of `s`, which does not start with a space; 0 for no match. */
  function TokenLength(cl: Classes, s: Text): (n: nat)
    requires s != []
    ensures n <= |s|
  {
    if cl.isWord(s[0]) then Span(cl.isWord, s) else OpLength(s)
  }

  function TokenAt(cl: Classes, row: nat, line: Text, pos: nat): Place
    requires pos < |line|
  {
    Place(row, pos, line[pos..pos + TokenLength(cl, line[pos..])], !cl.isWord(line[pos]))
  }

  /** The lexemes of a line from `pos` on; `None` where nothing matches. */
  function LexLine(cl: Classes, row: nat, line: Text, pos: nat): Option<seq<Place>>
    requires pos <= |line|
    decreases |line| - pos
  {
    if pos == |line| then Some([])
    else if cl.isSpace(line[pos]) then LexLine(cl, row, line, pos + Span(cl.isSpace, line[pos..]))
    else
      var n := TokenLength(cl, line[pos..]);
      if n == 0 then None else Join([TokenAt(cl, row, line, pos)], LexLine(cl, row, line, pos + n))
  }

  function Join(a: seq<Place>, b: Option<seq<Place>>): Option<seq<Place>> {
    if b.None? then None else Some(a + b.value)
  }

  function LexRows(cl: Classes, lines: seq<Text>, row: nat): Option<seq<Place>>
    requires row <= |lines|
    decreases |lines| - row
  {
    if row == |lines| then Some([]) else Then(LexLine(cl, row, lines[row], 0), LexRows(cl, lines, row + 1))
  }

  function Then(a: Option<seq<Place>>, b: Option<seq<Place>>): Option<seq<Place>> {
    if a.None? then None else Join(a.value, b)
  }

  /* Relative positions */

  datatype Cursor = Cursor(row: nat, column: nat)

  /** The decoder's running line and offset. */
  function Move(c: Cursor, t: Token): Cursor {
    if t.line > 0 then Cursor(c.row + t.line, t.offset) else Cursor(c.row, c.column + t.offset)
  }

  function CursorAfter(tokens: seq<Token>): Cursor {
    if tokens == [] then Cursor(0, 0) else Move(CursorAfter(tokens[..|tokens| - 1]), tokens[|tokens| - 1])
  }

  /** Where the decoder puts each token. */
  function Decode(tokens: seq<Token>): seq<Place> {
    if tokens == [] then []
    else
      var t, c := tokens[|tokens| - 1], CursorAfter(tokens);
      Decode(tokens[..|tokens| - 1]) + [Place(c.row, c.column, t.text, t.tokType == Operator)]
  }

  predicate Fresh(t: Token) {
    (t.tokType == Operator || t.tokType == Unclassified) && t.modifiers == [] && t.text != []
  }

  lemma {:induction false} DecodeAppend(tokens: seq<Token>, t: Token, c: Cursor)
    requires c == Move(CursorAfter(tokens), t)
    ensures CursorAfter(tokens + [t]) == c
    ensures Decode(tokens + [t]) == Decode(tokens) + [Place(c.row, c.column, t.text, t.tokType == Operator)]
  {
    assert (tokens + [t])[..|tokens|] == tokens;
  }

  lemma {:induction false} JoinJoin(a: seq<Place>, b: seq<Place>, c: Option<seq<Place>>)
    ensures Join(a, Join(b, c)) == Join(a + b, c)
  {
    if c.Some? {
      assert a + (b + c.value) == (a + b) + c.value;
    }
  }

  lemma {:induction false} JoinNothing(b: Option<seq<Place>>)
    ensures Join([], b) == b
  {
    if b.Some? {
      assert [] + b.value == b.value;
    }
  }

  predicate AllSpace(cl: Classes, s: Text) {
    forall i :: 0 <= i < |s| ==> cl.isSpace(s[i])
  }

  /** A place holds a whole word, or an operator, and not less than the longest one there. */
  ghost predicate IsLexeme(cl: Classes, line: Text, p: Place) {
    && p.text != [] && p.column + |p.text| <= |line| && p.text == line[p.column..p.column + |p.text|]
    && !cl.isSpace(p.text[0])
    && var next := p.column + |p.text|;
       if p.isOp then
         && !cl.isWord(p.text[0])
         && (p.text == [MINUS, GREATER]
             || (|p.text| == 1 && IsOpChar(p.text[0]) && !(p.text[0] == MINUS && next < |line| && line[next] == GREATER)))
       else
         && (forall i :: 0 <= i < |p.text| ==> cl.isWord(p.text[i]))
         && (next < |line| ==> !cl.isWord(line[next]))
  }

  /** Lexemes, with nothing but spaces between and around them, up to `pos`. */
  ghost predicate Tiled(cl: Classes, row: nat, line: Text, places: seq<Place>, pos: nat)
    decreases |places|
  {
    pos <= |line| &&
    if places == [] then AllSpace(cl, line[..pos])
    else
      var p := places[|places| - 1];
      && p.row == row && IsLexeme(cl, line, p)
      && p.column + |p.text| <= pos && AllSpace(cl, line[p.column + |p.text|..pos])
      && Tiled(cl, row, line, places[..|places| - 1], p.column)
  }

  lemma {:induction false} TokenIsLexeme(cl: Classes, row: nat, line: Text, pos: nat)
    requires pos < |line| && !cl.isSpace(line[pos]) && TokenLength(cl, line[pos..]) > 0
    ensures IsLexeme(cl, line, TokenAt(cl, row, line, pos))
  {
    var s, n, p := line[pos..], TokenLength(cl, line[pos..]), TokenAt(cl, row, line, pos);
    assert forall i :: 0 <= i < n ==> p.text[i] == s[i];
    if pos + n < |line| {
      assert line[pos + n] == s[n];
    }
    if p.isOp && StartsArrow(s) {
      assert p.text == [MINUS, GREATER];
    }
  }

  lemma {:induction false} LexemeIsToken(cl: Classes, line: Text, p: Place)
    requires IsLexeme(cl, line, p)
    ensures TokenLength(cl, line[p.column..]) == |p.text| && p == TokenAt(cl, p.row, line, p.column)
  {
    var s, n := line[p.column..], |p.text|;
    assert forall i :: 0 <= i < n ==> p.text[i] == s[i];
    if p.column + n < |line| {
      assert line[p.column + n] == s[n];
    }
    assert p.text[0] == line[p.column];
    if !p.isOp {
      SpanUnique(cl.isWord, s, n);
    }
  }

  lemma {:induction false} SpanUnique(p: CodePoint -> bool, s: Text, n: nat)
    requires n <= |s| && (forall i :: 0 <= i < n ==> p(s[i])) && (n < |s| ==> !p(s[n]))
    ensures Span(p, s) == n
  {
    if n > 0 {
      SpanUnique(p, s[1..], n - 1);
    }
  }

  lemma {:induction false} AllSpaceTo(cl: Classes, line: Text, from: nat, pos: nat, to: nat)
    requires from <= pos <= to <= |line| && AllSpace(cl, line[from..pos])
    requires forall i :: pos <= i < to ==> cl.isSpace(line[i])
    ensures AllSpace(cl, line[from..to])
  {
    forall i | 0 <= i < to - from ensures cl.isSpace(line[from..to][i]) {
      if from + i < pos {
        assert line[from..to][i] == line[from..pos][i];
      }
    }
  }

  lemma {:induction false} TiledSpaces(cl: Classes, row: nat, line: Text, places: seq<Place>, pos: nat, n: nat)
    requires Tiled(cl, row, line, places, pos) && pos + n <= |line|
    requires forall i :: pos <= i < pos + n ==> cl.isSpace(line[i])
    ensures Tiled(cl, row, line, places, pos + n)
  {
    var from := if places == [] then 0 else places[|places| - 1].column + |places[|places| - 1].text|;
    assert line[..pos] == line[0..pos] && line[..pos + n] == line[0..pos + n];
    AllSpaceTo(cl, line, from, pos, pos + n);
  }

  lemma {:induction false} TiledToken(cl: Classes, row: nat, line: Text, places: seq<Place>, pos: nat)
    requires Tiled(cl, row, line, places, pos) && pos < |line|
    requires !cl.isSpace(line[pos]) && TokenLength(cl, line[pos..]) > 0
    ensures Tiled(cl, row, line, places + [TokenAt(cl, row, line, pos)], pos + TokenLength(cl, line[pos..]))
  {
    var p := TokenAt(cl, row, line, pos);
    TokenIsLexeme(cl, row, line, pos);
    assert (places + [p])[..|places|] == places;
  }

  lemma {:induction false} LexSpaces(cl: Classes, row: nat, line: Text, from: nat, pos: nat)
    requires from <= pos <= |line| && AllSpace(cl, line[from..pos])
    ensures LexLine(cl, row, line, from) == LexLine(cl, row, line, pos)
    decreases pos - from
  {
    hide TokenLength, TokenAt;
    if from < pos {
      assert line[from..pos][0] == line[from];
      assert line[from + 1..pos] == line[from..pos][1..];
      LexSpaces(cl, row, line, from + 1, pos);
      assert line[from..][1..] == line[from + 1..];
      if from + 1 < |line| && !cl.isSpace(line[from + 1]) {
        assert Span(cl.isSpace, line[from + 1..]) == 0;
      }
    }
  }

  /** What has been tiled is what the lexer finds first. */
  lemma {:induction false} LexPrefix(cl: Classes, row: nat, line: Text, places: seq<Place>, pos: nat)
    requires Tiled(cl, row, line, places, pos)
    ensures LexLine(cl, row, line, 0) == Join(places, LexLine(cl, row, line, pos))
    decreases |places|
  {
    hide LexLine, IsLexeme;
    if places == [] {
      assert line[0..pos] == line[..pos];
      LexSpaces(cl, row, line, 0, pos);
      JoinNothing(LexLine(cl, row, line, pos));
    } else {
      var init, p := places[..|places| - 1], places[|places| - 1];
      LexPrefix(cl, row, line, init, p.column);
      LexPrefixNext(cl, row, line, init, p, pos);
      assert places == init + [p];
    }
  }

  lemma {:induction false} LexPrefixNext(cl: Classes, row: nat, line: Text, init: seq<Place>, p: Place, pos: nat)
    requires IsLexeme(cl, line, p) && p.row == row && p.column + |p.text| <= pos <= |line|
    requires AllSpace(cl, line[p.column + |p.text|..pos])
    requires LexLine(cl, row, line, 0) == Join(init, LexLine(cl, row, line, p.column))
    ensures LexLine(cl, row, line, 0) == Join(init + [p], LexLine(cl, row, line, pos))
  {
    hide LexLine, IsLexeme, Join, AllSpace;
    LexemeNext(cl, row, line, p);
    LexSpaces(cl, row, line, p.column + |p.text|, pos);
    JoinJoin(init, [p], LexLine(cl, row, line, pos));
  }

  lemma {:induction false} LexemeNext(cl: Classes, row: nat, line: Text, p: Place)
    requires IsLexeme(cl, line, p) && p.row == row
    ensures LexLine(cl, row, line, p.column) == Join([p], LexLine(cl, row, line, p.column + |p.text|))
  {
    assert p.text[0] == line[p.column];
    LexemeIsToken(cl, line, p);
  }

  lemma {:induction false} TiledOn(cl: Classes, row: nat, line: Text, places: seq<Place>, pos: nat)
    requires pos <= |line| && Tiled(cl, row, line, places, pos) && LexLine(cl, row, line, pos).Some?
    ensures Tiled(cl, row, line, places + LexLine(cl, row, line, pos).value, |line|)
    decreases |line| - pos
  {
    hide Tiled, TokenLength, TokenAt;
    if pos == |line| {
      assert places + [] == places;
    } else if cl.isSpace(line[pos]) {
      var n := Span(cl.isSpace, line[pos..]);
      SpacesAhead(cl, line, pos);
      TiledSpaces(cl, row, line, places, pos, n);
      TiledOn(cl, row, line, places, pos + n);
    } else {
      var p, n := TokenAt(cl, row, line, pos), TokenLength(cl, line[pos..]);
      TiledToken(cl, row, line, places, pos);
      TiledOn(cl, row, line, places + [p], pos + n);
      Regroup(places, p, LexLine(cl, row, line, pos + n).value);
    }
  }

  lemma {:induction false} SpacesAhead(cl: Classes, line: Text, pos: nat)
    requires pos < |line|
    ensures forall i :: pos <= i < pos + Span(cl.isSpace, line[pos..]) ==> cl.isSpace(line[i])
  {
    assert forall i :: pos <= i < |line| ==> line[i] == line[pos..][i - pos];
  }

  lemma {:induction false} Regroup(a: seq<Place>, p: Place, b: seq<Place>)
    ensures a + ([p] + b) == a + [p] + b
  {}

  /** The lexemes of a line are its one reading as words and operators with spaces between them. */
  lemma {:induction false} LexLineIsTiling(cl: Classes, row: nat, line: Text, places: seq<Place>)
    ensures LexLine(cl, row, line, 0) == Some(places) <==> Tiled(cl, row, line, places, |line|)
  {
    if Tiled(cl, row, line, places, |line|) {
      LexPrefix(cl, row, line, places, |line|);
      assert places + [] == places;
    }
    if LexLine(cl, row, line, 0) == Some(places) {
      assert line[..0] == [];
      TiledOn(cl, row, line, [], 0);
      assert [] + places == places;
    }
  }

  /** The lexer's running position in a line agrees with the decoder's. */
  ghost predicate InStep(tokens: seq<Token>, prevLine: nat, prevOffset: nat, currentLine: nat, currentOffset: nat) {
    && (forall i :: 0 <= i < |tokens| ==> Fresh(tokens[i]))
    && prevLine == CursorAfter(tokens).row <= currentLine && prevOffset <= currentOffset
    && prevOffset == if prevLine == currentLine then CursorAfter(tokens).column else 0
  }

  /** One round of the inner loop: a run of spaces is skipped, or a token is added; 0 if nothing matches. */
  method LexNext(cl: Classes, tokens: seq<Token>, prevLine: nat, prevOffset: nat,
                 currentLine: nat, currentOffset: nat, line: Text)
    returns (n: nat, tokens': seq<Token>, prevLine': nat, prevOffset': nat)
    requires line != [] && InStep(tokens, prevLine, prevOffset, currentLine, currentOffset)
    ensures n <= |line| && InStep(tokens', prevLine', prevOffset', currentLine, currentOffset + n)
    ensures cl.isSpace(line[0]) ==> n == Span(cl.isSpace, line) && tokens' == tokens
    ensures !cl.isSpace(line[0]) ==> n == TokenLength(cl, line)
    ensures !cl.isSpace(line[0]) && n > 0 ==>
              Decode(tokens') == Decode(tokens) + [Place(currentLine, currentOffset, line[..n], !cl.isWord(line[0]))]
  {
    n, tokens', prevLine', prevOffset' := 0, tokens, prevLine, prevOffset;
    if cl.isSpace(line[0]) {
      n := Span(cl.isSpace, line);
    } else if cl.isWord(line[0]) || OpLength(line) > 0 {
      var isOp := !cl.isWord(line[0]);
      n := if isOp then OpLength(line) else Span(cl.isWord, line);
      var token := Token(currentLine - prevLine, currentOffset - prevOffset, line[..n],
                         if isOp then Operator else Unclassified, []);
      DecodeAppend(tokens, token, Cursor(currentLine, currentOffset));
      tokens' := tokens + [token];
      prevOffset', prevLine' := currentOffset, currentLine;
    }
  }

  lemma {:induction false} TiledNothing(cl: Classes, row: nat, text: Text)
    ensures Tiled(cl, row, text, [], 0)
  {
    assert text[..0] == [];
  }

  /** What a round adds keeps the line tiled. */
  lemma {:induction false} RoundTiled(cl: Classes, row: nat, text: Text, done: seq<Place>, pos: nat, n: nat) returns (done': seq<Place>)
    requires Tiled(cl, row, text, done, pos) && pos < |text|
    requires n > 0 && n == if cl.isSpace(text[pos]) then Span(cl.isSpace, text[pos..]) else TokenLength(cl, text[pos..])
    ensures done' == if cl.isSpace(text[pos]) then done
                     else done + [Place(row, pos, text[pos..][..n], !cl.isWord(text[pos]))]
    ensures Tiled(cl, row, text, done', pos + n)
  {
    hide Tiled, IsLexeme;
    if cl.isSpace(text[pos]) {
      done' := done;
      SpacesAhead(cl, text, pos);
      TiledSpaces(cl, row, text, done, pos, n);
    } else {
      done' := done + [TokenAt(cl, row, text, pos)];
      assert text[pos..][..n] == text[pos..pos + n];
      TiledToken(cl, row, text, done, pos);
    }
  }

  lemma {:induction false} StuckTiled(cl: Classes, row: nat, text: Text, done: seq<Place>, pos: nat)
    requires Tiled(cl, row, text, done, pos) && pos < |text|
    requires !cl.isSpace(text[pos]) && TokenLength(cl, text[pos..]) == 0
    ensures LexLine(cl, row, text, 0).None?
  {
    LexPrefix(cl, row, text, done, pos);
  }

  /** The inner loop: the tokens of one line, added to those of the lines before. */
  method LexLineOnto(cl: Classes, lexed: seq<Token>, previous: nat, currentLine: nat, text: Text)
    returns (r: Result<seq<Token>>, prevLine: nat)
    requires InStep(lexed, previous, 0, currentLine, 0)
    ensures r != InfiniteLoop
    ensures r.NoMatch? <==> LexLine(cl, currentLine, text, 0).None?
    ensures r.Success? ==>
              && Decode(r.value) == Decode(lexed) + LexLine(cl, currentLine, text, 0).value
              && (forall i :: 0 <= i < |r.value| ==> Fresh(r.value[i]))
              && prevLine == CursorAfter(r.value).row <= currentLine
  {
    hide IsLexeme, Tiled, LexLine, CursorAfter, Decode, Span, TokenLength, Fresh;
    TiledNothing(cl, currentLine, text);
    var tokens, line := lexed, text;
    var prevOffset, currentOffset := 0, 0;
    prevLine := previous;
    var charsLeft := |line|;
    ghost var done: seq<Place> := [];
    assert Decode(lexed) + [] == Decode(lexed);
    while line != []
      invariant currentOffset + |line| == |text| && line == text[currentOffset..] && charsLeft == |line|
      invariant Decode(tokens) == Decode(lexed) + done
      invariant Tiled(cl, currentLine, text, done, currentOffset)
      invariant InStep(tokens, prevLine, prevOffset, currentLine, currentOffset)
      decreases |line|
    {
      var n: nat;
      n, tokens, prevLine, prevOffset :=
        LexNext(cl, tokens, prevLine, prevOffset, currentLine, currentOffset, line);
      if n == 0 {
        StuckTiled(cl, currentLine, text, done, currentOffset);
        return NoMatch, prevLine;
      }
      done := RoundTiled(cl, currentLine, text, done, currentOffset, n);
      line := line[n..];
      currentOffset := currentOffset + n;
      if |line| == charsLeft {
        return InfiniteLoop, prevLine;
      }
      charsLeft := |line|;
    }
    LexLineIsTiling(cl, currentLine, text, done);
    r := Success(tokens);
  }

  /** The lexer. Decoding its tokens gives back the places where it found them; it fails only where no
      pattern matches, never because it makes no progress. */
  method Lex(cl: Classes, lines: seq<Text>) returns (r: Result<seq<Token>>)
    ensures r != InfiniteLoop
    ensures r.NoMatch? <==> LexRows(cl, lines, 0).None?
    ensures r.Success? ==> LexRows(cl, lines, 0) == Some(Decode(r.value))
    ensures r.Success? ==> forall i :: 0 <= i < |r.value| ==> Fresh(r.value[i])
  {
    var tokens: seq<Token> := [];
    var prevLine := 0;
    JoinNothing(LexRows(cl, lines, 0));
    for currentLine := 0 to |lines|
      invariant LexRows(cl, lines, 0) == Join(Decode(tokens), LexRows(cl, lines, currentLine))
      invariant forall i :: 0 <= i < |tokens| ==> Fresh(tokens[i])
      invariant prevLine == CursorAfter(tokens).row && (prevLine < currentLine || (currentLine == 0 && tokens == []))
    {
      ghost var before := Decode(tokens);
      r, prevLine := LexLineOnto(cl, tokens, prevLine, currentLine, lines[currentLine]);
      if !r.Success? {
        return;
      }
      tokens := r.value;
      JoinJoin(before, LexLine(cl, currentLine, lines[currentLine], 0).value, LexRows(cl, lines, currentLine + 1));
    }
    assert Decode(tokens) + [] == Decode(tokens);
    r := Success(tokens);
  }

  /* Places in the document */

  /** The document holds the token's text at its place. */
  ghost predicate Held(cl: Classes, lines: seq<Text>, p: Place) {
    p.row < |lines| && IsLexeme(cl, lines[p.row], p)
  }

  ghost predicate InOrder(p: Place, q: Place) {
    p.row < q.row || (p.row == q.row && p.column + |p.text| <= q.column)
  }

  lemma {:induction false} TiledPlaces(cl: Classes, row: nat, line: Text, places: seq<Place>, pos: nat)
    requires Tiled(cl, row, line, places, pos)
    ensures forall k :: 0 <= k < |places| ==>
              places[k].row == row && IsLexeme(cl, line, places[k]) && places[k].column + |places[k].text| <= pos
    ensures forall j, k :: 0 <= j < k < |places| ==> InOrder(places[j], places[k])
    decreases |places|
  {
    if places != [] {
      TiledPlaces(cl, row, line, places[..|places| - 1], places[|places| - 1].column);
      hide IsLexeme, AllSpace, Tiled;
    }
  }

  lemma {:induction false} RowsPlaces(cl: Classes, lines: seq<Text>, row: nat)
    requires row <= |lines| && LexRows(cl, lines, row).Some?
    ensures var ps := LexRows(cl, lines, row).value;
            && (forall k :: 0 <= k < |ps| ==> Held(cl, lines, ps[k]) && row <= ps[k].row)
            && (forall j, k :: 0 <= j < k < |ps| ==> InOrder(ps[j], ps[k]))
    decreases |lines| - row
  {
    if row < |lines| {
      RowsPlaces(cl, lines, row + 1);
      var here := LexLine(cl, row, lines[row], 0).value;
      LexLineIsTiling(cl, row, lines[row], here);
      TiledPlaces(cl, row, lines[row], here, |lines[row]|);
      hide IsLexeme, Tiled, LexLine;
    }
  }

  /** For every document the lexer accepts, the places that a decoder computes from its tokens are in
      order, do not overlap, and hold exactly the tokens' texts. */
  lemma {:induction false} DecodedPlaces(cl: Classes, lines: seq<Text>, tokens: seq<Token>)
    requires LexRows(cl, lines, 0) == Some(Decode(tokens))
    ensures var ps := Decode(tokens);
            && |ps| == |tokens|
            && (forall k :: 0 <= k < |ps| ==> Held(cl, lines, ps[k]) && ps[k].text == tokens[k].text)
            && (forall j, k :: 0 <= j < k < |ps| ==> InOrder(ps[j], ps[k]))
  {
    RowsPlaces(cl, lines, 0);
    DecodeTexts(tokens);
  }

  lemma {:induction false} DecodeTexts(tokens: seq<Token>)
    ensures |Decode(tokens)| == |tokens| && forall k :: 0 <= k < |tokens| ==> Decode(tokens)[k].text == tokens[k].text
  {
    if tokens != [] {
      DecodeTexts(tokens[..|tokens| - 1]);
    }
  }

  /* What the lexer accepts */

  /** `>` is accepted only right after `-`. */
  predicate CharAccepted(cl: Classes, line: Text, j: nat)
    requires j < |line|
  {
    cl.isSpace(line[j]) || cl.isWord(line[j]) || IsOpChar(line[j])
    || (line[j] == GREATER && j > 0 && line[j - 1] == MINUS)
  }

  /** Neither character of the arrow is a space or part of a word. */
  predicate ArrowIsPunctuation(cl: Classes) {
    !cl.isSpace(MINUS) && !cl.isWord(MINUS) && !cl.isSpace(GREATER) && !cl.isWord(GREATER)
  }

  predicate AcceptedFrom(cl: Classes, line: Text, pos: nat) {
    forall j :: pos <= j < |line| ==> CharAccepted(cl, line, j)
  }

  lemma {:induction false} SpanAccepted(cl: Classes, line: Text, pos: nat, p: CodePoint -> bool)
    requires pos < |line| && forall c :: p(c) ==> cl.isSpace(c) || cl.isWord(c)
    ensures forall j :: pos <= j < pos + Span(p, line[pos..]) ==> cl.isSpace(line[j]) || cl.isWord(line[j])
  {
    assert forall j :: pos <= j < |line| ==> line[j] == line[pos..][j - pos];
  }

  /** How much one round of the lexer takes. */
  function Taken(cl: Classes, line: Text, pos: nat): nat
    requires pos < |line|
  {
    if cl.isSpace(line[pos]) then Span(cl.isSpace, line[pos..]) else TokenLength(cl, line[pos..])
  }

  lemma {:induction false} LexRound(cl: Classes, row: nat, line: Text, pos: nat)
    requires pos < |line|
    ensures pos + Taken(cl, line, pos) <= |line|
    ensures LexLine(cl, row, line, pos).Some?
            <==> Taken(cl, line, pos) > 0 && LexLine(cl, row, line, pos + Taken(cl, line, pos)).Some?
  {
    hide Span, TokenLength, TokenAt;
  }

  /** A line is accepted from a place that no arrow spans if and only if every character is. */
  lemma {:induction false} LexLineAccepts(cl: Classes, row: nat, line: Text, pos: nat)
    requires ArrowIsPunctuation(cl) && pos <= |line|
    requires 0 < pos < |line| ==> !(line[pos - 1] == MINUS && line[pos] == GREATER)
    ensures LexLine(cl, row, line, pos).Some? <==> AcceptedFrom(cl, line, pos)
    decreases |line| - pos
  {
    hide LexLine, Taken, ArrowIsPunctuation, AcceptedFrom;
    if pos < |line| {
      LexRound(cl, row, line, pos);
      AcceptedNext(cl, line, pos);
      if Taken(cl, line, pos) > 0 {
        LexLineAccepts(cl, row, line, pos + Taken(cl, line, pos));
      }
    } else {
      LexEnd(cl, row, line);
    }
  }

  lemma {:induction false} LexEnd(cl: Classes, row: nat, line: Text)
    ensures LexLine(cl, row, line, |line|).Some? && AcceptedFrom(cl, line, |line|)
  {}

  lemma {:induction false} AcceptedNext(cl: Classes, line: Text, pos: nat)
    requires ArrowIsPunctuation(cl) && pos < |line| && pos + Taken(cl, line, pos) <= |line|
    requires pos > 0 ==> !(line[pos - 1] == MINUS && line[pos] == GREATER)
    ensures var next := pos + Taken(cl, line, pos);
            && (AcceptedFrom(cl, line, pos) <==> pos < next && AcceptedFrom(cl, line, next))
            && (pos < next < |line| ==> !(line[next - 1] == MINUS && line[next] == GREATER))
  {
    hide Taken, CharAccepted, ArrowIsPunctuation;
    RoundAccepts(cl, line, pos, Taken(cl, line, pos));
  }

  lemma {:induction false} RoundAccepts(cl: Classes, line: Text, pos: nat, n: nat)
    requires ArrowIsPunctuation(cl) && pos < |line|
    requires pos > 0 ==> !(line[pos - 1] == MINUS && line[pos] == GREATER)
    requires n == Taken(cl, line, pos)
    ensures n == 0 <==> !CharAccepted(cl, line, pos)
    ensures forall j :: pos <= j < pos + n ==> CharAccepted(cl, line, j)
    ensures 0 < n && pos + n < |line| ==> !(line[pos + n - 1] == MINUS && line[pos + n] == GREATER)
  {
    if cl.isSpace(line[pos]) {
      SpanAccepted(cl, line, pos, cl.isSpace);
    } else if cl.isWord(line[pos]) {
      SpanAccepted(cl, line, pos, cl.isWord);
    }
  }

  lemma {:induction false} RowsAccepted(cl: Classes, lines: seq<Text>, row: nat)
    requires ArrowIsPunctuation(cl) && row <= |lines|
    ensures LexRows(cl, lines, row).Some? <==> forall i :: row <= i < |lines| ==> AcceptedFrom(cl, lines[i], 0)
    decreases |lines| - row
  {
    if row < |lines| {
      LexLineAccepts(cl, row, lines[row], 0);
      RowsAccepted(cl, lines, row + 1);
    }
  }
}
