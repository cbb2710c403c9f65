/** Types and modifiers of tokens, and the integers they are reported as. */
module TokenClassification {
  import opened Unicode
  import opened SemanticTokens
  import opened Wrappers

  const TYPE: Text := [0x74, 0x79, 0x70, 0x65]
  const FN: Text := [0x66, 0x6E]
  const LPAREN: Text := [0x28]
  const RPAREN: Text := [0x29]
  const LBRACE: Text := [0x7B]
  const RBRACE: Text := [0x7D]
  const COLON: Text := [0x3A]

  lemma {:induction false} Texts()
    ensures TYPE == Ascii("type") && FN == Ascii("fn")
    ensures LPAREN == Ascii("(") && RPAREN == Ascii(")") && LBRACE == Ascii("{") && RBRACE == Ascii("}") && COLON == Ascii(":")
  {}

  /** `TokenTypes`; a freshly lexed word has no place in it. */
  const TOKEN_TYPES: seq<TokenType> := [Keyword, Variable, Function, Operator, Parameter, Type]

  predicate IsOp(t: Token, text: Text) {
    t.tokType == Operator && t.text == text
  }

  predicate IsKeyword(t: Token, text: Text) {
    t.tokType == Keyword && t.text == text
  }

  /* What the classification means, read off the lexed tokens alone */

  /** The last of the two operators before token `i` is the opening one. */
  ghost predicate Inside(tokens: seq<Token>, i: nat, opening: Text, closing: Text)
    requires i <= |tokens|
  {
    exists j :: 0 <= j < i && IsOp(tokens[j], opening)
                && forall k :: j < k < i ==> !IsOp(tokens[k], closing)
  }

  /** A word, not an operator, with this text. */
  predicate IsWord(t: Token, text: Text) {
    t.tokType != Operator && t.text == text
  }

  ghost function Classified(cl: Classes, tokens: seq<Token>, i: nat): Token
    requires i < |tokens| && Fresh(tokens[i])
  {
    var t := tokens[i];
    if t.tokType == Operator then t
    else if t.text == TYPE || t.text == FN then t.(tokType := Keyword)
    else if cl.isUpper(t.text[0]) then
      t.(tokType := Type, modifiers := if i > 0 && IsWord(tokens[i - 1], TYPE) then [Definition] else [])
    else if (i > 0 && IsWord(tokens[i - 1], FN)) || (i + 1 < |tokens| && IsOp(tokens[i + 1], LPAREN)) then
      t.(tokType := Function, modifiers := [Definition])
    else if i + 1 < |tokens| && IsOp(tokens[i + 1], COLON) && Inside(tokens, i, LBRACE, RBRACE) then
      t.(tokType := Parameter)
    else if i > 0 && IsOp(tokens[i - 1], COLON) && Inside(tokens, i, LPAREN, RPAREN) then
      t.(tokType := Type, modifiers := [DefaultLibrary])
    else t.(tokType := Variable)
  }

  lemma {:induction false} InsideNext(tokens: seq<Token>, i: nat, opening: Text, closing: Text)
    requires i < |tokens| && opening != closing
    ensures Inside(tokens, i + 1, opening, closing)
            <==> if IsOp(tokens[i], opening) then true
                 else if IsOp(tokens[i], closing) then false else Inside(tokens, i, opening, closing)
  {
    if IsOp(tokens[i], opening) {
      var j := i;
      assert 0 <= j < i + 1 && IsOp(tokens[j], opening);
    } else if Inside(tokens, i, opening, closing) && !IsOp(tokens[i], closing) {
      var j :| 0 <= j < i && IsOp(tokens[j], opening) && forall k :: j < k < i ==> !IsOp(tokens[k], closing);
      assert forall k :: j < k < i + 1 ==> !IsOp(tokens[k], closing);
    }
  }

  /** A word with its type, given its neighbours as they are at that moment. */
  function Typed(cl: Classes, word: Token, previous: Token, next: Option<Token>, inBrace: bool, inParen: bool): Token
    requires Fresh(word)
  {
    if word.text == TYPE || word.text == FN then word.(tokType := Keyword)
    else if cl.isUpper(word.text[0]) then
      word.(tokType := Type, modifiers := if IsKeyword(previous, TYPE) then [Definition] else [])
    else if IsKeyword(previous, FN) || (next.Some? && IsOp(next.value, LPAREN)) then
      word.(tokType := Function, modifiers := [Definition])
    else if next.Some? && IsOp(next.value, COLON) && inBrace then word.(tokType := Parameter)
    else if IsOp(previous, COLON) && inParen then word.(tokType := Type, modifiers := [DefaultLibrary])
    else word.(tokType := Variable)
  }

  method ClassifyWord(cl: Classes, word: Token, previous: Token, next: Option<Token>, inBrace: bool, inParen: bool)
    returns (token: Token)
    requires Fresh(word)
    ensures token == Typed(cl, word, previous, next, inBrace, inParen)
  {
    token := word;
    if token.text == TYPE || token.text == FN {
      token := token.(tokType := Keyword);
    } else if cl.isUpper(token.text[0]) {
      token := token.(tokType := Type);
      if IsKeyword(previous, TYPE) {
        token := token.(modifiers := token.modifiers + [Definition]);
      }
    } else if IsKeyword(previous, FN) || (next.Some? && IsOp(next.value, LPAREN)) {
      token := token.(tokType := Function, modifiers := token.modifiers + [Definition]);
    } else if next.Some? && IsOp(next.value, COLON) && inBrace {
      token := token.(tokType := Parameter);
    } else if IsOp(previous, COLON) && inParen {
      token := token.(tokType := Type, modifiers := token.modifiers + [DefaultLibrary]);
    } else {
      token := token.(tokType := Variable);
    }
  }

  method EnterOrLeave(token: Token, wasInBrace: bool, wasInParen: bool) returns (inBrace: bool, inParen: bool)
    requires token.tokType == Operator
    ensures inBrace == if IsOp(token, LBRACE) then true else if IsOp(token, RBRACE) then false else wasInBrace
    ensures inParen == if IsOp(token, LPAREN) then true else if IsOp(token, RPAREN) then false else wasInParen
  {
    inBrace, inParen := wasInBrace, wasInParen;
    if token.text == LPAREN {
      inParen := true;
    } else if token.text == RPAREN {
      inParen := false;
    } else if token.text == LBRACE {
      inBrace := true;
    } else if token.text == RBRACE {
      inBrace := false;
    }
  }

  ghost predicate AllFresh(lexed: seq<Token>) {
    forall i :: 0 <= i < |lexed| ==> Fresh(lexed[i])
  }

  /** The array half way: types up to `k`, lexed tokens from there on. */
  ghost predicate ClassifiedUpTo(cl: Classes, lexed: seq<Token>, k: nat, now: seq<Token>) {
    && |now| == |lexed| && AllFresh(lexed)
    && (forall i :: 0 <= i < |lexed| ==> now[i] == if i < k then Classified(cl, lexed, i) else lexed[i])
  }

  lemma {:induction false} ClassifiedNext(cl: Classes, lexed: seq<Token>, k: nat, now: seq<Token>, token: Token)
    requires k < |lexed| && ClassifiedUpTo(cl, lexed, k, now)
    requires token == Classified(cl, lexed, k)
    ensures ClassifiedUpTo(cl, lexed, k + 1, now[k := token])
  {
    hide Classified;
  }

  lemma {:induction false} Neighbours(cl: Classes, lexed: seq<Token>, k: nat, now: seq<Token>)
    requires k < |lexed| && ClassifiedUpTo(cl, lexed, k, now)
    ensures now[k] == lexed[k] && Fresh(now[k])
    ensures now[if k == 0 then |lexed| - 1 else k - 1] == if k == 0 then lexed[|lexed| - 1] else Classified(cl, lexed, k - 1)
    ensures k + 1 < |lexed| ==> now[k + 1] == lexed[k + 1]
  {
    hide Classified;
  }

  /** `prev(0)` is the last token of the list: it is never `type` or `fn` as a keyword, having no type yet,
      and no parenthesis has been opened. */
  method ClassifyTokens(cl: Classes, tokens: array<Token>)
    requires AllFresh(tokens[..])
    modifies tokens
    ensures ClassifiedUpTo(cl, old(tokens[..]), tokens.Length, tokens[..])
  {
    ghost var lexed := tokens[..];
    assert !Inside(lexed, 0, LBRACE, RBRACE) && !Inside(lexed, 0, LPAREN, RPAREN);
    assert ClassifiedUpTo(cl, lexed, 0, tokens[..]);
    hide Inside, Classified, Typed, IsOp, Fresh, AllFresh, ClassifiedUpTo;
    var n := tokens.Length;
    var inBrace, inParen := false, false;
    for idx := 0 to n
      invariant ClassifiedUpTo(cl, lexed, idx, tokens[..])
      invariant inBrace == Inside(lexed, idx, LBRACE, RBRACE) && inParen == Inside(lexed, idx, LPAREN, RPAREN)
    {
      ghost var now := tokens[..];
      Neighbours(cl, lexed, idx, now);
      BracketsNext(lexed, idx);
      var token := tokens[idx];
      if token.tokType == Operator {
        OperatorClassified(cl, lexed, idx);
        ClassifiedNext(cl, lexed, idx, now, token);
        assert now[idx := token] == now;
        inBrace, inParen := EnterOrLeave(token, inBrace, inParen);
        continue;
      }
      var previous := tokens[if idx == 0 then n - 1 else idx - 1];
      var next := if idx >= n - 1 then None else Some(tokens[idx + 1]);
      var typed := ClassifyWord(cl, token, previous, next, inBrace, inParen);
      WordClassified(cl, lexed, idx, previous, next);
      tokens[idx] := typed;
      ClassifiedNext(cl, lexed, idx, now, typed);
      assert tokens[..] == now[idx := typed];
    }
  }

  lemma {:induction false} BracketsNext(lexed: seq<Token>, i: nat)
    requires i < |lexed|
    ensures Inside(lexed, i + 1, LBRACE, RBRACE)
            <==> if IsOp(lexed[i], LBRACE) then true else if IsOp(lexed[i], RBRACE) then false else Inside(lexed, i, LBRACE, RBRACE)
    ensures Inside(lexed, i + 1, LPAREN, RPAREN)
            <==> if IsOp(lexed[i], LPAREN) then true else if IsOp(lexed[i], RPAREN) then false else Inside(lexed, i, LPAREN, RPAREN)
    ensures lexed[i].tokType != Operator ==>
              && (Inside(lexed, i + 1, LBRACE, RBRACE) <==> Inside(lexed, i, LBRACE, RBRACE))
              && (Inside(lexed, i + 1, LPAREN, RPAREN) <==> Inside(lexed, i, LPAREN, RPAREN))
  {
    hide Inside;
    InsideNext(lexed, i, LBRACE, RBRACE);
    InsideNext(lexed, i, LPAREN, RPAREN);
  }

  lemma {:induction false} OperatorClassified(cl: Classes, lexed: seq<Token>, i: nat)
    requires i < |lexed| && Fresh(lexed[i])
    ensures lexed[i].tokType == Operator ==> Classified(cl, lexed, i) == lexed[i]
  {}

  /** The type given in the loop is the one that the lexed tokens alone determine. */
  lemma {:induction false} WordClassified(cl: Classes, lexed: seq<Token>, i: nat, previous: Token, next: Option<Token>)
    requires i < |lexed| && AllFresh(lexed) && lexed[i].tokType != Operator
    requires previous == if i == 0 then lexed[|lexed| - 1] else Classified(cl, lexed, i - 1)
    requires next == if i >= |lexed| - 1 then None else Some(lexed[i + 1])
    ensures Typed(cl, lexed[i], previous, next, Inside(lexed, i, LBRACE, RBRACE), Inside(lexed, i, LPAREN, RPAREN))
         == Classified(cl, lexed, i)
  {
    PreviousClassified(cl, lexed, i, previous);
    hide Inside;
  }

  /** What the loop sees in the previous token is what the lexed list says, and nothing for the first. */
  lemma {:induction false} PreviousClassified(cl: Classes, lexed: seq<Token>, i: nat, previous: Token)
    requires i < |lexed| && AllFresh(lexed)
    requires previous == if i == 0 then lexed[|lexed| - 1] else Classified(cl, lexed, i - 1)
    ensures IsKeyword(previous, TYPE) <==> i > 0 && IsWord(lexed[i - 1], TYPE)
    ensures IsKeyword(previous, FN) <==> i > 0 && IsWord(lexed[i - 1], FN)
    ensures i > 0 ==> (IsOp(previous, COLON) <==> IsOp(lexed[i - 1], COLON))
    ensures i == 0 ==> !Inside(lexed, i, LPAREN, RPAREN)
  {}

  /* Reporting */

  function TypeIndex(t: TokenType): (k: nat)
    ensures k < |TOKEN_TYPES| ==> TOKEN_TYPES[k] == t
    ensures k == |TOKEN_TYPES| <==> t == Unclassified
    ensures k <= |TOKEN_TYPES|
  {
    match t
    case Keyword => 0
    case Variable => 1
    case Function => 2
    case Operator => 3
    case Parameter => 4
    case Type => 5
    case Unclassified => 6
  }

  /** The flags of `TokenModifier`, or-ed together. */
  function Flags(modifiers: seq<Modifier>): nat {
    (if Deprecated in modifiers then 1 else 0) + (if Readonly in modifiers then 2 else 0)
    + (if DefaultLibrary in modifiers then 4 else 0) + (if Definition in modifiers then 8 else 0)
  }

  function Report(t: Token): seq<nat> {
    [t.line, t.offset, |t.text|, TypeIndex(t.tokType), Flags(t.modifiers)]
  }

  function Data(tokens: seq<Token>): seq<nat> {
    if tokens == [] then [] else Data(tokens[..|tokens| - 1]) + Report(tokens[|tokens| - 1])
  }

  predicate AllTyped(tokens: seq<Token>) {
    forall k :: 0 <= k < |tokens| ==> tokens[k].tokType != Unclassified
  }

  /** Looking up a type that is not in the list raises, and nothing is returned. */
  method SemanticTokensFull(tokens: seq<Token>) returns (r: Option<seq<nat>>)
    ensures r == if AllTyped(tokens) then Some(Data(tokens)) else None
  {
    var data: seq<nat> := [];
    for k := 0 to |tokens|
      invariant data == Data(tokens[..k])
      invariant forall j :: 0 <= j < k ==> tokens[j].tokType != Unclassified
    {
      var t := tokens[k];
      if TypeIndex(t.tokType) == |TOKEN_TYPES| {
        return None;
      }
      assert tokens[..k + 1][..k] == tokens[..k];
      data := data + [t.line, t.offset, |t.text|, TypeIndex(t.tokType), Flags(t.modifiers)];
    }
    assert tokens[..|tokens|] == tokens;
    r := Some(data);
  }

  /** The integers read back: five for each token, relative to the one before. */
  function DataCursor(data: seq<nat>): Cursor
    decreases |data|
  {
    if |data| < 5 then Cursor(0, 0)
    else
      var c, n := DataCursor(data[..|data| - 5]), |data| - 5;
      if data[n] > 0 then Cursor(c.row + data[n], data[n + 1]) else Cursor(c.row, c.column + data[n + 1])
  }

  datatype Marked = Marked(row: nat, column: nat, length: nat, tokType: nat, flags: nat)

  function DataMarks(data: seq<nat>): seq<Marked>
    decreases |data|
  {
    if |data| < 5 then []
    else
      var n, c := |data| - 5, DataCursor(data);
      DataMarks(data[..n]) + [Marked(c.row, c.column, data[n + 2], data[n + 3], data[n + 4])]
  }

  function MarkOf(p: Place, t: Token): Marked {
    Marked(p.row, p.column, |p.text|, TypeIndex(t.tokType), Flags(t.modifiers))
  }

  /** The token that was lexed, with the type it was given. */
  ghost predicate SamePlaces(lexed: seq<Token>, typed: seq<Token>) {
    |typed| == |lexed| &&
    forall k :: 0 <= k < |lexed| ==>
      typed[k] == lexed[k].(tokType := typed[k].tokType, modifiers := typed[k].modifiers)
  }

  /** Each place, with its token's type, is a mark. */
  ghost predicate Marks(ps: seq<Place>, typed: seq<Token>, ms: seq<Marked>) {
    |ps| == |typed| == |ms| && forall k :: 0 <= k < |ps| ==> ms[k] == MarkOf(ps[k], typed[k])
  }

  lemma {:induction false} OneMoreMark(ps: seq<Place>, typed: seq<Token>, ms: seq<Marked>, p: Place, m: Marked)
    requires typed != [] && Marks(ps, typed[..|typed| - 1], ms) && m == MarkOf(p, typed[|typed| - 1])
    ensures Marks(ps + [p], typed, ms + [m])
  {
    hide MarkOf;
  }

  lemma {:induction false} MarksAreDecoded(lexed: seq<Token>, typed: seq<Token>)
    requires SamePlaces(lexed, typed)
    ensures |Data(typed)| == 5 * |lexed| && DataCursor(Data(typed)) == CursorAfter(lexed)
    ensures Marks(Decode(lexed), typed, DataMarks(Data(typed)))
  {
    assert Data([]) == [] && DataMarks([]) == [] && Decode([]) == [] && DataCursor([]) == CursorAfter([]);
    hide Data, DataCursor, DataMarks, Decode, CursorAfter, Flags;
    if lexed != [] {
      var n := |lexed| - 1;
      MarksAreDecoded(lexed[..n], typed[..n]);
      MarksSnoc(typed, DataCursor(Data(typed[..n])));
      DecodeSnoc(lexed);
      assert typed[n] == lexed[n].(tokType := typed[n].tokType, modifiers := typed[n].modifiers);
      var c := CursorAfter(lexed);
      var p := Place(c.row, c.column, lexed[n].text, lexed[n].tokType == Operator);
      OneMoreMark(Decode(lexed[..n]), typed, DataMarks(Data(typed[..n])), p, MarkOf(p, typed[n]));
    }
  }

  lemma {:induction false} MarksSnoc(typed: seq<Token>, c: Cursor)
    requires typed != [] && c == DataCursor(Data(typed[..|typed| - 1]))
    ensures var n, data := |typed| - 1, Data(typed);
            var t, before := typed[n], Data(typed[..n]);
            var c' := Move(c, t);
            && |data| == |before| + 5
            && DataCursor(data) == c'
            && DataMarks(data) == DataMarks(before)
               + [Marked(c'.row, c'.column, |t.text|, TypeIndex(t.tokType), Flags(t.modifiers))]
  {
    var n := |typed| - 1;
    var data, before := Data(typed), Data(typed[..n]);
    assert data == before + Report(typed[n]);
    hide Data, Flags;
    assert data[..|data| - 5] == before;
  }

  lemma {:induction false} DecodeSnoc(tokens: seq<Token>)
    requires tokens != []
    ensures var n := |tokens| - 1;
            var c := CursorAfter(tokens);
            && c == Move(CursorAfter(tokens[..n]), tokens[n])
            && Decode(tokens) == Decode(tokens[..n]) + [Place(c.row, c.column, tokens[n].text, tokens[n].tokType == Operator)]
  {}

  /** The bit of a modifier, by its place in the legend. */
  function Bit(m: Modifier): nat {
    match m
    case Deprecated => 1
    case Readonly => 2
    case DefaultLibrary => 4
    case Definition => 8
  }

  /** A mark shows a token: the document holds the lexed text there, the mark's type is the place of the typed one's
      type in the legend, and of its bits those are set whose modifiers the typed one has. */
  ghost predicate Shows(lines: seq<Text>, m: Marked, lexed: Token, typed: Token) {
    && m.row < |lines| && m.column + m.length <= |lines[m.row]|
    && lines[m.row][m.column..m.column + m.length] == lexed.text
    && m.tokType < 6 && [Keyword, Variable, Function, Operator, Parameter, Type][m.tokType] == typed.tokType
    && m.flags < 16 && forall x: Modifier :: m.flags / Bit(x) % 2 == 1 <==> x in typed.modifiers
  }

  lemma {:induction false} ClassifiedKinds(cl: Classes, lexed: seq<Token>, typed: seq<Token>)
    requires ClassifiedUpTo(cl, lexed, |lexed|, typed)
    ensures SamePlaces(lexed, typed) && forall k :: 0 <= k < |typed| ==> typed[k].tokType != Unclassified
  {
    hide Inside;
  }

  lemma {:induction false} HeldShows(cl: Classes, lines: seq<Text>, p: Place, lexed: Token, typed: Token)
    requires Held(cl, lines, p) && p.text == lexed.text && typed.tokType != Unclassified
    ensures Shows(lines, MarkOf(p, typed), lexed, typed)
  {
    forall x ensures Flags(typed.modifiers) / Bit(x) % 2 == 1 <==> x in typed.modifiers {
      FlagBits(typed.modifiers, x);
    }
    hide Flags, Bit;
  }

  lemma {:induction false} FlagBits(modifiers: seq<Modifier>, x: Modifier)
    ensures Flags(modifiers) < 16 && (Flags(modifiers) / Bit(x) % 2 == 1 <==> x in modifiers)
  {}

  /** From the document to the marks, in code points: for every accepted document there is one mark per token,
      its type is in the legend, and the document holds the token's text exactly there. */
  lemma {:induction false} MarksHoldTokens(cl: Classes, lines: seq<Text>, lexed: seq<Token>, typed: seq<Token>)
    requires LexRows(cl, lines, 0) == Some(Decode(lexed)) && ClassifiedUpTo(cl, lexed, |lexed|, typed)
    ensures |Data(typed)| == 5 * |lexed| && |DataMarks(Data(typed))| == |lexed|
    ensures forall k :: 0 <= k < |lexed| ==>
              Shows(lines, DataMarks(Data(typed))[k], lexed[k], Classified(cl, lexed, k))
  {
    hide Inside, Classified, Data, DataMarks, Decode, LexRows, Held, Shows, CursorAfter, DataCursor, Flags;
    ClassifiedKinds(cl, lexed, typed);
    MarksAreDecoded(lexed, typed);
    DecodedPlaces(cl, lines, lexed);
    forall k | 0 <= k < |lexed|
      ensures Shows(lines, DataMarks(Data(typed))[k], lexed[k], Classified(cl, lexed, k))
    {
      HeldShows(cl, lines, Decode(lexed)[k], lexed[k], typed[k]);
    }
  }

  /* The marks in a client's units */

  /** A client that counts a line in units marks the token and nothing else. */
  ghost predicate Covers(enc: Encoding, line: Text, m: Marked, p: Place)
    requires p.column <= |line|
  {
    m.column == ClientNumUnits(enc, line[..p.column]) && m.length == ClientNumUnits(enc, p.text)
  }

  /** Every code point of the token and before it on its line takes one unit. */
  ghost predicate Narrow(enc: Encoding, line: Text, p: Place)
    requires p.column + |p.text| <= |line|
  {
    forall i :: 0 <= i < p.column + |p.text| ==> Units(enc, line[i]) == 1
  }

  lemma {:induction false} CoversNarrow(enc: Encoding, line: Text, m: Marked, p: Place)
    requires p.column + |p.text| <= |line| && p.text == line[p.column..p.column + |p.text|]
    requires m.column == p.column && m.length == |p.text|
    ensures Covers(enc, line, m, p) <==> Narrow(enc, line, p)
  {
    var before, upTo := line[..p.column], line[..p.column + |p.text|];
    assert upTo == before + p.text;
    NumUnitsAppend(enc, before, p.text);
    NumUnitsAtLeastLength(enc, before);
    NumUnitsAtLeastLength(enc, p.text);
    NarrowUnits(enc, upTo);
    assert forall i :: 0 <= i < |upTo| ==> upTo[i] == line[i];
  }

  /** What a covering mark selects of the client's units is the token's. */
  lemma {:induction false} CoveredUnits(enc: Encoding, line: Text, m: Marked, p: Place)
    requires p.column + |p.text| <= |line| && p.text == line[p.column..p.column + |p.text|]
    requires Covers(enc, line, m, p)
    ensures m.column + m.length <= |Encode(enc, line)|
    ensures Encode(enc, line)[m.column..m.column + m.length] == Encode(enc, p.text)
  {
    var before, after := line[..p.column], line[p.column + |p.text|..];
    assert line == before + p.text + after;
    EncodeAppend(enc, before + p.text, after);
    EncodeAppend(enc, before, p.text);
    EncodeLength(enc, before);
    EncodeLength(enc, p.text);
  }

  /** The integers count code points, the protocol counts units: a client marks a token right if and only if no
      code point of the token or before it on its line takes more than one. */
  lemma {:induction false} MarksCoverTokens(enc: Encoding, cl: Classes, lines: seq<Text>, lexed: seq<Token>, typed: seq<Token>)
    requires LexRows(cl, lines, 0) == Some(Decode(lexed)) && ClassifiedUpTo(cl, lexed, |lexed|, typed)
    ensures |DataMarks(Data(typed))| == |Decode(lexed)| == |lexed|
    ensures forall k :: 0 <= k < |lexed| ==>
              var p, m := Decode(lexed)[k], DataMarks(Data(typed))[k];
              && m.row == p.row < |lines| && p.column + |p.text| <= |lines[p.row]|
              && (Covers(enc, lines[p.row], m, p) <==> Narrow(enc, lines[p.row], p))
  {
    hide Inside, Classified, Data, DataMarks, Decode, LexRows, CursorAfter, DataCursor, Flags, Covers, Narrow, IsLexeme;
    ClassifiedKinds(cl, lexed, typed);
    MarksAreDecoded(lexed, typed);
    DecodedPlaces(cl, lines, lexed);
    forall k | 0 <= k < |lexed|
      ensures var p, m := Decode(lexed)[k], DataMarks(Data(typed))[k];
              && m.row == p.row < |lines| && p.column + |p.text| <= |lines[p.row]|
              && (Covers(enc, lines[p.row], m, p) <==> Narrow(enc, lines[p.row], p))
    {
      var p := Decode(lexed)[k];
      HeldText(cl, lines, p);
      CoversNarrow(enc, lines[p.row], DataMarks(Data(typed))[k], p);
    }
  }

  lemma {:induction false} HeldText(cl: Classes, lines: seq<Text>, p: Place)
    requires Held(cl, lines, p)
    ensures p.row < |lines| && p.column + |p.text| <= |lines[p.row]|
    ensures p.text == lines[p.row][p.column..p.column + |p.text|]
  {}

  const WIDE: CodePoint := 0x1D400
  const BLANK: CodePoint := 0x20
  const LETTER: CodePoint := 0x61

  /** After a character outside the Basic Multilingual Plane, a client that counts in UTF-16 marks one unit too far
      to the left. */
  lemma {:induction false} WideCharacterShifts(cl: Classes)
    requires cl.isSpace(BLANK) && !cl.isSpace(WIDE) && !cl.isSpace(LETTER)
    requires cl.isWord(WIDE) && cl.isWord(LETTER) && !cl.isWord(BLANK)
    ensures var line := [WIDE, BLANK, LETTER];
            var p := Place(0, 2, [LETTER], false);
            && LexLine(cl, 0, line, 0) == Some([Place(0, 0, [WIDE], false), p])
            && ClientNumUnits(Utf16, line[..2]) == 3 && !Narrow(Utf16, line, p)
  {
    var line := [WIDE, BLANK, LETTER];
    var p, q := Place(0, 0, [WIDE], false), Place(0, 2, [LETTER], false);
    assert AllSpace(cl, line[..0]) && AllSpace(cl, line[1..2]) && AllSpace(cl, line[3..3]);
    assert line[0..1] == [WIDE] && line[2..3] == [LETTER];
    assert Tiled(cl, 0, line, [], 0);
    assert [p][..0] == [] && [p, q][..1] == [p];
    assert Tiled(cl, 0, line, [p], 2);
    assert Tiled(cl, 0, line, [p, q], 3);
    LexLineIsTiling(cl, 0, line, [p, q]);
    assert line[..2] == [] + [WIDE] + [BLANK];
    NumUnitsSnoc(Utf16, [] + [WIDE], BLANK);
    NumUnitsSnoc(Utf16, [], WIDE);
    assert Units(Utf16, line[0]) == 2;
  }

  /* The documentation's second decoder: tokens laid out as text */

  datatype Piece = Padding(width: nat) | Placed(token: Token)

  function PieceWidth(p: Piece): nat {
    match p
    case Padding(w) => w
    case Placed(t) => |t.text|
  }

  function Width(line: seq<Piece>): nat {
    if line == [] then 0 else Width(line[..|line| - 1]) + PieceWidth(line[|line| - 1])
  }

  /** Where the tokens are in the rendered text. */
  function LinePlaces(row: nat, line: seq<Piece>): seq<Place> {
    if line == [] then []
    else
      var init, p := line[..|line| - 1], line[|line| - 1];
      LinePlaces(row, init)
      + if p.Placed? then [Place(row, Width(init), p.token.text, p.token.tokType == Operator)] else []
  }

  function TextPlaces(text: seq<seq<Piece>>): seq<Place> {
    if text == [] then [] else TextPlaces(text[..|text| - 1]) + LinePlaces(|text| - 1, text[|text| - 1])
  }

  /** The row of the last token, and the width of its line up to the token's end. */
  function Row(tokens: seq<Token>): nat {
    if tokens == [] then 0 else Row(tokens[..|tokens| - 1]) + if tokens[|tokens| - 1].line > 0 then 1 else 0
  }

  function PreviousLength(tokens: seq<Token>, t: Token): nat {
    if t.line > 0 || tokens == [] then 0 else |tokens[|tokens| - 1].text|
  }

  function Start(tokens: seq<Token>, t: Token): nat
    decreases |tokens|, 1
  {
    var gap := PreviousLength(tokens, t);
    (if t.line > 0 then 0 else LineEnd(tokens)) + if t.offset > gap then t.offset - gap else 0
  }

  function LineEnd(tokens: seq<Token>): nat
    decreases |tokens|, 0
  {
    if tokens == [] then 0
    else Start(tokens[..|tokens| - 1], tokens[|tokens| - 1]) + |tokens[|tokens| - 1].text|
  }

  function Layout(tokens: seq<Token>): seq<Place> {
    if tokens == [] then []
    else
      var init, t := tokens[..|tokens| - 1], tokens[|tokens| - 1];
      Layout(init) + [Place(Row(tokens), Start(init, t), t.text, t.tokType == Operator)]
  }

  lemma {:induction false} LineAppend(row: nat, line: seq<Piece>, p: Piece)
    ensures Width(line + [p]) == Width(line) + PieceWidth(p)
    ensures LinePlaces(row, line + [p]) == LinePlaces(row, line)
            + if p.Placed? then [Place(row, Width(line), p.token.text, p.token.tokType == Operator)] else []
  {
    assert (line + [p])[..|line|] == line;
  }

  /** Layout of one more token, given the text so far. */
  lemma {:induction false} LayoutSnoc(tokens: seq<Token>, k: nat)
    requires k < |tokens|
    ensures var init, t := tokens[..k], tokens[k];
            && Layout(tokens[..k + 1]) == Layout(init) + [Place(Row(tokens[..k + 1]), Start(init, t), t.text, t.tokType == Operator)]
            && LineEnd(tokens[..k + 1]) == Start(init, t) + |t.text|
            && Row(tokens[..k + 1]) == Row(init) + (if t.line > 0 then 1 else 0)
            && Start(init, t) == (if t.line > 0 then 0 else LineEnd(init))
                                 + (if t.offset > PreviousLength(init, t) then t.offset - PreviousLength(init, t) else 0)
  {
    assert tokens[..k + 1][..k] == tokens[..k];
  }

  lemma {:induction false} LayoutStart(tokens: seq<Token>)
    ensures TextPlaces([]) + LinePlaces(0, []) == Layout(tokens[..0])
    ensures Row(tokens[..0]) == 0 && Width([]) == LineEnd(tokens[..0])
  {}

  lemma {:induction false} TextAppend(text: seq<seq<Piece>>, line: seq<Piece>)
    ensures TextPlaces(text + [line]) == TextPlaces(text) + LinePlaces(|text|, line)
    ensures LinePlaces(|text|, []) == [] && Width([]) == 0
  {
    assert (text + [line])[..|text|] == text;
  }

  /** `tokens_to_lines` */
  method TokensToLines(tokens: seq<Token>) returns (text: seq<seq<Piece>>)
    ensures TextPlaces(text) == Layout(tokens)
  {
    hide Layout, Row, LineEnd, LinePlaces, TextPlaces, Width, Start;
    text := [];
    var currentLine: seq<Piece> := [];
    LayoutStart(tokens);
    for k := 0 to |tokens|
      invariant TextPlaces(text) + LinePlaces(|text|, currentLine) == Layout(tokens[..k])
      invariant |text| == Row(tokens[..k]) && Width(currentLine) == LineEnd(tokens[..k])
      invariant if k == 0 then currentLine == []
                else currentLine != [] && currentLine[|currentLine| - 1] == Placed(tokens[k - 1])
    {
      var token := tokens[k];
      LayoutSnoc(tokens, k);
      if token.line > 0 {
        TextAppend(text, currentLine);
        text := text + [currentLine];
        currentLine := [];
        TextAppend(text, currentLine);
      }
      assert TextPlaces(text) + LinePlaces(|text|, currentLine) == Layout(tokens[..k]);
      var prevLength := if currentLine == [] then 0 else PieceWidth(currentLine[|currentLine| - 1]);
      assert prevLength == PreviousLength(tokens[..k], token);
      if token.offset > prevLength {
        LineAppend(|text|, currentLine, Padding(token.offset - prevLength));
        currentLine := currentLine + [Padding(token.offset - prevLength)];
      }
      assert Width(currentLine) == Start(tokens[..k], token);
      LineAppend(|text|, currentLine, Placed(token));
      currentLine := currentLine + [Placed(token)];
    }
    assert tokens[..|tokens|] == tokens;
    TextAppend(text, currentLine);
    text := text + [currentLine];
  }

  /** Line deltas at most 1, and no token starts before the previous one on its line has ended. */
  predicate Layable(tokens: seq<Token>) {
    forall k :: 0 <= k < |tokens| ==>
      && tokens[k].line <= 1
      && (tokens[k].line == 0 && k > 0 ==> |tokens[k - 1].text| <= tokens[k].offset)
  }

  lemma {:induction false} LayableSnoc(tokens: seq<Token>)
    requires tokens != []
    ensures var n := |tokens| - 1;
            Layable(tokens) <==>
            && Layable(tokens[..n]) && tokens[n].line <= 1
            && (tokens[n].line == 0 && n > 0 ==> |tokens[n - 1].text| <= tokens[n].offset)
  {}

  /** The rendered text shows every token where the decoder puts it if and only if the list can be laid
      out that way. */
  lemma {:induction false} LayoutIsDecode(tokens: seq<Token>)
    ensures Layout(tokens) == Decode(tokens) <==> Layable(tokens)
    ensures tokens != [] && Layable(tokens) ==>
              CursorAfter(tokens) == Cursor(Row(tokens), LineEnd(tokens) - |tokens[|tokens| - 1].text|)
  {
    if tokens != [] {
      var init, t := tokens[..|tokens| - 1], tokens[|tokens| - 1];
      LayoutIsDecode(init);
      LayableSnoc(tokens);
      var p, q := Place(Row(tokens), Start(init, t), t.text, t.tokType == Operator),
                  Place(CursorAfter(tokens).row, CursorAfter(tokens).column, t.text, t.tokType == Operator);
      assert Layout(tokens) == Layout(init) + [p] && Decode(tokens) == Decode(init) + [q];
      SnocEqual(Layout(init), p, Decode(init), q);
    }
  }

  lemma {:induction false} SnocEqual(a: seq<Place>, p: Place, b: seq<Place>, q: Place)
    ensures a + [p] == b + [q] <==> a == b && p == q
  {
    if a + [p] == b + [q] {
      assert a == (a + [p])[..|a + [p]| - 1] == (b + [q])[..|b + [q]| - 1] == b;
      assert p == (a + [p])[|a + [p]| - 1] == q;
    }
  }
}
