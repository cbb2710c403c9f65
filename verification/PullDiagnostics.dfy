/** A server that answers diagnostic requests from a cache, and its result ids
    (LSP 3.17, "Pull Diagnostics"). */
module PullDiagnostics {
  import opened Unicode
  import opened Wrappers
  import opened Scanning
  import opened Framing

  /* One line: `^\s*(\d+)\s*\+\s*(\d+)\s*=\s*(\d+)?$` */

  /** The classes `\s` and `\d`, and what a digit is worth. */
  datatype Numerals = Numerals(isSpace: CodePoint -> bool, isDigit: CodePoint -> bool, worth: CodePoint -> nat)

  const PLUS: CodePoint := 0x2B
  const EQUALS: CodePoint := 0x3D

  /** An answer that is missing is empty. */
  datatype Sum = Sum(left: Text, right: Text, answer: Text)

  ghost predicate Disjoint(cl: Numerals) {
    && (forall c :: cl.isDigit(c) ==> !cl.isSpace(c))
    && (forall c :: c == PLUS || c == EQUALS ==> !cl.isSpace(c) && !cl.isDigit(c))
    && cl.isSpace(LF)
  }

  /** `\s*(\d+)\s*` and what follows. */
  function Number(cl: Numerals, s: Text): Option<(Text, Text)> {
    var t := s[Span(cl.isSpace, s)..];
    var n := Span(cl.isDigit, t);
    if n == 0 then None else Some((t[..n], t[n..][Span(cl.isSpace, t[n..])..]))
  }

  /** `\s*(\d+)?$`; the dollar also matches before a final line feed. */
  function Answer(cl: Numerals, s: Text): Option<Text> {
    var t := s[Span(cl.isSpace, s)..];
    var n := Span(cl.isDigit, t);
    if t[n..] == [] || t[n..] == [LF] then Some(t[..n]) else None
  }

  function Addition(cl: Numerals, line: Text): Option<Sum> {
    match Number(cl, line)
    case None => None
    case Some((left, afterLeft)) =>
      if afterLeft == [] || afterLeft[0] != PLUS then None
      else
        match Number(cl, afterLeft[1..])
        case None => None
        case Some((right, afterRight)) =>
          if afterRight == [] || afterRight[0] != EQUALS then None
          else
            match Answer(cl, afterRight[1..])
            case None => None
            case Some(answer) => Some(Sum(left, right, answer))
  }

  /** The pattern as a grammar. */
  ghost predicate IsNumber(cl: Numerals, a: Text, digits: Text, b: Text) {
    All(cl.isSpace, a) && digits != [] && All(cl.isDigit, digits) && All(cl.isSpace, b)
  }

  ghost predicate IsAnswer(cl: Numerals, a: Text, digits: Text, end: Text) {
    All(cl.isSpace, a) && All(cl.isDigit, digits) && (end == [] || end == [LF])
  }

  ghost predicate NumberAt(cl: Numerals, s: Text, digits: Text, rest: Text) {
    exists a, b :: IsNumber(cl, a, digits, b) && s == a + (digits + (b + rest))
  }

  ghost predicate AnswerAt(cl: Numerals, s: Text, digits: Text) {
    exists a, end :: IsAnswer(cl, a, digits, end) && s == a + (digits + end)
  }

  ghost predicate SumAt(cl: Numerals, line: Text, sum: Sum) {
    exists afterPlus, afterEquals ::
      && NumberAt(cl, line, sum.left, [0x2B] + afterPlus)
      && NumberAt(cl, afterPlus, sum.right, [0x3D] + afterEquals)
      && AnswerAt(cl, afterEquals, sum.answer)
  }

  lemma {:induction false} NumberRead(cl: Numerals, a: Text, digits: Text, b: Text, rest: Text)
    requires Disjoint(cl) && rest != [] && !cl.isSpace(rest[0]) && !cl.isDigit(rest[0])
    requires IsNumber(cl, a, digits, b)
    ensures Number(cl, a + (digits + (b + rest))) == Some((digits, rest))
  {
    SpanIs(cl.isSpace, a, digits + (b + rest));
    assert (b + rest)[0] == if b == [] then rest[0] else b[0];
    SpanIs(cl.isDigit, digits, b + rest);
    SpanIs(cl.isSpace, b, rest);
  }

  lemma {:induction false} NumberParts(cl: Numerals, s: Text, digits: Text, rest: Text)
    requires Number(cl, s) == Some((digits, rest))
    ensures NumberAt(cl, s, digits, rest)
  {
    hide Span, All, NumberAt;
    var t := s[Span(cl.isSpace, s)..];
    var n := Span(cl.isDigit, t);
    var u := t[n..];
    var a, b := s[..Span(cl.isSpace, s)], u[..Span(cl.isSpace, u)];
    SpanCut(cl.isSpace, s);
    SpanCut(cl.isDigit, t);
    SpanCut(cl.isSpace, u);
    NumberFrom(cl, s, a, t, digits, u, b, rest);
  }

  lemma {:induction false} NumberFrom(cl: Numerals, s: Text, a: Text, t: Text, digits: Text, u: Text, b: Text, rest: Text)
    requires s == a + t && t == digits + u && u == b + rest && IsNumber(cl, a, digits, b)
    ensures NumberAt(cl, s, digits, rest)
  {
    hide IsNumber;
    assert s == a + (digits + (b + rest));
  }

  /** Reading a number greedily finds the one split of the grammar. */
  lemma {:induction false} NumberIs(cl: Numerals, s: Text, digits: Text, c: CodePoint, rest: Text)
    requires Disjoint(cl) && !cl.isSpace(c) && !cl.isDigit(c)
    ensures NumberAt(cl, s, digits, [c] + rest) <==> Number(cl, s) == Some((digits, [c] + rest))
  {
    hide Number, IsNumber;
    if NumberAt(cl, s, digits, [c] + rest) {
      var a, b :| IsNumber(cl, a, digits, b) && s == a + (digits + (b + ([c] + rest)));
      NumberRead(cl, a, digits, b, [c] + rest);
    }
    if Number(cl, s) == Some((digits, [c] + rest)) {
      NumberParts(cl, s, digits, [c] + rest);
    }
  }

  lemma {:induction false} AnswerParts(cl: Numerals, s: Text, digits: Text)
    requires Answer(cl, s) == Some(digits)
    ensures AnswerAt(cl, s, digits)
  {
    hide Span, All;
    var t := s[Span(cl.isSpace, s)..];
    var n := Span(cl.isDigit, t);
    SpanCut(cl.isSpace, s);
    SpanCut(cl.isDigit, t);
    assert IsAnswer(cl, s[..Span(cl.isSpace, s)], digits, t[n..]);
  }

  lemma {:induction false} AnswerRead(cl: Numerals, a: Text, digits: Text, end: Text)
    requires Disjoint(cl) && IsAnswer(cl, a, digits, end)
    ensures Answer(cl, a + (digits + end)) == Some(digits)
  {
    if digits == [] {
      assert a + (digits + end) == (a + end) + [];
      SpanIs(cl.isSpace, a + end, []);
    } else {
      SpanIs(cl.isSpace, a, digits + end);
      SpanIs(cl.isDigit, digits, end);
    }
  }

  lemma {:induction false} AnswerIs(cl: Numerals, s: Text, digits: Text)
    requires Disjoint(cl)
    ensures AnswerAt(cl, s, digits) <==> Answer(cl, s) == Some(digits)
  {
    hide Answer, IsAnswer;
    if AnswerAt(cl, s, digits) {
      var a, end :| IsAnswer(cl, a, digits, end) && s == a + (digits + end);
      AnswerRead(cl, a, digits, end);
    }
    if Answer(cl, s) == Some(digits) {
      AnswerParts(cl, s, digits);
    }
  }

  /** The scan accepts exactly the lines of the grammar, and reads off the right parts. */
  lemma {:induction false} AdditionIs(cl: Numerals, line: Text, sum: Sum)
    requires Disjoint(cl)
    ensures Addition(cl, line) == Some(sum) <==> SumAt(cl, line, sum)
  {
    hide Number, Answer, NumberAt, AnswerAt;
    if SumAt(cl, line, sum) {
      var p, e :| NumberAt(cl, line, sum.left, [PLUS] + p) && NumberAt(cl, p, sum.right, [EQUALS] + e)
                  && AnswerAt(cl, e, sum.answer);
      NumberIs(cl, line, sum.left, PLUS, p);
      NumberIs(cl, p, sum.right, EQUALS, e);
      AnswerIs(cl, e, sum.answer);
    }
    if Addition(cl, line) == Some(sum) {
      var p := Number(cl, line).value.1[1..];
      var e := Number(cl, p).value.1[1..];
      assert [PLUS] + p == Number(cl, line).value.1 && [EQUALS] + e == Number(cl, p).value.1;
      NumberIs(cl, line, sum.left, PLUS, p);
      NumberIs(cl, p, sum.right, EQUALS, e);
      AnswerIs(cl, e, sum.answer);
    }
  }

  /* Diagnostics */

  datatype Severity = Error | Warning

  datatype Message = MissingAnswer | IncorrectAnswer(answer: Text)

  datatype Diagnostic = Diagnostic(message: Message, severity: Severity, line: nat, endCharacter: int)

  function Value(cl: Numerals, digits: Text): nat {
    if digits == [] then 0 else 10 * Value(cl, digits[..|digits| - 1]) + cl.worth(digits[|digits| - 1])
  }

  /** Nothing is said about a line that is not an addition or is answered correctly. */
  function LineDiagnostics(cl: Numerals, idx: nat, line: Text): seq<Diagnostic> {
    match Addition(cl, line)
    case None => []
    case Some(sum) =>
      if sum.answer == [] then [Diagnostic(MissingAnswer, Warning, idx, |line| - 1)]
      else if Value(cl, sum.left) + Value(cl, sum.right) == Value(cl, sum.answer) then []
      else [Diagnostic(IncorrectAnswer(sum.answer), Error, idx, |line| - 1)]
  }

  /** The diagnostics of a document, computed afresh. */
  function Diagnostics(cl: Numerals, lines: seq<Text>): seq<Diagnostic> {
    if lines == [] then []
    else Diagnostics(cl, lines[..|lines| - 1]) + LineDiagnostics(cl, |lines| - 1, lines[|lines| - 1])
  }

  lemma {:induction false} NoLines(cl: Numerals)
    ensures Diagnostics(cl, []) == []
  {}

  lemma {:induction false} OneMoreLine(cl: Numerals, lines: seq<Text>, idx: nat)
    requires idx < |lines|
    ensures Diagnostics(cl, lines[..idx + 1]) == Diagnostics(cl, lines[..idx]) + LineDiagnostics(cl, idx, lines[idx])
  {
    hide LineDiagnostics;
    assert lines[..idx + 1][..idx] == lines[..idx];
  }

  /* The cache */

  type Cache = map<Bytes, (int, seq<Diagnostic>)>

  function Cached(cache: Cache, uri: Bytes): seq<Diagnostic> {
    if uri in cache then cache[uri].1 else []
  }

  /** An entry keeps the version at which its diagnostics last changed. */
  function Parsed(cache: Cache, uri: Bytes, version: int, diagnostics: seq<Diagnostic>): Cache {
    if Cached(cache, uri) != diagnostics then cache[uri := (version, diagnostics)] else cache
  }

  function Decimal(v: int): Bytes {
    if v < 0 then [0x2D] + Digits(-v) else Digits(v)
  }

  const AT: nat := 0x40

  function ResultId(uri: Bytes, version: int): Bytes {
    uri + [AT] + Decimal(version)
  }

  datatype Report = NoReport | Unchanged(id: Bytes) | Full(id: Bytes, items: seq<Diagnostic>)

  function DocumentReport(cache: Cache, uri: Bytes, previous: Option<Bytes>): Report {
    if uri !in cache then NoReport
    else
      var id := ResultId(uri, cache[uri].0);
      if previous == Some(id) then Unchanged(id) else Full(id, cache[uri].1)
  }

  /** A full report of the workspace carries no result id. */
  datatype WorkspaceItem =
    | WorkspaceUnchanged(uri: Bytes, version: int, id: Bytes)
    | WorkspaceFull(uri: Bytes, version: int, items: seq<Diagnostic>)

  function WorkspaceReport(cache: Cache, uri: Bytes, previous: set<Bytes>): WorkspaceItem
    requires uri in cache
  {
    var (version, diagnostics) := cache[uri];
    var id := ResultId(uri, version);
    if id in previous then WorkspaceUnchanged(uri, version, id) else WorkspaceFull(uri, version, diagnostics)
  }

  class PullDiagnosticServer {
    var diagnostics: Cache

    constructor ()
      ensures diagnostics == map[]
    {
      diagnostics := map[];
    }

    method Parse(cl: Numerals, uri: Bytes, version: int, lines: seq<Text>)
      modifies this
      ensures diagnostics == Parsed(old(diagnostics), uri, version, Diagnostics(cl, lines))
    {
      hide Addition, Value, Diagnostics;
      NoLines(cl);
      var previous := if uri in this.diagnostics then this.diagnostics[uri] else (0, []);
      var found: seq<Diagnostic> := [];
      for idx := 0 to |lines|
        invariant diagnostics == old(diagnostics)
        invariant found == Diagnostics(cl, lines[..idx])
      {
        var line := lines[idx];
        OneMoreLine(cl, lines, idx);
        var m := Addition(cl, line);
        if m.Some? {
          var sum := m.value;
          var expected := Value(cl, sum.left) + Value(cl, sum.right);
          if sum.answer != [] && expected == Value(cl, sum.answer) {
            continue;
          }
          var d := if sum.answer == [] then Diagnostic(MissingAnswer, Warning, idx, |line| - 1)
                   else Diagnostic(IncorrectAnswer(sum.answer), Error, idx, |line| - 1);
          found := found + [d];
        }
      }
      assert lines[..|lines|] == lines;
      if previous.1 != found {
        this.diagnostics := this.diagnostics[uri := (version, found)];
      }
    }

    method DocumentDiagnostic(uri: Bytes, previous: Option<Bytes>) returns (r: Report)
      ensures r == DocumentReport(diagnostics, uri, previous)
    {
      if uri !in diagnostics {
        return NoReport;
      }
      var (version, found) := diagnostics[uri];
      var id := ResultId(uri, version);
      if previous == Some(id) {
        return Unchanged(id);
      }
      r := Full(id, found);
    }

    /** One item for each cached document, in some order. */
    method WorkspaceDiagnostic(previous: seq<Bytes>) returns (items: seq<WorkspaceItem>)
      ensures |items| == |diagnostics.Keys|
      ensures forall uri :: uri in diagnostics ==>
                WorkspaceReport(diagnostics, uri, set p | p in previous) in items
    {
      var previousIds := set p | p in previous;
      items := [];
      var rest := diagnostics.Keys;
      while rest != {}
        invariant rest <= diagnostics.Keys && |items| + |rest| == |diagnostics.Keys|
        invariant forall uri :: uri in diagnostics && uri !in rest ==>
                    WorkspaceReport(diagnostics, uri, previousIds) in items
      {
        var uri :| uri in rest;
        rest := rest - {uri};
        var (version, found) := diagnostics[uri];
        var id := ResultId(uri, version);
        if id in previousIds {
          items := items + [WorkspaceUnchanged(uri, version, id)];
        } else {
          items := items + [WorkspaceFull(uri, version, found)];
        }
        assert items[|items| - 1] == WorkspaceReport(diagnostics, uri, previousIds);
      }
    }
  }

  /* What a diagnostic says */

  /** Zeros, then the decimal digits of `n`, whatever characters are worth them. */
  ghost predicate Padded(cl: Numerals, digits: Text, n: nat, zeros: nat) {
    && |digits| == zeros + |Digits(n)|
    && (forall i :: 0 <= i < zeros ==> cl.worth(digits[i]) == 0)
    && (forall i :: zeros <= i < |digits| ==> cl.worth(digits[i]) + 0x30 == Digits(n)[i - zeros])
  }

  ghost predicate Denotes(cl: Numerals, digits: Text, n: nat) {
    exists zeros: nat :: Padded(cl, digits, n, zeros)
  }

  lemma {:induction false} PaddedValue(cl: Numerals, digits: Text, n: nat, zeros: nat)
    requires Padded(cl, digits, n, zeros)
    ensures Value(cl, digits) == n
    decreases |digits|
  {
    var init := digits[..|digits| - 1];
    if n >= 10 {
      PaddedValue(cl, init, n / 10, zeros);
    } else {
      OnlyZeros(cl, init);
    }
  }

  lemma {:induction false} OnlyZeros(cl: Numerals, digits: Text)
    requires forall i :: 0 <= i < |digits| ==> cl.worth(digits[i]) == 0
    ensures Value(cl, digits) == 0
  {
    if digits != [] {
      OnlyZeros(cl, digits[..|digits| - 1]);
    }
  }

  lemma {:induction false} DenotedValue(cl: Numerals, digits: Text, n: nat)
    requires Denotes(cl, digits, n)
    ensures Value(cl, digits) == n
  {
    var zeros: nat :| Padded(cl, digits, n, zeros);
    PaddedValue(cl, digits, n, zeros);
  }

  /** Digits worth at most nine denote a number. */
  lemma {:induction false} EveryNumberDenoted(cl: Numerals, digits: Text)
    requires digits != [] && forall i :: 0 <= i < |digits| ==> cl.worth(digits[i]) <= 9
    ensures exists n :: Denotes(cl, digits, n)
  {
    var d: Bytes := seq(|digits|, i requires 0 <= i < |digits| => 0x30 + cl.worth(digits[i]));
    var zeros := ZerosBefore(d);
    var n := ParseNat(d);
    hide Digits, ParseNat;
    assert Digits(0) == [0x30] by { ParseDigits(0); DecimalDigits(0, 0); assert Power10(0) == 1; }
    PaddedFrom(cl, digits, d, n, if n > 0 then zeros else zeros[..|d| - 1]);
  }

  lemma {:induction false} PaddedFrom(cl: Numerals, digits: Text, d: Bytes, n: nat, zeros: Bytes)
    requires |d| == |digits| && forall i :: 0 <= i < |d| ==> d[i] == 0x30 + cl.worth(digits[i])
    requires d == zeros + Digits(n) && forall i :: 0 <= i < |zeros| ==> zeros[i] == 0x30
    ensures Denotes(cl, digits, n)
  {
    hide Digits;
    assert forall i :: 0 <= i < |zeros| ==> zeros[i] == d[i];
    assert forall i :: |zeros| <= i < |d| ==> Digits(n)[i - |zeros|] == d[i];
    assert Padded(cl, digits, n, |zeros|);
  }

  /** The one diagnostic of line `idx`. */
  ghost predicate OnlyDiagnostic(ds: seq<Diagnostic>, idx: nat, d: Diagnostic) {
    forall x :: x in ds && x.line == idx <==> x == d
  }

  ghost predicate NoDiagnostic(ds: seq<Diagnostic>, idx: nat) {
    forall x :: x in ds ==> x.line != idx
  }

  /** An addition without its answer has one diagnostic, a warning. */
  lemma {:induction false} MissingAnswerDiagnosed(cl: Numerals, lines: seq<Text>, idx: nat, left: Text, right: Text)
    requires Disjoint(cl) && idx < |lines| && SumAt(cl, lines[idx], Sum(left, right, []))
    ensures OnlyDiagnostic(Diagnostics(cl, lines), idx, Diagnostic(MissingAnswer, Warning, idx, |lines[idx]| - 1))
  {
    hide Diagnostics, SumAt, Addition;
    AdditionIs(cl, lines[idx], Sum(left, right, []));
    DiagnosticsOfLines(cl, lines);
  }

  /** An addition with an answer has none if the answer is the sum, and otherwise one, an error that quotes the
      answer, on its line from the start to one character short of its length. */
  lemma {:induction false} AnswerDiagnosed(cl: Numerals, lines: seq<Text>, idx: nat, sum: Sum, a: nat, b: nat, c: nat)
    requires Disjoint(cl) && idx < |lines| && SumAt(cl, lines[idx], sum) && sum.answer != []
    requires Denotes(cl, sum.left, a) && Denotes(cl, sum.right, b) && Denotes(cl, sum.answer, c)
    ensures a + b == c <==> NoDiagnostic(Diagnostics(cl, lines), idx)
    ensures a + b != c ==>
              OnlyDiagnostic(Diagnostics(cl, lines), idx, Diagnostic(IncorrectAnswer(sum.answer), Error, idx, |lines[idx]| - 1))
  {
    hide Diagnostics, SumAt, Addition, Value, Denotes, LineDiagnostics, Disjoint;
    DenotedValue(cl, sum.left, a);
    DenotedValue(cl, sum.right, b);
    DenotedValue(cl, sum.answer, c);
    AdditionIs(cl, lines[idx], sum);
    LineAnswered(cl, idx, lines[idx], sum);
    DiagnosticsOfLines(cl, lines);
    var d := Diagnostic(IncorrectAnswer(sum.answer), Error, idx, |lines[idx]| - 1);
    assert LineDiagnostics(cl, idx, lines[idx]) == if a + b == c then [] else [d];
    if a + b != c {
      assert d in Diagnostics(cl, lines);
    }
  }

  lemma {:induction false} LineAnswered(cl: Numerals, idx: nat, line: Text, sum: Sum)
    requires Addition(cl, line) == Some(sum) && sum.answer != []
    ensures LineDiagnostics(cl, idx, line)
         == if Value(cl, sum.left) + Value(cl, sum.right) == Value(cl, sum.answer) then []
            else [Diagnostic(IncorrectAnswer(sum.answer), Error, idx, |line| - 1)]
  {}

  /** Any other line has none. */
  lemma {:induction false} OthersNotDiagnosed(cl: Numerals, lines: seq<Text>, idx: nat)
    requires Disjoint(cl) && (idx < |lines| ==> forall sum :: !SumAt(cl, lines[idx], sum))
    ensures NoDiagnostic(Diagnostics(cl, lines), idx)
  {
    DiagnosticsOfLines(cl, lines);
    hide Diagnostics, SumAt;
    if idx < |lines| && Addition(cl, lines[idx]).Some? {
      AdditionIs(cl, lines[idx], Addition(cl, lines[idx]).value);
    }
    hide Addition;
  }

  /** A line has a diagnostic exactly if it is an addition without its answer or with a wrong one, and at
      most one; they come in the order of the lines. */
  lemma {:induction false} DiagnosticsOfLines(cl: Numerals, lines: seq<Text>)
    ensures forall d :: d in Diagnostics(cl, lines) <==> d.line < |lines| && d in LineDiagnostics(cl, d.line, lines[d.line])
    ensures forall i, j :: 0 <= i < j < |Diagnostics(cl, lines)| ==>
              Diagnostics(cl, lines)[i].line < Diagnostics(cl, lines)[j].line
  {
    hide Diagnostics, LineDiagnostics;
    NoLines(cl);
    if lines != [] {
      var n := |lines| - 1;
      DiagnosticsOfLines(cl, lines[..n]);
      OneMoreLine(cl, lines, n);
      assert lines[..n + 1] == lines;
      LineOfDiagnostic(cl, n, lines[n]);
      var before, last := Diagnostics(cl, lines[..n]), LineDiagnostics(cl, n, lines[n]);
      forall i | 0 <= i < |before| ensures before[i].line < n {
        assert before[i] in before;
      }
      forall i | 0 <= i < |last| ensures last[i].line == n {
        assert last[i] in last;
      }
      forall d: Diagnostic
        ensures d in before + last <==> d.line < |lines| && d in LineDiagnostics(cl, d.line, lines[d.line])
      {
        assert d in before + last <==> d in before || d in last;
      }
    }
  }

  lemma {:induction false} LineOfDiagnostic(cl: Numerals, idx: nat, line: Text)
    ensures |LineDiagnostics(cl, idx, line)| <= 1
    ensures forall d :: d in LineDiagnostics(cl, idx, line) ==> d.line == idx
  {
    hide Addition, Value;
  }

  /* Result ids */

  lemma {:induction false} ResultIdText(uri: Bytes, version: int)
    ensures ResultId(uri, version)
         == uri + Ascii("@") + (if version < 0 then Ascii("-") else []) + Digits(if version < 0 then -version else version)
  {
    hide Digits;
    assert Ascii("@") == [AT] && Ascii("-") == [0x2D];
    assert uri + [AT] + [] == uri + [AT];
    assert version < 0 ==> uri + [AT] + ([0x2D] + Digits(-version)) == uri + [AT] + [0x2D] + Digits(-version);
  }

  lemma {:induction false} NoAt(v: int)
    ensures forall i :: 0 <= i < |Decimal(v)| ==> Decimal(v)[i] != AT
  {
    ParseDigits(if v < 0 then -v else v);
  }

  lemma {:induction false} DecimalInjective(v: int, w: int)
    requires Decimal(v) == Decimal(w)
    ensures v == w
  {
    ParseDigits(if v < 0 then -v else v);
    ParseDigits(if w < 0 then -w else w);
    assert Decimal(v)[0] == Decimal(w)[0];
    if v < 0 {
      assert Digits(-v) == Decimal(v)[1..] == Digits(-w);
    }
  }

  lemma {:induction false} ShorterUri(uri: Bytes, v: int, uri': Bytes, w: int)
    requires |uri| < |uri'|
    ensures ResultId(uri, v) != ResultId(uri', w)
  {
    NoAt(v);
    var a, b := ResultId(uri, v), ResultId(uri', w);
    assert b[|uri'|] == AT;
    if |a| == |b| {
      assert a[|uri'|] == Decimal(v)[|uri'| - |uri| - 1];
    }
  }

  /** A result id belongs to one version of one document. */
  lemma {:induction false} ResultIdInjective(uri: Bytes, v: int, uri': Bytes, w: int)
    requires ResultId(uri, v) == ResultId(uri', w)
    ensures uri == uri' && v == w
  {
    if |uri| < |uri'| {
      ShorterUri(uri, v, uri', w);
    } else if |uri'| < |uri| {
      ShorterUri(uri', w, uri, v);
    } else {
      var id := ResultId(uri, v);
      assert uri == id[..|uri|] == uri';
      assert Decimal(v) == id[|uri| + 1..] == Decimal(w);
      DecimalInjective(v, w);
    }
  }

  /* Runs */

  datatype Event =
    | Edited(uri: Bytes, version: int, lines: seq<Text>)
    | Asked(uri: Bytes, previous: Option<Bytes>)
    | AskedWorkspace(previousIds: set<Bytes>)

  datatype Document = Document(version: int, lines: seq<Text>)

  datatype Sent = Sent(id: Bytes, items: seq<Diagnostic>)

  /** The cache, the documents as they are, and every full report that was sent with an id. */
  datatype World = World(cache: Cache, documents: map<Bytes, Document>, sent: seq<Sent>)

  function Step(cl: Numerals, w: World, e: Event): World {
    match e
    case Edited(uri, version, lines) =>
      World(Parsed(w.cache, uri, version, Diagnostics(cl, lines)), w.documents[uri := Document(version, lines)], w.sent)
    case Asked(uri, previous) =>
      var r := DocumentReport(w.cache, uri, previous);
      if r.Full? then w.(sent := w.sent + [Sent(r.id, r.items)]) else w
    case AskedWorkspace(_) => w
  }

  function Run(cl: Numerals, events: seq<Event>): World {
    if events == [] then World(map[], map[], []) else Step(cl, Run(cl, events[..|events| - 1]), events[|events| - 1])
  }

  /** The edits alone, which decide what the cache holds. */
  function EditsOf(events: seq<Event>): seq<Event> {
    if events == [] then []
    else EditsOf(events[..|events| - 1]) + if events[|events| - 1].Edited? then [events[|events| - 1]] else []
  }

  /** The edit gives its document other diagnostics than are cached, and so a new entry. */
  ghost predicate Changes(cl: Numerals, edits: seq<Event>, i: nat) {
    i < |edits| && edits[i].Edited? && Cached(Run(cl, edits[..i]).cache, edits[i].uri) != Diagnostics(cl, edits[i].lines)
  }

  ghost predicate Clash(cl: Numerals, edits: seq<Event>, i: nat, j: nat) {
    && i < j && Changes(cl, edits, i) && Changes(cl, edits, j)
    && edits[i].uri == edits[j].uri && edits[i].version == edits[j].version
    && Diagnostics(cl, edits[i].lines) != Diagnostics(cl, edits[j].lines)
  }

  /** No two entries of one document have one version and different diagnostics. */
  ghost predicate NoClash(cl: Numerals, edits: seq<Event>) {
    forall i: nat, j: nat :: !Clash(cl, edits, i, j)
  }

  /** Reports with one id are one report, and those with the id of an entry are what a fresh computation gives. */
  ghost predicate Honest(cl: Numerals, w: World) {
    && (forall q, r :: q in w.sent && r in w.sent && q.id == r.id ==> q.items == r.items)
    && (forall uri, r :: uri in w.cache && r in w.sent && r.id == ResultId(uri, w.cache[uri].0) ==>
          uri in w.documents && r.items == Diagnostics(cl, w.documents[uri].lines))
  }

  /* Where entries and reports come from, whatever the versions */

  ghost predicate Origin(cl: Numerals, edits: seq<Event>, uri: Bytes, version: int, items: seq<Diagnostic>) {
    exists i: nat :: Gives(cl, edits, i, uri, version, items)
  }

  ghost predicate Gives(cl: Numerals, edits: seq<Event>, i: nat, uri: Bytes, version: int, items: seq<Diagnostic>) {
    && Changes(cl, edits, i) && edits[i].uri == uri && edits[i].version == version
    && Diagnostics(cl, edits[i].lines) == items
  }

  ghost predicate SentFrom(cl: Numerals, edits: seq<Event>, r: Sent) {
    exists uri, version :: r.id == ResultId(uri, version) && Origin(cl, edits, uri, version, r.items)
  }

  ghost predicate Accounted(cl: Numerals, edits: seq<Event>, w: World) {
    && (forall uri :: uri in w.cache ==> uri in w.documents && Origin(cl, edits, uri, w.cache[uri].0, w.cache[uri].1))
    && (forall uri :: uri in w.documents ==> Cached(w.cache, uri) == Diagnostics(cl, w.documents[uri].lines))
    && (forall r :: r in w.sent ==> SentFrom(cl, edits, r))
  }

  lemma {:induction false} OriginStays(cl: Numerals, edits: seq<Event>, e: Event, uri: Bytes, version: int, items: seq<Diagnostic>)
    requires Origin(cl, edits, uri, version, items)
    ensures Origin(cl, edits + [e], uri, version, items)
  {
    hide Run, Diagnostics;
    var i: nat :| Gives(cl, edits, i, uri, version, items);
    assert (edits + [e])[..i] == edits[..i];
    assert Gives(cl, edits + [e], i, uri, version, items);
  }

  /** Questions change no table. */
  lemma {:induction false} SameTables(cl: Numerals, events: seq<Event>)
    ensures Run(cl, EditsOf(events)).cache == Run(cl, events).cache
    ensures Run(cl, EditsOf(events)).documents == Run(cl, events).documents
  {
    hide Diagnostics, DocumentReport;
    if events != [] {
      var before, e := events[..|events| - 1], events[|events| - 1];
      SameTables(cl, before);
      if e.Edited? {
        assert (EditsOf(before) + [e])[..|EditsOf(before)|] == EditsOf(before);
      } else {
        assert EditsOf(events) == EditsOf(before);
      }
    }
  }

  lemma {:induction false} EntryAccounted(cl: Numerals, edits: seq<Event>, w: World, e: Event, uri: Bytes)
    requires Accounted(cl, edits, w) && e.Edited? && w.cache == Run(cl, edits).cache && uri in Step(cl, w, e).cache
    ensures var w' := Step(cl, w, e); uri in w'.documents && Origin(cl, edits + [e], uri, w'.cache[uri].0, w'.cache[uri].1)
  {
    hide Run, Diagnostics, ResultId, SentFrom;
    var w' := Step(cl, w, e);
    if uri == e.uri && Cached(w.cache, uri) != Diagnostics(cl, e.lines) {
      assert (edits + [e])[..|edits|] == edits;
      assert Gives(cl, edits + [e], |edits|, uri, w'.cache[uri].0, w'.cache[uri].1);
    } else {
      OriginStays(cl, edits, e, uri, w.cache[uri].0, w.cache[uri].1);
    }
  }

  lemma {:induction false} SentStays(cl: Numerals, edits: seq<Event>, e: Event, r: Sent)
    requires SentFrom(cl, edits, r)
    ensures SentFrom(cl, edits + [e], r)
  {
    hide Origin, ResultId;
    var uri, version :| r.id == ResultId(uri, version) && Origin(cl, edits, uri, version, r.items);
    OriginStays(cl, edits, e, uri, version, r.items);
  }

  lemma {:induction false} EditAccounted(cl: Numerals, edits: seq<Event>, w: World, e: Event)
    requires Accounted(cl, edits, w) && e.Edited? && w.cache == Run(cl, edits).cache
    ensures Accounted(cl, edits + [e], Step(cl, w, e))
  {
    hide Run, Diagnostics, ResultId, SentFrom, Origin;
    var w' := Step(cl, w, e);
    forall uri | uri in w'.cache ensures uri in w'.documents && Origin(cl, edits + [e], uri, w'.cache[uri].0, w'.cache[uri].1) {
      EntryAccounted(cl, edits, w, e, uri);
    }
    forall r | r in w'.sent ensures SentFrom(cl, edits + [e], r) {
      SentStays(cl, edits, e, r);
    }
  }

  lemma {:induction false} QuestionAccounted(cl: Numerals, edits: seq<Event>, w: World, e: Event)
    requires Accounted(cl, edits, w) && !e.Edited?
    ensures Accounted(cl, edits, Step(cl, w, e))
  {
    hide Origin, Diagnostics, ResultId;
  }

  lemma {:induction false} RunAccounted(cl: Numerals, events: seq<Event>)
    ensures Accounted(cl, EditsOf(events), Run(cl, events))
  {
    hide Origin, SentFrom, Diagnostics, Step, Changes;
    if events != [] {
      var before, e := events[..|events| - 1], events[|events| - 1];
      RunAccounted(cl, before);
      SameTables(cl, before);
      if e.Edited? {
        EditAccounted(cl, EditsOf(before), Run(cl, before), e);
      } else {
        assert EditsOf(events) == EditsOf(before);
        QuestionAccounted(cl, EditsOf(before), Run(cl, before), e);
      }
    }
  }

  /* Soundness, and when it fails */

  lemma {:induction false} OneOrigin(cl: Numerals, edits: seq<Event>, uri: Bytes, version: int, a: seq<Diagnostic>, b: seq<Diagnostic>)
    requires NoClash(cl, edits) && Origin(cl, edits, uri, version, a) && Origin(cl, edits, uri, version, b)
    ensures a == b
  {
    hide Diagnostics, Run;
    var i: nat :| Gives(cl, edits, i, uri, version, a);
    var j: nat :| Gives(cl, edits, j, uri, version, b);
    assert !Clash(cl, edits, i, j) && !Clash(cl, edits, j, i);
  }

  lemma {:induction false} SameIdSameItems(cl: Numerals, edits: seq<Event>, q: Sent, r: Sent)
    requires NoClash(cl, edits) && SentFrom(cl, edits, q) && SentFrom(cl, edits, r) && q.id == r.id
    ensures q.items == r.items
  {
    hide Origin, NoClash;
    var u, v :| q.id == ResultId(u, v) && Origin(cl, edits, u, v, q.items);
    var x, y :| r.id == ResultId(x, y) && Origin(cl, edits, x, y, r.items);
    ResultIdInjective(u, v, x, y);
    OneOrigin(cl, edits, u, v, q.items, r.items);
  }

  lemma {:induction false} AccountedHonest(cl: Numerals, edits: seq<Event>, w: World)
    requires NoClash(cl, edits) && Accounted(cl, edits, w)
    ensures Honest(cl, w)
  {
    hide Origin, NoClash, ResultId, Diagnostics, SentFrom;
    forall q, r | q in w.sent && r in w.sent && q.id == r.id ensures q.items == r.items {
      SameIdSameItems(cl, edits, q, r);
    }
    forall uri, r | uri in w.cache && r in w.sent && r.id == ResultId(uri, w.cache[uri].0) ensures r.items == w.cache[uri].1 {
      var entry := Sent(r.id, w.cache[uri].1);
      EntrySent(cl, edits, uri, w.cache[uri].0, entry);
      SameIdSameItems(cl, edits, r, entry);
    }
  }

  lemma {:induction false} EntrySent(cl: Numerals, edits: seq<Event>, uri: Bytes, version: int, r: Sent)
    requires r.id == ResultId(uri, version) && Origin(cl, edits, uri, version, r.items)
    ensures SentFrom(cl, edits, r)
  {}

  lemma {:induction false} ClashLater(cl: Numerals, edits: seq<Event>, n: nat, i: nat, j: nat)
    requires n <= |edits| && Clash(cl, edits[..n], i, j)
    ensures Clash(cl, edits, i, j)
  {
    hide Diagnostics, Run;
    assert edits[..n][..i] == edits[..i] && edits[..n][..j] == edits[..j];
  }

  lemma {:induction false} ClashPrefix(cl: Numerals, edits: seq<Event>, n: nat)
    requires n <= |edits| && NoClash(cl, edits)
    ensures NoClash(cl, edits[..n])
  {
    hide Clash;
    forall i: nat, j: nat ensures Clash(cl, edits[..n], i, j) ==> Clash(cl, edits, i, j) {
      if Clash(cl, edits[..n], i, j) {
        ClashLater(cl, edits, n, i, j);
      }
    }
  }

  lemma {:induction false} EditsOnly(edits: seq<Event>)
    requires forall i :: 0 <= i < |edits| ==> edits[i].Edited?
    ensures EditsOf(edits) == edits
  {
    if edits != [] {
      EditsOnly(edits[..|edits| - 1]);
    }
  }

  lemma {:induction false} EditsOfAppend(a: seq<Event>, b: seq<Event>)
    ensures EditsOf(a + b) == EditsOf(a) + EditsOf(b)
  {
    if b == [] {
      assert a + b == a;
    } else {
      assert (a + b)[..|a + b| - 1] == a + b[..|b| - 1];
      EditsOfAppend(a, b[..|b| - 1]);
    }
  }

  /** Edits send nothing. */
  lemma {:induction false} EditsSendNothing(cl: Numerals, a: seq<Event>, edits: seq<Event>)
    requires forall i :: 0 <= i < |edits| ==> edits[i].Edited?
    ensures Run(cl, a + edits).sent == Run(cl, a).sent
  {
    if edits == [] {
      assert a + edits == a;
    } else {
      assert (a + edits)[..|a + edits| - 1] == a + edits[..|edits| - 1];
      EditsSendNothing(cl, a, edits[..|edits| - 1]);
    }
  }

  /** The run that asks once, between the two edits. */
  function AskedBetween(edits: seq<Event>, i: nat, j: nat): seq<Event>
    requires i < j < |edits| && edits[i].Edited?
  {
    edits[..i + 1] + [Asked(edits[i].uri, None)] + edits[i + 1..j + 1]
  }

  lemma {:induction false} ChangedEntry(cl: Numerals, edits: seq<Event>, i: nat)
    requires Changes(cl, edits, i)
    ensures var w, e := Run(cl, edits[..i + 1]), edits[i];
            && e.uri in w.cache && w.cache[e.uri] == (e.version, Diagnostics(cl, e.lines))
            && e.uri in w.documents && w.documents[e.uri].lines == e.lines
  {
    assert edits[..i + 1][..i] == edits[..i];
  }

  /** After a clash, a client that asked in between is told that a stale report is unchanged. */
  lemma {:induction false} ClashDeceives(cl: Numerals, edits: seq<Event>, i: nat, j: nat)
    requires (forall k :: 0 <= k < |edits| ==> edits[k].Edited?) && Clash(cl, edits, i, j)
    ensures var w, uri := Run(cl, AskedBetween(edits, i, j)), edits[i].uri;
            var id := ResultId(uri, edits[i].version);
            && EditsOf(AskedBetween(edits, i, j)) == edits[..j + 1]
            && w.sent == [Sent(id, Diagnostics(cl, edits[i].lines))]
            && DocumentReport(w.cache, uri, Some(id)) == Unchanged(id)
            && uri in w.documents && Diagnostics(cl, w.documents[uri].lines) != Diagnostics(cl, edits[i].lines)
  {
    var asked := Asked(edits[i].uri, None);
    var first, rest := edits[..i + 1], edits[i + 1..j + 1];
    hide Run, Diagnostics, ResultId, EditsOf, AskedBetween, Step;
    Halves(edits, i, j);
    AskedEdits(first, asked, rest);
    SameTables(cl, AskedBetween(edits, i, j));
    ChangedEntry(cl, edits, i);
    ChangedEntry(cl, edits, j);
    AskedOnce(cl, first, asked, rest);
  }

  lemma {:induction false} Halves(edits: seq<Event>, i: nat, j: nat)
    requires i < j < |edits| && edits[i].Edited?
    ensures edits[..i + 1] + edits[i + 1..j + 1] == edits[..j + 1]
    ensures edits[..i + 1] + [Asked(edits[i].uri, None)] + edits[i + 1..j + 1] == AskedBetween(edits, i, j)
  {}

  lemma {:induction false} AskedEdits(first: seq<Event>, asked: Event, rest: seq<Event>)
    requires (forall k :: 0 <= k < |first| ==> first[k].Edited?) && (forall k :: 0 <= k < |rest| ==> rest[k].Edited?) && !asked.Edited?
    ensures EditsOf(first + [asked] + rest) == first + rest
  {
    EditsOnly(first);
    EditsOnly(rest);
    EditsOfAppend(first + [asked], rest);
    EditsOfAppend(first, [asked]);
    assert EditsOf([asked]) == [] by { assert [asked][..0] == []; }
  }

  lemma {:induction false} AskedOnce(cl: Numerals, first: seq<Event>, asked: Event, rest: seq<Event>)
    requires (forall k :: 0 <= k < |first| ==> first[k].Edited?) && (forall k :: 0 <= k < |rest| ==> rest[k].Edited?)
    requires asked.Asked? && asked.previous.None? && asked.uri in Run(cl, first).cache
    ensures var (version, items) := Run(cl, first).cache[asked.uri];
            Run(cl, first + [asked] + rest).sent == [Sent(ResultId(asked.uri, version), items)]
  {
    EditsSendNothing(cl, first + [asked], rest);
    EditsSendNothing(cl, [], first);
    assert [] + first == first && (first + [asked])[..|first|] == first;
    assert Run(cl, []).sent == [];
    assert Run(cl, first + [asked]) == Step(cl, Run(cl, first), asked);
  }

  /** The cache is sound for these edits, whatever is asked in between and at the end, if and only if they do
      not clash. */
  lemma {:induction false} ExactlySound(cl: Numerals, edits: seq<Event>)
    requires forall i :: 0 <= i < |edits| ==> edits[i].Edited?
    ensures NoClash(cl, edits) <==> forall events :: EditsOf(events) <= edits ==> Honest(cl, Run(cl, events))
  {
    if NoClash(cl, edits) {
      forall events | EditsOf(events) <= edits ensures Honest(cl, Run(cl, events)) {
        assert EditsOf(events) == edits[..|EditsOf(events)|];
        ClashPrefix(cl, edits, |EditsOf(events)|);
        RunAccounted(cl, events);
        AccountedHonest(cl, EditsOf(events), Run(cl, events));
      }
    } else {
      var i: nat, j: nat :| Clash(cl, edits, i, j);
      var events := AskedBetween(edits, i, j);
      ClashDeceives(cl, edits, i, j);
      hide Diagnostics, ResultId, Run, Clash;
      var w := Run(cl, events);
      assert EditsOf(events) <= edits;
      assert w.sent[0] in w.sent;
    }
  }

  /** What each answer means: a full report is a fresh computation, no report means nothing to report, and, where
      the edits do not clash, "unchanged" is about an id whose report is what a fresh computation gives. */
  lemma {:induction false} CacheSoundness(cl: Numerals, events: seq<Event>, uri: Bytes, previous: Option<Bytes>)
    requires uri in Run(cl, events).documents
    ensures var w := Run(cl, events);
            var now := Diagnostics(cl, w.documents[uri].lines);
            match DocumentReport(w.cache, uri, previous)
            case NoReport => now == []
            case Full(id, items) =>
              && items == now && previous != Some(id)
              && exists version :: id == ResultId(uri, version) && Origin(cl, EditsOf(events), uri, version, now)
            case Unchanged(id) =>
              previous == Some(id) && (NoClash(cl, EditsOf(events)) ==> forall r :: r in w.sent && r.id == id ==> r.items == now)
  {
    RunAccounted(cl, events);
    hide Diagnostics, ResultId, Run, NoClash, Origin;
    if NoClash(cl, EditsOf(events)) {
      AccountedHonest(cl, EditsOf(events), Run(cl, events));
    }
  }

  /** The same for the items of a workspace report. */
  lemma {:induction false} WorkspaceSoundness(cl: Numerals, events: seq<Event>, uri: Bytes, previous: set<Bytes>)
    requires uri in Run(cl, events).cache
    ensures var w := Run(cl, events);
            && uri in w.documents
            && var now := Diagnostics(cl, w.documents[uri].lines);
               match WorkspaceReport(w.cache, uri, previous)
               case WorkspaceFull(u, version, items) =>
                 u == uri && items == now && Origin(cl, EditsOf(events), uri, version, now) && ResultId(uri, version) !in previous
               case WorkspaceUnchanged(u, version, id) =>
                 && u == uri && id in previous && id == ResultId(uri, version) && Origin(cl, EditsOf(events), uri, version, now)
                 && (NoClash(cl, EditsOf(events)) ==> forall r :: r in w.sent && r.id == id ==> r.items == now)
  {
    RunAccounted(cl, events);
    hide Diagnostics, ResultId, Run, NoClash, Origin;
    if NoClash(cl, EditsOf(events)) {
      AccountedHonest(cl, EditsOf(events), Run(cl, events));
    }
  }

  /** No document is edited with a version it has had, or an earlier one. */
  ghost predicate Increasing(edits: seq<Event>) {
    forall i, j :: 0 <= i < j < |edits| && edits[i].Edited? && edits[j].Edited? && edits[i].uri == edits[j].uri ==>
      edits[i].version < edits[j].version
  }

  /** As the protocol has it, so clients that increase their versions are never deceived. */
  lemma {:induction false} IncreasingVersions(cl: Numerals, events: seq<Event>)
    requires Increasing(EditsOf(events))
    ensures NoClash(cl, EditsOf(events)) && Honest(cl, Run(cl, events))
  {
    EditsOfAreEdits(events);
    hide Diagnostics, Run, Accounted;
    assert NoClash(cl, EditsOf(events));
    RunAccounted(cl, events);
    AccountedHonest(cl, EditsOf(events), Run(cl, events));
  }

  lemma {:induction false} EditsOfAreEdits(events: seq<Event>)
    ensures forall i :: 0 <= i < |EditsOf(events)| ==> EditsOf(events)[i].Edited?
  {
    if events != [] {
      EditsOfAreEdits(events[..|events| - 1]);
    }
  }

  /** The shortest such run: a document opened again at the same version with other mistakes is reported
      unchanged. */
  lemma {:induction false} ReopenedVersion(cl: Numerals, uri: Bytes, version: int, before: seq<Text>, after: seq<Text>)
    requires Diagnostics(cl, before) != Diagnostics(cl, after) && Diagnostics(cl, before) != [] && Diagnostics(cl, after) != []
    ensures var events := [Edited(uri, version, before), Asked(uri, None), Edited(uri, version, after)];
            var w, id := Run(cl, events), ResultId(uri, version);
            && w.sent == [Sent(id, Diagnostics(cl, before))]
            && w.documents[uri].lines == after
            && DocumentReport(w.cache, uri, Some(id)) == Unchanged(id)
  {
    hide Diagnostics, ResultId;
    var a, b, c := Edited(uri, version, before), Asked(uri, None), Edited(uri, version, after);
    assert [a, b, c][..2] == [a, b] && [a, b][..1] == [a] && [a][..0] == [];
    assert Run(cl, []) == World(map[], map[], []);
    assert Run(cl, [a]) == Step(cl, Run(cl, []), a);
    assert Run(cl, [a, b]) == Step(cl, Run(cl, [a]), b);
    assert Run(cl, [a, b, c]) == Step(cl, Run(cl, [a, b]), c);
  }
}
