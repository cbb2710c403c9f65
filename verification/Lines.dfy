/** `str.splitlines(True)`: a text as its lines, terminators kept. */
module Lines {
  import opened Unicode

  /** The single code points at which `str.splitlines` ends a line. */
  predicate IsBreak(c: CodePoint) {
    0x0A <= c <= 0x0D || 0x1C <= c <= 0x1E || c == 0x85 || c == 0x2028 || c == 0x2029
  }

  predicate StartsCrLf(s: Text) {
    |s| >= 2 && s[0] == CR && s[1] == LF
  }

  predicate EndsCrLf(s: Text) {
    |s| >= 2 && s[|s| - 2] == CR && s[|s| - 1] == LF
  }

  /** Length of the first line of `s`, terminator included. */
  function FirstLine(s: Text): (n: nat)
    requires s != []
    ensures 1 <= n <= |s|
  {
    if StartsCrLf(s) then 2
    else if IsBreak(s[0]) || |s| == 1 then 1
    else 1 + FirstLine(s[1..])
  }

  function SplitLines(s: Text): seq<Text> {
    if s == [] then [] else [s[..FirstLine(s)]] + SplitLines(s[FirstLine(s)..])
  }

  function Flatten(lines: seq<Text>): Text {
    if lines == [] then [] else Flatten(lines[..|lines| - 1]) + lines[|lines| - 1]
  }

  /** How long a line is without its terminator. */
  function ContentLength(line: Text): (n: nat)
    ensures n <= |line|
  {
    if EndsCrLf(line) then |line| - 2
    else if line != [] && IsBreak(line[|line| - 1]) then |line| - 1
    else |line|
  }

  predicate IsTerminated(line: Text) {
    ContentLength(line) < |line|
  }

  /** What `splitlines` promises of each line: not empty, and a terminator only at the end. */
  predicate IsLine(line: Text) {
    && line != []
    && forall i :: 0 <= i < ContentLength(line) ==> !IsBreak(line[i])
  }

  lemma {:induction false} FirstLineIsLine(s: Text)
    requires s != []
    ensures IsLine(s[..FirstLine(s)])
    ensures FirstLine(s) < |s| ==> IsTerminated(s[..FirstLine(s)])
    ensures FirstLine(s) < |s| && s[FirstLine(s) - 1] == CR ==> s[FirstLine(s)] != LF
  {
    var n := FirstLine(s);
    if !StartsCrLf(s) && !IsBreak(s[0]) && |s| > 1 {
      FirstLineIsLine(s[1..]);
      var rest := s[1..][..n - 1];
      assert s[..n] == [s[0]] + rest;
    }
  }

  /** No line but the last lacks its terminator, and no terminator is cut in two. */
  ghost predicate Follows(line: Text, next: Text) {
    && IsTerminated(line) && next != []
    && (line[|line| - 1] == CR ==> next[0] != LF)
  }

  ghost predicate WellSplit(lines: seq<Text>) {
    && (forall i :: 0 <= i < |lines| ==> IsLine(lines[i]))
    && (forall i :: 0 < i < |lines| ==> Follows(lines[i - 1], lines[i]))
  }

  lemma {:induction false} SplitLinesAreLines(s: Text)
    ensures WellSplit(SplitLines(s))
    ensures SplitLines(s) == [] <==> s == []
  {
    if s != [] {
      FirstLineIsLine(s);
      var n := FirstLine(s);
      SplitLinesAreLines(s[n..]);
      if n < |s| {
        assert SplitLines(s)[1] == s[n..][..FirstLine(s[n..])];
      }
    }
  }

  lemma {:induction false} FlattenAppend(a: seq<Text>, b: seq<Text>)
    ensures Flatten(a + b) == Flatten(a) + Flatten(b)
  {
    if b == [] {
      assert a + b == a;
    } else {
      var b', l := b[..|b| - 1], b[|b| - 1];
      assert (a + b)[..|a + b| - 1] == a + b';
      FlattenAppend(a, b');
      assert (Flatten(a) + Flatten(b')) + l == Flatten(a) + (Flatten(b') + l);
    }
  }

  lemma {:induction false} FlattenCons(lines: seq<Text>)
    requires lines != []
    ensures Flatten(lines) == lines[0] + Flatten(lines[1..])
  {
    assert lines == [lines[0]] + lines[1..];
    FlattenAppend([lines[0]], lines[1..]);
    FlattenSingle(lines[0]);
  }

  lemma {:induction false} FlattenSingle(l: Text)
    ensures Flatten([l]) == l
  {
    assert [l][..0] == [];
    assert Flatten([l]) == Flatten([]) + l;
  }

  /** Nothing is lost: the lines concatenate back to the text. */
  lemma {:induction false} FlattenSplitLines(s: Text)
    ensures Flatten(SplitLines(s)) == s
  {
    if s != [] {
      var n := FirstLine(s);
      assert SplitLines(s) == [s[..n]] + SplitLines(s[n..]) && s[..n] + s[n..] == s;
      hide FirstLine, SplitLines, Flatten;
      FlattenSplitLines(s[n..]);
      FlattenAppend([s[..n]], SplitLines(s[n..]));
      FlattenSingle(s[..n]);
    }
  }

  lemma {:induction false} FlattenSnoc(lines: seq<Text>, i: nat)
    requires i < |lines|
    ensures Flatten(lines[..i + 1]) == Flatten(lines[..i]) + lines[i]
  {
    assert lines[..i + 1][..i] == lines[..i];
  }

  /** A line in its document: what precedes it, the line, what follows. */
  lemma {:induction false} FlattenAround(lines: seq<Text>, i: nat)
    requires i < |lines|
    ensures Flatten(lines) == Flatten(lines[..i]) + lines[i] + Flatten(lines[i + 1..])
  {
    hide Flatten;
    FlattenSnoc(lines, i);
    assert lines == lines[..i + 1] + lines[i + 1..];
    FlattenAppend(lines[..i + 1], lines[i + 1..]);
  }

  lemma {:induction false} FlattenPrefix(lines: seq<Text>, i: nat, j: nat)
    requires i <= j <= |lines|
    ensures Flatten(lines[..j]) == Flatten(lines[..i]) + Flatten(lines[i..j])
    ensures |Flatten(lines[..i])| <= |Flatten(lines[..j])|
  {
    assert lines[..j] == lines[..i] + lines[i..j];
    FlattenAppend(lines[..i], lines[i..j]);
  }

  /** `str.replace("\r\n", "\n")`. */
  function ReplaceCrLf(s: Text): (r: Text)
    ensures |r| <= |s|
  {
    if s == [] then []
    else if StartsCrLf(s) then [LF] + ReplaceCrLf(s[2..])
    else [s[0]] + ReplaceCrLf(s[1..])
  }

  /** On a line of `splitlines` the replacement can only touch its end. */
  lemma {:induction false} ReplaceCrLfOfLine(line: Text)
    requires forall i :: 0 <= i < ContentLength(line) ==> !IsBreak(line[i])
    ensures ReplaceCrLf(line) == if EndsCrLf(line) then line[..|line| - 2] + [LF] else line
  {
    if StartsCrLf(line) {
      assert line[2..] == [];
      assert ReplaceCrLf(line) == [LF] + [];
    } else if line != [] {
      var rest := line[1..];
      assert ContentLength(line) == |line| - 1 ==> rest == [] || ContentLength(rest) <= |rest| - 1;
      assert line == [line[0]] + rest;
      ReplaceCrLfOfLine(rest);
      assert ReplaceCrLf(line) == [line[0]] + ReplaceCrLf(rest);
    }
  }

  /** The first line of lines put together is the first of them. */
  lemma {:induction false} FirstLineOf(line: Text, rest: Text)
    requires IsLine(line) && (rest != [] ==> Follows(line, rest))
    ensures FirstLine(line + rest) == |line|
  {
    if ContentLength(line) > 0 && |line| > 1 {
      var tail := line[1..];
      assert ContentLength(tail) == ContentLength(line) - 1;
      assert (line + rest)[1..] == tail + rest && (line + rest)[0] == line[0];
      FirstLineOf(tail, rest);
    }
  }

  /** Lines that are well split are what their text is split into. */
  lemma {:induction false} SplitFlatten(lines: seq<Text>)
    requires WellSplit(lines)
    ensures SplitLines(Flatten(lines)) == lines
  {
    if lines != [] {
      var line, rest := lines[0], Flatten(lines[1..]);
      FlattenCons(lines);
      if |lines| > 1 {
        FlattenCons(lines[1..]);
        assert Follows(lines[0], lines[1]) && rest == lines[1] + Flatten(lines[1..][1..]);
      }
      FirstLineOf(line, rest);
      assert (line + rest)[..|line|] == line && (line + rest)[|line|..] == rest;
      SplitFlatten(lines[1..]);
    }
  }

  /** `str.splitlines`, line by line: a line ends after the first of these characters, a `\r\n` counting as one, and
      only the last line may lack them. */
  lemma {:induction false} LinesEnd(s: Text, k: nat)
    requires k < |SplitLines(s)|
    ensures var ends := {0x0A, 0x0B, 0x0C, 0x0D, 0x1C, 0x1D, 0x1E, 0x85, 0x2028, 0x2029};
            var lines := SplitLines(s);
            var line := lines[k];
            && line != []
            && (forall i :: 0 <= i < |line| - 1 && line[i] in ends ==>
                  i == |line| - 2 && line[i] == 0x0D && line[i + 1] == 0x0A)
            && (k < |lines| - 1 ==>
                  line[|line| - 1] in ends && lines[k + 1] != [] && !(line[|line| - 1] == 0x0D && lines[k + 1][0] == 0x0A))
  {
    SplitLinesAreLines(s);
    hide SplitLines;
    var lines := SplitLines(s);
    assert IsLine(lines[k]);
    if k < |lines| - 1 {
      assert Follows(lines[k + 1 - 1], lines[k + 1]);
    }
  }
}
