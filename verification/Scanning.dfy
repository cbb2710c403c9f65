/** Scanning a text by classes of characters, as the patterns of the example servers do. */
module Scanning {
  import opened Unicode

  /** Length of the longest prefix of characters of one class. */
  function Span(p: CodePoint -> bool, s: Text): (n: nat)
    ensures n <= |s| && (s != [] && p(s[0]) ==> n > 0)
    ensures forall i :: 0 <= i < n ==> p(s[i])
    ensures n < |s| ==> !p(s[n])
  {
    if s == [] || !p(s[0]) then 0 else 1 + Span(p, s[1..])
  }

  ghost predicate All(p: CodePoint -> bool, s: Text) {
    forall i :: 0 <= i < |s| ==> p(s[i])
  }

  lemma {:induction false} SpanIs(p: CodePoint -> bool, a: Text, rest: Text)
    requires All(p, a) && (rest != [] ==> !p(rest[0]))
    ensures Span(p, a + rest) == |a|
    ensures (a + rest)[..|a|] == a && (a + rest)[|a|..] == rest
  {}

  lemma {:induction false} SpanCut(p: CodePoint -> bool, s: Text)
    ensures s == s[..Span(p, s)] + s[Span(p, s)..] && All(p, s[..Span(p, s)])
  {}
}
