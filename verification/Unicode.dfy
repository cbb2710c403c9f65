/** Python strings as sequences of code points, and the three code-unit encodings an
    LSP client may negotiate for positions. */
module Unicode {
  /** One element of a Python `str`; lone surrogates are allowed, as in Python. */
  type CodePoint = c: int | 0 <= c < 0x110000

  type Text = seq<CodePoint>

  datatype Encoding = Utf8 | Utf16 | Utf32

  const LF: CodePoint := 0x0A
  const CR: CodePoint := 0x0D

  predicate IsSurrogate(c: CodePoint) {
    0xD800 <= c < 0xE000
  }

  predicate IsCharBeyondMultilingualPlane(c: CodePoint) {
    c > 0xFFFF
  }

  function Utf8Bytes(c: CodePoint): nat {
    if c < 0x80 then 1 else if c < 0x800 then 2 else if c < 0x10000 then 3 else 4
  }

  function Utf16UnitOffset(chars: Text): nat {
    if chars == [] then 0
    else Utf16UnitOffset(chars[..|chars| - 1]) + if IsCharBeyondMultilingualPlane(chars[|chars| - 1]) then 1 else 0
  }

  function SumUtf8Bytes(chars: Text): nat {
    if chars == [] then 0 else SumUtf8Bytes(chars[..|chars| - 1]) + Utf8Bytes(chars[|chars| - 1])
  }

  function ClientNumUnits(enc: Encoding, chars: Text): nat {
    match enc
    case Utf32 => |chars|
    case Utf8 => SumUtf8Bytes(chars)
    case Utf16 => |chars| + Utf16UnitOffset(chars)
  }

  /** What the conversion loop adds for one code point. */
  function Units(enc: Encoding, c: CodePoint): (n: nat)
    ensures 1 <= n <= 4
  {
    match enc
    case Utf8 => Utf8Bytes(c)
    case Utf16 => if IsCharBeyondMultilingualPlane(c) then 2 else 1
    case Utf32 => 1
  }

  lemma {:induction false} NumUnitsSnoc(enc: Encoding, s: Text, c: CodePoint)
    ensures ClientNumUnits(enc, s + [c]) == ClientNumUnits(enc, s) + Units(enc, c)
  {
    assert (s + [c])[..|s|] == s;
  }

  lemma {:induction false} NumUnitsAppend(enc: Encoding, s: Text, t: Text)
    ensures ClientNumUnits(enc, s + t) == ClientNumUnits(enc, s) + ClientNumUnits(enc, t)
  {
    if t == [] {
      assert s + t == s;
    } else {
      var t' := t[..|t| - 1];
      assert t == t' + [t[|t| - 1]] && s + t == (s + t') + [t[|t| - 1]];
      NumUnitsAppend(enc, s, t');
      NumUnitsSnoc(enc, t', t[|t| - 1]);
      NumUnitsSnoc(enc, s + t', t[|t| - 1]);
    }
  }

  lemma {:induction false} NumUnitsPrefix(enc: Encoding, s: Text, i: nat, j: nat)
    requires i < j <= |s|
    ensures ClientNumUnits(enc, s[..i]) + Units(enc, s[i]) <= ClientNumUnits(enc, s[..j])
    ensures ClientNumUnits(enc, s[..i]) + (j - i) <= ClientNumUnits(enc, s[..j])
    ensures j == i + 1 ==> ClientNumUnits(enc, s[..i]) + Units(enc, s[i]) == ClientNumUnits(enc, s[..j])
  {
    assert s[..i + 1] == s[..i] + [s[i]];
    NumUnitsSnoc(enc, s[..i], s[i]);
    assert s[..j] == s[..i + 1] + s[i + 1..j];
    NumUnitsAppend(enc, s[..i + 1], s[i + 1..j]);
    NumUnitsAtLeastLength(enc, s[i + 1..j]);
  }

  lemma {:induction false} NumUnitsAtLeastLength(enc: Encoding, s: Text)
    ensures |s| <= ClientNumUnits(enc, s)
  {
    if s != [] {
      assert s == s[..|s| - 1] + [s[|s| - 1]];
      NumUnitsSnoc(enc, s[..|s| - 1], s[|s| - 1]);
      NumUnitsAtLeastLength(enc, s[..|s| - 1]);
    }
  }

  /** RFC 3629, section 3. */
  function EncodeUtf8(c: CodePoint): (u: seq<nat>)
    ensures |u| == Utf8Bytes(c)
  {
    if c < 0x80 then [c]
    else if c < 0x800 then [0xC0 + c / 0x40, 0x80 + c % 0x40]
    else if c < 0x10000 then [0xE0 + c / 0x1000, 0x80 + c / 0x40 % 0x40, 0x80 + c % 0x40]
    else [0xF0 + c / 0x40000, 0x80 + c / 0x1000 % 0x40, 0x80 + c / 0x40 % 0x40, 0x80 + c % 0x40]
  }

  /** RFC 2781, section 2.1. */
  function EncodeUtf16(c: CodePoint): (u: seq<nat>)
    ensures |u| == if c > 0xFFFF then 2 else 1
  {
    if c > 0xFFFF then [0xD800 + (c - 0x10000) / 0x400, 0xDC00 + (c - 0x10000) % 0x400] else [c]
  }

  /** The code units of one code point; a surrogate is encoded by the same formulas. */
  function EncodeChar(enc: Encoding, c: CodePoint): (u: seq<nat>)
    ensures |u| == Units(enc, c)
  {
    match enc
    case Utf32 => [c]
    case Utf16 => EncodeUtf16(c)
    case Utf8 => EncodeUtf8(c)
  }

  function Encode(enc: Encoding, s: Text): seq<nat> {
    if s == [] then [] else Encode(enc, s[..|s| - 1]) + EncodeChar(enc, s[|s| - 1])
  }

  lemma {:induction false} EncodeAppend(enc: Encoding, s: Text, t: Text)
    ensures Encode(enc, s + t) == Encode(enc, s) + Encode(enc, t)
  {
    hide EncodeChar;
    if t == [] {
      assert s + t == s;
    } else {
      var t', c := t[..|t| - 1], t[|t| - 1];
      assert (s + t)[..|s + t| - 1] == s + t';
      EncodeAppend(enc, s, t');
      assert (Encode(enc, s) + Encode(enc, t')) + EncodeChar(enc, c)
          == Encode(enc, s) + (Encode(enc, t') + EncodeChar(enc, c));
    }
  }

  lemma {:induction false} EncodeLength(enc: Encoding, s: Text)
    ensures |Encode(enc, s)| == ClientNumUnits(enc, s)
  {
    if s != [] {
      EncodeLength(enc, s[..|s| - 1]);
      NumUnitsSnoc(enc, s[..|s| - 1], s[|s| - 1]);
      assert s == s[..|s| - 1] + [s[|s| - 1]];
    }
  }

  lemma {:induction false} EncodeCons(enc: Encoding, s: Text)
    requires s != []
    ensures Encode(enc, s) == EncodeChar(enc, s[0]) + Encode(enc, s[1..])
  {
    var c := s[0];
    assert s == [c] + s[1..];
    EncodeAppend(enc, [c], s[1..]);
    EncodeSingle(enc, c);
  }

  lemma {:induction false} EncodeSingle(enc: Encoding, c: CodePoint)
    ensures Encode(enc, [c]) == EncodeChar(enc, c)
  {
    assert [c][..0] == [];
    calc {
      Encode(enc, [c]);
      Encode(enc, []) + EncodeChar(enc, c);
      [] + EncodeChar(enc, c);
      EncodeChar(enc, c);
    }
  }

  /** How many units the first unit of a code point announces. */
  function UnitsFromFirst(enc: Encoding, u: nat): nat {
    match enc
    case Utf32 => 1
    case Utf16 => if 0xD800 <= u < 0xDC00 then 2 else 1
    case Utf8 => if u < 0x80 then 1 else if u < 0xE0 then 2 else if u < 0xF0 then 3 else 4
  }

  lemma {:induction false} FirstUnit(enc: Encoding, c: CodePoint)
    requires !IsSurrogate(c)
    ensures Units(enc, c) == UnitsFromFirst(enc, EncodeChar(enc, c)[0])
  {
    match enc
    case Utf32 =>
    case Utf16 => assert EncodeChar(enc, c) == EncodeUtf16(c);
    case Utf8 => assert EncodeChar(enc, c) == EncodeUtf8(c);
  }

  /** A code point from its UTF-8 units. */
  function DecodeUtf8(u: seq<int>): int
    requires 1 <= |u| <= 4
  {
    if |u| == 1 then u[0]
    else if |u| == 2 then (u[0] - 0xC0) * 0x40 + (u[1] - 0x80)
    else if |u| == 3 then (u[0] - 0xE0) * 0x1000 + (u[1] - 0x80) * 0x40 + (u[2] - 0x80)
    else (u[0] - 0xF0) * 0x40000 + (u[1] - 0x80) * 0x1000 + (u[2] - 0x80) * 0x40 + (u[3] - 0x80)
  }

  lemma {:induction false} Base64Digits(c: nat)
    ensures c == c / 0x40 * 0x40 + c % 0x40
    ensures c / 0x40 == c / 0x1000 * 0x40 + c / 0x40 % 0x40
    ensures c / 0x1000 == c / 0x40000 * 0x40 + c / 0x1000 % 0x40
  {
    assert c / 0x1000 == (c / 0x40) / 0x40;
    assert c / 0x40000 == (c / 0x1000) / 0x40;
  }

  lemma {:induction false} DecodeEncodeUtf8(c: CodePoint)
    ensures DecodeUtf8(EncodeUtf8(c)) == c
  {
    Base64Digits(c);
  }

  lemma {:induction false} EncodeCharInjective(enc: Encoding, c: CodePoint, d: CodePoint)
    requires EncodeChar(enc, c) == EncodeChar(enc, d)
    ensures c == d
  {
    var u, v := EncodeChar(enc, c), EncodeChar(enc, d);
    match enc
    case Utf32 => assert u[0] == v[0];
    case Utf16 => assert u[0] == v[0] && |u| == |v| && (|u| == 2 ==> u[1] == v[1]);
    case Utf8 => DecodeEncodeUtf8(c); DecodeEncodeUtf8(d);
  }

  /** No code point's units are a proper prefix of another's. */
  lemma {:induction false} EncodeCharPrefixFree(enc: Encoding, c: CodePoint, d: CodePoint, u: seq<nat>, v: seq<nat>)
    requires !IsSurrogate(c) && !IsSurrogate(d)
    requires EncodeChar(enc, c) + u == EncodeChar(enc, d) + v
    ensures c == d && u == v
  {
    var x, y := EncodeChar(enc, c), EncodeChar(enc, d);
    assert x[0] == (x + u)[0] == (y + v)[0] == y[0];
    FirstUnit(enc, c);
    FirstUnit(enc, d);
    assert x == (x + u)[..|x|] == (y + v)[..|y|] == y;
    assert u == (x + u)[|x|..] == (y + v)[|y|..] == v;
    EncodeCharInjective(enc, c, d);
  }

  predicate SurrogateFree(s: Text) {
    forall i :: 0 <= i < |s| ==> !IsSurrogate(s[i])
  }

  /** The encoded form determines the text: equal code units mean equal code points. */
  lemma {:induction false} EncodeInjective(enc: Encoding, s: Text, t: Text)
    requires SurrogateFree(s) && SurrogateFree(t)
    requires Encode(enc, s) == Encode(enc, t)
    ensures s == t
  {
    EncodeLength(enc, s);
    EncodeLength(enc, t);
    NumUnitsAtLeastLength(enc, s);
    NumUnitsAtLeastLength(enc, t);
    if s != [] && t != [] {
      EncodeCons(enc, s);
      EncodeCons(enc, t);
      EncodeCharPrefixFree(enc, s[0], t[0], Encode(enc, s[1..]), Encode(enc, t[1..]));
      EncodeInjective(enc, s[1..], t[1..]);
      assert s == [s[0]] + s[1..] && t == [t[0]] + t[1..];
    }
  }

  /** A text costs one unit a character exactly if each of its characters does. */
  lemma {:induction false} NarrowUnits(enc: Encoding, s: Text)
    ensures ClientNumUnits(enc, s) == |s| <==> forall i :: 0 <= i < |s| ==> Units(enc, s[i]) == 1
  {
    if s != [] {
      var init, c := s[..|s| - 1], s[|s| - 1];
      NarrowUnits(enc, init);
      NumUnitsAtLeastLength(enc, init);
      assert s == init + [c];
      NumUnitsSnoc(enc, init, c);
      assert forall i :: 0 <= i < |init| ==> init[i] == s[i];
    }
  }

  /** A literal text as its codes. */
  function Ascii(s: string): (b: seq<nat>)
    ensures |b| == |s| && forall i :: 0 <= i < |s| ==> b[i] == s[i] as int
  {
    seq(|s|, i requires 0 <= i < |s| => s[i] as int)
  }
}
