/** File URIs (RFC 8089, section 2) and their percent-coding (RFC 3986, section 2.1), where backward
    slashes are ordinary characters. */
module Uris {
  import opened Unicode
  import opened Wrappers

  /** A URI as its characters, all of them ASCII. */
  type Uri = seq<nat>

  const SLASH: CodePoint := 0x2F
  const COLON: CodePoint := 0x3A
  const PERCENT: nat := 0x25
  const QUESTION: nat := 0x3F
  const HASH: nat := 0x23

  predicate IsAlpha(c: int) {
    0x41 <= c <= 0x5A || 0x61 <= c <= 0x7A
  }

  predicate IsDigit(c: int) {
    0x30 <= c <= 0x39
  }

  /* Percent-coding */

  /** What `urllib.parse.quote` leaves alone: letters, digits, `_.-~` and the slash. */
  predicate IsSafe(b: nat) {
    IsAlpha(b) || IsDigit(b) || b == 0x5F || b == 0x2E || b == 0x2D || b == 0x7E || b == SLASH
  }

  function HexDigit(n: nat): nat
    requires n < 16
  {
    if n < 10 then 0x30 + n else 0x41 + n - 10
  }

  predicate IsHex(c: nat) {
    IsDigit(c) || 0x41 <= c <= 0x46 || 0x61 <= c <= 0x66
  }

  function HexValue(c: nat): nat
    requires IsHex(c)
  {
    if IsDigit(c) then c - 0x30 else if c <= 0x46 then c - 0x41 + 10 else c - 0x61 + 10
  }

  function QuoteByte(b: nat): Uri
    requires b < 256
  {
    if IsSafe(b) then [b] else [PERCENT, HexDigit(b / 16), HexDigit(b % 16)]
  }

  predicate IsBytes(s: seq<nat>) {
    forall i :: 0 <= i < |s| ==> s[i] < 256
  }

  function QuoteBytes(s: seq<nat>): Uri
    requires IsBytes(s)
  {
    if s == [] then [] else QuoteByte(s[0]) + QuoteBytes(s[1..])
  }

  /** A percent sign that no two hexadecimal digits follow stands for itself. */
  function UnquoteBytes(s: Uri): seq<nat> {
    if s == [] then []
    else if s[0] == PERCENT && |s| >= 3 && IsHex(s[1]) && IsHex(s[2]) then
      [16 * HexValue(s[1]) + HexValue(s[2])] + UnquoteBytes(s[3..])
    else [s[0]] + UnquoteBytes(s[1..])
  }

  lemma {:induction false} Utf8Bytes256(s: Text)
    ensures IsBytes(Encode(Utf8, s))
  {
    if s != [] {
      Utf8Bytes256(s[..|s| - 1]);
      var u := EncodeChar(Utf8, s[|s| - 1]);
      assert u == EncodeUtf8(s[|s| - 1]);
    }
  }

  function Quote(s: Text): Uri {
    Utf8Bytes256(s);
    QuoteBytes(Encode(Utf8, s))
  }

  /** Strict UTF-8. */
  function Decoded(u: seq<nat>): Option<Text> {
    if u == [] then Some([])
    else
      var n := UnitsFromFirst(Utf8, u[0]);
      if n > |u| then None
      else
        var c := DecodeUtf8(u[..n]);
        if !(0 <= c < 0x110000) || IsSurrogate(c) || EncodeUtf8(c) != u[..n] then None
        else
          match Decoded(u[n..])
          case None => None
          case Some(rest) => Some([c] + rest)
  }

  function Unquote(s: Uri): Option<Text> {
    Decoded(UnquoteBytes(s))
  }

  lemma {:induction false} UnquoteByte(b: nat, rest: Uri)
    requires b < 256
    ensures UnquoteBytes(QuoteByte(b) + rest) == [b] + UnquoteBytes(rest)
  {
    if IsSafe(b) {
      assert ([b] + rest)[1..] == rest;
    } else {
      var s := [PERCENT, HexDigit(b / 16), HexDigit(b % 16)] + rest;
      assert s[3..] == rest;
      assert HexValue(s[1]) == b / 16 && HexValue(s[2]) == b % 16;
    }
  }

  lemma {:induction false} UnquoteQuoteBytes(s: seq<nat>)
    requires IsBytes(s)
    ensures UnquoteBytes(QuoteBytes(s)) == s
  {
    if s != [] {
      UnquoteQuoteBytes(s[1..]);
      UnquoteByte(s[0], QuoteBytes(s[1..]));
    }
  }

  lemma {:induction false} DecodeEncoded(s: Text)
    requires SurrogateFree(s)
    ensures Decoded(Encode(Utf8, s)) == Some(s)
  {
    if s != [] {
      DecodeEncoded(s[1..]);
      EncodeCons(Utf8, s);
      var u, rest := EncodeUtf8(s[0]), Encode(Utf8, s[1..]);
      assert u == EncodeChar(Utf8, s[0]) && |u| == Units(Utf8, s[0]);
      FirstUnit(Utf8, s[0]);
      DecodeEncodeUtf8(s[0]);
      assert Encode(Utf8, s) == u + rest && (u + rest)[..|u|] == u && (u + rest)[|u|..] == rest;
      assert [s[0]] + s[1..] == s;
    }
  }

  /** Unquoting undoes quoting. */
  lemma {:induction false} QuoteRoundTrip(s: Text)
    requires SurrogateFree(s)
    ensures Unquote(Quote(s)) == Some(s)
  {
    Utf8Bytes256(s);
    UnquoteQuoteBytes(Encode(Utf8, s));
    DecodeEncoded(s);
  }

  lemma {:induction false} UnquoteDrive(letter: CodePoint, q: Uri)
    requires IsAlpha(letter)
    ensures UnquoteBytes([SLASH, letter, COLON] + q) == [SLASH, letter, COLON] + UnquoteBytes(q)
  {
    hide UnquoteBytes;
    assert [SLASH, letter, COLON] + q == [SLASH] + ([letter] + ([COLON] + q));
    PlainByte(SLASH, [letter] + ([COLON] + q));
    PlainByte(letter, [COLON] + q);
    PlainByte(COLON, q);
  }

  lemma {:induction false} EncodeDrive(letter: CodePoint, s: Text)
    requires IsAlpha(letter)
    ensures Encode(Utf8, [SLASH, letter, COLON] + s) == [SLASH, letter, COLON] + Encode(Utf8, s)
  {
    hide Encode;
    assert [SLASH, letter, COLON] + s == [SLASH] + ([letter] + ([COLON] + s));
    PlainCode(SLASH, [letter] + ([COLON] + s));
    PlainCode(letter, [COLON] + s);
    PlainCode(COLON, s);
  }

  /** The same with a drive in front, which is not quoted. */
  lemma {:induction false} DriveRoundTrip(letter: CodePoint, s: Text)
    requires IsAlpha(letter) && SurrogateFree(s)
    ensures Unquote([SLASH, letter, COLON] + Quote(s)) == Some([SLASH, letter, COLON] + s)
  {
    var t := [SLASH, letter, COLON] + s;
    assert SurrogateFree(t);
    hide Quote, UnquoteBytes, QuoteBytes, Encode, Decoded, SurrogateFree;
    QuoteBytesOf(s);
    UnquoteQuoteBytes(Encode(Utf8, s));
    UnquoteDrive(letter, Quote(s));
    EncodeDrive(letter, s);
    DecodeEncoded(t);
  }

  lemma {:induction false} QuoteBytesOf(s: Text)
    ensures IsBytes(Encode(Utf8, s)) && Quote(s) == QuoteBytes(Encode(Utf8, s))
  {
    Utf8Bytes256(s);
  }

  lemma {:induction false} PlainByte(c: nat, rest: Uri)
    requires c != PERCENT
    ensures UnquoteBytes([c] + rest) == [c] + UnquoteBytes(rest)
  {
    assert ([c] + rest)[1..] == rest;
  }

  lemma {:induction false} PlainCode(c: CodePoint, rest: Text)
    requires c < 0x80
    ensures Encode(Utf8, [c] + rest) == [c] + Encode(Utf8, rest)
  {
    EncodeCons(Utf8, [c] + rest);
    assert ([c] + rest)[1..] == rest;
    assert EncodeChar(Utf8, c) == EncodeUtf8(c);
  }

  lemma {:induction false} QuotedChars(s: Text)
    ensures forall i :: 0 <= i < |Quote(s)| ==> IsSafe(Quote(s)[i]) || Quote(s)[i] == PERCENT
  {
    Utf8Bytes256(s);
    QuotedBytes(Encode(Utf8, s));
  }

  lemma {:induction false} QuotedBytes(s: seq<nat>)
    requires IsBytes(s)
    ensures forall i :: 0 <= i < |QuoteBytes(s)| ==> IsSafe(QuoteBytes(s)[i]) || QuoteBytes(s)[i] == PERCENT
    ensures s != [] ==> QuoteBytes(s) != []
    ensures s != [] && s[0] == SLASH ==> QuoteBytes(s)[0] == SLASH
    ensures SLASH !in s ==> SLASH !in QuoteBytes(s)
  {
    if s != [] {
      QuotedBytes(s[1..]);
      assert forall i :: 0 <= i < |QuoteByte(s[0])| ==> IsSafe(QuoteByte(s[0])[i]) || QuoteByte(s[0])[i] == PERCENT;
      assert SLASH !in s ==> SLASH !in s[1..] && SLASH !in QuoteByte(s[0]);
    }
  }

  /* Paths to URIs */

  /** `^\/[a-zA-Z]:` */
  predicate IsDrivePath(path: Text) {
    |path| >= 3 && path[0] == SLASH && IsAlpha(path[1]) && path[2] == COLON
  }

  function Lower(c: CodePoint): CodePoint {
    if 0x41 <= c <= 0x5A then c + 0x20 else c
  }

  function LowerDrive(path: Text): Text {
    if IsDrivePath(path) then [path[0], Lower(path[1])] + path[2..] else path
  }

  function Find(c: CodePoint, s: Text, from: nat): (i: nat)
    requires from <= |s|
    ensures from <= i <= |s| && (i < |s| ==> s[i] == c) && c !in s[from..i]
    decreases |s| - from
  {
    if from == |s| || s[from] == c then from else Find(c, s, from + 1)
  }

  predicate StartsDouble(s: Text) {
    |s| >= 2 && s[0] == SLASH && s[1] == SLASH
  }

  /** Path and host; the search for the slash that ends the host raises where there is none. */
  function NormalizeWinPath(path: Text): Option<(Text, Text)> {
    if StartsDouble(path) then
      var idx := Find(SLASH, path, 2);
      if idx == |path| then None else Some((LowerDrive(path[idx..]), path[2..idx]))
    else if path == [] || path[0] != SLASH then Some((LowerDrive([SLASH] + path), []))
    else Some((LowerDrive(path), []))
  }

  function QuotedPath(path: Text): Uri {
    if IsDrivePath(path) then path[..3] + Quote(path[3..]) else Quote(path)
  }

  const FILE: Uri := [0x66, 0x69, 0x6C, 0x65]

  /** `None` where the source raises: a host without an end, or a text with no encoding. */
  function FromFsPath(path: Text): Option<Uri> {
    match NormalizeWinPath(path)
    case None => None
    case Some((p, netloc)) =>
      if !SurrogateFree(path) then None
      else Some(FILE + [COLON] + ([SLASH, SLASH] + Quote(netloc) + QuotedPath(p)))
  }

  /* URIs to paths */

  /** Index of the first of some characters, or the end. */
  function Until(stops: set<nat>, s: Uri): (n: nat)
    ensures n <= |s| && (n < |s| ==> s[n] in stops) && forall i :: 0 <= i < n ==> s[i] !in stops
  {
    if s == [] || s[0] in stops then 0 else 1 + Until(stops, s[1..])
  }

  predicate IsScheme(s: Uri) {
    s != [] && IsAlpha(s[0]) &&
    forall i :: 0 <= i < |s| ==> IsAlpha(s[i]) || IsDigit(s[i]) || s[i] == 0x2B || s[i] == 0x2D || s[i] == 0x2E
  }

  function LowerAll(s: Uri): Uri {
    seq(|s|, i requires 0 <= i < |s| => if 0x41 <= s[i] <= 0x5A then s[i] + 0x20 else s[i])
  }

  datatype Parts = Parts(scheme: Uri, netloc: Uri, path: Uri)

  /** After the scheme: the host between `//` and the next delimiter, and the path up to a query or fragment. */
  function SplitRest(scheme: Uri, rest: Uri): Parts {
    var slashes := |rest| >= 2 && rest[0] == SLASH && rest[1] == SLASH;
    var n := if slashes then 2 + Until({SLASH, QUESTION, HASH}, rest[2..]) else 0;
    Parts(scheme, if slashes then rest[2..n] else [], rest[n..][..Until({QUESTION, HASH}, rest[n..])])
  }

  function SplitUri(uri: Uri): Parts {
    var i := Until({COLON}, uri);
    if i < |uri| && IsScheme(uri[..i]) then SplitRest(LowerAll(uri[..i]), uri[i + 1..]) else SplitRest([], uri)
  }

  datatype FsPath = NotAFile | Undecodable | Path(value: Text)

  function PathOf(netloc: Text, path: Text): Text {
    if netloc != [] && path != [] then [SLASH, SLASH] + netloc + path
    else if IsDrivePath(path) then [Lower(path[1])] + path[2..]
    else path
  }

  function ToFsPath(uri: Uri): FsPath {
    var parts := SplitUri(uri);
    if parts.scheme != FILE then NotAFile
    else
      match (Unquote(parts.netloc), Unquote(parts.path))
      case (Some(netloc), Some(path)) => Path(PathOf(netloc, path))
      case _ => Undecodable
  }

  /* Round trips */

  /** The path of a path's URI, said of the path alone. */
  function Canonical(path: Text): Option<Text> {
    match NormalizeWinPath(path)
    case None => None
    case Some((p, netloc)) => Some(PathOf(netloc, p))
  }

  predicate Lacks(s: Uri, stops: set<nat>) {
    forall i :: 0 <= i < |s| ==> s[i] !in stops
  }

  lemma {:induction false} UntilIs(stops: set<nat>, a: Uri, rest: Uri)
    requires Lacks(a, stops) && (rest != [] ==> rest[0] in stops)
    ensures Until(stops, a + rest) == |a|
    ensures (a + rest)[..|a|] == a && (a + rest)[|a|..] == rest
  {}

  lemma {:induction false} SplitRestIs(netloc: Uri, path: Uri)
    requires Lacks(netloc, {SLASH, QUESTION, HASH})
    requires path != [] && path[0] == SLASH && Lacks(path, {QUESTION, HASH})
    ensures SplitRest(FILE, [SLASH, SLASH] + netloc + path) == Parts(FILE, netloc, path)
  {
    var rest := [SLASH, SLASH] + netloc + path;
    assert rest[2..] == netloc + path && path + [] == path;
    UntilIs({SLASH, QUESTION, HASH}, netloc, path);
    UntilIs({QUESTION, HASH}, path, []);
    hide Lacks, Until;
    assert rest[2 + |netloc|..] == path && rest[2..2 + |netloc|] == netloc;
  }

  lemma {:induction false} SplitFile(netloc: Uri, path: Uri)
    requires Lacks(netloc, {SLASH, QUESTION, HASH})
    requires path != [] && path[0] == SLASH && Lacks(path, {QUESTION, HASH})
    ensures SplitUri(FILE + [COLON] + ([SLASH, SLASH] + netloc + path)) == Parts(FILE, netloc, path)
  {
    SplitRestIs(netloc, path);
    SchemeFirst([SLASH, SLASH] + netloc + path);
  }

  lemma {:induction false} SchemeFirst(rest: Uri)
    ensures SplitUri(FILE + [COLON] + rest) == SplitRest(FILE, rest)
  {
    var uri := FILE + ([COLON] + rest);
    assert Lacks(FILE, {COLON}) && IsScheme(FILE) && LowerAll(FILE) == FILE;
    hide SplitRest, Lacks, Until, IsScheme, LowerAll;
    assert FILE + [COLON] + rest == uri;
    UntilIs({COLON}, FILE, [COLON] + rest);
    assert ([COLON] + rest)[1..] == rest && uri[|FILE| + 1..] == rest;
  }

  lemma {:induction false} QuotedPathIs(path: Text)
    requires path != [] && path[0] == SLASH && SurrogateFree(path)
    ensures QuotedPath(path) != [] && QuotedPath(path)[0] == SLASH
    ensures Lacks(QuotedPath(path), {QUESTION, HASH})
    ensures Unquote(QuotedPath(path)) == Some(path)
  {
    if IsDrivePath(path) {
      var rest := path[3..];
      assert path == [SLASH, path[1], COLON] + rest && path[..3] == [SLASH, path[1], COLON];
      QuotedChars(rest);
      assert SurrogateFree(rest);
      hide Quote, Unquote;
      DriveRoundTrip(path[1], rest);
    } else {
      QuotedChars(path);
      QuoteRoundTrip(path);
      QuotedSlash(path);
    }
  }

  lemma {:induction false} QuotedSlash(path: Text)
    requires path != [] && path[0] == SLASH
    ensures Quote(path) != [] && Quote(path)[0] == SLASH
  {
    QuoteBytesOf(path);
    assert path == [SLASH] + path[1..];
    PlainCode(SLASH, path[1..]);
    QuotedBytes(Encode(Utf8, path));
  }

  lemma {:induction false} QuotedHost(netloc: Text)
    requires SurrogateFree(netloc) && SLASH !in netloc
    ensures Unquote(Quote(netloc)) == Some(netloc)
    ensures Lacks(Quote(netloc), {SLASH, QUESTION, HASH})
  {
    QuoteRoundTrip(netloc);
    QuoteBytesOf(netloc);
    NoSlashBytes(netloc);
    QuotedBytes(Encode(Utf8, netloc));
  }

  lemma {:induction false} NoSlashBytes(s: Text)
    requires SLASH !in s
    ensures SLASH !in Encode(Utf8, s)
  {
    if s != [] {
      NoSlashBytes(s[..|s| - 1]);
      assert EncodeChar(Utf8, s[|s| - 1]) == EncodeUtf8(s[|s| - 1]);
      assert s[|s| - 1] != SLASH;
    }
  }

  lemma {:induction false} LowerDriveIs(path: Text)
    ensures |LowerDrive(path)| == |path| && LowerDrive(LowerDrive(path)) == LowerDrive(path)
    ensures path != [] ==> LowerDrive(path)[0] == path[0]
    ensures SurrogateFree(path) ==> SurrogateFree(LowerDrive(path))
  {}

  lemma {:induction false} Normalized(path: Text)
    requires NormalizeWinPath(path).Some?
    ensures var (p, netloc) := NormalizeWinPath(path).value;
            && p != [] && p[0] == SLASH && LowerDrive(p) == p && SLASH !in netloc
            && (SurrogateFree(path) ==> SurrogateFree(p) && SurrogateFree(netloc))
  {
    hide LowerDrive;
    if StartsDouble(path) {
      LowerDriveIs(path[Find(SLASH, path, 2)..]);
    } else if path == [] || path[0] != SLASH {
      LowerDriveIs([SLASH] + path);
    } else {
      LowerDriveIs(path);
    }
  }

  /** The path of a URI made from a path. */
  lemma {:induction false} PathRoundTrip(path: Text)
    requires SurrogateFree(path)
    ensures FromFsPath(path).None? <==> Canonical(path).None?
    ensures FromFsPath(path).Some? ==> ToFsPath(FromFsPath(path).value) == Path(Canonical(path).value)
  {
    if NormalizeWinPath(path).Some? {
      var (p, netloc) := NormalizeWinPath(path).value;
      Normalized(path);
      hide NormalizeWinPath, Quote, QuotedPath, SplitUri, Unquote, SurrogateFree;
      QuotedPathIs(p);
      QuotedHost(netloc);
      SplitFile(Quote(netloc), QuotedPath(p));
    }
  }

  /** Four slashes in front: a host without a name, and what is left starts like one with a name. */
  predicate NamelessHost(path: Text) {
    |path| >= 4 && path[..4] == [SLASH, SLASH, SLASH, SLASH]
  }

  /** Normalising what comes back gives the same path and host, unless the host has no name. */
  lemma {:induction false} NormalizedTwice(path: Text)
    requires Canonical(path).Some? && !NamelessHost(path)
    ensures NormalizeWinPath(Canonical(path).value) == NormalizeWinPath(path)
  {
    var (p, netloc) := NormalizeWinPath(path).value;
    Normalized(path);
    if netloc != [] {
      HostAgain(netloc, p);
    } else if IsDrivePath(p) {
      DriveAgain(p);
    } else {
      assert !StartsDouble(p);
    }
  }

  /** What comes back then starts like a path with a host: two slashes are gone. */
  lemma {:induction false} NamelessBack(path: Text)
    requires NamelessHost(path)
    ensures Canonical(path) == Some(path[2..]) && StartsDouble(path[2..])
    ensures NormalizeWinPath(path) == Some((path[2..], []))
  {
    assert Find(SLASH, path, 2) == 2;
    assert path[2..][0] == SLASH && path[2..][1] == SLASH;
  }

  /** Converting once more changes nothing, if and only if a nameless host is followed by what comes back as it
      was. */
  lemma {:induction false} CanonicalTwice(path: Text)
    requires Canonical(path).Some?
    ensures Canonical(Canonical(path).value) == Canonical(path) <==> (NamelessHost(path) ==> ComesBack(path[2..]))
  {
    if NamelessHost(path) {
      NamelessBack(path);
      CanonicalIdentity(path[2..]);
    } else {
      NormalizedTwice(path);
    }
  }

  lemma {:induction false} HostAgain(netloc: Text, p: Text)
    requires netloc != [] && SLASH !in netloc && p != [] && p[0] == SLASH && LowerDrive(p) == p
    ensures NormalizeWinPath([SLASH, SLASH] + netloc + p) == Some((p, netloc))
  {
    var path := [SLASH, SLASH] + netloc + p;
    FindIs(SLASH, [SLASH, SLASH] + netloc, p);
    hide Find, LowerDrive;
    assert path[2..2 + |netloc|] == netloc && path[2 + |netloc|..] == p;
  }

  lemma {:induction false} DriveAgain(p: Text)
    requires IsDrivePath(p) && LowerDrive(p) == p
    ensures NormalizeWinPath([Lower(p[1])] + p[2..]) == Some((p, []))
  {
    assert [SLASH] + ([Lower(p[1])] + p[2..]) == LowerDrive(p);
  }

  lemma {:induction false} FindIs(c: CodePoint, a: Text, rest: Text)
    requires |a| >= 2 && c !in a[2..] && rest != [] && rest[0] == c
    ensures Find(c, a + rest, 2) == |a|
  {
    var i := Find(c, a + rest, 2);
    assert forall j :: 2 <= j < |a| ==> a[j] == a[2..][j - 2];
    assert (a + rest)[|a|] == c;
  }

  /** A path comes back as it was if and only if it is a drive path without a slash in front and with a
      small letter, or a rooted path that is no drive path, or one with a host and no capital drive. */
  predicate ComesBack(path: Text) {
    if StartsDouble(path) then
      var idx := Find(SLASH, path, 2);
      2 < idx < |path| && LowerDrive(path[idx..]) == path[idx..]
    else if path != [] && path[0] == SLASH then !IsDrivePath(path)
    else |path| >= 2 && IsAlpha(path[0]) && path[1] == COLON && Lower(path[0]) == path[0]
  }

  lemma {:induction false} CanonicalIdentity(path: Text)
    ensures Canonical(path) == Some(path) <==> ComesBack(path)
  {
    if NormalizeWinPath(path).Some? {
      var (p, netloc) := NormalizeWinPath(path).value;
      if StartsDouble(path) {
        var idx := Find(SLASH, path, 2);
        assert path == [SLASH, SLASH] + path[2..idx] + path[idx..];
      } else if path == [] || path[0] != SLASH {
        RelativeIdentity(path);
      }
    }
  }

  lemma {:induction false} RelativeIdentity(path: Text)
    requires path == [] || path[0] != SLASH
    ensures PathOf([], LowerDrive([SLASH] + path)) == path
            <==> |path| >= 2 && IsAlpha(path[0]) && path[1] == COLON && Lower(path[0]) == path[0]
  {
    var rooted := [SLASH] + path;
    if IsDrivePath(rooted) {
      assert PathOf([], LowerDrive(rooted)) == [Lower(path[0])] + path[1..];
      assert path == [path[0]] + path[1..];
    } else {
      assert |PathOf([], LowerDrive(rooted))| == |path| + 1;
    }
  }

  /** A URI keeps path and host apart. */
  lemma {:induction false} UriParts(path: Text)
    requires SurrogateFree(path) && FromFsPath(path).Some?
    ensures var parts := SplitUri(FromFsPath(path).value);
            var (p, netloc) := NormalizeWinPath(path).value;
            Unquote(parts.netloc) == Some(netloc) && Unquote(parts.path) == Some(p)
  {
    var (p, netloc) := NormalizeWinPath(path).value;
    Normalized(path);
    hide NormalizeWinPath, Quote, QuotedPath, SplitUri, Unquote, SurrogateFree;
    QuotedPathIs(p);
    QuotedHost(netloc);
    SplitFile(Quote(netloc), QuotedPath(p));
  }

  /** Two paths have one URI if and only if they come back as one path, and both or neither have a nameless
      host. */
  lemma {:induction false} SameUri(p: Text, q: Text)
    requires SurrogateFree(p) && SurrogateFree(q) && Canonical(p).Some? && Canonical(q).Some?
    ensures FromFsPath(p) == FromFsPath(q) <==> Canonical(p) == Canonical(q) && (NamelessHost(p) <==> NamelessHost(q))
  {
    UriParts(p);
    UriParts(q);
    assert FromFsPath(p) == FromFsPath(q) <==> NormalizeWinPath(p) == NormalizeWinPath(q);
    SameParts(p, q);
  }

  lemma {:induction false} SameParts(p: Text, q: Text)
    requires Canonical(p).Some? && Canonical(q).Some?
    ensures NormalizeWinPath(p) == NormalizeWinPath(q)
            <==> Canonical(p) == Canonical(q) && (NamelessHost(p) <==> NamelessHost(q))
  {
    NamelessPath(p);
    NamelessPath(q);
    hide NormalizeWinPath;
    if !NamelessHost(p) {
      NormalizedTwice(p);
    }
    if !NamelessHost(q) {
      NormalizedTwice(q);
    }
  }

  /** Only a nameless host leaves a path with two slashes in front and no host. */
  lemma {:induction false} NamelessPath(path: Text)
    requires NormalizeWinPath(path).Some?
    ensures var (p, netloc) := NormalizeWinPath(path).value;
            && (NamelessHost(path) <==> netloc == [] && StartsDouble(p))
            && (NamelessHost(path) ==> Canonical(path) == Some(p))
  {
    if NamelessHost(path) {
      NamelessBack(path);
    } else if StartsDouble(path) {
      var idx := Find(SLASH, path, 2);
      assert idx == 2 ==> path[2] == SLASH;
    }
  }

  lemma {:induction false} CanonicalSurrogateFree(path: Text)
    requires SurrogateFree(path) && Canonical(path).Some?
    ensures SurrogateFree(Canonical(path).value)
  {
    Normalized(path);
  }

  /** To a URI and back: a path is unchanged exactly if it is of these forms, and doing so twice is doing so once
      except after a nameless host that no such path follows. */
  lemma {:induction false} ThereAndBack(path: Text)
    requires SurrogateFree(path) && FromFsPath(path).Some?
    ensures var back := ToFsPath(FromFsPath(path).value);
            && back.Path?
            && (back == Path(path) <==> ComesBack(path))
            && (FromFsPath(back.value).Some? && ToFsPath(FromFsPath(back.value).value) == back
                <==> (NamelessHost(path) ==> ComesBack(path[2..])))
  {
    PathRoundTrip(path);
    CanonicalIdentity(path);
    CanonicalTwice(path);
    CanonicalSurrogateFree(path);
    PathRoundTrip(Canonical(path).value);
  }

  /* The text of a URI */

  predicate IsLetter(c: int) {
    'a' as int <= c <= 'z' as int || 'A' as int <= c <= 'Z' as int
  }

  /** RFC 3986, section 2.3, and the slash. */
  predicate Unreserved(b: int) {
    IsLetter(b) || '0' as int <= b <= '9' as int || b in {'-' as int, '.' as int, '_' as int, '~' as int, '/' as int}
  }

  lemma {:induction false} QuoteAppend(s: seq<nat>, t: seq<nat>)
    requires IsBytes(s) && IsBytes(t)
    ensures IsBytes(s + t) && QuoteBytes(s + t) == QuoteBytes(s) + QuoteBytes(t)
  {
    hide QuoteByte;
    if s == [] {
      assert s + t == t;
    } else {
      assert (s + t)[1..] == s[1..] + t;
      QuoteAppend(s[1..], t);
      assert QuoteByte(s[0]) + (QuoteBytes(s[1..]) + QuoteBytes(t)) == QuoteByte(s[0]) + QuoteBytes(s[1..]) + QuoteBytes(t);
    }
  }

  /** Byte by byte: unreserved characters and slashes stay, any other byte becomes a percent sign and two hexadecimal
      digits, capital ones. */
  lemma {:induction false} QuoteEach(s: seq<nat>, b: nat, t: seq<nat>)
    requires IsBytes(s) && b < 256 && IsBytes(t)
    ensures IsBytes(s + [b] + t) && QuoteBytes([]) == []
    ensures QuoteBytes(s + [b] + t)
         == QuoteBytes(s)
            + (if Unreserved(b) then [b]
               else ['%' as int, "0123456789ABCDEF"[b / 16] as int, "0123456789ABCDEF"[b % 16] as int])
            + QuoteBytes(t)
  {
    QuoteAppend(s, [b]);
    QuoteAppend(s + [b], t);
    assert [b][1..] == [] && QuoteBytes([b]) == QuoteByte(b) + [];
    CapitalHex(b / 16);
    CapitalHex(b % 16);
    hide QuoteBytes;
  }

  lemma {:induction false} CapitalHex(n: nat)
    requires n < 16
    ensures HexDigit(n) == "0123456789ABCDEF"[n] as int
  {
    var hex := "0123456789ABCDEF";
    assert hex[0] == '0' && hex[1] == '1' && hex[2] == '2' && hex[3] == '3' && hex[4] == '4' && hex[5] == '5';
    assert hex[6] == '6' && hex[7] == '7' && hex[8] == '8' && hex[9] == '9' && hex[10] == 'A' && hex[11] == 'B';
    assert hex[12] == 'C' && hex[13] == 'D' && hex[14] == 'E' && hex[15] == 'F';
  }

  /** A path as a host, if it has one, and a rooted path. */
  predicate HasParts(path: Text, host: Text, p: Text) {
    || (path == ['/' as int, '/' as int] + host + p && '/' as int !in host && p != [] && p[0] == '/' as int)
    || (host == [] && path == p && p != [] && p[0] == '/' as int && !(|p| > 1 && p[1] == '/' as int))
    || (host == [] && p == ['/' as int] + path && (path == [] || path[0] != '/' as int))
  }

  /** The URI of a path: the scheme, the quoted host, and the quoted path, in which the colon of a drive stays and its
      letter becomes small. */
  lemma {:induction false} UriOfPath(path: Text, host: Text, p: Text)
    requires SurrogateFree(path) && HasParts(path, host, p)
    ensures FromFsPath(path) == Some(['f' as int, 'i' as int, 'l' as int, 'e' as int, ':' as int, '/' as int, '/' as int] + Quote(host) +
              if |p| > 2 && IsLetter(p[1]) && p[2] == ':' as int
              then ['/' as int] + [if p[1] <= 'Z' as int then p[1] + 0x20 else p[1]] + [':' as int] + Quote(p[3..])
              else Quote(p))
  {
    hide Quote, QuotedPath, LowerDrive, NormalizeWinPath, HasParts, SurrogateFree, IsLetter;
    PartsOf(path, host, p);
    QuotedLowered(p);
    FileText(Quote(host), QuotedPath(LowerDrive(p)));
  }

  lemma {:induction false} FileText(a: Uri, b: Uri)
    ensures FILE + [COLON] + ([SLASH, SLASH] + a + b)
         == ['f' as int, 'i' as int, 'l' as int, 'e' as int, ':' as int, '/' as int, '/' as int] + a + b
  {
    var scheme, slashes := FILE + [COLON], [SLASH, SLASH];
    assert scheme + slashes == ['f' as int, 'i' as int, 'l' as int, 'e' as int, ':' as int, '/' as int, '/' as int];
    assert scheme + (slashes + a + b) == scheme + slashes + a + b;
  }

  lemma {:induction false} QuotedLowered(p: Text)
    requires p != [] && p[0] == SLASH
    ensures QuotedPath(LowerDrive(p))
         == if |p| > 2 && IsLetter(p[1]) && p[2] == ':' as int
            then ['/' as int] + [if p[1] <= 'Z' as int then p[1] + 0x20 else p[1]] + [':' as int] + Quote(p[3..])
            else Quote(p)
  {
    hide Quote;
    if IsDrivePath(p) {
      var q := LowerDrive(p);
      assert q == [SLASH, Lower(p[1])] + p[2..] && p[2..] == [COLON] + p[3..];
      assert q[..3] == [SLASH] + [Lower(p[1])] + [COLON];
      assert q[3..] == p[3..];
    }
  }

  lemma {:induction false} PartsOf(path: Text, host: Text, p: Text)
    requires HasParts(path, host, p)
    ensures NormalizeWinPath(path) == Some((LowerDrive(p), host)) && p != [] && p[0] == SLASH
  {
    if path == ['/' as int, '/' as int] + host + p && SLASH !in host {
      FindIs(SLASH, [SLASH, SLASH] + host, p);
      assert path[2..2 + |host|] == host && path[2 + |host|..] == p;
    }
  }

  /** Making one raises exactly if the path has a surrogate, or starts with two slashes and has no other. */
  lemma {:induction false} UriRaises(path: Text)
    ensures FromFsPath(path).None? <==>
            || (exists i :: 0 <= i < |path| && IsSurrogate(path[i]))
            || (|path| >= 2 && path[0] == '/' as int && path[1] == '/' as int && '/' as int !in path[2..])
  {
    if StartsDouble(path) {
      var i := Find(SLASH, path, 2);
      if i < |path| {
        assert path[2..][i - 2] == SLASH;
      }
    }
  }

  /** What two characters after a percent sign say, in capital or small digits; everything else says itself. */
  lemma {:induction false} UnquoteEach(h: nat, l: nat, x: nat, y: nat, c: nat, rest: Uri)
    requires h < 16 && (x == "0123456789ABCDEF"[h] as int || x == "0123456789abcdef"[h] as int)
    requires l < 16 && (y == "0123456789ABCDEF"[l] as int || y == "0123456789abcdef"[l] as int)
    requires c != '%' as int
    ensures UnquoteBytes(['%' as int, x, y] + rest) == [16 * h + l] + UnquoteBytes(rest)
    ensures UnquoteBytes([c] + rest) == [c] + UnquoteBytes(rest) && UnquoteBytes([]) == []
  {
    PlainByte(c, rest);
    CapitalHex(h);
    CapitalHex(l);
    SmallHex(h);
    SmallHex(l);
    assert (['%' as int, x, y] + rest)[3..] == rest;
  }

  lemma {:induction false} SmallHex(n: nat)
    requires n < 16
    ensures var c := "0123456789abcdef"[n] as int; IsHex(c) && HexValue(c) == n
  {
    var hex := "0123456789abcdef";
    assert hex[0] == '0' && hex[1] == '1' && hex[2] == '2' && hex[3] == '3' && hex[4] == '4' && hex[5] == '5';
    assert hex[6] == '6' && hex[7] == '7' && hex[8] == '8' && hex[9] == '9' && hex[10] == 'a' && hex[11] == 'b';
    assert hex[12] == 'c' && hex[13] == 'd' && hex[14] == 'e' && hex[15] == 'f';
  }

  lemma {:induction false} DecodedFirst(u: seq<nat>) returns (c: CodePoint, n: nat)
    requires Decoded(u).Some? && u != []
    ensures 0 < n <= |u| && !IsSurrogate(c) && EncodeUtf8(c) == u[..n]
    ensures Decoded(u[n..]).Some? && Decoded(u).value == [c] + Decoded(u[n..]).value
  {
    hide EncodeUtf8, DecodeUtf8;
    n := UnitsFromFirst(Utf8, u[0]);
    c := DecodeUtf8(u[..n]);
  }

  lemma {:induction false} DecodedOnly(u: seq<nat>)
    requires Decoded(u).Some?
    ensures SurrogateFree(Decoded(u).value) && Encode(Utf8, Decoded(u).value) == u
    decreases |u|
  {
    if u != [] {
      var c, n := DecodedFirst(u);
      DecodedOnly(u[n..]);
      Prepended(c, Decoded(u[n..]).value);
      Cut(u, n, EncodeUtf8(c));
    }
    hide Decoded, EncodeUtf8, IsSurrogate, SurrogateFree;
  }

  lemma {:induction false} Cut(u: seq<nat>, n: nat, first: seq<nat>)
    requires n <= |u| && first == u[..n]
    ensures first + u[n..] == u
  {}

  lemma {:induction false} Prepended(c: CodePoint, rest: Text)
    ensures Encode(Utf8, [c] + rest) == EncodeUtf8(c) + Encode(Utf8, rest)
    ensures !IsSurrogate(c) && SurrogateFree(rest) ==> SurrogateFree([c] + rest)
  {
    EncodeCons(Utf8, [c] + rest);
    assert ([c] + rest)[1..] == rest && EncodeChar(Utf8, c) == EncodeUtf8(c);
  }

  /** Quoted is the UTF-8 form, and unquoting gives the one text whose UTF-8 form the bytes are, if there is one. */
  lemma {:induction false} QuotedForms(s: Text, uri: Uri, t: Text)
    ensures IsBytes(Encode(Utf8, s)) && Quote(s) == QuoteBytes(Encode(Utf8, s))
    ensures Unquote(uri) == Some(t) <==> SurrogateFree(t) && Encode(Utf8, t) == UnquoteBytes(uri)
  {
    QuoteBytesOf(s);
    hide Encode, Decoded, UnquoteBytes, Quote, QuoteBytes;
    if Unquote(uri).Some? {
      DecodedOnly(UnquoteBytes(uri));
    }
    if SurrogateFree(t) {
      DecodeEncoded(t);
    }
  }

  /** The scheme in capital or small letters. */
  predicate IsFileScheme(s: Uri) {
    |s| == 4 && s[0] in {'f' as int, 'F' as int} && s[1] in {'i' as int, 'I' as int} &&
    s[2] in {'l' as int, 'L' as int} && s[3] in {'e' as int, 'E' as int}
  }

  lemma {:induction false} FileSchemeRead(scheme: Uri, rest: Uri)
    requires IsFileScheme(scheme)
    ensures SplitUri(scheme + [COLON] + rest) == SplitRest(FILE, rest)
  {
    var uri := scheme + ([COLON] + rest);
    assert Lacks(scheme, {COLON}) && IsScheme(scheme) && LowerAll(scheme) == FILE;
    hide SplitRest, Lacks, Until, IsScheme, LowerAll;
    assert scheme + [COLON] + rest == uri;
    UntilIs({COLON}, scheme, [COLON] + rest);
    assert ([COLON] + rest)[1..] == rest && uri[|scheme| + 1..] == rest;
  }

  /** Only URIs of that scheme have a path. */
  lemma {:induction false} NoOtherScheme(uri: Uri)
    ensures ToFsPath(uri) != NotAFile <==> |uri| > 4 && IsFileScheme(uri[..4]) && uri[4] == ':' as int
  {
    hide SplitRest, Unquote, SplitUri, IsFileScheme;
    if |uri| > 4 && IsFileScheme(uri[..4]) && uri[4] == ':' as int {
      assert uri == uri[..4] + [COLON] + uri[5..];
      FileSchemeRead(uri[..4], uri[5..]);
      RestScheme(FILE, uri[5..]);
    }
    if SplitUri(uri).scheme == FILE {
      SchemeIsFile(uri);
    }
  }

  lemma {:induction false} RestScheme(scheme: Uri, rest: Uri)
    ensures SplitRest(scheme, rest).scheme == scheme
  {}

  lemma {:induction false} SchemeIsFile(uri: Uri)
    requires SplitUri(uri).scheme == FILE
    ensures |uri| > 4 && IsFileScheme(uri[..4]) && uri[4] == COLON
  {
    hide SplitRest;
    var i := Until({COLON}, uri);
    var s := uri[..i];
    RestScheme(if i < |uri| && IsScheme(s) then LowerAll(s) else [], if i < |uri| && IsScheme(s) then uri[i + 1..] else uri);
    LoweredFile(s);
  }

  lemma {:induction false} LoweredFile(s: Uri)
    requires LowerAll(s) == FILE
    ensures |s| == 4 && IsFileScheme(s)
  {
    assert |s| == 4;
    assert LowerAll(s)[0] == FILE[0] && LowerAll(s)[1] == FILE[1] && LowerAll(s)[2] == FILE[2] && LowerAll(s)[3] == FILE[3];
  }

  /** Reading any file URI: a query or fragment counts for nothing; the host, unquoted, goes before the path, and
      without a host a drive loses its slash and gets a small letter. */
  lemma {:induction false} PathOfUri(scheme: Uri, host: Uri, p: Uri, tail: Uri, netloc: Text, path: Text)
    requires IsFileScheme(scheme) && Lacks(host, {SLASH, QUESTION, HASH}) && Lacks(p, {QUESTION, HASH})
    requires p == [] || p[0] == '/' as int
    requires tail == [] || tail[0] == '?' as int || tail[0] == '#' as int
    requires Unquote(host) == Some(netloc) && Unquote(p) == Some(path)
    ensures ToFsPath(scheme + [':' as int] + (['/' as int, '/' as int] + host + p + tail)) == Path(
              if netloc != [] && path != [] then ['/' as int, '/' as int] + netloc + path
              else if |path| > 2 && path[0] == '/' as int && IsLetter(path[1]) && path[2] == ':' as int
              then [if path[1] <= 'Z' as int then path[1] + 0x20 else path[1]] + path[2..]
              else path)
  {
    RestOfUri(host, p, tail);
    PathOfIs(netloc, path);
    hide SplitRest, Unquote, Lacks, PathOf, IsLetter, IsFileScheme, ToFsPath;
    ReadParts(scheme, [SLASH, SLASH] + host + p + tail, netloc, path, host, p);
  }

  lemma {:induction false} PathOfIs(netloc: Text, path: Text)
    ensures PathOf(netloc, path)
         == if netloc != [] && path != [] then ['/' as int, '/' as int] + netloc + path
            else if |path| > 2 && path[0] == '/' as int && IsLetter(path[1]) && path[2] == ':' as int
            then [if path[1] <= 'Z' as int then path[1] + 0x20 else path[1]] + path[2..]
            else path
  {}

  lemma {:induction false} ReadParts(scheme: Uri, rest: Uri, netloc: Text, path: Text, host: Uri, p: Uri)
    requires IsFileScheme(scheme) && SplitRest(FILE, rest) == Parts(FILE, host, p)
    requires Unquote(host) == Some(netloc) && Unquote(p) == Some(path)
    ensures ToFsPath(scheme + [COLON] + rest) == Path(PathOf(netloc, path))
  {
    hide SplitRest, Unquote, SplitUri;
    FileSchemeRead(scheme, rest);
  }

  lemma {:induction false} RestOfUri(host: Uri, p: Uri, tail: Uri)
    requires Lacks(host, {SLASH, QUESTION, HASH}) && Lacks(p, {QUESTION, HASH}) && (p == [] || p[0] == SLASH)
    requires tail == [] || tail[0] == QUESTION || tail[0] == HASH
    ensures SplitRest(FILE, [SLASH, SLASH] + host + p + tail) == Parts(FILE, host, p)
  {
    var after := p + tail;
    assert after != [] ==> after[0] in {SLASH, QUESTION, HASH};
    UntilIs({SLASH, QUESTION, HASH}, host, after);
    UntilIs({QUESTION, HASH}, p, tail);
    hide Lacks, Until;
    RestParts(host, p, tail);
  }

  lemma {:induction false} RestParts(host: Uri, p: Uri, tail: Uri)
    requires Until({SLASH, QUESTION, HASH}, host + (p + tail)) == |host| && Until({QUESTION, HASH}, p + tail) == |p|
    ensures SplitRest(FILE, [SLASH, SLASH] + host + p + tail) == Parts(FILE, host, p)
  {
    hide Until;
    var rest := [SLASH, SLASH] + (host + (p + tail));
    assert [SLASH, SLASH] + host + p + tail == rest;
    assert rest[2..] == host + (p + tail);
    assert rest[2 + |host|..] == p + tail && rest[2..2 + |host|] == host && (p + tail)[..|p|] == p;
  }
}
