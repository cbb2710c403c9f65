/** Messages on a byte stream: the header a message is sent with, and the loop that reads it back
    (LSP 3.17, "Base Protocol", header part). */
module Framing {
  import opened Unicode
  import opened Wrappers

  type Bytes = seq<nat>

  /** Something about each body handed over, counted from 0: equal bodies may differ. */
  type Verdict = (nat, Bytes) -> bool

  const CONTENT_LENGTH: Bytes := Ascii("Content-Length: ")
  const CONTENT_TYPE: Bytes := Ascii("application/vscode-jsonrpc")
  const CHARSET: Bytes := Ascii("utf-8")
  const TYPE_HEADER: Bytes := Ascii("Content-Type: ") + CONTENT_TYPE + Ascii("; charset=") + CHARSET
  const CRLF: Bytes := [0x0D, 0x0A]

  /* Decimal numbers */

  function Digits(n: nat): Bytes {
    if n < 10 then [0x30 + n] else Digits(n / 10) + [0x30 + n % 10]
  }

  predicate IsDigits(d: Bytes) {
    d != [] && forall i :: 0 <= i < |d| ==> 0x30 <= d[i] <= 0x39
  }

  function ParseNat(d: Bytes): nat
    requires forall i :: 0 <= i < |d| ==> 0x30 <= d[i] <= 0x39
  {
    if d == [] then 0 else 10 * ParseNat(d[..|d| - 1]) + (d[|d| - 1] - 0x30)
  }

  lemma {:induction false} ParseDigits(n: nat)
    ensures IsDigits(Digits(n)) && ParseNat(Digits(n)) == n
  {
    if n < 10 {
      assert Digits(n)[..0] == [];
    } else {
      ParseDigits(n / 10);
      assert Digits(n)[..|Digits(n)| - 1] == Digits(n / 10);
    }
  }

  function Power10(k: nat): (p: nat)
    ensures p > 0
  {
    if k == 0 then 1 else 10 * Power10(k - 1)
  }

  /** The digits, one by one: that for the tens to the power `k` is `n / 10^k % 10`, and there is no leading zero. */
  lemma {:induction false} DecimalDigits(n: nat, k: nat)
    requires k < |Digits(n)|
    ensures Digits(n)[|Digits(n)| - 1 - k] == 0x30 + n / Power10(k) % 10
    ensures n < Power10(|Digits(n)|) && (n > 0 ==> Power10(|Digits(n)| - 1) <= n)
    ensures n == 0 ==> |Digits(n)| == 1
  {
    if n < 10 {
      assert Power10(1) == 10 * Power10(0);
    } else {
      var d := Digits(n / 10);
      DecimalDigits(n / 10, if k == 0 then 0 else k - 1);
      assert |Digits(n)| == |d| + 1 && Power10(|d| + 1) == 10 * Power10(|d|) && Power10(|d|) == 10 * Power10(|d| - 1);
      if k > 0 {
        DivideTwice(n, Power10(k - 1));
        assert Digits(n)[|d| - k] == d[|d| - 1 - (k - 1)];
      }
    }
  }

  lemma {:induction false} DivideTwice(n: nat, p: nat)
    requires p > 0
    ensures n / 10 / p == n / (10 * p)
  {
    var q, m := n / 10 / p, n / 10;
    assert m == q * p + m % p && n == 10 * m + n % 10;
    var r := 10 * (m % p) + n % 10;
    assert n == 10 * (q * p) + r == q * (10 * p) + r && 0 <= r < 10 * p;
    Quotient(n, 10 * p, q, r);
  }

  lemma {:induction false} Quotient(n: nat, d: nat, q: nat, r: nat)
    requires 0 <= r < d && n == q * d + r
    ensures n / d == q
  {
    var x := n / d - q;
    QuotientTimes(n, d);
    Distribute(n / d, q, d);
    if x >= 1 {
      AtLeastOnce(x, d);
    } else if x <= -1 {
      AtLeastOnce(-x, d);
      Distribute(0, x, d);
    }
  }

  lemma {:induction false} QuotientTimes(n: nat, d: nat)
    requires d > 0
    ensures n / d * d + n % d == n && n % d < d
  {}

  lemma {:induction false} Distribute(a: int, b: int, d: int)
    ensures (a - b) * d == a * d - b * d
  {}

  lemma {:induction false} AtLeastOnce(x: int, d: int)
    requires x >= 1 && d >= 0
    ensures x * d >= d
  {}

  /** Leading zeros count for nothing. */
  lemma {:induction false} ParseZero(d: Bytes)
    requires forall i :: 0 <= i < |d| ==> 0x30 <= d[i] <= 0x39
    ensures ParseNat([0x30] + d) == ParseNat(d)
  {
    var z := [0x30] + d;
    if d == [] {
      assert z[..0] == [];
    } else {
      assert z[..|z| - 1] == [0x30] + d[..|d| - 1];
      ParseZero(d[..|d| - 1]);
    }
  }

  /* Writing */

  /** What `_send_data` writes: the length counts the characters of the body, not its bytes. */
  function Frame(body: Text): Bytes {
    CONTENT_LENGTH + Digits(|body|) + CRLF + TYPE_HEADER + CRLF + CRLF + Encode(Utf8, body)
  }

  /** On the wire. */
  lemma {:induction false} FrameText(body: Text)
    ensures Frame(body) == Ascii("Content-Length: ") + Digits(|body|) + Ascii("\r\n")
                         + (Ascii("Content-Type: ") + Ascii("application/vscode-jsonrpc") + Ascii("; charset=") + Ascii("utf-8"))
                         + Ascii("\r\n") + Ascii("\r\n") + Encode(Utf8, body)
  {
    hide Digits, Encode;
    assert CRLF == Ascii("\r\n");
    hide Ascii;
  }

  predicate IsAscii(s: Text) {
    forall i :: 0 <= i < |s| ==> s[i] < 0x80
  }

  /** The announced length is right exactly for ASCII bodies, which is what `json.dumps` makes. */
  lemma {:induction false} LengthIsBytes(s: Text)
    ensures |s| <= |Encode(Utf8, s)|
    ensures |s| == |Encode(Utf8, s)| <==> IsAscii(s)
    ensures IsAscii(s) ==> Encode(Utf8, s) == s
  {
    if s != [] {
      LengthIsBytes(s[..|s| - 1]);
      assert s == s[..|s| - 1] + [s[|s| - 1]];
      var u := EncodeChar(Utf8, s[|s| - 1]);
      assert |u| == 1 <==> s[|s| - 1] < 0x80;
      assert s[|s| - 1] < 0x80 ==> u == [s[|s| - 1]];
    }
  }

  /* Reading */

  /** Length of what `readline` returns: through the first line feed, or everything. */
  function LineLength(data: Bytes): (n: nat)
    ensures n <= |data| && (data != [] ==> n > 0)
  {
    if data == [] then 0 else if data[0] == 0x0A then 1 else 1 + LineLength(data[1..])
  }

  /** `rb"^Content-Length: (\\d+)\\r\\n$"`; no match counts as zero, as a length of zero does. */
  function ContentLengthOf(line: Bytes): nat {
    var k, n := |CONTENT_LENGTH|, |line|;
    if n >= k + 2 && line[..k] == CONTENT_LENGTH && line[n - 2..] == CRLF && IsDigits(line[k..n - 2])
    then ParseNat(line[k..n - 2]) else 0
  }

  /** Nothing but that header gives a length; a line of other characters, spacing or case gives none. */
  lemma {:induction false} LengthLine(line: Bytes)
    ensures ContentLengthOf(line) > 0 <==>
            exists n: nat, zeros :: n > 0 && (forall i :: 0 <= i < |zeros| ==> zeros[i] == 0x30)
              && line == Ascii("Content-Length: ") + (zeros + Digits(n)) + Ascii("\r\n") && ContentLengthOf(line) == n
  {
    assert CONTENT_LENGTH == Ascii("Content-Length: ") && CRLF == Ascii("\r\n");
    hide Ascii;
    var k := |CONTENT_LENGTH|;
    if ContentLengthOf(line) > 0 {
      var d := line[k..|line| - 2];
      var zeros := ZerosBefore(d);
      assert line == CONTENT_LENGTH + (zeros + Digits(ParseNat(d))) + CRLF;
    }
  }

  /** Digits are zeros followed by the digits of the number they stand for. */
  lemma {:induction false} ZerosBefore(d: Bytes) returns (zeros: Bytes)
    requires IsDigits(d)
    ensures (forall i :: 0 <= i < |zeros| ==> zeros[i] == 0x30)
    ensures ParseNat(d) > 0 ==> d == zeros + Digits(ParseNat(d))
    ensures ParseNat(d) == 0 ==> d == zeros
  {
    hide ParseNat, Digits;
    var init, n := d[..|d| - 1], ParseNat(d);
    assert d == init + [d[|d| - 1]];
    LastDigit(d, n);
    if init == [] {
      zeros := if n == 0 then d else [];
    } else {
      zeros := ZerosBefore(init);
      if n < 10 {
        zeros := if n == 0 then d else init;
      } else {
        assert zeros + (Digits(n / 10) + [0x30 + n % 10]) == (zeros + Digits(n / 10)) + [0x30 + n % 10];
      }
    }
  }

  lemma {:induction false} LastDigit(d: Bytes, n: nat)
    requires IsDigits(d) && n == ParseNat(d)
    ensures n / 10 == ParseNat(d[..|d| - 1]) && n % 10 == d[|d| - 1] - 0x30 && (|d| == 1 ==> n < 10)
    ensures n < 10 ==> ParseNat(d[..|d| - 1]) == 0 && d[|d| - 1] == 0x30 + n && Digits(n) == [0x30 + n]
    ensures n >= 10 ==> Digits(n) == Digits(n / 10) + [0x30 + n % 10]
  {}

  predicate IsSpace(b: nat) {
    b == 0x20 || 0x09 <= b <= 0x0D
  }

  /** `not header.strip()` */
  predicate IsBlank(line: Bytes) {
    forall i :: 0 <= i < |line| ==> IsSpace(line[i])
  }

  /** The bodies handed over when the loop runs on `data`, the first of them being number `k`; `stops` tells
      which of them make their handler set the stop event. */
  function Bodies(data: Bytes, contentLength: nat, stops: Verdict, k: nat): seq<Bytes>
    decreases |data|
  {
    if data == [] then []
    else
      var header, rest := data[..LineLength(data)], data[LineLength(data)..];
      var length := if contentLength == 0 then ContentLengthOf(header) else contentLength;
      if length != 0 && IsBlank(header) then
        var body := rest[..if length < |rest| then length else |rest|];
        if body == [] then []
        else [body] + if stops(k, body) then [] else Bodies(rest[|body|..], 0, stops, k + 1)
      else Bodies(rest, length, stops, k)
  }

  class Reader {
    var data: Bytes

    constructor (data: Bytes)
      ensures this.data == data
    {
      this.data := data;
    }

    method ReadLine() returns (line: Bytes)
      modifies this
      ensures line == old(data)[..LineLength(old(data))] && data == old(data)[LineLength(old(data))..]
    {
      var n := 0;
      while n < |data| && data[n] != 0x0A
        invariant n <= |data| && LineLength(data) == n + LineLength(data[n..])
      {
        n := n + 1;
      }
      if n < |data| {
        n := n + 1;
      }
      line := data[..n];
      data := data[n..];
    }

    method Read(n: nat) returns (bytes: Bytes)
      modifies this
      ensures bytes == old(data)[..if n < |old(data)| then n else |old(data)|]
      ensures data == old(data)[|bytes|..]
    {
      var k := if n < |data| then n else |data|;
      bytes := data[..k];
      data := data[k..];
    }
  }

  /** The receiving side: what was handed over, which of it raised, and whether the loop must stop. */
  class Dispatcher {
    const raises: Verdict
    const stops: Verdict
    var handled: seq<Bytes>
    var reported: seq<Bytes>
    var stopEvent: bool

    constructor (raises: Verdict, stops: Verdict)
      ensures this.raises == raises && this.stops == stops
      ensures handled == [] && reported == [] && !stopEvent
    {
      this.raises, this.stops := raises, stops;
      handled, reported, stopEvent := [], [], false;
    }

    method HandleMessage(body: Bytes) returns (raised: bool)
      modifies this
      ensures handled == old(handled) + [body] && reported == old(reported)
      ensures stopEvent == (old(stopEvent) || stops(|old(handled)|, body)) && raised == raises(|old(handled)|, body)
    {
      stopEvent := stopEvent || stops(|handled|, body);
      raised := raises(|handled|, body);
      handled := handled + [body];
    }

    method HandleError(body: Bytes)
      modifies this`reported
      ensures reported == old(reported) + [body]
    {
      reported := reported + [body];
    }

    /** An exception is caught and reported. */
    method Dispatch(body: Bytes)
      modifies this
      ensures handled == old(handled) + [body]
      ensures reported == old(reported) + if raises(|old(handled)|, body) then [body] else []
      ensures stopEvent == (old(stopEvent) || stops(|old(handled)|, body))
    {
      var raised := HandleMessage(body);
      if raised {
        HandleError(body);
      }
    }
  }

  function Raising(bodies: seq<Bytes>, raises: Verdict): seq<Bytes> {
    if bodies == [] then []
    else
      var n := |bodies| - 1;
      Raising(bodies[..n], raises) + if raises(n, bodies[n]) then [bodies[n]] else []
  }

  lemma {:induction false} RaisingSnoc(bodies: seq<Bytes>, body: Bytes, raises: Verdict)
    ensures Raising(bodies + [body], raises) == Raising(bodies, raises) + if raises(|bodies|, body) then [body] else []
  {
    assert (bodies + [body])[..|bodies|] == bodies;
  }

  /** The bodies whose handler raised, in order. */
  lemma {:induction false} RaisingIs(bodies: seq<Bytes>, raises: Verdict)
    ensures Raising(bodies, raises)
         == Concat(seq(|bodies|, i requires 0 <= i < |bodies| => if raises(i, bodies[i]) then [bodies[i]] else []))
  {
    if bodies != [] {
      var n := |bodies| - 1;
      RaisingIs(bodies[..n], raises);
      var parts := seq(n, i requires 0 <= i < n => if raises(i, bodies[i]) then [bodies[i]] else []);
      var last := if raises(n, bodies[n]) then [bodies[n]] else [];
      assert parts == seq(n, i requires 0 <= i < n => if raises(i, bodies[..n][i]) then [bodies[..n][i]] else []);
      assert parts + [last]
          == seq(|bodies|, i requires 0 <= i < |bodies| => if raises(i, bodies[i]) then [bodies[i]] else []);
      ConcatSnoc(parts, last);
    }
  }

  lemma {:induction false} ConcatSnoc<T>(parts: seq<seq<T>>, last: seq<T>)
    ensures Concat(parts + [last]) == Concat(parts) + last
  {
    if parts == [] {
      assert parts + [last] == [last];
      ConcatSingle(last);
    } else {
      assert (parts + [last])[1..] == parts[1..] + [last];
      ConcatSnoc(parts[1..], last);
    }
  }

  ghost predicate Stopped(bodies: seq<Bytes>, stops: Verdict) {
    exists i :: 0 <= i < |bodies| && stops(i, bodies[i])
  }

  lemma {:induction false} StoppedBy(bodies: seq<Bytes>, body: Bytes, stops: Verdict)
    ensures Stopped(bodies + [body], stops) <==> Stopped(bodies, stops) || stops(|bodies|, body)
  {
    var all := bodies + [body];
    if Stopped(bodies, stops) {
      var i :| 0 <= i < |bodies| && stops(i, bodies[i]);
      assert stops(i, all[i]);
    }
    if stops(|bodies|, body) {
      assert stops(|bodies|, all[|bodies|]);
    }
  }

  lemma {:induction false} NothingLeft(stops: Verdict, raises: Verdict)
    ensures Raising([], raises) == [] && forall n, k :: Bodies([], n, stops, k) == []
  {}

  lemma {:induction false} BodiesOnBody(data: Bytes, length: nat, stops: Verdict, k: nat, n: nat, body: Bytes)
    requires data != [] && n == LineLength(data)
    requires length != 0 && IsBlank(data[..n])
    requires body == data[n..][..if length < |data| - n then length else |data| - n]
    ensures Bodies(data, length, stops, k)
         == if body == [] then [] else [body] + if stops(k, body) then [] else Bodies(data[n..][|body|..], 0, stops, k + 1)
  {}

  lemma {:induction false} BodiesOnHeader(data: Bytes, contentLength: nat, stops: Verdict, k: nat, n: nat, length: nat)
    requires data != [] && n == LineLength(data)
    requires length == if contentLength == 0 then ContentLengthOf(data[..n]) else contentLength
    ensures length != 0 && IsBlank(data[..n]) ==> Bodies(data, contentLength, stops, k) == Bodies(data, length, stops, k)
    ensures !(length != 0 && IsBlank(data[..n])) ==>
              Bodies(data, contentLength, stops, k) == Bodies(data[n..], length, stops, k)
  {}

  /** One more body: how the account of the loop changes. */
  lemma {:induction false} BodyHandled(handled: seq<Bytes>, data: Bytes, length: nat, n: nat, body: Bytes, stops: Verdict, raises: Verdict)
    requires data != [] && n == LineLength(data) && length != 0 && IsBlank(data[..n])
    requires body == data[n..][..if length < |data| - n then length else |data| - n]
    ensures var k, rest := |handled|, data[n..][|body|..];
            handled + Bodies(data, length, stops, k)
            == if body == [] then handled
               else (handled + [body]) + if stops(k, body) then [] else Bodies(rest, 0, stops, k + 1)
    ensures Raising(handled + [body], raises) == Raising(handled, raises) + if raises(|handled|, body) then [body] else []
    ensures Stopped(handled + [body], stops) <==> Stopped(handled, stops) || stops(|handled|, body)
  {
    hide Bodies, Raising, Stopped, LineLength, IsBlank;
    BodiesOnBody(data, length, stops, |handled|, n, body);
    RaisingSnoc(handled, body, raises);
    StoppedBy(handled, body, stops);
    Regroup(handled, body, if stops(|handled|, body) then [] else Bodies(data[n..][|body|..], 0, stops, |handled| + 1));
  }

  lemma {:induction false} Regroup(a: seq<Bytes>, b: Bytes, c: seq<Bytes>)
    ensures a + ([b] + c) == (a + [b]) + c
  {}

  /** The body after a blank line, read and dispatched, unless the stream has ended. */
  method HandOver(reader: Reader, protocol: Dispatcher, length: nat, ghost data: Bytes, ghost n: nat) returns (body: Bytes)
    requires data != [] && n == LineLength(data) && length != 0 && IsBlank(data[..n]) && reader.data == data[n..]
    requires protocol.reported == Raising(protocol.handled, protocol.raises) && !protocol.stopEvent
    modifies reader, protocol
    ensures protocol.reported == Raising(protocol.handled, protocol.raises)
    ensures protocol.stopEvent ==> Stopped(protocol.handled, protocol.stops)
    ensures |reader.data| <= |old(reader.data)|
    ensures body == [] ==> protocol.handled == old(protocol.handled) && !protocol.stopEvent && reader.data == []
    ensures body != [] ==> protocol.handled == old(protocol.handled) + [body]
    ensures old(protocol.handled) + Bodies(data, length, protocol.stops, |old(protocol.handled)|)
         == protocol.handled + if body == [] || protocol.stopEvent then [] else Bodies(reader.data, 0, protocol.stops, |protocol.handled|)
  {
    hide LineLength, IsBlank, Bodies, Raising, Stopped;
    body := reader.Read(length);
    BodyHandled(protocol.handled, data, length, n, body, protocol.stops, protocol.raises);
    if body != [] {
      protocol.Dispatch(body);
    }
  }

  /** The main loop. An exception raised by a message is reported and changes nothing else; unless a message
      stops it, the loop ends with the stream. */
  method Run(reader: Reader, protocol: Dispatcher)
    requires protocol.handled == [] && protocol.reported == [] && !protocol.stopEvent
    modifies reader, protocol
    ensures protocol.handled == Bodies(old(reader.data), 0, protocol.stops, 0)
    ensures protocol.reported == Raising(protocol.handled, protocol.raises)
    ensures reader.data == [] || protocol.stopEvent
    ensures protocol.stopEvent ==> Stopped(protocol.handled, protocol.stops)
  {
    NothingLeft(protocol.stops, protocol.raises);
    hide LineLength, ContentLengthOf, IsBlank, Bodies, Raising, Stopped;
    var contentLength := 0;
    ghost var all := Bodies(reader.data, 0, protocol.stops, 0);
    ghost var pending := all;
    while !protocol.stopEvent
      invariant all == protocol.handled + pending
      invariant pending == if protocol.stopEvent then []
                           else Bodies(reader.data, contentLength, protocol.stops, |protocol.handled|)
      invariant protocol.reported == Raising(protocol.handled, protocol.raises)
      invariant protocol.stopEvent ==> Stopped(protocol.handled, protocol.stops)
      decreases if protocol.stopEvent then 0 else 1 + |reader.data|
    {
      ghost var data := reader.data;
      var header := reader.ReadLine();
      if header == [] {
        break;
      }
      ghost var n, k, previous := LineLength(data), |protocol.handled|, contentLength;
      if contentLength == 0 {
        contentLength := ContentLengthOf(header);
      }
      BodiesOnHeader(data, previous, protocol.stops, k, n, contentLength);
      if contentLength != 0 && IsBlank(header) {
        var body := HandOver(reader, protocol, contentLength, data, n);
        if body == [] {
          break;
        }
        pending := if protocol.stopEvent then [] else Bodies(reader.data, 0, protocol.stops, k + 1);
        contentLength := 0;
      }
    }
  }

  /* Round trip */

  /** A header line as it is on the wire: not blank, and a line feed only at its end. */
  predicate IsHeader(line: Bytes) {
    && |line| >= 2 && line[|line| - 1] == 0x0A
    && (forall i :: 0 <= i < |line| - 1 ==> line[i] != 0x0A)
    && !IsBlank(line)
  }

  lemma {:induction false} LineOf(line: Bytes, rest: Bytes)
    requires line != [] && line[|line| - 1] == 0x0A && forall i :: 0 <= i < |line| - 1 ==> line[i] != 0x0A
    ensures LineLength(line + rest) == |line|
    ensures (line + rest)[..|line|] == line && (line + rest)[|line|..] == rest
  {
    if |line| > 1 {
      LineOf(line[1..], rest);
      assert (line + rest)[1..] == line[1..] + rest;
    }
  }

  lemma {:induction false} SkipHeader(line: Bytes, rest: Bytes, contentLength: nat, stops: Verdict, k: nat)
    requires IsHeader(line)
    ensures Bodies(line + rest, contentLength, stops, k)
         == Bodies(rest, if contentLength == 0 then ContentLengthOf(line) else contentLength, stops, k)
  {
    LineOf(line, rest);
  }

  lemma {:induction false} SkipHeaders(lines: seq<Bytes>, rest: Bytes, contentLength: nat, stops: Verdict, k: nat)
    requires forall i :: 0 <= i < |lines| ==> IsHeader(lines[i])
    requires contentLength == 0 ==> forall i :: 0 <= i < |lines| ==> ContentLengthOf(lines[i]) == 0
    ensures Bodies(Concat(lines) + rest, contentLength, stops, k) == Bodies(rest, contentLength, stops, k)
  {
    if lines == [] {
      assert Concat(lines) + rest == rest;
    } else {
      assert Concat(lines) + rest == lines[0] + (Concat(lines[1..]) + rest);
      SkipHeader(lines[0], Concat(lines[1..]) + rest, contentLength, stops, k);
      SkipHeaders(lines[1..], rest, contentLength, stops, k);
    }
  }

  lemma {:induction false} LengthHeader(d: Bytes)
    requires IsDigits(d)
    ensures IsHeader(CONTENT_LENGTH + d + CRLF) && ContentLengthOf(CONTENT_LENGTH + d + CRLF) == ParseNat(d)
  {
    var line, k := CONTENT_LENGTH + d + CRLF, |CONTENT_LENGTH|;
    assert line[..k] == CONTENT_LENGTH && line[|line| - 2..] == CRLF && line[k..|line| - 2] == d;
    assert !IsSpace(line[0]);
    assert forall i :: 0 <= i < k ==> line[i] != 0x0A;
  }

  /** A line of white space. */
  predicate IsBlankLine(line: Bytes) {
    && line != [] && line[|line| - 1] == 0x0A
    && forall i :: 0 <= i < |line| - 1 ==> line[i] in {0x20, 0x09, 0x0B, 0x0C, 0x0D}
  }

  /** The blank line and the body. */
  lemma {:induction false} ReadBody(blank: Bytes, body: Bytes, rest: Bytes, stops: Verdict, k: nat)
    requires IsBlankLine(blank) && body != []
    ensures Bodies(blank + (body + rest), |body|, stops, k)
         == [body] + if stops(k, body) then [] else Bodies(rest, 0, stops, k + 1)
  {
    LineOf(blank, body + rest);
    assert (body + rest)[..|body|] == body && (body + rest)[|body|..] == rest;
  }

  /** A stream that ends before the announced length: what there is is the body, and nothing is none. */
  lemma {:induction false} CutShort(blank: Bytes, length: nat, rest: Bytes, stops: Verdict, k: nat)
    requires IsBlankLine(blank) && |rest| < length
    ensures Bodies(blank + rest, length, stops, k) == if rest == [] then [] else [rest]
  {
    LineOf(blank, rest);
    assert rest[..|rest|] == rest && rest[|rest|..] == [];
    NothingLeft(stops, (_, _) => false);
  }

  /** Whatever other headers surround the length, in whatever order and with leading zeros, and whatever white space
      the blank line has, the loop hands over the body and goes on with what follows it. */
  lemma {:induction false} AnyHeaderBlock(before: seq<Bytes>, d: Bytes, after: seq<Bytes>, blank: Bytes, body: Bytes, rest: Bytes,
                                          stops: Verdict, k: nat)
    requires forall i :: 0 <= i < |before| ==> IsHeader(before[i]) && ContentLengthOf(before[i]) == 0
    requires forall i :: 0 <= i < |after| ==> IsHeader(after[i])
    requires IsDigits(d) && ParseNat(d) == |body| && IsBlankLine(blank) && body != []
    ensures Bodies(Concat(before) + ((CONTENT_LENGTH + d + CRLF) + (Concat(after) + (blank + (body + rest)))), 0, stops, k)
         == [body] + if stops(k, body) then [] else Bodies(rest, 0, stops, k + 1)
  {
    var tail := Concat(after) + (blank + (body + rest));
    SkipHeaders(before, (CONTENT_LENGTH + d + CRLF) + tail, 0, stops, k);
    LengthHeader(d);
    SkipHeader(CONTENT_LENGTH + d + CRLF, tail, 0, stops, k);
    SkipHeaders(after, blank + (body + rest), |body|, stops, k);
    ReadBody(blank, body, rest, stops, k);
  }

  predicate NoLineFeed(b: Bytes) {
    forall i :: 0 <= i < |b| ==> b[i] != 0x0A
  }

  lemma {:induction false} TypeHeader()
    ensures IsHeader(TYPE_HEADER + CRLF)
  {
    var name, separator := Ascii("Content-Type: "), Ascii("; charset=");
    assert NoLineFeed(name) && NoLineFeed(CONTENT_TYPE) && NoLineFeed(separator) && NoLineFeed(CHARSET);
    assert !IsSpace(name[0]) && (TYPE_HEADER + CRLF)[0] == name[0];
  }

  lemma {:induction false} FrameRead(body: Text, rest: Bytes, stops: Verdict, k: nat)
    requires IsAscii(body)
    ensures Bodies(Frame(body) + rest, 0, stops, k)
         == if body == [] then Bodies(rest, 0, stops, k)
            else [body] + if stops(k, body) then [] else Bodies(rest, 0, stops, k + 1)
  {
    hide Bodies, Digits, IsHeader, Ascii, IsAscii, Encode, ContentLengthOf, ParseNat;
    var d, typed := Digits(|body|), TYPE_HEADER + CRLF;
    LengthIsBytes(body);
    ParseDigits(|body|);
    TypeHeader();
    ConcatSingle(typed);
    var tail: Bytes := typed + (CRLF + (body + rest));
    assert Concat([typed]) + (CRLF + (body + rest)) == tail;
    assert Frame(body) + rest == (CONTENT_LENGTH + d + CRLF) + tail;
    assert Concat([]) + ((CONTENT_LENGTH + d + CRLF) + tail) == (CONTENT_LENGTH + d + CRLF) + tail;
    if body != [] {
      AnyHeaderBlock([], d, [typed], CRLF, body, rest, stops, k);
    } else {
      LengthHeader(d);
      SkipHeader(CONTENT_LENGTH + d + CRLF, tail, 0, stops, k);
      SkipTypeAndBlank(typed, body, rest, stops, k);
    }
  }

  lemma {:induction false} SkipBlank(rest: Bytes, stops: Verdict, k: nat)
    ensures Bodies(CRLF + rest, 0, stops, k) == Bodies(rest, 0, stops, k)
  {
    LineOf(CRLF, rest);
  }

  lemma {:induction false} TypeIsNoLength()
    ensures ContentLengthOf(TYPE_HEADER + CRLF) == 0
  {
    var line := TYPE_HEADER + CRLF;
    assert line[8] == Ascii("Content-Type: ")[8] != CONTENT_LENGTH[8];
    assert line[..|CONTENT_LENGTH|] != CONTENT_LENGTH;
  }

  lemma {:induction false} SkipTypeAndBlank(typed: Bytes, body: Bytes, rest: Bytes, stops: Verdict, k: nat)
    requires body == [] && IsHeader(typed) && typed == TYPE_HEADER + CRLF
    ensures Bodies(Concat([typed]) + (CRLF + (body + rest)), 0, stops, k) == Bodies(rest, 0, stops, k)
  {
    ConcatSingle(typed);
    hide Bodies, Ascii, ContentLengthOf, Concat;
    TypeIsNoLength();
    SkipHeader(typed, CRLF + (body + rest), 0, stops, k);
    assert body + rest == rest;
    SkipBlank(rest, stops, k);
  }

  function Stream(bodies: seq<Text>): Bytes {
    if bodies == [] then [] else Frame(bodies[0]) + Stream(bodies[1..])
  }

  /** The bodies that get through: all but the empty ones, up to the first that stops the loop. */
  function Delivered(bodies: seq<Text>, stops: Verdict, k: nat): seq<Bytes> {
    if bodies == [] then []
    else if bodies[0] == [] then Delivered(bodies[1..], stops, k)
    else [bodies[0]] + if stops(k, bodies[0]) then [] else Delivered(bodies[1..], stops, k + 1)
  }

  /** The loop, run on what `_send_data` wrote for a list of bodies, hands over exactly those bodies. */
  lemma {:induction false} FramingRoundTrip(bodies: seq<Text>, stops: Verdict, k: nat)
    requires forall i :: 0 <= i < |bodies| ==> IsAscii(bodies[i])
    ensures Bodies(Stream(bodies), 0, stops, k) == Delivered(bodies, stops, k)
  {
    if bodies != [] {
      FrameRead(bodies[0], Stream(bodies[1..]), stops, k);
      FramingRoundTrip(bodies[1..], stops, if bodies[0] == [] then k else k + 1);
    }
  }

  lemma {:induction false} NothingStops(bodies: seq<Text>, stops: Verdict, k: nat)
    requires forall i :: 0 <= i < |bodies| ==> bodies[i] != [] && !stops(k + i, bodies[i])
    ensures Delivered(bodies, stops, k) == bodies
  {
    if bodies != [] {
      assert !stops(k + 0, bodies[0]);
      forall i | 0 <= i < |bodies[1..]| ensures bodies[1..][i] != [] && !stops(k + 1 + i, bodies[1..][i]) {
        assert !stops(k + (i + 1), bodies[i + 1]);
      }
      NothingStops(bodies[1..], stops, k + 1);
    }
  }

  /** A body that stops the loop is the last one handed over. */
  lemma {:induction false} StopsAt(bodies: seq<Text>, stops: Verdict, k: nat, j: nat)
    requires j < |bodies| && stops(k + j, bodies[j]) && forall i :: 0 <= i < j ==> !stops(k + i, bodies[i])
    requires forall i :: 0 <= i <= j ==> bodies[i] != []
    ensures Delivered(bodies, stops, k) == bodies[..j + 1]
  {
    if j == 0 {
      assert bodies[..1] == [bodies[0]] && stops(k + 0, bodies[0]);
    } else {
      assert !stops(k + 0, bodies[0]);
      forall i | 0 <= i < j - 1 ensures !stops(k + 1 + i, bodies[1..][i]) {
        assert !stops(k + (i + 1), bodies[i + 1]);
      }
      assert stops(k + 1 + (j - 1), bodies[1..][j - 1]);
      StopsAt(bodies[1..], stops, k + 1, j - 1);
      assert [bodies[0]] + bodies[1..][..j] == bodies[..j + 1];
    }
  }

  /** Empty bodies are as if they had not been sent. */
  lemma {:induction false} EmptyBodies(a: seq<Text>, b: seq<Text>, stops: Verdict, k: nat)
    ensures Delivered(a + [[]] + b, stops, k) == Delivered(a + b, stops, k)
    decreases |a|
  {
    if a == [] {
      assert a + [[]] + b == [[]] + b && ([[]] + b)[1..] == b && a + b == b;
    } else {
      assert (a + [[]] + b)[1..] == a[1..] + [[]] + b && (a + b)[1..] == a[1..] + b;
      EmptyBodies(a[1..], b, stops, if a[0] == [] then k else k + 1);
    }
  }

  lemma {:induction false} StreamNext(bodies: seq<Text>, i: nat)
    requires i < |bodies|
    ensures Stream(bodies[i..]) == Frame(bodies[i]) + Stream(bodies[i + 1..])
  {
    assert bodies[i..][1..] == bodies[i + 1..];
  }

  /** The writer, message after message. */
  method SendAll(bodies: seq<Text>) returns (stream: Bytes)
    ensures stream == Stream(bodies)
  {
    hide Frame;
    stream := [];
    assert bodies[0..] == bodies && bodies[|bodies|..] == [];
    for i := 0 to |bodies|
      invariant stream + Stream(bodies[i..]) == Stream(bodies)
    {
      StreamNext(bodies, i);
      stream := stream + Frame(bodies[i]);
    }
  }

  /** One process writes the bodies and another reads them: every body is handed over, in order, those that raise
      are reported, and nothing is left in the stream. */
  method SendAndRead(bodies: seq<Text>, raises: Verdict) returns (handled: seq<Bytes>, reported: seq<Bytes>, left: Bytes)
    requires forall i :: 0 <= i < |bodies| ==> IsAscii(bodies[i]) && bodies[i] != []
    ensures handled == bodies && reported == Raising(bodies, raises) && left == []
  {
    hide Bodies, Stream, Delivered, Raising, IsAscii;
    var stream := SendAll(bodies);
    var reader := new Reader(stream);
    var protocol := new Dispatcher(raises, (_, _) => false);
    FramingRoundTrip(bodies, protocol.stops, 0);
    NothingStops(bodies, protocol.stops, 0);
    Run(reader, protocol);
    handled, reported, left := protocol.handled, protocol.reported, reader.data;
  }
}
