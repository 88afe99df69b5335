/** What HttpResponse prints, the header parser reads back. */
module HttpRoundTrip {
  import opened Bytes
  import opened Decimal
  import opened HttpRequestModule
  import opened HttpContextModule
  import opened HttpStreams
  import R = HttpResponseModule

  // A header that survives printing and reading: no colon in the key, no white space around
  // the value, no CRLF in either.
  ghost predicate Printable(h: R.Header) {
    ':' !in h.key && IsLine(h.key) && IsLine(h.value) && Trimmed(h.value)
  }

  // The text of a header without its CRLF
  function Text(h: R.Header): string {
    h.key + ": " + h.value
  }

  ghost function Texts(headers: seq<R.Header>): seq<string> {
    if headers == [] then [] else [Text(headers[0])] + Texts(headers[1..])
  }

  lemma TrimSpaced(v: string)
    requires Trimmed(v)
    ensures Trim(" " + v) == v
  {
    TrimLeftPadded(" ", v);
    if v != "" { assert TrimRight(v) == v; }
  }

  lemma TextIsField(h: R.Header)
    requires Printable(h)
    ensures IsField(Text(h)) && Find(Text(h), ':') == |h.key|
    ensures Text(h)[..|h.key|] == h.key && Trim(Text(h)[|h.key| + 1..]) == h.value
  {
    var s := Text(h);
    assert s[..|h.key|] == h.key;
    assert s[|h.key| + 1..] == " " + h.value;
    assert s[|h.key|] == ':';
    FindUnique(s, ':', |h.key|);
    TrimSpaced(h.value);
    forall i: nat ensures !CrlfAt(s, i) {
      if i + 1 < |h.key| { assert !CrlfAt(h.key, i); }
      var j := i - |h.key| - 2;
      if 0 <= j { assert !CrlfAt(h.value, j); }
    }
  }

  lemma {:induction false} TextsAreFields(headers: seq<R.Header>)
    requires forall h <- headers :: Printable(h)
    ensures forall f <- Texts(headers) :: IsField(f)
    ensures Lines(Texts(headers)) == R.HeaderLines(headers)
  {
    if headers != [] {
      assert headers[0] in headers;
      TextIsField(headers[0]);
      TextsAreFields(headers[1..]);
      ConsLines(Text(headers[0]), Texts(headers[1..]));
    }
  }

  lemma FieldsCons(m: map<string, string>, h: R.Header, rest: seq<string>)
    requires Printable(h)
    ensures Fields(m, [Text(h)] + rest) == Fields(m[h.key := h.value], rest)
  {
    TextIsField(h);
    var texts := [Text(h)] + rest;
    assert texts[0] == Text(h) && texts[1..] == rest;
  }

  lemma Overlay(m: map<string, string>, k: string, v: string, over: map<string, string>)
    ensures m[k := v] + over == m + (map[k := v] + over)
  {
  }

  lemma {:induction false} TextsFields(m: map<string, string>, headers: seq<R.Header>)
    requires forall h <- headers :: Printable(h)
    ensures Fields(m, Texts(headers)) == m + R.MapOf(headers)
    decreases |headers|
  {
    if headers == [] {
      assert m + R.MapOf(headers) == m;
    } else {
      var h := headers[0];
      assert h in headers;
      FieldsCons(m, h, Texts(headers[1..]));
      TextsFields(m[h.key := h.value], headers[1..]);
      Overlay(m, h.key, h.value, R.MapOf(headers[1..]));
    }
  }

  /** Header lines, the empty line and the body, read from kExpectHeader */
  lemma LinesReadBack(req: Request, headers: seq<R.Header>, body: string, time: int)
    requires forall h <- headers :: Printable(h)
    ensures Parse(ExpectHeader, req, R.HeaderLines(headers) + CRLF + body, time)
         == Parsed(true, GotAll, req.(headers := req.headers + R.MapOf(headers)), body)
  {
    TextsAreFields(headers);
    TextsFields(req.headers, headers);
    assert R.HeaderLines(headers) + "" + CRLF + body == R.HeaderLines(headers) + CRLF + body;
    HeadersAccepted(req, Texts(headers), "", body, time);
  }

  // The fields appendToBuffer writes itself, as it means them
  function BuiltinHeaders(r: R.Response): seq<R.Header> {
    if r.closeConnection then [R.Header("Connection", "close")]
    else [R.Header("Content-Length", Numeral(|r.body|)), R.Header("Connection", "Keep-Alive")]
  }

  // What the reader should find: the built-in fields, overlaid by headers_
  function Expected(r: R.Response): map<string, string> {
    R.MapOf(BuiltinHeaders(r)) + R.MapOf(r.headers)
  }

  lemma BuiltinPrintable(r: R.Response)
    ensures forall h <- BuiltinHeaders(r) :: Printable(h)
  {
    if r.closeConnection {
      ShortText("Connection", "close");
    } else {
      LengthPrintable(|r.body|);
      ShortText("Connection", "Keep-Alive");
    }
  }

  lemma LengthPrintable(length: nat)
    ensures Printable(R.Header("Content-Length", Numeral(length)))
  {
    NumeralCanonical(length);
    var n := Numeral(length);
    forall i | 0 <= i < |n| ensures n[i] != '\r' && !IsSpace(n[i]) {
      assert IsDigit(n[i]);
    }
    ShortText("Content-Length", n);
  }

  lemma ShortText(key: string, value: string)
    requires (forall c <- key :: c != ':' && c != '\r') && (forall c <- value :: c != '\r') && Trimmed(value)
    ensures Printable(R.Header(key, value))
  {
    forall i: nat ensures !CrlfAt(key, i) && !CrlfAt(value, i) {
      assert i < |key| ==> key[i] in key;
      assert i < |value| ==> value[i] in value;
    }
  }

  lemma TwoLines(a: R.Header, b: R.Header)
    ensures R.HeaderLines([a, b]) == R.HeaderLine(a) + R.HeaderLine(b)
    ensures R.MapOf([a, b]) == map[a.key := a.value] + map[b.key := b.value]
  {
    assert [a, b][1..] == [b] && [b][1..] == [];
    assert R.HeaderLines([b]) == R.HeaderLine(b) + R.HeaderLines([]);
    assert R.MapOf([b]) == map[b.key := b.value];
  }

  // The length line fits the 32-byte buffer
  lemma LengthFits(r: R.Response)
    requires r.closeConnection || |r.body| < Pow10(13)
    ensures R.Builtin(r) == R.HeaderLines(BuiltinHeaders(r))
  {
    if r.closeConnection {
      assert R.HeaderLine(R.Header("Connection", "close")) == "Connection: close\r\n";
      assert BuiltinHeaders(r)[1..] == [];
    } else {
      var n := Numeral(|r.body|);
      NumeralLength(|r.body|, 13);
      var length := R.Header("Content-Length", n);
      assert R.HeaderLine(length) == "Content-Length: " + n + CRLF;
      assert R.HeaderLine(R.Header("Connection", "Keep-Alive")) == "Connection: Keep-Alive\r\n";
      TwoLines(length, R.Header("Connection", "Keep-Alive"));
    }
  }

  lemma {:induction false} HeaderLinesAppend(a: seq<R.Header>, b: seq<R.Header>)
    ensures R.HeaderLines(a + b) == R.HeaderLines(a) + R.HeaderLines(b)
  {
    if a == [] {
      assert a + b == b;
    } else {
      assert (a + b)[1..] == a[1..] + b;
      HeaderLinesAppend(a[1..], b);
      R.Assoc(R.HeaderLine(a[0]), R.HeaderLines(a[1..]), R.HeaderLines(b));
    }
  }

  lemma {:induction false} MapOfAppend(a: seq<R.Header>, b: seq<R.Header>)
    ensures R.MapOf(a + b) == R.MapOf(a) + R.MapOf(b)
  {
    if a == [] {
      assert a + b == b;
    } else {
      assert (a + b)[1..] == a[1..] + b;
      MapOfAppend(a[1..], b);
      OverlayAssoc(map[a[0].key := a[0].value], R.MapOf(a[1..]), R.MapOf(b));
    }
  }

  lemma OverlayAssoc(a: map<string, string>, b: map<string, string>, c: map<string, string>)
    ensures (a + b) + c == a + (b + c)
  {
  }

  lemma ConsHeader(first: R.Header, headers: seq<R.Header>)
    ensures R.HeaderLines([first] + headers) == R.HeaderLine(first) + R.HeaderLines(headers)
    ensures R.MapOf([first] + headers) == map[first.key := first.value] + R.MapOf(headers)
  {
    assert ([first] + headers)[1..] == headers;
  }

  /** Round trip: dropping the status line of a printed response and reading the rest from
      kExpectHeader gives the built-in fields overlaid by the response's headers, and leaves
      exactly the body, when the content length has at most 13 digits. */
  lemma HeadersReadBack(req: Request, r: R.Response, time: int)
    requires forall h <- r.headers :: Printable(h)
    requires r.closeConnection || |r.body| < Pow10(13)
    ensures Parse(ExpectHeader, req, R.HeaderBlock(r), time)
         == Parsed(true, GotAll, req.(headers := req.headers + Expected(r)), r.body)
  {
    var all := BuiltinHeaders(r) + r.headers;
    BuiltinPrintable(r);
    LengthFits(r);
    HeaderLinesAppend(BuiltinHeaders(r), r.headers);
    MapOfAppend(BuiltinHeaders(r), r.headers);
    assert R.HeaderBlock(r) == R.HeaderLines(all) + CRLF + r.body;
    LinesReadBack(req, all, r.body, time);
  }

  // What is left of the length line when it is cut, run together with the next line
  function Garbled(r: R.Response): string
    requires |Numeral(|r.body|)| >= 14
  {
    (Numeral(|r.body|) + CRLF)[..15] + "Connection: Keep-Alive"
  }

  lemma LengthCut(r: R.Response)
    requires !r.closeConnection && |r.body| >= Pow10(13)
    ensures |Numeral(|r.body|)| >= 14 && R.Builtin(r) == "Content-Length: " + Garbled(r) + CRLF
  {
    var n := Numeral(|r.body|);
    NumeralLength(|r.body|, 13);
    var full := "Content-Length: " + n + CRLF;
    assert full == "Content-Length: " + (n + CRLF);
    assert full[..31] == "Content-Length: " + (n + CRLF)[..15];
  }

  lemma GarbledPrintable(r: R.Response)
    requires |Numeral(|r.body|)| >= 14
    ensures Printable(R.Header("Content-Length", Garbled(r))) && Garbled(r) != Numeral(|r.body|)
  {
    var n, g := Numeral(|r.body|), Garbled(r);
    NumeralCanonical(|r.body|);
    assert g[0] == n[0] && g[|g| - 1] == 'e' && !IsSpace(g[0]);
    assert forall i | 0 <= i < |g| && i != 14 :: g[i] != '\r';
    assert g[15] == 'C';
    forall i: nat ensures !CrlfAt(g, i) {}
    assert forall c <- "Content-Length" :: c != ':' && c != '\r';
    ShortText("Content-Length", "");
    assert IsDigit(n[|n| - 1]) && !IsDigit(g[|g| - 1]);
  }

  lemma GarbledBlock(r: R.Response)
    requires !r.closeConnection && |r.body| >= Pow10(13)
    ensures |Numeral(|r.body|)| >= 14
    ensures R.HeaderBlock(r) == R.HeaderLines([R.Header("Content-Length", Garbled(r))] + r.headers) + CRLF + r.body
  {
    LengthCut(r);
    var first := R.Header("Content-Length", Garbled(r));
    ConsHeader(first, r.headers);
    R.Assoc("Content-Length", ": ", Garbled(r));
    assert R.HeaderLine(first) == R.Builtin(r);
  }

  // What the reader finds when the length line has been cut
  lemma GarbledReadBack(r: R.Response, time: int)
    requires forall h <- r.headers :: Printable(h)
    requires !r.closeConnection && |r.body| >= Pow10(13)
    ensures |Numeral(|r.body|)| >= 14
    ensures Parse(ExpectHeader, EMPTY_REQUEST, R.HeaderBlock(r), time)
         == Parsed(true, GotAll, EMPTY_REQUEST.(headers := map["Content-Length" := Garbled(r)] + R.MapOf(r.headers)),
             r.body)
  {
    GarbledBlock(r);
    GarbledPrintable(r);
    var first := R.Header("Content-Length", Garbled(r));
    ConsHeader(first, r.headers);
    LinesReadBack(EMPTY_REQUEST, [first] + r.headers, r.body, time);
    assert map[] + R.MapOf([first] + r.headers) == R.MapOf([first] + r.headers);
  }

  /** The exact condition: a keep-alive response whose length has more than 13 digits is
      read back correctly only if its own headers replace both built-in fields. */
  lemma ReadBackExactly(r: R.Response, time: int)
    requires forall h <- r.headers :: Printable(h)
    ensures Parse(ExpectHeader, EMPTY_REQUEST, R.HeaderBlock(r), time)
         == Parsed(true, GotAll, EMPTY_REQUEST.(headers := Expected(r)), r.body)
        <==> || r.closeConnection || |r.body| < Pow10(13)
             || ("Content-Length" in R.MapOf(r.headers) && "Connection" in R.MapOf(r.headers))
  {
    if r.closeConnection || |r.body| < Pow10(13) {
      HeadersReadBack(EMPTY_REQUEST, r, time);
      assert map[] + Expected(r) == Expected(r);
    } else {
      GarbledReadBack(r, time);
      GarbledPrintable(r);
      var own := R.MapOf(r.headers);
      var n := Numeral(|r.body|);
      TwoLines(R.Header("Content-Length", n), R.Header("Connection", "Keep-Alive"));
      OverlayEqual("Content-Length", Garbled(r), n, "Connection", "Keep-Alive", own);
    }
  }

  lemma OverlayEqual(k1: string, v: string, v1: string, k2: string, v2: string, own: map<string, string>)
    requires k1 != k2 && v != v1
    ensures map[k1 := v] + own == map[k1 := v1] + map[k2 := v2] + own <==> k1 in own && k2 in own
  {
    var a, b := map[k1 := v] + own, map[k1 := v1] + map[k2 := v2] + own;
    if k1 !in own { assert a[k1] == v && b[k1] == v1; }
    if k2 !in own { assert k2 !in a && k2 in b; }
  }

  // ---------- the status line ----------

  datatype Status = Unreadable | Status(code: int, message: string, rest: string)

  // A reader of status lines: the version, a signed numeral, the message, and what follows the
  // line
  function ReadStatus(text: string): Status {
    var k := FindCrlf(text);
    if k < |text| && k >= 9 && text[..9] == "HTTP/1.1 " then
      var words := text[9..k];
      var space := Find(words, ' ');
      if space < |words| && CanonicalSigned(words[..space])
      then Status(SignedValue(words[..space]), words[space + 1..], text[k + 2..])
      else Unreadable
    else Unreadable
  }

  predicate IsInt32(code: int) {
    -0x8000_0000 <= code < 0x8000_0000
  }

  lemma CodeFits(code: int)
    requires IsInt32(code)
    ensures |Signed(code)| <= 11 && forall c <- Signed(code) :: c == '-' || IsDigit(c)
  {
    var n := if code < 0 then -code else code;
    NumeralCanonical(n);
    NumeralLength(n, 10);
  }

  lemma StatusLineParts(r: R.Response)
    requires IsInt32(r.statusCode)
    ensures R.StatusLine(r) == "HTTP/1.1 " + (Signed(r.statusCode) + " " + r.statusMessage) + CRLF
  {
    CodeFits(r.statusCode);
    var words := Signed(r.statusCode) + " " + r.statusMessage;
    assert "HTTP/1.1 " + Signed(r.statusCode) + " " + r.statusMessage == "HTTP/1.1 " + words;
  }

  // Two words behind the version, with no CRLF in the second
  lemma WordsRead(code: int, message: string, rest: string)
    requires IsInt32(code) && IsLine(message)
    ensures ReadStatus("HTTP/1.1 " + (Signed(code) + " " + message) + CRLF + rest) == Status(code, message, rest)
  {
    var words := Signed(code) + " " + message;
    var line := "HTTP/1.1 " + words;
    CodeFits(code);
    SignedRoundTrip(code);
    WordsAreLine(Signed(code), message);
    LineEnds(line, rest);
    var text := line + CRLF + rest;
    assert text[..9] == "HTTP/1.1 ";
    assert text[9..|line|] == words;
    FirstSpace(Signed(code), message);
  }

  lemma WordsAreLine(word: string, message: string)
    requires IsLine(message) && forall c <- word :: c == '-' || IsDigit(c)
    ensures IsLine("HTTP/1.1 " + (word + " " + message))
  {
    var line := "HTTP/1.1 " + (word + " " + message);
    forall i: nat ensures !CrlfAt(line, i) {
      var j := i - 10 - |word|;
      if 0 <= j {
        assert !CrlfAt(message, j);
      } else if 9 <= i < 9 + |word| {
        assert line[i] == word[i - 9] && word[i - 9] in word;
      }
    }
  }

  // What is read is part of a line.
  lemma MessageIsLine(text: string)
    requires ReadStatus(text).Status?
    ensures IsLine(ReadStatus(text).message)
  {
    var k, message := FindCrlf(text), ReadStatus(text).message;
    forall i: nat ensures !CrlfAt(message, i) {
      var start := k - |message|;
      assert forall j | 0 <= j < |message| :: message[j] == text[start + j];
      assert i < |message| ==> !CrlfAt(text, start + i);
    }
  }

  /** Round trip: the status line printed for any 32-bit code reads back as the code, the
      message and whatever follows the line, exactly if the message holds no CRLF. */
  lemma StatusReadBack(r: R.Response, rest: string)
    requires IsInt32(r.statusCode)
    ensures ReadStatus(R.StatusLine(r) + rest) == Status(r.statusCode, r.statusMessage, rest)
        <==> IsLine(r.statusMessage)
  {
    StatusLineParts(r);
    if IsLine(r.statusMessage) {
      WordsRead(r.statusCode, r.statusMessage, rest);
    }
    if ReadStatus(R.StatusLine(r) + rest) == Status(r.statusCode, r.statusMessage, rest) {
      MessageIsLine(R.StatusLine(r) + rest);
    }
  }

  // What a client makes of a whole answer
  predicate ReadsAs(text: string, code: int, message: string, headers: map<string, string>, body: string) {
    var s := ReadStatus(text);
    && s.Status? && s.code == code && s.message == message
    && Parse(ExpectHeader, EMPTY_REQUEST, s.rest, 0)
       == Parsed(true, GotAll, EMPTY_REQUEST.(headers := headers), body)
  }

  // A response that survives printing and reading
  ghost predicate PrintableResponse(r: R.Response) {
    && (forall h <- r.headers :: Printable(h))
    && (r.closeConnection || |r.body| < Pow10(13))
    && IsInt32(r.statusCode) && IsLine(r.statusMessage)
  }

  lemma PartsRead(text: string, status: Status, headers: map<string, string>, body: string)
    requires status.Status? && ReadStatus(text) == status
    requires Parse(ExpectHeader, EMPTY_REQUEST, status.rest, 0)
          == Parsed(true, GotAll, EMPTY_REQUEST.(headers := map[] + headers), body)
    ensures ReadsAs(text, status.code, status.message, headers, body)
  {
    assert map[] + headers == headers;
  }

  /** A whole printed response reads back as its code, its message, the built-in fields
      overlaid by its headers, and its body. */
  lemma ResponseReadBack(r: R.Response)
    requires PrintableResponse(r)
    ensures ReadsAs(R.StatusLine(r) + R.HeaderBlock(r), r.statusCode, r.statusMessage, Expected(r), r.body)
  {
    var block := R.HeaderBlock(r);
    StatusReadBack(r, block);
    HeadersReadBack(EMPTY_REQUEST, r, 0);
    PartsRead(R.StatusLine(r) + block, Status(r.statusCode, r.statusMessage, block), Expected(r), r.body);
  }
}
