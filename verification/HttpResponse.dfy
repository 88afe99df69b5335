/** HttpResponse: printing a response into a Buffer. */
module HttpResponseModule {
  import opened Bytes
  import opened BufferModule
  import opened Decimal

  datatype Header = Header(key: string, value: string)

  datatype Response = Response(headers: seq<Header>, statusCode: int, statusMessage: string,
                               closeConnection: bool, body: string)

  // ---------- the ordered map headers_ ----------

  predicate LexLess(a: string, b: string) {
    b != "" && (a == "" || a[0] < b[0] || (a[0] == b[0] && LexLess(a[1..], b[1..])))
  }

  // The two agree up to k, where the first one ends or has the smaller character.
  ghost predicate LessAt(a: string, b: string, k: nat) {
    && k <= |a| && k < |b| && a[..k] == b[..k]
    && (k < |a| ==> a[k] < b[k])
  }

  /** The keys are in dictionary order. */
  lemma {:induction false} LexMeaning(a: string, b: string)
    ensures LexLess(a, b) <==> exists k: nat :: LessAt(a, b, k)
  {
    if b == "" {
    } else if a == "" || a[0] < b[0] {
      assert LessAt(a, b, 0);
    } else {
      LexMeaning(a[1..], b[1..]);
      forall k: nat ensures LessAt(a, b, k + 1) <==> a[0] == b[0] && LessAt(a[1..], b[1..], k) {
        LessTail(a, b, k);
      }
      if a[0] == b[0] && LexLess(a[1..], b[1..]) {
        var k: nat :| LessAt(a[1..], b[1..], k);
        assert LessAt(a, b, k + 1);
      }
      if k: nat :| LessAt(a, b, k) {
        assert LessAt(a, b, k - 1 + 1);
        assert LessAt(a[1..], b[1..], k - 1);
      }
    }
  }

  lemma LessTail(a: string, b: string, k: nat)
    requires a != "" && b != ""
    ensures LessAt(a, b, k + 1) <==> a[0] == b[0] && LessAt(a[1..], b[1..], k)
  {
    if k < |a| && k < |b| {
      assert a[..k + 1] == [a[0]] + a[1..][..k] && b[..k + 1] == [b[0]] + b[1..][..k];
    }
  }

  lemma {:induction false} LexTrichotomy(a: string, b: string)
    ensures LexLess(a, b) || a == b || LexLess(b, a)
  {
    if a != "" && b != "" && a[0] == b[0] {
      LexTrichotomy(a[1..], b[1..]);
      assert a == [a[0]] + a[1..] && b == [b[0]] + b[1..];
    }
  }

  lemma {:induction false} LexTransitive(a: string, b: string, c: string)
    requires LexLess(a, b) && LexLess(b, c)
    ensures LexLess(a, c)
  {
    if a != "" && a[0] == b[0] == c[0] {
      LexTransitive(a[1..], b[1..], c[1..]);
    }
  }

  lemma {:induction false} LexIrreflexive(a: string)
    ensures !LexLess(a, a)
  {
    if a != "" {
      LexIrreflexive(a[1..]);
    }
  }

  ghost predicate Ordered(headers: seq<Header>) {
    forall i, j | 0 <= i < j < |headers| :: LexLess(headers[i].key, headers[j].key)
  }

  // The map the pairs stand for
  function MapOf(headers: seq<Header>): map<string, string> {
    if headers == [] then map[] else map[headers[0].key := headers[0].value] + MapOf(headers[1..])
  }

  ghost predicate DistinctKeys(headers: seq<Header>) {
    forall i, j | 0 <= i < j < |headers| :: headers[i].key != headers[j].key
  }

  lemma OrderedDistinct(headers: seq<Header>)
    requires Ordered(headers)
    ensures DistinctKeys(headers)
  {
    forall i, j | 0 <= i < j < |headers| ensures headers[i].key != headers[j].key {
      LexIrreflexive(headers[i].key);
    }
  }

  predicate Maps(m: map<string, string>, k: string, v: string) {
    k in m && m[k] == v
  }

  lemma {:induction false} MapOfMeaning(headers: seq<Header>, k: string, v: string)
    requires DistinctKeys(headers)
    ensures Maps(MapOf(headers), k, v) <==> Header(k, v) in headers
  {
    if headers != [] {
      var tail := headers[1..];
      assert headers == [headers[0]] + tail;
      MapOfMeaning(tail, k, v);
      if k in MapOf(tail) {
        MapOfMeaning(tail, k, MapOf(tail)[k]);
        var i :| 0 <= i < |tail| && tail[i] == Header(k, MapOf(tail)[k]);
        assert headers[i + 1].key == k;
      }
    }
  }

  // The two lists hold the same pairs, but for the one with the key.
  lemma SameMap(h: seq<Header>, h': seq<Header>, key: string, value: string)
    requires DistinctKeys(h) && DistinctKeys(h')
    requires forall x :: x in h' <==> x == Header(key, value) || (x in h && x.key != key)
    ensures MapOf(h') == MapOf(h)[key := value]
  {
    var m, m' := MapOf(h)[key := value], MapOf(h');
    forall k, v ensures Maps(m, k, v) <==> Maps(m', k, v) {
      MapOfMeaning(h, k, v);
      MapOfMeaning(h', k, v);
    }
    forall k <- m ensures k in m' && m'[k] == m[k] { assert Maps(m, k, m[k]); }
    forall k <- m' ensures k in m { assert Maps(m', k, m'[k]); }
  }

  lemma ReplacedMap(headers: seq<Header>, k: nat, value: string)
    requires Ordered(headers) && k < |headers|
    ensures var h' := headers[k := Header(headers[k].key, value)];
            Ordered(h') && MapOf(h') == MapOf(headers)[headers[k].key := value]
  {
    var key := headers[k].key;
    var h' := headers[k := Header(key, value)];
    OrderedDistinct(headers);
    OrderedDistinct(h');
    forall x ensures x in h' <==> x == Header(key, value) || (x in headers && x.key != key) {
      if x in headers && x.key != key {
        var i :| 0 <= i < |headers| && headers[i] == x;
        assert h'[i] == x;
      }
      if x in h' {
        var i :| 0 <= i < |h'| && h'[i] == x;
        assert i != k ==> headers[i] == x;
      }
      assert h'[k] == Header(key, value);
    }
    SameMap(headers, h', key, value);
  }

  lemma InsertedOrdered(headers: seq<Header>, k: nat, x: Header)
    requires Ordered(headers) && k <= |headers|
    requires forall i | 0 <= i < k :: LexLess(headers[i].key, x.key)
    requires k < |headers| ==> !LexLess(headers[k].key, x.key) && headers[k].key != x.key
    ensures Ordered(headers[..k] + [x] + headers[k..])
    ensures forall y <- headers :: y.key != x.key
  {
    var h' := headers[..k] + [x] + headers[k..];
    forall i | k <= i < |headers| ensures LexLess(x.key, headers[i].key) {
      LexTrichotomy(x.key, headers[k].key);
      if i > k { LexTransitive(x.key, headers[k].key, headers[i].key); }
    }
    forall i, j | 0 <= i < j < |h'| ensures LexLess(h'[i].key, h'[j].key) {
      assert h'[i] == if i < k then headers[i] else if i == k then x else headers[i - 1];
      assert h'[j] == if j < k then headers[j] else if j == k then x else headers[j - 1];
    }
    LexIrreflexive(x.key);
  }

  lemma InMiddle<T>(s: seq<T>, k: nat, x: T, y: T)
    requires k <= |s|
    ensures y in s[..k] + [x] + s[k..] <==> y == x || y in s
  {
    assert s == s[..k] + s[k..];
  }

  lemma InsertedMap(headers: seq<Header>, k: nat, x: Header)
    requires Ordered(headers) && k <= |headers|
    requires forall i | 0 <= i < k :: LexLess(headers[i].key, x.key)
    requires k < |headers| ==> !LexLess(headers[k].key, x.key) && headers[k].key != x.key
    ensures var h' := headers[..k] + [x] + headers[k..];
            Ordered(h') && MapOf(h') == MapOf(headers)[x.key := x.value]
  {
    var h' := headers[..k] + [x] + headers[k..];
    InsertedOrdered(headers, k, x);
    OrderedDistinct(headers);
    OrderedDistinct(h');
    forall y ensures y in h' <==> y == x || y in headers {
      InMiddle(headers, k, x, y);
    }
    SameMap(headers, h', x.key, x.value);
  }

  // ---------- printing ----------

  const BUF_SIZE := 32

  // snprintf into the 32-byte buffer
  function Cut(s: string): string {
    if |s| > BUF_SIZE - 1 then s[..BUF_SIZE - 1] else s
  }

  function StatusLine(r: Response): string {
    Cut("HTTP/1.1 " + Signed(r.statusCode) + " ") + r.statusMessage + CRLF
  }

  function Builtin(r: Response): string {
    if r.closeConnection then "Connection: close\r\n"
    else Cut("Content-Length: " + Numeral(|r.body|) + CRLF) + "Connection: Keep-Alive\r\n"
  }

  function HeaderLine(h: Header): string {
    h.key + ": " + h.value + CRLF
  }

  function HeaderLines(headers: seq<Header>): string {
    if headers == [] then "" else HeaderLine(headers[0]) + HeaderLines(headers[1..])
  }

  // Everything after the status line
  function HeaderBlock(r: Response): string {
    Builtin(r) + HeaderLines(r.headers) + CRLF + r.body
  }

  class HttpResponse {
    var headers: seq<Header>
    var statusCode: int
    var statusMessage: string
    var closeConnection: bool
    var body: string

    function Value(): Response
      reads this
    {
      Response(headers, statusCode, statusMessage, closeConnection, body)
    }

    ghost predicate Valid()
      reads this
    {
      Ordered(headers)
    }

    constructor (close: bool)
      ensures Valid() && Value() == Response([], 0, "", close, "")
    {
      headers, statusCode, statusMessage, closeConnection, body := [], 0, "", close, "";
    }

    // What the request callback does with its setters
    method Fill(r: Response)
      modifies this
      ensures Value() == r
    {
      headers, statusCode, statusMessage, closeConnection, body :=
        r.headers, r.statusCode, r.statusMessage, r.closeConnection, r.body;
    }

    /** addHeader: headers_[key] = value, keeping the keys in order */
    method AddHeader(key: string, value: string)
      requires Valid()
      modifies this`headers
      ensures Valid() && MapOf(headers) == MapOf(old(headers))[key := value]
    {
      var k := 0;
      while k < |headers| && LexLess(headers[k].key, key)
        invariant k <= |headers|
        invariant forall i | 0 <= i < k :: LexLess(headers[i].key, key)
      {
        k := k + 1;
      }
      if k < |headers| && headers[k].key == key {
        ReplacedMap(headers, k, value);
        headers := headers[k := Header(key, value)];
      } else {
        InsertedMap(headers, k, Header(key, value));
        headers := headers[..k] + [Header(key, value)] + headers[k..];
      }
    }

    method AppendToBuffer(output: Buffer)
      requires output.Valid()
      modifies output, output.buffer
      ensures output.Valid() && (output.buffer == old(output.buffer) || fresh(output.buffer))
      ensures output.Contents() == old(output.Contents()) + StatusLine(Value()) + HeaderBlock(Value())
    {
      AppendStatus(output);
      ghost var start := output.Contents();
      AppendHeaders(output);
      output.Append(CRLF);
      output.Append(body);
      Assoc(start, Builtin(Value()), HeaderLines(headers));
      Assoc(start, Builtin(Value()) + HeaderLines(headers), CRLF);
      Assoc(start, Builtin(Value()) + HeaderLines(headers) + CRLF, body);
    }

    method AppendStatus(output: Buffer)
      requires output.Valid()
      modifies output, output.buffer
      ensures output.Valid() && (output.buffer == old(output.buffer) || fresh(output.buffer))
      ensures output.Contents() == old(output.Contents()) + StatusLine(Value())
    {
      ghost var start := output.Contents();
      var status := Cut("HTTP/1.1 " + Signed(statusCode) + " ");
      output.Append(status);
      output.Append(statusMessage);
      output.Append(CRLF);
      Assoc(start, status, statusMessage);
      Assoc(start, status + statusMessage, CRLF);
    }

    method AppendHeaders(output: Buffer)
      requires output.Valid()
      modifies output, output.buffer
      ensures output.Valid() && (output.buffer == old(output.buffer) || fresh(output.buffer))
      ensures output.Contents() == old(output.Contents()) + Builtin(Value()) + HeaderLines(headers)
    {
      AppendBuiltin(output);
      ghost var start := output.Contents();
      assert headers[0..] == headers;
      for i := 0 to |headers|
        invariant output.Valid() && (output.buffer == old(output.buffer) || fresh(output.buffer))
        invariant start + HeaderLines(headers) == output.Contents() + HeaderLines(headers[i..])
      {
        ghost var before := output.Contents();
        assert headers[i..][1..] == headers[i + 1..];
        AppendHeader(output, headers[i]);
        Assoc(before, HeaderLine(headers[i]), HeaderLines(headers[i + 1..]));
      }
    }

    method AppendHeader(output: Buffer, h: Header)
      requires output.Valid()
      modifies output, output.buffer
      ensures output.Valid() && (output.buffer == old(output.buffer) || fresh(output.buffer))
      ensures output.Contents() == old(output.Contents()) + HeaderLine(h)
    {
      ghost var start := output.Contents();
      output.Append(h.key);
      output.Append(": ");
      output.Append(h.value);
      output.Append(CRLF);
      Assoc(start, h.key, ": ");
      Assoc(start, h.key + ": ", h.value);
      Assoc(start, h.key + ": " + h.value, CRLF);
    }

    method AppendBuiltin(output: Buffer)
      requires output.Valid()
      modifies output, output.buffer
      ensures output.Valid() && (output.buffer == old(output.buffer) || fresh(output.buffer))
      ensures output.Contents() == old(output.Contents()) + Builtin(Value())
    {
      if closeConnection {
        output.Append("Connection: close\r\n");
      } else {
        ghost var start := output.Contents();
        var length := Cut("Content-Length: " + Numeral(|body|) + CRLF);
        output.Append(length);
        output.Append("Connection: Keep-Alive\r\n");
        Assoc(start, length, "Connection: Keep-Alive\r\n");
      }
    }
  }

  lemma Assoc(a: string, b: string, c: string)
    ensures (a + b) + c == a + (b + c)
  {
  }
}
