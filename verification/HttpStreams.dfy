/** What the parser means: it does not matter how the bytes arrive, and what it accepts is
    exactly a request line and header lines. */
module HttpStreams {
  import opened Bytes
  import opened HttpRequestModule
  import opened HttpContextModule

  // ---------- independence of the chunks ----------

  datatype Chunk = Chunk(bytes: string, time: int)

  /** What the first message that decides the request brings about; `rest` is what is then
      still unread. */
  datatype Outcome =
    | Incomplete(state: ParseState, request: Request, rest: string)
    | Failed(request: Request, rest: string)
    | Complete(request: Request, rest: string)

  function Joined(chunks: seq<Chunk>): string {
    if chunks == [] then "" else chunks[0].bytes + Joined(chunks[1..])
  }

  function Decide(r: Parsed, later: string): Outcome {
    if !r.ok then Failed(r.request, r.rest + later)
    else if r.state == GotAll then Complete(r.request, r.rest + later)
    else Incomplete(r.state, r.request, r.rest + later)
  }

  /** onMessage is called with each chunk appended to the buffer, until the request is
      decided. */
  function Feed(state: ParseState, req: Request, buffer: string, chunks: seq<Chunk>): Outcome
    requires Parsing(state)
    decreases |chunks|
  {
    if chunks == [] then Incomplete(state, req, buffer)
    else
      var r := Parse(state, req, buffer + chunks[0].bytes, chunks[0].time);
      if r.ok && Parsing(r.state) then Feed(r.state, r.request, r.rest, chunks[1..])
      else Decide(r, Joined(chunks[1..]))
  }

  function Untimed(req: Request): Request { req.(receiveTime := 0) }

  function UntimedOutcome(o: Outcome): Outcome { o.(request := Untimed(o.request)) }

  function UntimedParsed(r: Parsed): Parsed { r.(request := Untimed(r.request)) }

  // The time only goes into the receive time.
  ghost predicate TimeBlind(take: LineHandler) {
    forall state, req, line, time ::
      take(state, Untimed(req), line, 0) == var t := take(state, req, line, time); t.(request := Untimed(t.request))
  }

  lemma TakeLineTimeBlind()
    ensures TimeBlind(TakeLine)
  {
    forall state, req, line, time
      ensures TakeLine(state, Untimed(req), line, 0)
           == var t := TakeLine(state, req, line, time); t.(request := Untimed(t.request))
    {
    }
  }

  lemma {:induction false} ParseUntimed(take: LineHandler, state: ParseState, req: Request, bytes: string, time: int)
    requires TimeBlind(take)
    ensures UntimedParsed(ParseLines(take, state, req, bytes, time)) == ParseLines(take, state, Untimed(req), bytes, 0)
    decreases |bytes|
  {
    var k := FindCrlf(bytes);
    if k < |bytes| {
      var t := take(state, req, bytes[..k], time);
      assert take(state, Untimed(req), bytes[..k], 0) == t.(request := Untimed(t.request));
      if t.More? { ParseUntimed(take, ExpectHeader, t.request, bytes[k + 2..], time); }
    }
  }

  lemma FindCrlfAppend(a: string, b: string)
    requires FindCrlf(a) < |a|
    ensures FindCrlf(a + b) == FindCrlf(a)
    ensures var k := FindCrlf(a); (a + b)[..k] == a[..k] && (a + b)[k + 2..] == a[k + 2..] + b
  {
    var k := FindCrlf(a);
    forall i: nat | i < k ensures !CrlfAt(a + b, i) {
      assert !CrlfAt(a, i);
    }
    FindCrlfUnique(a + b, k);
  }

  lemma FirstLineAppend(take: LineHandler, state: ParseState, req: Request, a: string, b: string)
    requires FindCrlf(a) < |a|
    ensures var k := FindCrlf(a);
            var t := take(state, req, a[..k], 0);
            ParseLines(take, state, req, a + b, 0) ==
              if t.More? then ParseLines(take, ExpectHeader, t.request, a[k + 2..] + b, 0)
              else if t.Done? then Parsed(true, GotAll, t.request, a[k + 2..] + b)
              else Parsed(false, ExpectRequestLine, t.request, a + b)
  {
    FindCrlfAppend(a, b);
  }

  /** Parsing a first part and then, from where that stopped, the rest gives what parsing
      everything at once gives. */
  lemma {:induction false} ParseAppend(take: LineHandler, state: ParseState, req: Request, a: string, b: string)
    requires Parsing(state)
    ensures var r := ParseLines(take, state, req, a, 0);
            ParseLines(take, state, req, a + b, 0) ==
              if r.ok && Parsing(r.state) then ParseLines(take, r.state, r.request, r.rest + b, 0)
              else r.(rest := r.rest + b)
    decreases |a|
  {
    var k := FindCrlf(a);
    if k < |a| {
      FirstLineAppend(take, state, req, a, b);
      var t := take(state, req, a[..k], 0);
      if t.More? { ParseAppend(take, ExpectHeader, t.request, a[k + 2..], b); }
    }
  }

  lemma {:induction false} ParseLeaves(take: LineHandler, state: ParseState, req: Request, bytes: string, time: int)
    requires Parsing(state)
    ensures var r := ParseLines(take, state, req, bytes, time);
            && (r.ok ==> Parsing(r.state) || r.state == GotAll)
            && (!r.ok ==> r.state == ExpectRequestLine)
            && (r.ok && Parsing(r.state) ==> FindCrlf(r.rest) == |r.rest|)
    decreases |bytes|
  {
    var k := FindCrlf(bytes);
    if k < |bytes| {
      var t := take(state, req, bytes[..k], time);
      if t.More? { ParseLeaves(take, ExpectHeader, t.request, bytes[k + 2..], time); }
    }
  }

  // ParseAppend, whatever the times
  lemma Resume(state: ParseState, req: Request, first: string, later: string, time: int, time': int)
    requires Parsing(state)
    ensures var r := Parse(state, req, first, time);
            UntimedParsed(Parse(state, req, first + later, time')) ==
              if r.ok && Parsing(r.state) then UntimedParsed(Parse(r.state, r.request, r.rest + later, 0))
              else UntimedParsed(r.(rest := r.rest + later))
  {
    var r := Parse(state, req, first, time);
    TakeLineTimeBlind();
    ParseUntimed(TakeLine, state, req, first + later, time');
    ParseUntimed(TakeLine, state, req, first, time);
    ParseAppend(TakeLine, state, Untimed(req), first, later);
    if r.ok && Parsing(r.state) {
      ParseUntimed(TakeLine, r.state, r.request, r.rest + later, 0);
    }
  }

  /** However a stream is cut into messages, the first outcome, the request (apart from the
      receive time) and the bytes not consumed are those of one parse of the whole stream. */
  lemma {:induction false} ChunksDoNotMatter(state: ParseState, req: Request, buffer: string, chunks: seq<Chunk>,
      time: int)
    requires Parsing(state) && FindCrlf(buffer) == |buffer|
    ensures UntimedOutcome(Feed(state, req, buffer, chunks))
         == UntimedOutcome(Decide(Parse(state, req, buffer + Joined(chunks), time), ""))
    decreases |chunks|
  {
    if chunks == [] {
      assert buffer + Joined(chunks) == buffer;
    } else {
      var first, later := buffer + chunks[0].bytes, Joined(chunks[1..]);
      assert buffer + Joined(chunks) == first + later;
      var r := Parse(state, req, first, chunks[0].time);
      Resume(state, req, first, later, chunks[0].time, time);
      ParseLeaves(TakeLine, state, req, first, chunks[0].time);
      if r.ok && Parsing(r.state) {
        ChunksDoNotMatter(r.state, r.request, r.rest, chunks[1..], 0);
      }
      DecideUntimed(Parse(state, req, first + later, time),
                    if r.ok && Parsing(r.state) then Parse(r.state, r.request, r.rest + later, 0)
                    else r.(rest := r.rest + later));
    }
  }

  lemma DecideUntimed(p: Parsed, p': Parsed)
    requires UntimedParsed(p) == UntimedParsed(p')
    ensures UntimedOutcome(Decide(p, "")) == UntimedOutcome(Decide(p', ""))
  {
  }

  /** A parse that fails leaves the request line in the buffer and is not complete. A method has
      then been set, so that setMethod's assert fails at the next call, exactly if the failed
      line starts with a known method followed by a space. */
  lemma AfterFailure(req: Request, bytes: string, time: int)
    requires req.verb == Invalid && !Parse(ExpectRequestLine, req, bytes, time).ok
    ensures var r := Parse(ExpectRequestLine, req, bytes, time);
            && r.state == ExpectRequestLine && r.rest == bytes
            && var line := bytes[..FindCrlf(bytes)]; var space := Find(line, ' ');
               (r.request.verb == Invalid <==> space == |line| || MethodOf(line[..space]) == Invalid)
  {
    var k := FindCrlf(bytes);
    var r := ProcessRequestLine(req, bytes[..k]);
    if r.ok {
      HeadersNeverFail(r.request.(receiveTime := time), bytes[k + 2..], time);
    } else {
      FailedLine(req, bytes[..k]);
    }
  }

  lemma FailedLine(req: Request, line: string)
    requires req.verb == Invalid && !ProcessRequestLine(req, line).ok
    ensures ProcessRequestLine(req, line).request.verb == Invalid
            <==> Find(line, ' ') == |line| || MethodOf(line[..Find(line, ' ')]) == Invalid
  {
  }

  lemma {:induction false} HeadersNeverFail(req: Request, bytes: string, time: int)
    ensures Parse(ExpectHeader, req, bytes, time).ok
    decreases |bytes|
  {
    var k := FindCrlf(bytes);
    if k < |bytes| && Find(bytes[..k], ':') < k {
      HeadersNeverFail(AddHeader(req, bytes[..k]), bytes[k + 2..], time);
    }
  }

  // ---------- the grammar ----------

  // A line holds no CRLF.
  ghost predicate IsLine(s: string) {
    forall i: nat :: !CrlfAt(s, i)
  }

  ghost predicate IsField(s: string) {
    IsLine(s) && ':' in s
  }

  ghost predicate IsEnd(s: string) {
    IsLine(s) && ':' !in s
  }

  ghost function Lines(lines: seq<string>): string {
    if lines == [] then "" else lines[0] + CRLF + Lines(lines[1..])
  }

  // The header map after a list of field lines, read from the first to the last
  ghost function Fields(headers: map<string, string>, lines: seq<string>): map<string, string>
    decreases |lines|
  {
    if lines == [] then headers
    else
      var colon := Find(lines[0], ':');
      Fields(if colon < |lines[0]|
             then headers[lines[0][..colon] := Trim(lines[0][colon + 1..])]
             else headers,
             lines[1..])
  }

  lemma LineEnds(line: string, rest: string)
    requires IsLine(line)
    ensures FindCrlf(line + CRLF + rest) == |line|
    ensures var s := line + CRLF + rest; s[..|line|] == line && s[|line| + 2..] == rest
  {
    var s := line + CRLF + rest;
    forall i: nat | i < |line| ensures !CrlfAt(s, i) {
      assert !CrlfAt(line, i);
    }
    FindCrlfUnique(s, |line|);
  }

  lemma HasColon(line: string)
    ensures Find(line, ':') < |line| <==> ':' in line
  {
    var k := Find(line, ':');
    assert k == |line| ==> line[..k] == line;
  }

  /** Field lines followed by a line without a colon are read completely, and what follows
      them is left alone. */
  lemma {:induction false} HeadersAccepted(req: Request, fields: seq<string>, end: string, rest: string, time: int)
    requires (forall f <- fields :: IsField(f)) && IsEnd(end)
    ensures Parse(ExpectHeader, req, Lines(fields) + end + CRLF + rest, time)
         == Parsed(true, GotAll, req.(headers := Fields(req.headers, fields)), rest)
    decreases |fields|
  {
    if fields == [] {
      assert Lines(fields) + end + CRLF + rest == end + CRLF + rest;
      LineEnds(end, rest);
      HasColon(end);
    } else {
      var tail := Lines(fields[1..]) + end + CRLF + rest;
      assert Lines(fields) + end + CRLF + rest == fields[0] + CRLF + tail;
      assert fields[0] in fields;
      LineEnds(fields[0], tail);
      HasColon(fields[0]);
      HeadersAccepted(AddHeader(req, fields[0]), fields[1..], end, rest, time);
    }
  }

  lemma FirstLine(bytes: string)
    requires FindCrlf(bytes) < |bytes|
    ensures var k := FindCrlf(bytes); IsLine(bytes[..k]) && bytes == bytes[..k] + CRLF + bytes[k + 2..]
  {
    var k := FindCrlf(bytes);
    PrefixIsLine(bytes, k);
    SplitAtCrlf(bytes, k);
  }

  lemma SplitAtCrlf(bytes: string, k: nat)
    requires CrlfAt(bytes, k)
    ensures bytes == bytes[..k] + CRLF + bytes[k + 2..]
  {
    var r := bytes[..k] + CRLF + bytes[k + 2..];
    forall i | 0 <= i < |bytes| ensures r[i] == bytes[i] {
    }
  }

  lemma PrefixIsLine(bytes: string, k: nat)
    requires k <= |bytes| && forall i: nat | i < k :: !CrlfAt(bytes, i)
    ensures IsLine(bytes[..k])
  {
    forall i: nat ensures !CrlfAt(bytes[..k], i) {
      assert CrlfAt(bytes[..k], i) ==> CrlfAt(bytes, i);
    }
  }

  lemma ConsLines(line: string, fields: seq<string>)
    ensures Lines([line] + fields) == line + CRLF + Lines(fields)
  {
    assert ([line] + fields)[1..] == fields;
  }

  lemma Regroup(line: string, fields: string, end: string, rest: string)
    ensures line + CRLF + (fields + end + CRLF + rest) == (line + CRLF + fields) + end + CRLF + rest
  {
  }

  lemma {:induction false} HeadersNecessary(req: Request, bytes: string, time: int)
      returns (fields: seq<string>, end: string)
    requires Parse(ExpectHeader, req, bytes, time).state == GotAll
    ensures (forall f <- fields :: IsField(f)) && IsEnd(end)
    ensures bytes == Lines(fields) + end + CRLF + Parse(ExpectHeader, req, bytes, time).rest
    decreases |bytes|
  {
    var k := FindCrlf(bytes);
    var line, rest := bytes[..k], bytes[k + 2..];
    FirstLine(bytes);
    HasColon(line);
    if Find(line, ':') < |line| {
      var more;
      more, end := HeadersNecessary(AddHeader(req, line), rest, time);
      ConsLines(line, more);
      Regroup(line, Lines(more), end, Parse(ExpectHeader, req, bytes, time).rest);
      fields := [line] + more;
    } else {
      fields, end := [], line;
      assert Lines(fields) + end == end;
    }
  }

  ghost predicate IsRequestLine(line: string, verb: string, target: string) {
    && line == verb + " " + target + " " + VERSION
    && MethodOf(verb) != Invalid && ' ' !in target
  }

  function Described(req: Request, verb: string, target: string): Request {
    var question := Find(target, '?');
    if question < |target|
    then req.(verb := MethodOf(verb), path := target[..question], query := target[question..])
    else req.(verb := MethodOf(verb), path := target)
  }

  lemma RequestLineAccepted(req: Request, line: string, verb: string, target: string)
    requires IsRequestLine(line, verb, target)
    ensures ProcessRequestLine(req, line) == LineResult(true, Described(req, verb, target))
  {
    var tail := target + " " + VERSION;
    assert line == verb + " " + tail;
    assert ' ' !in verb;
    FirstSpace(verb, tail);
    FirstSpace(target, VERSION);
  }

  lemma FirstSpace(word: string, rest: string)
    requires ' ' !in word
    ensures var s := word + " " + rest; Find(s, ' ') == |word| && s[..|word|] == word && s[|word| + 1..] == rest
  {
    var s := word + " " + rest;
    assert s[..|word|] == word;
    FindUnique(s, ' ', |word|);
  }

  lemma RequestLineNecessary(req: Request, line: string) returns (verb: string, target: string)
    requires ProcessRequestLine(req, line).ok
    ensures IsRequestLine(line, verb, target)
  {
    var space := Find(line, ' ');
    var tail := line[space + 1..];
    verb := line[..space];
    target := TargetNecessary(req.(verb := MethodOf(verb)), tail);
    SplitAt(line, space);
    JoinLine(verb, target);
  }

  lemma TargetNecessary(req: Request, tail: string) returns (target: string)
    requires TargetOf(req, tail).ok
    ensures tail == target + " " + VERSION && ' ' !in target
  {
    var space := Find(tail, ' ');
    target := tail[..space];
    SplitAt(tail, space);
  }

  lemma JoinLine(verb: string, target: string)
    ensures verb + " " + (target + " " + VERSION) == verb + " " + target + " " + VERSION
  {
  }

  lemma SplitAt(s: string, k: nat)
    requires k < |s|
    ensures s == s[..k] + [s[k]] + s[k + 1..]
  {
  }

  ghost predicate IsRequest(bytes: string, verb: string, target: string, fields: seq<string>, end: string,
      rest: string) {
    && (forall f <- fields :: IsField(f)) && IsEnd(end)
    && MethodOf(verb) != Invalid && ' ' !in target && IsLine(target)
    && bytes == verb + " " + target + " " + VERSION + CRLF + Lines(fields) + end + CRLF + rest
  }

  /** From a fresh context the parser completes a request exactly when the bytes start with
      one: a request line, field lines, and a line without a colon. It then holds what the
      lines say and leaves what follows them. */
  lemma RequestAccepted(bytes: string, verb: string, target: string, fields: seq<string>, end: string, rest: string,
      time: int)
    requires IsRequest(bytes, verb, target, fields, end, rest)
    ensures Parse(ExpectRequestLine, EMPTY_REQUEST, bytes, time)
         == Parsed(true, GotAll,
                   Described(EMPTY_REQUEST, verb, target).(receiveTime := time, headers := Fields(map[], fields)), rest)
  {
    var line := verb + " " + target + " " + VERSION;
    var tail := Lines(fields) + end + CRLF + rest;
    assert bytes == line + CRLF + tail;
    forall i: nat ensures !CrlfAt(line, i) {
      var j := i - |verb| - 1;
      if 0 <= j && j + 1 < |target| { assert !CrlfAt(target, j); }
    }
    LineEnds(line, tail);
    RequestLineAccepted(EMPTY_REQUEST, line, verb, target);
    HeadersAccepted(Described(EMPTY_REQUEST, verb, target).(receiveTime := time), fields, end, rest, time);
  }

  lemma RequestNecessary(bytes: string, time: int)
    returns (verb: string, target: string, fields: seq<string>, end: string)
    requires Parse(ExpectRequestLine, EMPTY_REQUEST, bytes, time).state == GotAll
    ensures IsRequest(bytes, verb, target, fields, end, Parse(ExpectRequestLine, EMPTY_REQUEST, bytes, time).rest)
  {
    var k := FindCrlf(bytes);
    FirstLine(bytes);
    var line := bytes[..k];
    verb, target := RequestLineNecessary(EMPTY_REQUEST, line);
    TargetIsLine(line, verb, target);
    var r := ProcessRequestLine(EMPTY_REQUEST, line);
    fields, end := HeadersNecessary(r.request.(receiveTime := time), bytes[k + 2..], time);
    Regroup(line, Lines(fields), end, Parse(ExpectRequestLine, EMPTY_REQUEST, bytes, time).rest);
  }

  lemma TargetIsLine(line: string, verb: string, target: string)
    requires IsLine(line) && line == verb + " " + target + " " + VERSION
    ensures IsLine(target)
  {
    forall i: nat ensures !CrlfAt(target, i) {
      if i + 1 < |target| {
        assert line[|verb| + 1 + i] == target[i] && line[|verb| + 2 + i] == target[i + 1];
        assert !CrlfAt(line, |verb| + 1 + i);
      }
    }
  }
}
