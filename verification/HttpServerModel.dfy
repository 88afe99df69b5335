/** HttpServer: what one connection answers to the bytes it receives. The request callback is
    a parameter; so are the times and how much the socket takes of each answer. */
module HttpServerModel {
  import opened Bytes
  import opened HttpRequestModule
  import opened HttpContextModule
  import opened HttpStreams
  import opened ConnectionState
  import opened ConnectionModel
  import R = HttpResponseModule
  import T = HttpRoundTrip
  import D = Decimal

  // httpCallback_: what it makes of the response it is handed
  type HttpCallback = (Request, R.Response) -> R.Response

  const BAD_REQUEST := "HTTP/1.1 400 Bad Request\r\n\r\n"

  /** A connection with its HttpContext and its input buffer. */
  datatype Session = Session(conn: Conn, state: ParseState, request: Request, input: string)

  function NewSession(conn: Conn): Session {
    Session(conn, ExpectRequestLine, EMPTY_REQUEST, "")
  }

  // What write(2) returns for a message when the socket has the given room; negative: it fails
  function WriteResult(room: int, message: string): (n: int)
    ensures n <= |message| && (room <= |message| ==> n == room)
  {
    if room < |message| then room else |message|
  }

  function GetHeader(req: Request, field: string): string {
    if field in req.headers then req.headers[field] else ""
  }

  function ResponseTo(req: Request, callback: HttpCallback): R.Response {
    callback(req, R.Response([], 0, "", GetHeader(req, "Connection") == "close", ""))
  }

  function Print(r: R.Response): string {
    R.StatusLine(r) + R.HeaderBlock(r)
  }

  function OnRequest(c: Conn, req: Request, callback: HttpCallback, room: int): Conn {
    var r := ResponseTo(req, callback);
    var c' := Send(c, Print(r), WriteResult(room, Print(r)));
    if r.closeConnection then Shutdown(c') else c'
  }

  function Reject(c: Conn, room: int): Conn {
    Shutdown(Send(c, BAD_REQUEST, WriteResult(room, BAD_REQUEST)))
  }

  function OnMessage(s: Session, time: int, callback: HttpCallback, room: int): Session
    requires Parsing(s.state)
  {
    AfterParse(s, Parse(s.state, s.request, s.input, time), callback, room)
  }

  // onMessage, given what its parse returns
  function AfterParse(s: Session, r: Parsed, callback: HttpCallback, room: int): Session {
    var c := if r.ok then s.conn else Reject(s.conn, room);
    if r.state == GotAll
    then Session(OnRequest(c, r.request, callback, room), ExpectRequestLine, EMPTY_REQUEST, r.rest)
    else Session(c, r.state, r.request, r.rest)
  }

  // What the connection does about an outcome
  function Answer(c: Conn, o: Outcome, callback: HttpCallback, room: int): Conn {
    match o
    case Incomplete(_, _, _) => c
    case Failed(_, _) => Reject(c, room)
    case Complete(req, _) => OnRequest(c, req, callback, room)
  }

  lemma AnswerIsLogged(c: Conn, o: Outcome, callback: HttpCallback, room: int)
    ensures |Answer(c, o, callback, room).history| >= |c.history|
    ensures |Answer(c, o, callback, room).history| == |c.history| <==> o.Incomplete?
  {
    match o
    case Incomplete(_, _, _) =>
    case Failed(_, _) =>
      SendIsLogged(c, BAD_REQUEST, WriteResult(room, BAD_REQUEST));
    case Complete(req, _) =>
      var text := Print(ResponseTo(req, callback));
      SendIsLogged(c, text, WriteResult(room, text));
  }

  lemma SendIsLogged(c: Conn, text: string, n: int)
    requires n <= |text|
    ensures |Send(c, text, n).history| > |c.history| && |Shutdown(Send(c, text, n)).history| > |c.history|
  {
  }

  /** A call of onMessage gives at most one answer, since failure and completion exclude each
      other, and it leaves the context in a state from which the next call ends. */
  lemma OneAnswer(s: Session, time: int, callback: HttpCallback, room: int)
    requires Parsing(s.state)
    ensures var o, s' := Decide(Parse(s.state, s.request, s.input, time), ""), OnMessage(s, time, callback, room);
            && s'.conn == Answer(s.conn, o, callback, room) && s'.input == o.rest && Parsing(s'.state)
            && (|s'.conn.history| == |s.conn.history| <==> o.Incomplete?)
            && (o.Incomplete? ==> s' == Session(s.conn, o.state, o.request, o.rest))
            && (o.Complete? ==> s'.state == ExpectRequestLine && s'.request == EMPTY_REQUEST)
  {
    var r := Parse(s.state, s.request, s.input, time);
    ParseLeaves(TakeLine, s.state, s.request, s.input, time);
    AnswerIsLogged(s.conn, Decide(r, ""), callback, room);
    MessageAnswered(s, r, callback, room);
    assert r.rest + "" == r.rest;
  }

  lemma MessageAnswered(s: Session, r: Parsed, callback: HttpCallback, room: int)
    requires r.state == GotAll ==> r.ok
    ensures AfterParse(s, r, callback, room).conn == Answer(s.conn, Decide(r, ""), callback, room)
  {
  }

  // ---------- everything a connection receives ----------

  /** What can happen to an open connection: handleRead finds bytes, or the socket takes some
      more of the output. */
  datatype Happening = Receive(bytes: string, time: int, room: int) | CanWrite(n: int)

  // A message is only parsed if setMethod's assert will hold: no method has been set yet.
  predicate Ready(s: Session) {
    Parsing(s.state) && (s.state == ExpectRequestLine ==> s.request.verb == Invalid)
  }

  predicate CanHappen(s: Session, h: Happening) {
    match h
    case Receive(_, _, _) => Ready(s)
    case CanWrite(n) => s.conn.writing ==> n <= |s.conn.output|
  }

  function Happen(s: Session, h: Happening, callback: HttpCallback): Session
    requires CanHappen(s, h)
  {
    match h
    case Receive(bytes, time, room) => OnMessage(s.(input := s.input + bytes), time, callback, room)
    case CanWrite(n) => s.(conn := HandleWrite(s.conn, n))
  }

  /** The assert of setMethod will hold at the next message unless this one has left a refused
      line that starts with a known method. */
  lemma ReadyAgain(s: Session, h: Happening, callback: HttpCallback)
    requires CanHappen(s, h) && h.Receive?
    ensures var bytes := s.input + h.bytes;
            var line := bytes[..FindCrlf(bytes)];
            var space := Find(line, ' ');
            Ready(Happen(s, h, callback)) <==>
              || Parse(s.state, s.request, bytes, h.time).ok
              || space == |line| || MethodOf(line[..space]) == Invalid
  {
    var bytes := s.input + h.bytes;
    var r := Parse(s.state, s.request, bytes, h.time);
    ParseLeaves(TakeLine, s.state, s.request, bytes, h.time);
    if r.ok {
      OkStaysReady(s.state, s.request, bytes, h.time);
    } else {
      if s.state == ExpectHeader { HeadersNeverFail(s.request, bytes, h.time); }
      AfterFailure(s.request, bytes, h.time);
    }
  }

  lemma {:induction false} OkStaysReady(state: ParseState, req: Request, bytes: string, time: int)
    requires Parsing(state) && (state == ExpectRequestLine ==> req.verb == Invalid)
    ensures var r := Parse(state, req, bytes, time);
            r.ok && Parsing(r.state) ==> (r.state == ExpectRequestLine ==> r.request.verb == Invalid)
    decreases |bytes|
  {
    var k := FindCrlf(bytes);
    if k < |bytes| {
      var t := TakeLine(state, req, bytes[..k], time);
      if t.More? { OkStaysReady(ExpectHeader, t.request, bytes[k + 2..], time); }
    }
  }

  /** It can fail: after a request line with a method and nothing but a word behind it. */
  lemma NotReadyAgain(c: Conn, callback: HttpCallback)
    ensures var s, h := NewSession(c), Receive("GET x\r\n", 0, 0);
            CanHappen(s, h) && !Ready(Happen(s, h, callback))
  {
    var s, h := NewSession(c), Receive("GET x\r\n", 0, 0);
    var line := "GET x";
    assert s.input + h.bytes == line + CRLF + "";
    assert forall i: nat :: !CrlfAt(line, i);
    LineEnds(line, "");
    assert line == "GET" + " " + "x" && line[..3] == "GET";
    FindUnique(line, ' ', 3);
    assert line[4..] == "x";
    FindUnique("x", ' ', 1);
    assert !ProcessRequestLine(EMPTY_REQUEST, line).ok;
    ReadyAgain(s, h, callback);
  }

  ghost predicate ValidHistory(s: Session, hs: seq<Happening>, callback: HttpCallback)
    decreases |hs|
  {
    hs == [] || (CanHappen(s, hs[0]) && ValidHistory(Happen(s, hs[0], callback), hs[1..], callback))
  }

  ghost function After(s: Session, hs: seq<Happening>, callback: HttpCallback): Session
    requires ValidHistory(s, hs, callback)
    decreases |hs|
  {
    if hs == [] then s else After(Happen(s, hs[0], callback), hs[1..], callback)
  }

  function Received(hs: seq<Happening>): string {
    if hs == [] then "" else (if hs[0].Receive? then hs[0].bytes else "") + Received(hs[1..])
  }

  // ---------- what a stream of bytes asks for ----------

  datatype Verdict = Refused | Served(request: Request)

  // What is decided about a parsed message, without its time
  function VerdictOf(r: Parsed): seq<Verdict> {
    if !r.ok then [Refused] else if r.state == GotAll then [Served(Untimed(r.request))] else []
  }

  lemma {:induction false} RestShorter(state: ParseState, req: Request, bytes: string, time: int)
    requires Parsing(state)
    ensures var r := Parse(state, req, bytes, time); r.state == GotAll ==> |r.rest| < |bytes|
    decreases |bytes|
  {
    var k := FindCrlf(bytes);
    if k < |bytes| {
      var t := TakeLine(state, req, bytes[..k], time);
      if t.More? { RestShorter(ExpectHeader, t.request, bytes[k + 2..], time); }
    }
  }

  /** All the requests of a stream, up to the first line that is refused. */
  function Verdicts(state: ParseState, req: Request, bytes: string): seq<Verdict>
    requires Parsing(state)
    decreases |bytes|
  {
    RestShorter(state, req, bytes, 0);
    var r := Parse(state, req, bytes, 0);
    VerdictOf(r) + if r.ok && r.state == GotAll then Verdicts(ExpectRequestLine, EMPTY_REQUEST, r.rest) else []
  }

  // What the session still has to deal with
  function Waiting(s: Session): seq<Verdict>
    requires Parsing(s.state)
  {
    Verdicts(s.state, s.request, s.input)
  }

  lemma VerdictsUnfold(state: ParseState, req: Request, bytes: string, r: Parsed)
    requires Parsing(state) && UntimedParsed(r) == UntimedParsed(Parse(state, req, bytes, 0))
    ensures Verdicts(state, req, bytes)
         == VerdictOf(r) + if r.ok && r.state == GotAll then Verdicts(ExpectRequestLine, EMPTY_REQUEST, r.rest) else []
  {
    RestShorter(state, req, bytes, 0);
  }

  // The state the context has after a call whose parse gave r
  function Context(r: Parsed): (ParseState, Request) {
    if r.state == GotAll then (ExpectRequestLine, EMPTY_REQUEST) else (r.state, r.request)
  }

  lemma VerdictShape(r: Parsed)
    ensures VerdictOf(r) == [Refused] || VerdictOf(r) == [] || (|VerdictOf(r)| == 1 && VerdictOf(r)[0].Served?)
    ensures VerdictOf(r) == [Refused] <==> !r.ok
  {
  }

  /** The requests of a stream are those decided in a first part, and those of what is then
      left together with the rest. */
  lemma VerdictsFirst(state: ParseState, req: Request, first: string, later: string, time: int)
    requires Parsing(state)
    ensures var r := Parse(state, req, first, time);
            && (r.state == GotAll ==> r.ok) && (r.state == GotAll || Parsing(r.state))
            && Verdicts(state, req, first + later)
               == VerdictOf(r) + if !r.ok then [] else Verdicts(Context(r).0, Context(r).1, r.rest + later)
  {
    var r := Parse(state, req, first, time);
    ParseLeaves(TakeLine, state, req, first, time);
    Resume(state, req, first, later, time, 0);
    if r.ok && Parsing(r.state) {
      var p := Parse(state, req, first + later, 0);
      VerdictsUnfold(state, req, first + later, p);
      VerdictsUnfold(r.state, r.request, r.rest + later, p);
      assert VerdictOf(r) == [];
    } else {
      VerdictsUnfold(state, req, first + later, r.(rest := r.rest + later));
    }
  }

  // ---------- every request is handled once, in order ----------

  // What the calls of onMessage decide, up to the first refusal
  ghost function Handled(s: Session, hs: seq<Happening>, callback: HttpCallback): seq<Verdict>
    requires ValidHistory(s, hs, callback)
    decreases |hs|
  {
    if hs == [] then []
    else
      var more := Handled(Happen(s, hs[0], callback), hs[1..], callback);
      var v := Decided(s, hs[0]);
      if v == [Refused] then v else v + more
  }

  function Decided(s: Session, h: Happening): seq<Verdict>
    requires CanHappen(s, h)
  {
    if h.Receive? then VerdictOf(Parse(s.state, s.request, s.input + h.bytes, h.time)) else []
  }

  lemma HappenInput(s: Session, h: Happening, callback: HttpCallback)
    requires CanHappen(s, h) && Parsing(s.state)
    ensures var s' := Happen(s, h, callback);
            && Parsing(s'.state)
            && (h.CanWrite? ==> s' == s.(conn := s'.conn))
            && (h.Receive? ==>
                  var r := Parse(s.state, s.request, s.input + h.bytes, h.time);
                  s' == Session(s'.conn, Context(r).0, Context(r).1, r.rest))
  {
    if h.Receive? {
      ParseLeaves(TakeLine, s.state, s.request, s.input + h.bytes, h.time);
    }
  }

  // What is not handled yet; after a refused line nothing more is.
  ghost function LeftOver(s: Session, handled: seq<Verdict>): seq<Verdict>
    requires Parsing(s.state)
  {
    if Refused in handled then [] else Waiting(s)
  }

  lemma HandledFirst(s: Session, h: Happening, callback: HttpCallback, later: string)
    requires Parsing(s.state) && CanHappen(s, h) && h.Receive?
    ensures var s1, v := Happen(s, h, callback), Decided(s, h);
            && Parsing(s1.state) && (v == [Refused] || Refused !in v)
            && Verdicts(s.state, s.request, s.input + (h.bytes + later))
               == v + if v == [Refused] then [] else Verdicts(s1.state, s1.request, s1.input + later)
  {
    var r := Parse(s.state, s.request, s.input + h.bytes, h.time);
    HappenInput(s, h, callback);
    VerdictShape(r);
    assert s.input + (h.bytes + later) == (s.input + h.bytes) + later;
    VerdictsFirst(s.state, s.request, s.input + h.bytes, later, h.time);
  }

  lemma HandledStep(s: Session, h: Happening, callback: HttpCallback, later: string, all: string)
    requires Parsing(s.state) && CanHappen(s, h) && all == (if h.Receive? then h.bytes else "") + later
    ensures var s1, v := Happen(s, h, callback), Decided(s, h);
            && Parsing(s1.state) && (v == [Refused] || Refused !in v)
            && Verdicts(s.state, s.request, s.input + all)
               == v + if v == [Refused] then [] else Verdicts(s1.state, s1.request, s1.input + later)
  {
    if h.Receive? {
      HandledFirst(s, h, callback, later);
    } else {
      HappenInput(s, h, callback);
      assert all == later;
      var stream := Verdicts(s.state, s.request, s.input + later);
      assert [] + stream == stream;
    }
  }

  lemma JoinHandled(v: seq<Verdict>, more: seq<Verdict>, waiting: seq<Verdict>, stream': seq<Verdict>,
      stream: seq<Verdict>)
    requires v == [Refused] || Refused !in v
    requires more + (if Refused in more then [] else waiting) == stream'
    requires stream == v + if v == [Refused] then [] else stream'
    ensures var handled := if v == [Refused] then v else v + more;
            handled + (if Refused in handled then [] else waiting) == stream
  {
    if v != [Refused] {
      assert Refused in v + more <==> Refused in more;
      assert v + (more + (if Refused in more then [] else waiting))
          == (v + more) + (if Refused in more then [] else waiting);
    }
  }

  /** However a stream is cut into messages, and whatever is written in between: the requests
      handled, followed by those that wait in the input buffer, are the requests of the
      stream, each once and in order; a refused line ends both. */
  lemma {:induction false} HandledInOrder(s: Session, hs: seq<Happening>, callback: HttpCallback)
    requires Parsing(s.state) && ValidHistory(s, hs, callback)
    ensures var s', handled := After(s, hs, callback), Handled(s, hs, callback);
            && Parsing(s'.state)
            && handled + LeftOver(s', handled) == Verdicts(s.state, s.request, s.input + Received(hs))
    decreases |hs|
  {
    if hs == [] {
      assert s.input + Received(hs) == s.input;
      assert [] + Waiting(s) == Waiting(s);
    } else {
      var s1, s' := Happen(s, hs[0], callback), After(s, hs, callback);
      HappenInput(s, hs[0], callback);
      HandledInOrder(s1, hs[1..], callback);
      HandledStep(s, hs[0], callback, Received(hs[1..]), Received(hs));
      JoinHandled(Decided(s, hs[0]), Handled(s1, hs[1..], callback), Waiting(s'),
                  Verdicts(s1.state, s1.request, s1.input + Received(hs[1..])),
                  Verdicts(s.state, s.request, s.input + Received(hs)));
    }
  }

  /** So two ways of receiving the same bytes may differ in what has been handled, but only by
      what is left over: if nothing is, they have handled the same. */
  lemma CutsDoNotMatter(s: Session, hs: seq<Happening>, hs': seq<Happening>, callback: HttpCallback)
    requires Parsing(s.state) && ValidHistory(s, hs, callback) && ValidHistory(s, hs', callback)
    requires Received(hs) == Received(hs')
    ensures Parsing(After(s, hs, callback).state) && Parsing(After(s, hs', callback).state)
    ensures var handled, handled' := Handled(s, hs, callback), Handled(s, hs', callback);
            && LeftOver(After(s, hs, callback), handled) == [] && LeftOver(After(s, hs', callback), handled') == []
            ==> handled == handled'
  {
    HandledInOrder(s, hs, callback);
    HandledInOrder(s, hs', callback);
    var handled, handled' := Handled(s, hs, callback), Handled(s, hs', callback);
    assert handled + [] == handled && handled' + [] == handled';
  }

  ghost predicate StartsWithRequest(bytes: string) {
    exists verb, target, fields, end, rest :: IsRequest(bytes, verb, target, fields, end, rest)
  }

  /** After a call that completes a request, another complete one waits unanswered exactly if
      what is left in the buffer starts with one, that is, if parsing it would complete it. */
  lemma LeftWaiting(s: Session, time: int, callback: HttpCallback, room: int, time': int)
    requires Parsing(s.state) && Parse(s.state, s.request, s.input, time).state == GotAll
    ensures var s' := OnMessage(s, time, callback, room);
            && s'.state == ExpectRequestLine && s'.request == EMPTY_REQUEST
            && (StartsWithRequest(s'.input)
                <==> Parse(ExpectRequestLine, EMPTY_REQUEST, s'.input, time').state == GotAll)
            && (StartsWithRequest(s'.input) <==> Waiting(s') != [] && Waiting(s')[0].Served?)
  {
    var s' := OnMessage(s, time, callback, room);
    RequestsParse(s'.input, time');
    RequestsParse(s'.input, 0);
    ParseLeaves(TakeLine, ExpectRequestLine, EMPTY_REQUEST, s'.input, 0);
  }

  lemma RequestsParse(bytes: string, time: int)
    ensures StartsWithRequest(bytes) <==> Parse(ExpectRequestLine, EMPTY_REQUEST, bytes, time).state == GotAll
  {
    if StartsWithRequest(bytes) {
      var verb, target, fields, end, rest :| IsRequest(bytes, verb, target, fields, end, rest);
      RequestAccepted(bytes, verb, target, fields, end, rest, time);
    }
    if Parse(ExpectRequestLine, EMPTY_REQUEST, bytes, time).state == GotAll {
      var verb, target, fields, end := RequestNecessary(bytes, time);
    }
  }

  // ---------- which answers are written ----------

  // The callback does not look at the receive time.
  ghost predicate Timeless(callback: HttpCallback) {
    forall req, r :: callback(Untimed(req), r) == callback(req, r)
  }

  function AnswerText(o: Outcome, callback: HttpCallback): string {
    match o
    case Incomplete(_, _, _) => ""
    case Failed(_, _) => BAD_REQUEST
    case Complete(req, _) => Print(ResponseTo(req, callback))
  }

  // Whether the answer is the last one
  predicate Closes(o: Outcome, callback: HttpCallback) {
    o.Failed? || (o.Complete? && ResponseTo(o.request, callback).closeConnection)
  }

  lemma SentText(c: Conn, text: string, room: int, last: bool)
    requires Inv(c) && c.state == Connected && Settled(c.history)
    ensures var c1 := Send(c, text, WriteResult(room, text));
            var c' := if last then Shutdown(c1) else c1;
            && Inv(c') && AcceptedBytes(c'.history) == AcceptedBytes(c.history) + text
            && c'.state == if last then Disconnecting else Connected
  {
    var n := WriteResult(room, text);
    AcceptedExactly(c, text, n);
    SendInv(c, text, n);
    SendKeepsState(c, text, n);
    ShutdownSent(Send(c, text, n));
  }

  lemma SendKeepsState(c: Conn, text: string, n: int)
    requires n <= |text|
    ensures Send(c, text, n).state == c.state
  {
  }

  lemma ShutdownSent(c: Conn)
    requires Inv(c) && c.state == Connected
    ensures var c' := Shutdown(c);
            Inv(c') && AcceptedBytes(c'.history) == AcceptedBytes(c.history) && c'.state == Disconnecting
  {
    ShutdownInv(c);
    Counts(c.history, HalfClose);
  }

  lemma AnswerSent(c: Conn, o: Outcome, callback: HttpCallback, room: int)
    requires Inv(c) && c.state == Connected && Settled(c.history)
    ensures var c' := Answer(c, o, callback, room);
            && Inv(c') && AcceptedBytes(c'.history) == AcceptedBytes(c.history) + AnswerText(o, callback)
            && c'.state == if Closes(o, callback) then Disconnecting else Connected
  {
    match o
    case Incomplete(_, _, _) => assert AcceptedBytes(c.history) + "" == AcceptedBytes(c.history);
    case Failed(_, _) => SentText(c, BAD_REQUEST, room, true);
    case Complete(req, _) =>
      var r := ResponseTo(req, callback);
      SentText(c, Print(r), room, r.closeConnection);
  }

  lemma AnswerDropped(c: Conn, o: Outcome, callback: HttpCallback, room: int)
    requires Inv(c) && !(c.state == Connected && Settled(c.history))
    ensures var c' := Answer(c, o, callback, room);
            Inv(c') && AcceptedBytes(c'.history) == AcceptedBytes(c.history)
  {
    match o
    case Incomplete(_, _, _) =>
    case Failed(_, _) => Unsent(c, BAD_REQUEST, room, true);
    case Complete(req, _) =>
      var r := ResponseTo(req, callback);
      Unsent(c, Print(r), room, r.closeConnection);
  }

  lemma Unsent(c: Conn, text: string, room: int, last: bool)
    requires Inv(c) && !(c.state == Connected && Settled(c.history))
    ensures var c1 := Send(c, text, WriteResult(room, text));
            var c' := if last then Shutdown(c1) else c1;
            Inv(c') && AcceptedBytes(c'.history) == AcceptedBytes(c.history)
  {
    var n := WriteResult(room, text);
    AcceptedExactly(c, text, n);
    SendInv(c, text, n);
    ShutdownInv(Send(c, text, n));
    Counts(Send(c, text, n).history, HalfClose);
  }

  // The connection can take an answer.
  predicate CanAnswer(c: Conn) {
    c.state == Connected && Settled(c.history)
  }

  /** The answer to a completed request is taken over exactly if the connection is connected
      and all its output has been written. In any case the request is consumed and the
      context starts over. */
  lemma AnsweredExactly(s: Session, time: int, callback: HttpCallback, room: int)
    requires Inv(s.conn) && Parsing(s.state) && Parse(s.state, s.request, s.input, time).state == GotAll
    ensures var r, s' := Parse(s.state, s.request, s.input, time), OnMessage(s, time, callback, room);
            var before, after := AcceptedBytes(s.conn.history), AcceptedBytes(s'.conn.history);
            && s'.state == ExpectRequestLine && s'.request == EMPTY_REQUEST && s'.input == r.rest
            && after == (if CanAnswer(s.conn) then before + Print(ResponseTo(r.request, callback)) else before)
            && (after != before <==> CanAnswer(s.conn))
  {
    OneAnswer(s, time, callback, room);
    ParseLeaves(TakeLine, s.state, s.request, s.input, time);
    var r := Parse(s.state, s.request, s.input, time);
    if CanAnswer(s.conn) {
      AnswerSent(s.conn, Decide(r, ""), callback, room);
      PrintNotEmpty(ResponseTo(r.request, callback));
    } else {
      AnswerDropped(s.conn, Decide(r, ""), callback, room);
    }
  }

  lemma PrintNotEmpty(r: R.Response)
    ensures |Print(r)| > 0
  {
  }

  function TextOf(v: Verdict, callback: HttpCallback): string {
    match v
    case Refused => BAD_REQUEST
    case Served(req) => Print(ResponseTo(req, callback))
  }

  function Texts(vs: seq<Verdict>, callback: HttpCallback): string {
    if vs == [] then "" else TextOf(vs[0], callback) + Texts(vs[1..], callback)
  }

  lemma {:induction false} TextsAppend(vs: seq<Verdict>, vs': seq<Verdict>, callback: HttpCallback)
    ensures Texts(vs + vs', callback) == Texts(vs, callback) + Texts(vs', callback)
  {
    if vs == [] {
      assert vs + vs' == vs';
    } else {
      assert (vs + vs')[1..] == vs[1..] + vs';
      TextsAppend(vs[1..], vs', callback);
      R.Assoc(TextOf(vs[0], callback), Texts(vs[1..], callback), Texts(vs', callback));
    }
  }

  lemma TextsNotEmpty(vs: seq<Verdict>, callback: HttpCallback)
    ensures |Texts(vs, callback)| > 0 <==> vs != []
  {
    if vs != [] && vs[0].Served? {
      PrintNotEmpty(ResponseTo(vs[0].request, callback));
    }
  }

  /** Every answer comes due when the connection can take it. */
  ghost predicate Prompt(s: Session, hs: seq<Happening>, callback: HttpCallback)
    requires ValidHistory(s, hs, callback)
    decreases |hs|
  {
    hs == [] ||
    (var v := Decided(s, hs[0]);
     && (v != [] ==> CanAnswer(s.conn))
     && (v == [Refused] || Prompt(Happen(s, hs[0], callback), hs[1..], callback)))
  }

  // One happening: its answer, if it has one, is taken over exactly if it comes promptly.
  lemma HappenAccepts(s: Session, h: Happening, callback: HttpCallback)
    requires Inv(s.conn) && Parsing(s.state) && CanHappen(s, h) && Timeless(callback)
    ensures var c, c', v := s.conn, Happen(s, h, callback).conn, Decided(s, h);
            && Inv(c') && (c.state != Connected ==> c'.state != Connected) && (v == [Refused] ==> c'.state != Connected)
            && AcceptedBytes(c'.history) == AcceptedBytes(c.history) + (if CanAnswer(c) then Texts(v, callback) else "")
  {
    var accepted := AcceptedBytes(s.conn.history);
    assert accepted + "" == accepted;
    match h
    case CanWrite(n) =>
      HandleWriteInv(s.conn, n);
      AcceptsNothing(s.conn, n);
    case Receive(bytes, time, room) =>
      var s1 := s.(input := s.input + bytes);
      var r := Parse(s.state, s.request, s1.input, time);
      var o := Decide(r, "");
      OneAnswer(s1, time, callback, room);
      ParseLeaves(TakeLine, s.state, s.request, s1.input, time);
      DecidedText(r, callback);
      AnswerState(s.conn, o, callback, room);
      if CanAnswer(s.conn) {
        AnswerSent(s.conn, o, callback, room);
      } else {
        AnswerDropped(s.conn, o, callback, room);
      }
  }

  lemma AnswerState(c: Conn, o: Outcome, callback: HttpCallback, room: int)
    ensures var c' := Answer(c, o, callback, room);
            (c.state != Connected ==> c'.state != Connected) && (o.Failed? ==> c'.state != Connected)
  {
  }

  lemma DecidedText(r: Parsed, callback: HttpCallback)
    requires Timeless(callback) && (r.state == GotAll ==> r.ok)
    ensures Texts(VerdictOf(r), callback) == AnswerText(Decide(r, ""), callback)
  {
    var v := VerdictOf(r);
    assert v != [] ==> v[1..] == [];
    if r.state == GotAll {
      ResponseTimeless(r.request, callback);
    }
  }

  lemma ResponseTimeless(req: Request, callback: HttpCallback)
    requires Timeless(callback)
    ensures ResponseTo(Untimed(req), callback) == ResponseTo(req, callback)
  {
  }

  // A connection that is not connected accepts nothing more.
  lemma {:induction false} NothingMore(s: Session, hs: seq<Happening>, callback: HttpCallback)
    requires Inv(s.conn) && Parsing(s.state) && ValidHistory(s, hs, callback) && Timeless(callback)
    requires s.conn.state != Connected
    ensures var c' := After(s, hs, callback).conn; Inv(c') && AcceptedBytes(c'.history) == AcceptedBytes(s.conn.history)
    decreases |hs|
  {
    if hs != [] {
      HappenAccepts(s, hs[0], callback);
      HappenInput(s, hs[0], callback);
      NothingMore(Happen(s, hs[0], callback), hs[1..], callback);
    }
  }

  /** The answers to the requests handled are all taken over exactly if each comes promptly;
      if not, strictly less is accepted. */
  lemma {:induction false} AnswersTaken(s: Session, hs: seq<Happening>, callback: HttpCallback)
    requires Inv(s.conn) && Parsing(s.state) && ValidHistory(s, hs, callback) && Timeless(callback)
    ensures var accepted, c' := AcceptedBytes(s.conn.history), After(s, hs, callback).conn;
            var texts := Texts(Handled(s, hs, callback), callback);
            && Inv(c')
            && (if Prompt(s, hs, callback) then AcceptedBytes(c'.history) == accepted + texts
                else |AcceptedBytes(c'.history)| < |accepted| + |texts|)
    decreases |hs|
  {
    var accepted := AcceptedBytes(s.conn.history);
    if hs == [] {
      assert accepted + "" == accepted;
    } else {
      var s1, v := Happen(s, hs[0], callback), Decided(s, hs[0]);
      var more := Handled(s1, hs[1..], callback);
      HappenAccepts(s, hs[0], callback);
      HappenInput(s, hs[0], callback);
      TextsNotEmpty(v, callback);
      TextsAppend(v, more, callback);
      if v == [Refused] {
        NothingMore(s1, hs[1..], callback);
      } else {
        AnswersTaken(s1, hs[1..], callback);
        R.Assoc(accepted, Texts(v, callback), Texts(more, callback));
      }
    }
  }

  lemma AllOrLess(before: string, texts: string, left: string, after: string, prompt: bool)
    requires if prompt then after == before + texts else |after| < |before| + |texts|
    ensures after == before + (texts + left) <==> prompt && left == ""
  {
    assert left == "" ==> texts + left == texts;
  }

  /** The whole conversation on a connection. What is written, and what is left to write, is
      the printed answers to all the requests of the stream, in order, exactly if every answer
      comes due when the connection can take it and no request is left over in the buffer. */
  lemma Conversation(c: Conn, hs: seq<Happening>, callback: HttpCallback)
    requires Inv(c) && CanAnswer(c) && Timeless(callback) && ValidHistory(NewSession(c), hs, callback)
    ensures var s', handled := After(NewSession(c), hs, callback), Handled(NewSession(c), hs, callback);
            && Inv(s'.conn) && Parsing(s'.state)
            && (WrittenBytes(s'.conn.history) + s'.conn.output
                  == WrittenBytes(c.history) + Texts(Verdicts(ExpectRequestLine, EMPTY_REQUEST, Received(hs)), callback)
                <==> Prompt(NewSession(c), hs, callback) && LeftOver(s', handled) == [])
  {
    var s := NewSession(c);
    var s', handled := After(s, hs, callback), Handled(s, hs, callback);
    AnswersTaken(s, hs, callback);
    StreamHandled(c, hs, callback);
    var left := LeftOver(s', handled);
    TextsAppend(handled, left, callback);
    TextsNotEmpty(left, callback);
    AllOrLess(WrittenBytes(c.history), Texts(handled, callback), Texts(left, callback), AcceptedBytes(s'.conn.history),
              Prompt(s, hs, callback));
  }

  lemma StreamHandled(c: Conn, hs: seq<Happening>, callback: HttpCallback)
    requires ValidHistory(NewSession(c), hs, callback)
    ensures var s', handled := After(NewSession(c), hs, callback), Handled(NewSession(c), hs, callback);
            && Parsing(s'.state)
            && handled + LeftOver(s', handled) == Verdicts(ExpectRequestLine, EMPTY_REQUEST, Received(hs))
  {
    HandledInOrder(NewSession(c), hs, callback);
    assert "" + Received(hs) == Received(hs);
  }

  // ---------- it matters how two requests arrive ----------

  // The request that a request line and field lines describe
  ghost function Asked(verb: string, target: string, fields: seq<string>): Request {
    Described(EMPTY_REQUEST, verb, target).(headers := Fields(map[], fields))
  }

  const SIMPLE_REQUEST := "GET / HTTP/1.1\r\n\r\n"

  lemma SimpleRequest(rest: string)
    ensures Parse(ExpectRequestLine, EMPTY_REQUEST, SIMPLE_REQUEST + rest, 0)
         == Parsed(true, GotAll, Asked("GET", "/", []), rest)
  {
    assert Lines([]) + "" + CRLF + rest == CRLF + rest;
    assert SIMPLE_REQUEST + rest == "GET" + " " + "/" + " " + VERSION + CRLF + (Lines([]) + "" + CRLF + rest);
    RequestAccepted(SIMPLE_REQUEST + rest, "GET", "/", [], "", rest, 0);
  }

  // An answer that the socket takes at once leaves the connection ready for the next one.
  lemma SentAtOnce(c: Conn, text: string)
    requires Inv(c) && CanAnswer(c)
    ensures var c' := Send(c, text, |text|);
            Inv(c') && CanAnswer(c') && AcceptedBytes(c'.history) == AcceptedBytes(c.history) + text
  {
    SendInv(c, text, |text|);
    AcceptedExactly(c, text, |text|);
    SettledExactly(c);
    SettledExactly(Send(c, text, |text|));
  }

  // A simple request, perhaps with more behind it, received by a session that waits for one
  lemma AnswerOne(s: Session, h: Happening, callback: HttpCallback, rest: string)
    requires s == NewSession(s.conn) && h.Receive? && h.bytes == SIMPLE_REQUEST + rest && h.time == 0
    requires Inv(s.conn) && CanAnswer(s.conn)
    requires var r := ResponseTo(Asked("GET", "/", []), callback); !r.closeConnection && h.room >= |Print(r)|
    ensures CanHappen(s, h)
    ensures var c' := Happen(s, h, callback).conn;
            && Happen(s, h, callback) == NewSession(c').(input := rest)
            && Inv(c') && CanAnswer(c')
            && AcceptedBytes(c'.history)
               == AcceptedBytes(s.conn.history) + Print(ResponseTo(Asked("GET", "/", []), callback))
  {
    assert "" + h.bytes == h.bytes;
    SimpleRequest(rest);
    SentAtOnce(s.conn, Print(ResponseTo(Asked("GET", "/", []), callback)));
  }

  lemma AfterCons(s: Session, h: Happening, hs: seq<Happening>, callback: HttpCallback)
    requires CanHappen(s, h) && ValidHistory(Happen(s, h, callback), hs, callback)
    ensures ValidHistory(s, [h] + hs, callback)
    ensures After(s, [h] + hs, callback) == After(Happen(s, h, callback), hs, callback)
    ensures Received([h] + hs) == (if h.Receive? then h.bytes else "") + Received(hs)
  {
    assert ([h] + hs)[1..] == hs;
  }

  /** On an idle connection, with a callback that keeps it open and a socket that takes every
      answer at once: two requests that arrive together get one answer, and two when they
      arrive apart, although the bytes are the same. */
  lemma TwoInOne(c: Conn, callback: HttpCallback, room: nat)
    requires Inv(c) && CanAnswer(c)
    requires var r := ResponseTo(Asked("GET", "/", []), callback); !r.closeConnection && room >= |Print(r)|
    ensures var s, bytes, text := NewSession(c), SIMPLE_REQUEST, Print(ResponseTo(Asked("GET", "/", []), callback));
            var together := [Receive(bytes + bytes, 0, room)];
            var apart := [Receive(bytes, 0, room)] + [Receive(bytes, 0, room)];
            && Received(together) == Received(apart)
            && ValidHistory(s, together, callback) && ValidHistory(s, apart, callback)
            && AcceptedBytes(After(s, together, callback).conn.history) == AcceptedBytes(c.history) + text
            && AcceptedBytes(After(s, apart, callback).conn.history) == AcceptedBytes(c.history) + text + text
  {
    var s, bytes := NewSession(c), SIMPLE_REQUEST;
    var one, both := Receive(bytes, 0, room), Receive(bytes + bytes, 0, room);
    AnswerOne(s, both, callback, bytes);
    assert ValidHistory(Happen(s, both, callback), [], callback);
    AfterCons(s, both, [], callback);
    assert [both] + [] == [both];
    assert bytes + "" == bytes;
    AnswerOne(s, one, callback, "");
    var s1 := Happen(s, one, callback);
    AnswerOne(s1, one, callback, "");
    assert ValidHistory(Happen(s1, one, callback), [], callback);
    AfterCons(s1, one, [], callback);
    assert [one] + [] == [one];
    AfterCons(s, one, [one], callback);
    assert (bytes + bytes) + "" == bytes + (bytes + "");
  }

  // ---------- a single request, from its bytes to its answer ----------

  lemma AskedOnly(bytes: string, verb: string, target: string, fields: seq<string>, end: string, rest: string)
    requires IsRequest(bytes, verb, target, fields, end, rest) && Verdicts(ExpectRequestLine, EMPTY_REQUEST, rest) == []
    ensures Verdicts(ExpectRequestLine, EMPTY_REQUEST, bytes) == [Served(Asked(verb, target, fields))]
  {
    RequestAccepted(bytes, verb, target, fields, end, rest, 0);
  }

  // As long as nothing has been decided, nothing waits, and the connection is as it was.
  lemma {:induction false} Undecided(s: Session, hs: seq<Happening>, callback: HttpCallback)
    requires Inv(s.conn) && Parsing(s.state) && ValidHistory(s, hs, callback)
    requires Handled(s, hs, callback) == []
    ensures var s' := After(s, hs, callback);
            && Prompt(s, hs, callback) && s'.conn.state == s.conn.state && Parsing(s'.state)
            && (Waiting(s) == [] ==> Waiting(s') == [])
    decreases |hs|
  {
    if hs != [] {
      var h, s1 := hs[0], Happen(s, hs[0], callback);
      HappenInput(s, h, callback);
      if h.Receive? {
        ReceivedNothing(s, h, callback);
      } else {
        HandleWriteInv(s.conn, h.n);
      }
      Undecided(s1, hs[1..], callback);
    }
  }

  lemma ReceivedNothing(s: Session, h: Happening, callback: HttpCallback)
    requires Parsing(s.state) && CanHappen(s, h) && h.Receive? && Decided(s, h) == []
    ensures var s' := Happen(s, h, callback); s'.conn == s.conn && Parsing(s'.state) && Waiting(s') == []
  {
    var bytes := s.input + h.bytes;
    var r := Parse(s.state, s.request, bytes, h.time);
    ParseLeaves(TakeLine, s.state, s.request, bytes, h.time);
    assert Parse(r.state, r.request, r.rest, 0) == Parsed(true, r.state, r.request, r.rest);
  }

  lemma {:induction false} OneDecided(s: Session, hs: seq<Happening>, callback: HttpCallback, v: Verdict)
    requires Inv(s.conn) && CanAnswer(s.conn) && Parsing(s.state) && ValidHistory(s, hs, callback) && Timeless(callback)
    requires Handled(s, hs, callback) == [v] && v.Served?
    ensures Prompt(s, hs, callback)
    ensures After(s, hs, callback).conn.state
         == if ResponseTo(v.request, callback).closeConnection then Disconnecting else Connected
    decreases |hs|
  {
    var h, s1 := hs[0], Happen(s, hs[0], callback);
    HappenInput(s, h, callback);
    HappenAccepts(s, h, callback);
    if Decided(s, h) == [] {
      if h.Receive? {
        ReceivedNothing(s, h, callback);
      } else {
        SettledExactly(s.conn);
      }
      OneDecided(s1, hs[1..], callback, v);
    } else {
      var o := Decide(Parse(s.state, s.request, s.input + h.bytes, h.time), "");
      ParseLeaves(TakeLine, s.state, s.request, s.input + h.bytes, h.time);
      OneAnswer(s.(input := s.input + h.bytes), h.time, callback, h.room);
      AnswerSent(s.conn, o, callback, h.room);
      assert Decided(s, h) == [v];
      ResponseTimeless(o.request, callback);
      Undecided(s1, hs[1..], callback);
    }
  }

  /** From the request's bytes to the answer's: a well-formed request, perhaps with the
      beginning of another one behind it, however it arrives and whatever the socket takes
      meanwhile, is answered by the printed response of the
      callback: written, and the rest in the output buffer. If the response closes the
      connection, the half-close has come exactly if everything is written. */
  lemma EndToEnd(c: Conn, hs: seq<Happening>, callback: HttpCallback,
                 verb: string, target: string, fields: seq<string>, end: string, rest: string)
    requires Inv(c) && CanAnswer(c) && Timeless(callback) && ValidHistory(NewSession(c), hs, callback)
    requires IsRequest(Received(hs), verb, target, fields, end, rest)
        && Verdicts(ExpectRequestLine, EMPTY_REQUEST, rest) == []
    ensures var r, c' := ResponseTo(Asked(verb, target, fields), callback), After(NewSession(c), hs, callback).conn;
            && WrittenBytes(c'.history) + c'.output == WrittenBytes(c.history) + Print(r)
            && (if r.closeConnection then c'.state == Disconnecting && (HalfClose in c'.history <==> c'.output == "")
                else c'.state == Connected)
  {
    var s, v := NewSession(c), Served(Asked(verb, target, fields));
    SingleHandled(c, hs, callback, v.request, verb, target, fields, end, rest);
    OneDecided(s, hs, callback, v);
    AnswersTaken(s, hs, callback);
    assert [v][1..] == [];
    assert Texts([v], callback) == Print(ResponseTo(v.request, callback));
  }

  lemma SingleHandled(c: Conn, hs: seq<Happening>, callback: HttpCallback, req: Request,
                      verb: string, target: string, fields: seq<string>, end: string, rest: string)
    requires Inv(c) && CanAnswer(c) && ValidHistory(NewSession(c), hs, callback)
    requires IsRequest(Received(hs), verb, target, fields, end, rest)
        && Verdicts(ExpectRequestLine, EMPTY_REQUEST, rest) == []
    requires req == Asked(verb, target, fields)
    ensures Handled(NewSession(c), hs, callback) == [Served(req)]
  {
    var s := NewSession(c);
    var handled := Handled(s, hs, callback);
    AskedOnly(Received(hs), verb, target, fields, end, rest);
    StreamHandled(c, hs, callback);
    assert FindCrlf("") == |""| && Waiting(s) == [];
    if handled == [] {
      Undecided(s, hs, callback);
      assert false;
    }
  }

  // ---------- what the client reads ----------

  // The field lines ask for the connection to be closed.
  ghost predicate AskToClose(fields: seq<string>) {
    var headers := Fields(map[], fields);
    "Connection" in headers && headers["Connection"] == "close"
  }

  // The callback leaves it to the server whether to close.
  ghost predicate KeepsFlag(callback: HttpCallback) {
    forall req, r :: callback(req, r).closeConnection == r.closeConnection
  }

  // What the callback makes of the request and of a new response that closes if asked to
  ghost function Reply(callback: HttpCallback, verb: string, target: string, fields: seq<string>): R.Response {
    callback(Asked(verb, target, fields), R.Response([], 0, "", AskToClose(fields), ""))
  }

  lemma ReplyIsResponse(callback: HttpCallback, verb: string, target: string, fields: seq<string>)
    ensures ResponseTo(Asked(verb, target, fields), callback) == Reply(callback, verb, target, fields)
  {
    assert Asked(verb, target, fields).headers == Fields(map[], fields);
  }

  /** With a callback that leaves the choice to the server, the connection is closed behind the
      answer exactly if the request's fields say `close` under `Connection`. */
  lemma ClosesExactly(c: Conn, hs: seq<Happening>, callback: HttpCallback,
                      verb: string, target: string, fields: seq<string>, end: string, rest: string)
    requires Inv(c) && CanAnswer(c) && Timeless(callback) && ValidHistory(NewSession(c), hs, callback)
    requires IsRequest(Received(hs), verb, target, fields, end, rest)
        && Verdicts(ExpectRequestLine, EMPTY_REQUEST, rest) == []
    requires KeepsFlag(callback)
    ensures var headers, state := Fields(map[], fields), After(NewSession(c), hs, callback).conn.state;
            && (state == Disconnecting <==> "Connection" in headers && headers["Connection"] == "close")
            && (state == Connected <==> !("Connection" in headers && headers["Connection"] == "close"))
  {
    EndToEnd(c, hs, callback, verb, target, fields, end, rest);
    ReplyIsResponse(callback, verb, target, fields);
  }

  /** From the bytes of the request to what the client reads: what is written, and what is left
      to write, is a text that reads back as the code, message, headers and body the callback
      has set, over the built-in fields. */
  lemma ClientReads(c: Conn, hs: seq<Happening>, callback: HttpCallback,
                    verb: string, target: string, fields: seq<string>, end: string, rest: string)
    returns (text: string)
    requires Inv(c) && CanAnswer(c) && Timeless(callback) && ValidHistory(NewSession(c), hs, callback)
    requires IsRequest(Received(hs), verb, target, fields, end, rest)
        && Verdicts(ExpectRequestLine, EMPTY_REQUEST, rest) == []
    requires T.PrintableResponse(Reply(callback, verb, target, fields))
    ensures var r, c' := Reply(callback, verb, target, fields), After(NewSession(c), hs, callback).conn;
            && WrittenBytes(c'.history) + c'.output == WrittenBytes(c.history) + text
            && T.ReadsAs(text, r.statusCode, r.statusMessage, T.Expected(r), r.body)
  {
    var r := Reply(callback, verb, target, fields);
    text := Print(r);
    EndToEnd(c, hs, callback, verb, target, fields, end, rest);
    ReplyIsResponse(callback, verb, target, fields);
    T.ResponseReadBack(r);
  }

  lemma RefusalReads()
    ensures T.ReadsAs(BAD_REQUEST, 400, "Bad Request", map[], "")
  {
    RefusalLine();
    RefusalRest(BAD_REQUEST);
  }

  lemma RefusalLine()
    ensures T.ReadStatus(BAD_REQUEST) == T.Status(400, "Bad Request", CRLF)
  {
    var message := "Bad Request";
    assert forall c <- message :: c != '\r';
    assert IsLine(message);
    RefusalCode();
    T.WordsRead(400, message, CRLF);
    RefusalText();
  }

  lemma RefusalText()
    ensures BAD_REQUEST == "HTTP/1.1 " + ("400" + " " + "Bad Request") + CRLF + CRLF
  {
  }

  lemma RefusalRest(text: string)
    requires T.ReadStatus(text) == T.Status(400, "Bad Request", CRLF)
    ensures T.ReadsAs(text, 400, "Bad Request", map[], "")
  {
    T.LinesReadBack(EMPTY_REQUEST, [], "", 0);
    assert R.HeaderLines([]) + CRLF + "" == CRLF;
    assert map[] + R.MapOf([]) == map[];
  }

  lemma RefusalCode()
    ensures D.Signed(400) == "400"
  {
    assert D.Numeral(4) == "4" && D.Numeral(40) == "40" && D.Numeral(400) == "400";
  }

  /** A line that is refused is answered, on a connection that can take it, by a text that the
      client reads as 400, Bad Request, without headers or body, and the connection is closed
      behind it; on any other, by nothing. */
  lemma RefusedExactly(s: Session, time: int, callback: HttpCallback, room: int) returns (text: string)
    requires Inv(s.conn) && Parsing(s.state) && !Parse(s.state, s.request, s.input, time).ok
    ensures T.ReadsAs(text, 400, "Bad Request", map[], "")
    ensures var c, c' := s.conn, OnMessage(s, time, callback, room).conn;
            && AcceptedBytes(c'.history) == AcceptedBytes(c.history) + (if CanAnswer(c) then text else "")
            && if CanAnswer(c) then c'.state == Disconnecting else c'.state != Connected
  {
    text := BAD_REQUEST;
    RefusalReads();
    OneAnswer(s, time, callback, room);
    ParseLeaves(TakeLine, s.state, s.request, s.input, time);
    var o := Decide(Parse(s.state, s.request, s.input, time), "");
    AnswerState(s.conn, o, callback, room);
    if CanAnswer(s.conn) {
      AnswerSent(s.conn, o, callback, room);
    } else {
      AnswerDropped(s.conn, o, callback, room);
      assert AcceptedBytes(s.conn.history) + "" == AcceptedBytes(s.conn.history);
    }
  }
}
