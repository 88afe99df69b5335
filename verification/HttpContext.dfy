/** HttpContext: the incremental request parser over a Buffer. */
module HttpContextModule {
  import opened Bytes
  import opened BufferModule
  import opened HttpRequestModule

  datatype ParseState = ExpectRequestLine | ExpectHeader | ExpectBody | GotAll

  datatype Parsed = Parsed(ok: bool, state: ParseState, request: Request, rest: string)

  const VERSION := "HTTP/1.1"

  datatype LineResult = LineResult(ok: bool, request: Request)

  // processRequestLine
  function ProcessRequestLine(req: Request, line: string): LineResult {
    var space := Find(line, ' ');
    if space == |line| then LineResult(false, req)
    else
      var req1 := req.(verb := MethodOf(line[..space]));
      if req1.verb == Invalid then LineResult(false, req1)
      else
        TargetOf(req1, line[space + 1..])
  }

  // The rest of a request line: path, query and version
  function TargetOf(req: Request, tail: string): LineResult {
    var space := Find(tail, ' ');
    if space == |tail| then LineResult(false, req)
    else
      var question := Find(tail[..space], '?');
      var req1 := if question < space
                  then req.(path := tail[..question], query := tail[question..space])
                  else req.(path := tail[..space]);
      LineResult(tail[space + 1..] == VERSION, req1)
  }

  function AddHeader(req: Request, line: string): Request
    requires Find(line, ':') < |line|
  {
    var colon := Find(line, ':');
    req.(headers := req.headers[line[..colon] := Trim(line[colon + 1..])])
  }

  predicate Parsing(state: ParseState) {
    state == ExpectRequestLine || state == ExpectHeader
  }

  // What one complete line does to the parser
  datatype Taken = More(request: Request) | Done(request: Request) | Rejected(request: Request)

  function TakeLine(state: ParseState, req: Request, line: string, time: int): Taken {
    if state == ExpectRequestLine then
      var r := ProcessRequestLine(req, line);
      if r.ok then More(r.request.(receiveTime := time)) else Rejected(r.request)
    else if Find(line, ':') < |line| then More(AddHeader(req, line))
    else Done(req)
  }

  type LineHandler = (ParseState, Request, string, int) -> Taken

  // The loop of parseRequest, line by line
  function ParseLines(take: LineHandler, state: ParseState, req: Request, bytes: string, time: int): Parsed
    decreases |bytes|
  {
    var k := FindCrlf(bytes);
    if k == |bytes| then Parsed(true, state, req, bytes)
    else
      match take(state, req, bytes[..k], time)
      case More(req') => ParseLines(take, ExpectHeader, req', bytes[k + 2..], time)
      case Done(req') => Parsed(true, GotAll, req', bytes[k + 2..])
      case Rejected(req') => Parsed(false, ExpectRequestLine, req', bytes)
  }

  /** parseRequest on the readable bytes. The result says what it returns, the new state and
      request, and the bytes it leaves in the buffer. */
  function Parse(state: ParseState, req: Request, bytes: string, time: int): Parsed
    requires Parsing(state)
  {
    ParseLines(TakeLine, state, req, bytes, time)
  }

  lemma ParseOneLine(state: ParseState, req: Request, bytes: string, time: int)
    requires Parsing(state)
    ensures var k := FindCrlf(bytes);
            var t := if k < |bytes| then TakeLine(state, req, bytes[..k], time) else More(req);
            Parse(state, req, bytes, time) ==
              if k == |bytes| then Parsed(true, state, req, bytes)
              else if t.More? then Parse(ExpectHeader, t.request, bytes[k + 2..], time)
              else if t.Done? then Parsed(true, GotAll, t.request, bytes[k + 2..])
              else Parsed(false, ExpectRequestLine, t.request, bytes)
  {
  }

  class HttpContext {
    var state: ParseState
    const request: HttpRequest

    constructor ()
      ensures fresh(request) && Ready() && state == ExpectRequestLine && request.Value() == EMPTY_REQUEST
    {
      state := ExpectRequestLine;
      request := new HttpRequest();
    }

    // What a call of parseRequest relies on: setMethod asserts that no method is set yet,
    // and the loop only ends in these two states.
    predicate Ready()
      reads this, request
    {
      Parsing(state) && (state == ExpectRequestLine ==> request.verb == Invalid)
    }

    predicate IsComplete()
      reads this
    {
      state == GotAll
    }

    method ProcessLine(line: string) returns (ok: bool)
      requires request.verb == Invalid
      modifies request
      ensures LineResult(ok, request.Value()) == ProcessRequestLine(old(request.Value()), line)
    {
      ok := false;
      var space := Find(line, ' ');
      if space != |line| {
        var valid := request.SetMethod(line[..space]);
        if valid {
          ok := ProcessTarget(line[space + 1..]);
        }
      }
    }

    // The part of processRequestLine after the method; without a second space the version
    // that is compared has a negative length.
    method ProcessTarget(tail: string) returns (ok: bool)
      modifies request`path, request`query
      ensures LineResult(ok, request.Value()) == TargetOf(old(request.Value()), tail)
    {
      ok := false;
      var space := Find(tail, ' ');
      if space != |tail| {
        var question := Find(tail[..space], '?');
        if question != space {
          request.path := tail[..question];
          request.query := tail[question..space];
        } else {
          request.path := tail[..space];
        }
        ok := tail[space + 1..] == VERSION;
      }
    }

    /** parseRequest: it always ends, and computes Parse of what is in the buffer. */
    method ParseRequest(buffer: Buffer, receiveTime: int) returns (ok: bool)
      requires Ready() && buffer.Valid()
      modifies this, request, buffer
      ensures buffer.Valid() && buffer.buffer == old(buffer.buffer)
      ensures Parsed(ok, state, request.Value(), buffer.Contents())
           == Parse(old(state), old(request.Value()), old(buffer.Contents()), receiveTime)
      ensures !ok ==> state == ExpectRequestLine
      ensures ok ==> Ready() || state == GotAll
    {
      ok := true;
      var hasMore := true;
      ghost var expected := Parse(state, request.Value(), buffer.Contents(), receiveTime);
      while hasMore
        invariant buffer.Valid() && buffer.buffer == old(buffer.buffer)
        invariant hasMore ==> ok && Ready() && expected == Parse(state, request.Value(), buffer.Contents(), receiveTime)
        invariant !hasMore ==> expected == Parsed(ok, state, request.Value(), buffer.Contents())
        invariant !ok ==> state == ExpectRequestLine
        invariant ok ==> Ready() || state == GotAll
        decreases hasMore, buffer.ReadableBytes()
      {
        ok, hasMore := Round(buffer, receiveTime);
      }
    }

    // One round of the loop
    method Round(buffer: Buffer, receiveTime: int) returns (ok: bool, hasMore: bool)
      requires Ready() && buffer.Valid()
      modifies this, request, buffer`readerIndex, buffer`writerIndex
      ensures buffer.Valid()
      ensures hasMore ==> ok && Ready() && buffer.ReadableBytes() < old(buffer.ReadableBytes())
      ensures !ok ==> state == ExpectRequestLine
      ensures ok ==> Ready() || state == GotAll
      ensures Parse(old(state), old(request.Value()), old(buffer.Contents()), receiveTime)
           == if hasMore then Parse(state, request.Value(), buffer.Contents(), receiveTime)
              else Parsed(ok, state, request.Value(), buffer.Contents())
    {
      ok := true;
      ParseOneLine(state, request.Value(), buffer.Contents(), receiveTime);
      var crlf := buffer.FindCRLF();
      if crlf == buffer.ReadableBytes() {
        hasMore := false;
      } else if state == ExpectRequestLine {
        ok := TakeRequestLine(buffer, crlf, receiveTime);
        hasMore := ok;
      } else {
        hasMore := TakeHeader(buffer, crlf);
      }
    }

    // One round of the loop in state kExpectRequestLine, with a complete line
    method TakeRequestLine(buffer: Buffer, crlf: nat, receiveTime: int) returns (ok: bool)
      requires Ready() && state == ExpectRequestLine && buffer.Valid()
      requires crlf == FindCrlf(buffer.Contents()) < |buffer.Contents()|
      modifies this, request, buffer`readerIndex, buffer`writerIndex
      ensures buffer.Valid() && |buffer.Contents()| <= old(|buffer.Contents()|)
      ensures state == (if ok then ExpectHeader else ExpectRequestLine)
      ensures var r := ProcessRequestLine(old(request.Value()), old(buffer.Contents())[..crlf]);
              && ok == r.ok
              && request.Value() == (if ok then r.request.(receiveTime := receiveTime) else r.request)
              && buffer.Contents() == if ok then old(buffer.Contents())[crlf + 2..] else old(buffer.Contents())
    {
      var line := buffer.Peek(crlf);
      ok := ProcessLine(line);
      if ok {
        request.receiveTime := receiveTime;
        buffer.Retrieve(crlf + 2);
        state := ExpectHeader;
      }
    }

    // One round of the loop in state kExpectHeader, with a complete line
    method TakeHeader(buffer: Buffer, crlf: nat) returns (hasMore: bool)
      requires state == ExpectHeader && buffer.Valid()
      requires crlf == FindCrlf(buffer.Contents()) < |buffer.Contents()|
      modifies this, request, buffer`readerIndex, buffer`writerIndex
      ensures buffer.Valid() && |buffer.Contents()| < old(|buffer.Contents()|)
      ensures state == if hasMore then ExpectHeader else GotAll
      ensures var line := old(buffer.Contents())[..crlf];
              && hasMore == (Find(line, ':') < |line|)
              && request.Value() == if hasMore then AddHeader(old(request.Value()), line) else old(request.Value())
      ensures buffer.Contents() == old(buffer.Contents())[crlf + 2..]
    {
      var line := buffer.Peek(crlf);
      var colon := Find(line, ':');
      hasMore := colon != |line|;
      if hasMore {
        request.AddHeader(line, colon);
      } else {
        state := GotAll;
      }
      buffer.Retrieve(crlf + 2);
    }

    method Reset()
      modifies this, request
      ensures Ready() && state == ExpectRequestLine && request.Value() == EMPTY_REQUEST
    {
      state := ExpectRequestLine;
      request.SwapWithNew();
    }
  }
}
