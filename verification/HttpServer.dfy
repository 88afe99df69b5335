/** HttpServer::onMessage on the objects it drives. */
module HttpServerModule {
  import opened BufferModule
  import opened EpollModule
  import opened HttpRequestModule
  import opened HttpContextModule
  import opened HttpResponseModule
  import opened TcpConnectionModule
  import opened HttpServerModel
  import ConnectionModel

  class HttpServer {
    const httpCallback: HttpCallback

    constructor (httpCallback: HttpCallback)
      ensures this.httpCallback == httpCallback
    {
      this.httpCallback := httpCallback;
    }

    ghost predicate Drives(connection: TcpConnection, context: HttpContext, input: Buffer)
      reads connection, connection.channel, connection.outputBuffer, connection.epoll, connection.epoll.known,
          context, context.request, input
    {
      && connection.Valid() && context.Ready() && input.Valid()
      && input != connection.outputBuffer && input.buffer != connection.outputBuffer.buffer
    }

    ghost function View(connection: TcpConnection, context: HttpContext, input: Buffer): Session
      requires connection.outputBuffer.Valid() && input.Valid()
      reads connection, connection.channel, connection.outputBuffer, connection.outputBuffer.buffer
      reads context, context.request, input, input.buffer
    {
      Session(connection.View(), context.state, context.request.Value(), input.Contents())
    }

    /** onMessage, in a state from which the parser can go on: its effect on the connection,
        the context and the input buffer. Only after a failed parse is the context possibly
        not ready for another message. */
    method OnMessage(connection: TcpConnection, context: HttpContext, input: Buffer, receiveTime: int, room: int)
      requires Drives(connection, context, input)
      modifies connection`state, connection`history, connection.outputBuffer, connection.outputBuffer.buffer
      modifies connection.epoll`channels, connection.epoll`kernel, connection.epoll`known
      modifies connection.channel`events, connection.channel`status, connection.channel`addedToLoop
      modifies context, context.request, input
      ensures connection.Valid() && input.Valid() && connection.Watched()
      ensures View(connection, context, input)
              == HttpServerModel.OnMessage(old(View(connection, context, input)), receiveTime, httpCallback, room)
      ensures Parse(old(context.state), old(context.request.Value()), old(input.Contents()), receiveTime).ok
              ==> Drives(connection, context, input)
    {
      var ok := context.ParseRequest(input, receiveTime);
      AfterParse(connection, context, ok, room);
    }

    method AfterParse(connection: TcpConnection, context: HttpContext, ok: bool, room: int)
      requires connection.Valid()
      modifies connection`state, connection`history, connection.outputBuffer, connection.outputBuffer.buffer
      modifies connection.epoll`channels, connection.epoll`kernel, connection.epoll`known
      modifies connection.channel`events, connection.channel`status, connection.channel`addedToLoop
      modifies context, context.request
      ensures connection.Valid() && connection.Watched()
      ensures connection.outputBuffer.buffer == old(connection.outputBuffer.buffer)
              || fresh(connection.outputBuffer.buffer)
      ensures var c := if ok then old(connection.View()) else Reject(old(connection.View()), room);
              if old(context.state) == GotAll
              then connection.View() == HttpServerModel.OnRequest(c, old(context.request.Value()), httpCallback, room)
                   && context.state == ExpectRequestLine && context.request.Value() == EMPTY_REQUEST
              else connection.View() == c
                   && context.state == old(context.state) && context.request.Value() == old(context.request.Value())
    {
      RejectUnless(connection, ok, room);
      ghost var kernel := connection.epoll.kernel;
      CompleteIf(connection, context, room);
      SameUpdate(old(connection.epoll.kernel), kernel, connection.channel.fd,
                 Registration(connection.channel.events, connection.channel));
    }

    lemma SameUpdate(k: map<int, Registration>, k': map<int, Registration>, fd: int, r: Registration)
      requires k' - {fd} == k - {fd}
      ensures k'[fd := r] == k[fd := r]
    {
      forall i | i != fd ensures (i in k' <==> i in k) && (i in k ==> k'[i] == k[i]) {
        assert i in k' - {fd} <==> i in k - {fd};
        assert i in k ==> (k' - {fd})[i] == (k - {fd})[i];
      }
    }

    // The answer to a request that is refused
    method RejectUnless(connection: TcpConnection, ok: bool, room: int)
      requires connection.Valid()
      modifies connection`state, connection`history, connection.outputBuffer, connection.outputBuffer.buffer
      modifies connection.epoll`channels, connection.epoll`kernel, connection.epoll`known
      modifies connection.channel`events, connection.channel`status, connection.channel`addedToLoop
      ensures connection.Valid() && connection.Watched()
      ensures connection.outputBuffer.buffer == old(connection.outputBuffer.buffer)
              || fresh(connection.outputBuffer.buffer)
      ensures connection.View() == if ok then old(connection.View()) else Reject(old(connection.View()), room)
    {
      if !ok {
        Reply(connection, BAD_REQUEST, true, room);
      }
    }

    method CompleteIf(connection: TcpConnection, context: HttpContext, room: int)
      requires connection.Valid()
      modifies connection`state, connection`history, connection.outputBuffer, connection.outputBuffer.buffer
      modifies connection.epoll`channels, connection.epoll`kernel, connection.epoll`known
      modifies connection.channel`events, connection.channel`status, connection.channel`addedToLoop
      modifies context, context.request
      ensures connection.Valid() && connection.Watched()
      ensures connection.outputBuffer.buffer == old(connection.outputBuffer.buffer)
              || fresh(connection.outputBuffer.buffer)
      ensures if old(context.state) == GotAll
              then connection.View() == HttpServerModel.OnRequest(old(connection.View()), old(context.request.Value()),
                                                                  httpCallback, room)
                   && context.state == ExpectRequestLine && context.request.Value() == EMPTY_REQUEST
              else connection.View() == old(connection.View())
                   && context.state == old(context.state) && context.request.Value() == old(context.request.Value())
    {
      if context.IsComplete() {
        Complete(connection, context, room);
      }
    }

    // Answer the request and start over.
    method Complete(connection: TcpConnection, context: HttpContext, room: int)
      requires connection.Valid()
      modifies connection`state, connection`history, connection.outputBuffer, connection.outputBuffer.buffer
      modifies connection.epoll`channels, connection.epoll`kernel, connection.epoll`known
      modifies connection.channel`events, connection.channel`status, connection.channel`addedToLoop
      modifies context, context.request
      ensures connection.Valid() && connection.Watched()
      ensures connection.outputBuffer.buffer == old(connection.outputBuffer.buffer)
              || fresh(connection.outputBuffer.buffer)
      ensures connection.View() == HttpServerModel.OnRequest(old(connection.View()), old(context.request.Value()),
              httpCallback, room)
      ensures context.state == ExpectRequestLine && context.request.Value() == EMPTY_REQUEST
    {
      OnRequest(connection, context.request.Value(), room);
      context.Reset();
    }

    method OnRequest(connection: TcpConnection, request: Request, room: int)
      requires connection.Valid()
      modifies connection`state, connection`history, connection.outputBuffer, connection.outputBuffer.buffer
      modifies connection.epoll`channels, connection.epoll`kernel, connection.epoll`known
      modifies connection.channel`events, connection.channel`status, connection.channel`addedToLoop
      ensures connection.Valid() && connection.Watched()
      ensures connection.outputBuffer.buffer == old(connection.outputBuffer.buffer)
              || fresh(connection.outputBuffer.buffer)
      ensures connection.View() == HttpServerModel.OnRequest(old(connection.View()), request, httpCallback, room)
    {
      var text, close := Render(request);
      Reply(connection, text, close, room);
    }

    // The response to a request, as text
    method Render(request: Request) returns (text: string, close: bool)
      ensures text == Print(ResponseTo(request, httpCallback))
      ensures close == ResponseTo(request, httpCallback).closeConnection
    {
      var isClose := GetHeader(request, "Connection") == "close";
      var response := new HttpResponse(isClose);
      var filled := httpCallback(request, response.Value());
      response.Fill(filled);
      var buffer := new Buffer();
      response.AppendToBuffer(buffer);
      text := buffer.Peek(buffer.ReadableBytes());
      assert "" + StatusLine(filled) == StatusLine(filled);
      close := response.closeConnection;
    }

    // send, and then perhaps shutdown
    method Reply(connection: TcpConnection, text: string, last: bool, room: int)
      requires connection.Valid()
      modifies connection`state, connection`history, connection.outputBuffer, connection.outputBuffer.buffer
      modifies connection.epoll`channels, connection.epoll`kernel, connection.epoll`known
      modifies connection.channel`events, connection.channel`status, connection.channel`addedToLoop
      ensures connection.Valid() && connection.Watched()
      ensures connection.outputBuffer.buffer == old(connection.outputBuffer.buffer)
              || fresh(connection.outputBuffer.buffer)
      ensures var c := ConnectionModel.Send(old(connection.View()), text, WriteResult(room, text));
              connection.View() == if last then ConnectionModel.Shutdown(c) else c
    {
      connection.Send(text, WriteResult(room, text));
      if last {
        connection.Shutdown();
      }
    }
  }
}
