/** TcpConnection as an object: a socket's channel, an output buffer and a state, changed by
    its handlers. View() is the value that ConnectionModel reasons about. */
module TcpConnectionModule {
  import opened BufferModule
  import opened ChannelStatus
  import opened ConnectionState
  import opened EpollModule
  import opened ConnectionModel

  class TcpConnection {
    const epoll: Epoll
    const channel: Channel
    const outputBuffer: Buffer
    var state: ConnState
    ghost var history: seq<Event>

    // The mask is empty, or EPOLLIN (1) and EPOLLPRI (2), or these and EPOLLOUT (4).
    ghost predicate Valid()
      reads this, channel, outputBuffer, epoll, epoll.known
    {
      && epoll.Ready(channel) && outputBuffer.Valid()
      && (channel.events == 0 || channel.events == 0x1 | 0x2 || channel.events == 0x1 | 0x2 | 0x4)
      && (if state == Connecting || state == Disconnected then channel.events == NONE_EVENT && channel.status != Added
          else channel.events != NONE_EVENT && channel in epoll.known && channel.status == Added)
    }

    ghost function View(): Conn
      requires outputBuffer.Valid()
      reads this, channel, outputBuffer, outputBuffer.buffer
    {
      Conn(state, channel.events & 0x1 != 0, channel.events & 0x4 != 0, outputBuffer.Contents(), history)
    }

    // The interest set of the loop's epoll holds this descriptor with the wanted events. The
    // tables are otherwise as before, and no other channel has become known.
    twostate predicate Watched()
      reads this, channel, epoll
    {
      && epoll.kernel == (if channel.IsNoneEvent() then old(epoll.kernel) - {channel.fd}
                          else old(epoll.kernel)[channel.fd := Registration(channel.events, channel)])
      && Alone()
    }

    // Only this connection's entries have changed.
    twostate predicate Alone()
      reads this, channel, epoll
    {
      && old(epoll.known) <= epoll.known <= old(epoll.known) + {channel}
      && epoll.channels - {channel.fd} == old(epoll.channels) - {channel.fd}
      && epoll.kernel - {channel.fd} == old(epoll.kernel) - {channel.fd}
    }

    constructor (epoll: Epoll, fd: int)
      requires epoll.Valid() && fd !in epoll.channels
      ensures Valid() && fresh(channel) && fresh(outputBuffer) && fresh(outputBuffer.buffer)
      ensures this.epoll == epoll && channel.fd == fd && View() == NEW_CONNECTION
    {
      this.epoll := epoll;
      channel := new Channel(fd);
      outputBuffer := new Buffer();
      state := Connecting;
      history := [];
    }

    method ConnectionEstablished()
      requires Valid() && state == Connecting
      modifies this`state, epoll`channels, epoll`kernel, epoll`known, channel`events, channel`status,
          channel`addedToLoop
      ensures Valid() && View() == ConnectionModel.ConnectionEstablished(old(View())) && Watched()
    {
      state := Connected;
      channel.EnableReading(epoll);
    }

    // n: what write(2) returns if it is called
    method Send(message: string, n: int)
      requires Valid() && n <= |message|
      modifies this`history, outputBuffer, outputBuffer.buffer
      modifies epoll`channels, epoll`kernel, epoll`known, channel`events, channel`status, channel`addedToLoop
      ensures Valid() && (outputBuffer.buffer == old(outputBuffer.buffer) || fresh(outputBuffer.buffer))
      ensures View() == ConnectionModel.Send(old(View()), message, n) && Watched()
    {
      if state == Connected {
        SendInLoop(message, n);
      } else {
        history := history + [Dropped(message)];
      }
    }

    method SendInLoop(message: string, n: int)
      requires Valid() && state == Connected && n <= |message|
      modifies this`history, outputBuffer, outputBuffer.buffer
      modifies epoll`channels, epoll`kernel, epoll`known, channel`events, channel`status, channel`addedToLoop
      ensures Valid() && (outputBuffer.buffer == old(outputBuffer.buffer) || fresh(outputBuffer.buffer))
      ensures View() == ConnectionModel.SendInLoop(old(View()), message, n) && Watched()
      ensures outputBuffer.Contents() == if old(View().writing) || old(View().output) != "" then old(View().output)
                                         else if n < 0 then message else message[n..]
    {
      if !channel.IsWriting() && outputBuffer.ReadableBytes() == 0 {
        var written := WriteDirectly(message, n);
        if written < |message| {
          KeepForLater(message[written..]);
        }
      } else {
        history := history + [Dropped(message)];
      }
    }

    // The direct write(2) of sendInLoop
    method WriteDirectly(message: string, n: int) returns (written: nat)
      requires n <= |message|
      modifies this`history
      ensures written == if n >= 0 then n else 0
      ensures var h1 := old(history) + [Accepted(message)];
              var h2 := if written > 0 then h1 + [Written(message[..written])] else h1;
              history == if n == |message| then h2 + [WriteComplete] else h2
    {
      history := history + [Accepted(message)];
      if n >= 0 {
        written := n;
        if n > 0 {
          history := history + [Written(message[..n])];
        }
        if n == |message| {
          history := history + [WriteComplete];
        }
      } else {
        written := 0;
      }
    }

    // What write(2) did not take goes into the buffer.
    method KeepForLater(rest: string)
      requires Valid() && state == Connected && !channel.IsWriting() && outputBuffer.ReadableBytes() == 0
      modifies outputBuffer, outputBuffer.buffer
      modifies epoll`channels, epoll`kernel, epoll`known, channel`events, channel`status, channel`addedToLoop
      ensures Valid() && (outputBuffer.buffer == old(outputBuffer.buffer) || fresh(outputBuffer.buffer))
      ensures View() == old(View()).(output := rest, writing := true) && Watched()
    {
      outputBuffer.Append(rest);
      assert outputBuffer.Contents() == rest;
      channel.EnableWriting(epoll);
    }

    method Shutdown()
      requires Valid()
      modifies this`state, this`history
      ensures Valid() && View() == ConnectionModel.Shutdown(old(View()))
    {
      if state == Connected {
        state := Disconnecting;
        ShutdownInLoop();
      }
    }

    method ShutdownInLoop()
      requires Valid()
      modifies this`history
      ensures Valid() && View() == ConnectionModel.ShutdownInLoop(old(View()))
    {
      if !channel.IsWriting() {
        history := history + [HalfClose];
      }
    }

    method HandleWrite(n: int)
      requires Valid() && (channel.IsWriting() ==> n <= outputBuffer.ReadableBytes())
      modifies this`history, outputBuffer`readerIndex, outputBuffer`writerIndex
      modifies epoll`channels, epoll`kernel, epoll`known, channel`events, channel`status, channel`addedToLoop
      ensures Valid() && View() == ConnectionModel.HandleWrite(old(View()), n) && Watched()
      ensures outputBuffer.Contents() == if old(channel.IsWriting()) && n > 0 then old(outputBuffer.Contents())[n..]
                                         else old(outputBuffer.Contents())
    {
      if channel.IsWriting() {
        if n > 0 {
          TakeWritten(n);
          if outputBuffer.ReadableBytes() == 0 {
            OutputDone();
          }
        }
      }
    }

    // write(2) has taken n bytes of the buffer.
    method TakeWritten(n: nat)
      requires Valid() && n <= outputBuffer.ReadableBytes()
      modifies this`history, outputBuffer`readerIndex, outputBuffer`writerIndex
      ensures Valid()
      ensures View() == var c := old(View()); c.(output := c.output[n..]).Log(Written(c.output[..n]))
    {
      history := history + [Written(outputBuffer.Contents()[..n])];
      outputBuffer.Retrieve(n);
    }

    // The buffer has become empty.
    method OutputDone()
      requires Valid() && channel.IsWriting()
      modifies this`history
      modifies epoll`channels, epoll`kernel, epoll`known, channel`events, channel`status, channel`addedToLoop
      ensures Valid() && Watched()
      ensures View() == var c := old(View()).(writing := false).Log(WriteComplete);
                        if c.state == Disconnecting then ConnectionModel.ShutdownInLoop(c) else c
    {
      channel.DisableWriting(epoll);
      history := history + [WriteComplete];
      if state == Disconnecting {
        ShutdownInLoop();
      }
    }

    // The close callback, TcpServer::removeConnection, is a step of the TcpServer module.
    method HandleClose()
      requires Valid() && (state == Connected || state == Disconnecting)
      modifies this`state, epoll`channels, epoll`kernel, epoll`known, channel`events, channel`status,
          channel`addedToLoop
      ensures Valid() && View() == ConnectionModel.HandleClose(old(View())) && Watched()
    {
      state := Disconnected;
      channel.DisableAll(epoll);
    }

    // connectionDestroyed of a connection that is not being shut down
    method ConnectionDestroyed()
      requires Valid() && state != Disconnecting
      modifies this`state, epoll`channels, epoll`kernel, epoll`known, channel`events, channel`status,
          channel`addedToLoop
      ensures Valid() && View() == ConnectionModel.ConnectionDestroyed(old(View()))
      ensures epoll.channels == old(epoll.channels) - {channel.fd} && epoll.kernel == old(epoll.kernel) - {channel.fd}
      ensures Alone()
    {
      if state == Connected {
        state := Disconnected;
        channel.DisableAll(epoll);
      }
      channel.Remove(epoll);
    }
  }

  /** So any number of connections can share a loop: an operation on one of them leaves every
      other one, which has a descriptor of its own, as valid as it was. */
  twostate lemma Neighbour(a: TcpConnection, b: TcpConnection)
    requires a.Valid() && a.Alone() && old(b.Valid())
    requires a.epoll == b.epoll && a.channel.fd != b.channel.fd
    requires unchanged(b, b.channel, b.outputBuffer)
    requires forall c <- old(a.epoll.known) | c != a.channel :: unchanged(c)
    ensures b.Valid()
  {
  }
}
