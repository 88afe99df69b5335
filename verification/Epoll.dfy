/** Channel and Epoll: the bookkeeping that has to agree with the interest set the kernel
    keeps for the epoll descriptor. */
module EpollModule {
  import opened ChannelStatus

  type Mask = bv16

  const NONE_EVENT: Mask := 0
  const READ_EVENT: Mask := 0x3 // EPOLLIN | EPOLLPRI
  const WRITE_EVENT: Mask := 0x4 // EPOLLOUT

  const INIT_EVENT_LIST_SIZE := 16

  // What the kernel stores for a descriptor: the mask and data.ptr
  datatype Registration = Registration(mask: Mask, channel: Channel)

  datatype Operation = CtlAdd | CtlMod | CtlDel

  datatype Ready = Ready(fd: int, revents: Mask)

  class Channel {
    const fd: int
    var events: Mask
    var revents: Mask
    var status: Status
    var addedToLoop: bool

    constructor (fd: int)
      ensures this.fd == fd && events == NONE_EVENT && status == New && !addedToLoop
    {
      this.fd := fd;
      events, revents, status, addedToLoop := NONE_EVENT, 0, New, false;
    }

    predicate IsNoneEvent()
      reads this
    {
      events == NONE_EVENT
    }

    predicate IsWriting()
      reads this
    {
      events & WRITE_EVENT != 0
    }

    // Channel::update, after events_ has changed
    method Update(epoll: Epoll)
      requires epoll.ValidBut(this)
      modifies epoll`channels, epoll`kernel, epoll`known, this`status, this`addedToLoop
      ensures epoll.Valid() && epoll.known == old(epoll.known) + {this} && addedToLoop
      ensures epoll.channels == old(epoll.channels)[fd := this]
      ensures status == NextStatus(old(status), IsNoneEvent())
      ensures epoll.kernel == if status == Added then old(epoll.kernel)[fd := Registration(events, this)]
                              else old(epoll.kernel) - {fd}
    {
      addedToLoop := true;
      epoll.UpdateChannel(this);
    }

    method EnableReading(epoll: Epoll)
      requires epoll.Ready(this)
      modifies epoll`channels, epoll`kernel, epoll`known, this`events, this`status, this`addedToLoop
      ensures epoll.Valid() && epoll.known == old(epoll.known) + {this}
      ensures epoll.channels == old(epoll.channels)[fd := this]
      ensures events == old(events) | READ_EVENT && status == Added && addedToLoop
      ensures epoll.kernel == old(epoll.kernel)[fd := Registration(events, this)]
    {
      events := events | READ_EVENT;
      assert events != 0;
      Update(epoll);
    }

    method EnableWriting(epoll: Epoll)
      requires epoll.Ready(this)
      modifies epoll`channels, epoll`kernel, epoll`known, this`events, this`status, this`addedToLoop
      ensures epoll.Valid() && epoll.known == old(epoll.known) + {this}
      ensures epoll.channels == old(epoll.channels)[fd := this]
      ensures events == old(events) | WRITE_EVENT && IsWriting() && status == Added && addedToLoop
      ensures epoll.kernel == old(epoll.kernel)[fd := Registration(events, this)]
    {
      events := events | WRITE_EVENT;
      assert events != 0;
      Update(epoll);
    }

    method DisableWriting(epoll: Epoll)
      requires epoll.Ready(this)
      modifies epoll`channels, epoll`kernel, epoll`known, this`events, this`status, this`addedToLoop
      ensures epoll.Valid() && epoll.known == old(epoll.known) + {this}
      ensures epoll.channels == old(epoll.channels)[fd := this]
      ensures events == old(events) & !WRITE_EVENT && !IsWriting() && addedToLoop
      ensures status == NextStatus(old(status), IsNoneEvent())
      ensures epoll.kernel == if status == Added then old(epoll.kernel)[fd := Registration(events, this)]
                              else old(epoll.kernel) - {fd}
    {
      events := events & !WRITE_EVENT;
      Update(epoll);
    }

    method DisableAll(epoll: Epoll)
      requires epoll.Ready(this)
      modifies epoll`channels, epoll`kernel, epoll`known, this`events, this`status, this`addedToLoop
      ensures epoll.Valid() && epoll.known == old(epoll.known) + {this}
      ensures epoll.channels == old(epoll.channels)[fd := this]
      ensures IsNoneEvent() && status == NextStatus(old(status), true) && addedToLoop
      ensures epoll.kernel == if status == Added then old(epoll.kernel)[fd := Registration(events, this)]
                              else old(epoll.kernel) - {fd}
    {
      events := NONE_EVENT;
      Update(epoll);
    }

    /** remove: asserts that no event is wanted any more. */
    method Remove(epoll: Epoll)
      requires epoll.Ready(this) && IsNoneEvent()
      modifies epoll`channels, epoll`kernel, this`status, this`addedToLoop
      ensures epoll.Valid() && status == New && !addedToLoop
      ensures epoll.channels == old(epoll.channels) - {fd} && epoll.kernel == old(epoll.kernel) - {fd}
    {
      addedToLoop := false;
      epoll.RemoveChannel(this);
    }
  }

  class Epoll {
    var channels: map<int, Channel>
    var kernel: map<int, Registration> // the kernel's interest set
    var eventsSize: nat
    ghost var known: set<Channel>

    constructor ()
      ensures Valid() && channels == map[] && kernel == map[] && known == {}
    {
      channels, kernel, eventsSize, known := map[], map[], INIT_EVENT_LIST_SIZE, {};
    }

    predicate Mapped(c: Channel)
      reads this
    {
      c.fd in channels && channels[c.fd] == c
    }

    // The channel's status says where it is recorded; `maskToo`: and with which mask.
    ghost predicate Recorded(c: Channel, maskToo: bool)
      reads this, c
    {
      match c.status
      case Added => Mapped(c) && c.fd in kernel && kernel[c.fd].channel == c
          && (maskToo ==> kernel[c.fd].mask == c.events)
      case Deleted => Mapped(c) && c.fd !in kernel && (maskToo ==> c.IsNoneEvent())
      case New => !Mapped(c) && (c.fd in kernel ==> kernel[c.fd].channel != c)
    }

    ghost predicate Tables()
      reads this, known
    {
      && eventsSize > 0
      && (forall fd <- channels :: channels[fd] in known && channels[fd].fd == fd && channels[fd].status != New)
      && (forall fd <- kernel :: fd in channels && kernel[fd].channel == channels[fd] && channels[fd].status == Added)
    }

    /** In every state between two operations, for every channel: kAdded exactly when it is
        mapped and registered with its mask, kDeleted exactly when it is only mapped and
        wants no event, kNew exactly when it is in neither table. */
    ghost predicate Valid()
      reads this, known
    {
      Tables() && forall c <- known :: Recorded(c, true)
    }

    // The events of `ch` have been changed, and nobody else uses its descriptor.
    ghost predicate ValidBut(ch: Channel)
      reads this, known, ch
    {
      && Tables() && (ch.fd in channels ==> channels[ch.fd] == ch)
      && (forall c <- known :: c != ch ==> Recorded(c, true))
      && Recorded(ch, false) && (ch !in known ==> ch.status == New)
    }

    // One channel per descriptor
    ghost predicate Ready(ch: Channel)
      reads this, known, ch
    {
      && Valid() && (ch.fd in channels ==> channels[ch.fd] == ch)
      && (ch !in known ==> ch.status == New)
    }

    // epoll_ctl
    method Control(op: Operation, ch: Channel) returns (ok: bool)
      modifies this`kernel
      ensures ok == if op == CtlAdd then ch.fd !in old(kernel) else ch.fd in old(kernel)
      ensures kernel == if !ok then old(kernel)
                        else if op == CtlDel then old(kernel) - {ch.fd}
                        else old(kernel)[ch.fd := Registration(ch.events, ch)]
    {
      ok := if op == CtlAdd then ch.fd !in kernel else ch.fd in kernel;
      if ok {
        if op == CtlDel {
          kernel := kernel - {ch.fd};
        } else {
          kernel := kernel[ch.fd := Registration(ch.events, ch)];
        }
      }
    }

    /** updateChannel: its asserts hold and epoll_ctl succeeds. */
    method UpdateChannel(ch: Channel)
      requires ValidBut(ch)
      modifies this`channels, this`kernel, this`known, ch`status
      ensures Valid() && known == old(known) + {ch}
      ensures ch.status == NextStatus(old(ch.status), ch.IsNoneEvent())
      ensures kernel == if ch.status == Added then old(kernel)[ch.fd := Registration(ch.events, ch)]
                        else old(kernel) - {ch.fd}
      ensures channels == old(channels)[ch.fd := ch]
    {
      known := known + {ch};
      if ch.status == New || ch.status == Deleted {
        Register(ch);
      } else {
        Reregister(ch);
      }
    }

    // updateChannel of a channel the kernel does not watch
    method Register(ch: Channel)
      requires ValidBut(ch) && ch in known && (ch.status == New || ch.status == Deleted)
      modifies this`channels, this`kernel, ch`status
      ensures Valid() && channels == old(channels)[ch.fd := ch] && ch.status == Added
      ensures kernel == old(kernel)[ch.fd := Registration(ch.events, ch)]
    {
      if ch.status == New {
        assert ch.fd !in channels;
        channels := channels[ch.fd := ch];
      } else {
        assert ch.fd in channels && channels[ch.fd] == ch;
      }
      ch.status := Added;
      var ok := Control(CtlAdd, ch);
      assert ok;
    }

    // updateChannel of a channel the kernel watches
    method Reregister(ch: Channel)
      requires ValidBut(ch) && ch in known && ch.status == Added
      modifies this`kernel, ch`status
      ensures Valid() && Mapped(ch) && ch.status == NextStatus(Added, ch.IsNoneEvent())
      ensures kernel == if ch.status == Added then old(kernel)[ch.fd := Registration(ch.events, ch)]
              else old(kernel) - {ch.fd}
    {
      assert ch.fd in channels && channels[ch.fd] == ch;
      var ok;
      if ch.IsNoneEvent() {
        ok := Control(CtlDel, ch);
        ch.status := Deleted;
      } else {
        ok := Control(CtlMod, ch);
      }
      assert ok;
    }

    // removeChannel
    method RemoveChannel(ch: Channel)
      requires Ready(ch)
      modifies this`channels, this`kernel, ch`status
      ensures Valid() && ch.status == New
      ensures channels == old(channels) - {ch.fd} && kernel == old(kernel) - {ch.fd}
    {
      channels := channels - {ch.fd};
      if ch.status == Added {
        var ok := Control(CtlDel, ch);
        assert ok;
      }
      ch.status := New;
    }

    /** poll: what the kernel reports are descriptors of its interest set, with the pointers
        stored for them. Each pointer delivered is the channel mapped to its descriptor. */
    method Poll(ready: seq<Ready>) returns (active: seq<Channel>)
      requires Valid() && |ready| <= eventsSize
      requires forall r <- ready :: r.fd in kernel
      requires forall i, j | 0 <= i < j < |ready| :: ready[i].fd != ready[j].fd
      modifies this`eventsSize, (set c | c in known)`revents
      ensures Valid() && |active| == |ready|
      ensures forall i | 0 <= i < |ready| ::
                && Mapped(active[i]) && active[i].fd == ready[i].fd && active[i].status == Added
                && active[i].revents == ready[i].revents && ready[i].fd in kernel
                    && kernel[ready[i].fd].mask == active[i].events
      ensures eventsSize == if |ready| > 0 && |ready| == old(eventsSize) then 2 * old(eventsSize) else old(eventsSize)
    {
      active := [];
      for i := 0 to |ready|
        invariant |active| == i && eventsSize == old(eventsSize)
        invariant forall k | 0 <= k < i ::
                    active[k] == kernel[ready[k].fd].channel && active[k].revents == ready[k].revents
      {
        var channel := kernel[ready[i].fd].channel;
        assert ready[i] in ready;
        channel.revents := ready[i].revents;
        active := active + [channel];
      }
      if |ready| > 0 && |ready| == eventsSize {
        eventsSize := 2 * eventsSize;
      }
    }
  }
}
