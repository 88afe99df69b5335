/** The life of every connection a TcpServer accepts, over all interleavings of the
    accept loop and the IO loops.

    Each loop alternates between an event phase (the channels its last poll delivered are
    handled one by one) and a functor phase (the batch swapped out of its queue is run).
    The loops interleave freely. Failing asserts of the code set `failed` instead of being
    assumed away. */
module TcpServer {
  import opened ChannelStatus
  import opened ConnectionState

  type ConnId = nat // the value of nextConnectionId_ the connection was created with
  type LoopId = nat // loop 0 is the accept loop; the others are the IO threads

  datatype Conn = Conn(ioLoop: LoopId, state: ConnState, reading: bool, writing: bool,
                       status: Status, addedToLoop: bool)
  {
    predicate NoEvents() { !reading && !writing }

    // Channel::update and Epoll::updateChannel
    function Update(): Conn {
      this.(addedToLoop := true, status := NextStatus(status, NoEvents()))
    }

    function DisableAll(): Conn {
      this.(reading := false, writing := false).Update()
    }

    predicate Open() { state == Connected || state == Disconnecting }
  }

  datatype Functor = Establish(id: ConnId) | RemoveInLoop(id: ConnId) | Destroy(id: ConnId)

  datatype Phase = Events | Functors

  datatype Loop = Loop(phase: Phase, active: set<ConnId>, batch: seq<Functor>, pending: seq<Functor>)
  {
    function Queue(): seq<Functor> { batch + pending }
  }

  datatype LogEntry = Entry(what: Milestone, id: ConnId)
  datatype Milestone = Accepted | Established | Closed | Erased | Destroyed

  const LIFECYCLE := [Accepted, Established, Closed, Erased, Destroyed]

  /** `conns` keeps a record of every connection ever accepted, `table` the ids present in
      connectionMap_. */
  datatype World = World(nextId: nat, conns: map<ConnId, Conn>, table: set<ConnId>,
                         loops: seq<Loop>, log: seq<LogEntry>, failed: bool)

  // The bits of revents_ that handleEventWithGuard looks at.
  datatype Revents = Revents(hup: bool, in_: bool, err: bool, pri: bool, rdhup: bool, out: bool)
  {
    predicate Hangup() { hup && !in_ }
    predicate Readable() { in_ || pri || rdhup }
  }

  // What readFd returns, and what the message callback does when there are bytes.
  datatype ReadResult = Bytes(send: bool, shutdown: bool) | EndOfFile | ReadError

  datatype Step =
    | Accept(ioLoop: LoopId)
    | Poll(loop: LoopId, ready: set<ConnId>)
    | HandleEvent(loop: LoopId, id: ConnId, revents: Revents, read: ReadResult, drained: bool)
    | Swap(loop: LoopId)
    | RunFunctor(loop: LoopId)
    | UserSend(id: ConnId)
    | UserShutdown(id: ConnId)

  // ---------- the operations ----------

  function Init(loops: nat): World {
    World(1, map[], {}, seq(loops, _ => Loop(Functors, {}, [], [])), [], false)
  }

  function Fail(w: World, ok: bool): World {
    w.(failed := w.failed || !ok)
  }

  function Log(w: World, what: Milestone, id: ConnId): World {
    w.(log := w.log + [Entry(what, id)])
  }

  function QueueInLoop(w: World, l: LoopId, f: Functor): World
    requires l < |w.loops|
  {
    w.(loops := w.loops[l := w.loops[l].(pending := w.loops[l].pending + [f])])
  }

  // TcpConnection::connectionEstablished
  function ConnectionEstablished(w: World, id: ConnId): World
    requires id in w.conns
  {
    var c := w.conns[id];
    var c' := c.(state := Connected, reading := true).Update();
    Log(Fail(w.(conns := w.conns[id := c']), c.state == Connecting), Established, id)
  }

  // TcpServer::removeConnectionInLoop
  function RemoveConnectionInLoop(w: World, id: ConnId): World
    requires id in w.conns && w.conns[id].ioLoop < |w.loops|
  {
    var w' := Log(Fail(w.(table := w.table - {id}), id in w.table), Erased, id);
    QueueInLoop(w', w.conns[id].ioLoop, Destroy(id))
  }

  // TcpConnection::connectionDestroyed, Channel::remove and Epoll::removeChannel
  function ConnectionDestroyed(w: World, id: ConnId): World
    requires id in w.conns
  {
    var c := w.conns[id];
    var c' := if c.state == Connected then c.(state := Disconnected).DisableAll() else c;
    var gone := c'.(addedToLoop := false, status := New);
    Log(Fail(w.(conns := w.conns[id := gone]), c'.NoEvents()), Destroyed, id)
  }

  // TcpConnection::handleClose; the close callback is TcpServer::removeConnection, which
  // goes through runInLoop of the accept loop.
  function HandleClose(w: World, id: ConnId): World
    requires id in w.conns && w.conns[id].ioLoop < |w.loops|
  {
    var c := w.conns[id];
    var c' := c.(state := Disconnected).DisableAll();
    var w' := Log(Fail(w.(conns := w.conns[id := c']), c.Open()), Closed, id);
    if c.ioLoop == 0 then RemoveConnectionInLoop(w', id) else QueueInLoop(w', 0, RemoveInLoop(id))
  }

  // TcpConnection::send: only a connected, idle connection can start writing.
  function Send(w: World, id: ConnId): World
    requires id in w.conns
  {
    var c := w.conns[id];
    if c.state == Connected && !c.writing
    then w.(conns := w.conns[id := c.(writing := true).Update()])
    else w
  }

  // TcpConnection::shutdown
  function Shutdown(w: World, id: ConnId): World
    requires id in w.conns
  {
    var c := w.conns[id];
    if c.state == Connected then w.(conns := w.conns[id := c.(state := Disconnecting)]) else w
  }

  // TcpConnection::handleRead
  function HandleRead(w: World, id: ConnId, read: ReadResult): World
    requires id in w.conns && w.conns[id].ioLoop < |w.loops|
  {
    match read
    case Bytes(send, shutdown) =>
      var w1 := if send then Send(w, id) else w;
      if shutdown then Shutdown(w1, id) else w1
    case EndOfFile => HandleClose(w, id)
    case ReadError => w
  }

  // TcpConnection::handleWrite: `drained` when this write empties the output buffer
  function HandleWrite(w: World, id: ConnId, drained: bool): World
    requires id in w.conns
  {
    var c := w.conns[id];
    if c.writing && drained
    then w.(conns := w.conns[id := c.(writing := false).Update()])
    else w
  }

  // Channel::handleEventWithGuard
  function Dispatch(w: World, id: ConnId, r: Revents, read: ReadResult, drained: bool): World
    requires id in w.conns && w.conns[id].ioLoop < |w.loops|
  {
    var w1 := if r.Hangup() then HandleClose(w, id) else w;
    var w2 := if r.Readable() then HandleRead(w1, id, read) else w1;
    if r.out then HandleWrite(w2, id, drained) else w2
  }

  // TcpServer::newConnection
  function NewConnection(w: World, l: LoopId): World
    requires l < |w.loops|
  {
    var id := w.nextId;
    var w' := Log(w.(nextId := id + 1,
                     conns := w.conns[id := Conn(l, Connecting, false, false, New, false)],
                     table := w.table + {id}), Accepted, id);
    if l == 0 then ConnectionEstablished(w', id) else QueueInLoop(w', l, Establish(id))
  }

  function RunOne(w: World, f: Functor): World
    requires f.id in w.conns && w.conns[f.id].ioLoop < |w.loops|
  {
    match f
    case Establish(id) => ConnectionEstablished(w, id)
    case RemoveInLoop(id) => RemoveConnectionInLoop(w, id)
    case Destroy(id) => ConnectionDestroyed(w, id)
  }

  // ---------- steps ----------

  /** A hang-up without readable data never comes together with urgent data or a peer
      half-close. */
  predicate Benign(r: Revents) {
    r.Hangup() ==> !r.Readable()
  }

  predicate Enabled(w: World, s: Step) {
    match s
    case Accept(l) => l < |w.loops| && |w.loops| > 0 && w.loops[0].phase == Events
    case Poll(l, ready) =>
      && l < |w.loops| && w.loops[l].phase == Functors && w.loops[l].batch == []
      && forall id <- ready :: id in w.conns && w.conns[id].ioLoop == l && w.conns[id].status == Added
    case HandleEvent(l, id, r, _, _) =>
      && l < |w.loops| && w.loops[l].phase == Events && id in w.loops[l].active
      && id in w.conns && w.conns[id].ioLoop < |w.loops| && Benign(r)
    case Swap(l) => l < |w.loops| && w.loops[l].phase == Events && w.loops[l].active == {}
    case RunFunctor(l) =>
      && l < |w.loops| && w.loops[l].phase == Functors && w.loops[l].batch != []
      && var id := w.loops[l].batch[0].id; id in w.conns && w.conns[id].ioLoop < |w.loops|
    case UserSend(id) => id in w.conns
    case UserShutdown(id) => id in w.conns
  }

  function Apply(w: World, s: Step): World
    requires Enabled(w, s)
  {
    match s
    case Accept(l) => NewConnection(w, l)
    case Poll(l, ready) => w.(loops := w.loops[l := w.loops[l].(phase := Events, active := ready)])
    case HandleEvent(l, id, r, read, drained) =>
      Dispatch(w.(loops := w.loops[l := w.loops[l].(active := w.loops[l].active - {id})]),
               id, r, read, drained)
    case Swap(l) =>
      w.(loops := w.loops[l := w.loops[l].(phase := Functors, batch := w.loops[l].pending, pending := [])])
    case RunFunctor(l) =>
      RunOne(w.(loops := w.loops[l := w.loops[l].(batch := w.loops[l].batch[1..])]),
             w.loops[l].batch[0])
    case UserSend(id) => Send(w, id)
    case UserShutdown(id) => Shutdown(w, id)
  }

  ghost predicate ValidRun(w: World, steps: seq<Step>)
    decreases |steps|
  {
    steps == [] || (Enabled(w, steps[0]) && ValidRun(Apply(w, steps[0]), steps[1..]))
  }

  ghost function Run(w: World, steps: seq<Step>): World
    requires ValidRun(w, steps)
    decreases |steps|
  {
    if steps == [] then w else Run(Apply(w, steps[0]), steps[1..])
  }
}
