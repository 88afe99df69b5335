/** What holds of every connection in every reachable state of TcpServer. */
module TcpServerSafety {
  import opened ChannelStatus
  import opened ConnectionState
  import opened TcpServer

  // ---------- the invariant ----------

  // The milestones of one connection, in order.
  ghost function Project(log: seq<LogEntry>, id: ConnId): seq<Milestone> {
    if log == [] then []
    else
      var last := log[|log| - 1];
      var front := Project(log[..|log| - 1], id);
      if last.id == id then front + [last.what] else front
  }

  // The first n milestones of every life.
  ghost function Milestones(n: nat): seq<Milestone> {
    if n == 0 then [] else Milestones(n - 1) + [Nth(n)]
  }

  ghost function Nth(n: nat): Milestone {
    match n
    case 1 => Accepted
    case 2 => Established
    case 3 => Closed
    case 4 => Erased
    case _ => Destroyed
  }

  ghost function Stage(w: World, id: ConnId): nat {
    if id !in w.conns then 0
    else if w.conns[id].state == Connecting then 1
    else if w.conns[id].Open() then 2
    else if id in w.table then 3
    else if w.conns[id].status == Deleted then 4
    else 5
  }

  ghost predicate ConnOk(w: World, id: ConnId)
    requires id in w.conns
  {
    var c := w.conns[id];
    && c.ioLoop < |w.loops| && id < w.nextId
    && match c.state
       case Connecting => id in w.table && c == Conn(c.ioLoop, Connecting, false, false, New, false) && c.ioLoop != 0
       case Connected => id in w.table && c.reading && c.status == Added && c.addedToLoop
       case Disconnecting => id in w.table && c.reading && c.status == Added && c.addedToLoop
       case Disconnected =>
         && c.NoEvents() && c.status != Added && c.addedToLoop == (c.status == Deleted)
         && (id in w.table ==> c.status == Deleted && c.ioLoop != 0)
  }

  // The one functor a connection is waiting for, and the loop that has to run it.
  datatype Debt = Nothing | Owed(loop: LoopId, f: Functor)

  ghost function DebtOf(w: World, id: ConnId): Debt {
    match Stage(w, id)
    case 1 => Owed(w.conns[id].ioLoop, Establish(id))
    case 3 => Owed(0, RemoveInLoop(id))
    case 4 => Owed(w.conns[id].ioLoop, Destroy(id))
    case _ => Nothing
  }

  ghost function Copies(w: World, l: LoopId, f: Functor): nat
    requires l < |w.loops|
  {
    multiset(w.loops[l].Queue())[f]
  }

  ghost predicate LoopOk(w: World, l: LoopId)
    requires l < |w.loops|
  {
    var loop := w.loops[l];
    && (loop.phase == Functors ==> loop.active == {})
    && (loop.phase == Events ==> loop.batch == [])
    && forall id <- loop.active :: id in w.conns && w.conns[id].ioLoop == l && Stage(w, id) == 2
  }

  // Everything the invariant says about one connection.
  ghost predicate Local(w: World, id: ConnId) {
    && (id in w.table ==> id in w.conns)
    && (id in w.conns ==> ConnOk(w, id))
    && Project(w.log, id) == Milestones(Stage(w, id))
    && QueuesOk(w, id)
  }

  // Each functor a connection still needs is queued exactly once, and no other one is.
  ghost predicate QueuesOk(w: World, id: ConnId) {
    forall l: LoopId, f: Functor | l < |w.loops| && f.id == id ::
      Copies(w, l, f) == if DebtOf(w, id) == Owed(l, f) then 1 else 0
  }

  ghost predicate Inv(w: World) {
    && |w.loops| > 0 && !w.failed
    && (forall l: LoopId | l < |w.loops| :: LoopOk(w, l))
    && (forall id: ConnId :: Local(w, id))
  }

  // ---------- framing: an operation on one connection leaves the others alone ----------

  ghost predicate SameFor(w: World, w': World, i: ConnId) {
    && |w'.loops| == |w.loops| && w.nextId <= w'.nextId
    && (i in w.conns <==> i in w'.conns) && (i in w.conns ==> w'.conns[i] == w.conns[i])
    && (i in w.table <==> i in w'.table)
    && Project(w'.log, i) == Project(w.log, i)
    && forall l: LoopId, f: Functor | l < |w.loops| && f.id == i :: Copies(w', l, f) == Copies(w, l, f)
  }

  ghost predicate Touches(w: World, w': World, id: ConnId) {
    forall i: ConnId | i != id :: SameFor(w, w', i)
  }

  lemma Unharmed(w: World, w': World, i: ConnId)
    requires SameFor(w, w', i) && Local(w, i)
    ensures Local(w', i) && Stage(w', i) == Stage(w, i)
  {
    assert DebtOf(w', i) == DebtOf(w, i);
  }

  // The loops of w' are those of w but for queued functors and events already handled.
  ghost predicate SameEvents(w: World, w': World) {
    && |w'.loops| == |w.loops|
    && forall l: LoopId | l < |w.loops| ::
         && w'.loops[l].phase == w.loops[l].phase && w'.loops[l].active <= w.loops[l].active
         && (w.loops[l].batch == [] ==> w'.loops[l].batch == [])
  }

  lemma Assemble(w: World, w': World, id: ConnId)
    requires Inv(w) && Touches(w, w', id) && SameEvents(w, w')
    requires !w'.failed && Local(w', id)
    requires
      || (Stage(w, id) == 2 ==> Stage(w', id) == 2 && w'.conns[id].ioLoop == w.conns[id].ioLoop)
      || (forall l: LoopId | l < |w.loops| :: id !in w'.loops[l].active)
    ensures Inv(w')
  {
    forall i: ConnId | i != id ensures Local(w', i) && Stage(w', i) == Stage(w, i) {
      assert SameFor(w, w', i);
      Unharmed(w, w', i);
    }
    forall l: LoopId | l < |w'.loops| ensures LoopOk(w', l) {
      assert LoopOk(w, l);
      forall i <- w'.loops[l].active
        ensures i in w'.conns && w'.conns[i].ioLoop == l && Stage(w', i) == 2
      {
        assert i in w.loops[l].active;
        assert i != id ==> SameFor(w, w', i);
      }
    }
  }

  // Between w and w' the copies of `paid` went down by one and those of `incurred` up by one.
  ghost predicate Moved(w: World, w': World, paid: Debt, incurred: Debt) {
    && |w'.loops| == |w.loops|
    && forall l: LoopId, f: Functor | l < |w.loops| ::
         Copies(w', l, f) + (if paid == Owed(l, f) then 1 else 0)
         == Copies(w, l, f) + (if incurred == Owed(l, f) then 1 else 0)
  }

  ghost predicate About(d: Debt, id: ConnId) {
    d.Owed? ==> d.f.id == id
  }

  lemma MoveDebt(w: World, w': World, id: ConnId, paid: Debt, incurred: Debt)
    requires Moved(w, w', paid, incurred) && About(paid, id) && About(incurred, id)
    requires QueuesOk(w, id) && paid == DebtOf(w, id) && incurred == DebtOf(w', id)
    ensures QueuesOk(w', id)
  {
  }

  lemma TouchesOne(w: World, w': World, id: ConnId, paid: Debt, incurred: Debt)
    requires Moved(w, w', paid, incurred) && About(paid, id) && About(incurred, id)
    requires w.nextId <= w'.nextId
    requires id in w'.conns && (w'.conns == w.conns || w'.conns == w.conns[id := w'.conns[id]])
    requires w'.table == w.table + {id} || w'.table == w.table - {id} || w'.table == w.table
    requires forall i: ConnId | i != id :: Project(w'.log, i) == Project(w.log, i)
    ensures Touches(w, w', id)
  {
    forall i: ConnId | i != id ensures SameFor(w, w', i) {
    }
  }

  lemma ProjectAppend(log: seq<LogEntry>, e: LogEntry)
    ensures forall id: ConnId :: Project(log + [e], id) == if e.id == id then Project(log, id) + [e.what]
            else Project(log, id)
  {
    assert (log + [e])[..|log|] == log;
  }

  // One connection moves on; everything else stays.
  lemma Advance(w: World, w': World, id: ConnId, paid: Debt, incurred: Debt)
    requires Inv(w) && !w'.failed && SameEvents(w, w') && w.nextId <= w'.nextId
    requires id in w'.conns && ConnOk(w', id)
    requires w'.conns == w.conns || w'.conns == w.conns[id := w'.conns[id]]
    requires w'.table == w.table + {id} || w'.table == w.table - {id} || w'.table == w.table
    requires forall i: ConnId | i != id :: Project(w'.log, i) == Project(w.log, i)
    requires Project(w'.log, id) == Milestones(Stage(w', id))
    requires paid == DebtOf(w, id) && incurred == DebtOf(w', id) && Moved(w, w', paid, incurred)
    requires Stage(w, id) == 2 ==> forall l: LoopId | l < |w.loops| :: id !in w'.loops[l].active
    ensures Inv(w')
  {
    assert Local(w, id);
    TouchesOne(w, w', id, paid, incurred);
    MoveDebt(w, w', id, paid, incurred);
    assert id in w'.table ==> id in w'.conns;
    assert Local(w', id);
    Assemble(w, w', id);
  }

  lemma QueueCopies(w: World, l: LoopId, f: Functor)
    requires l < |w.loops|
    ensures var w' := QueueInLoop(w, l, f);
            forall l1: LoopId, g: Functor | l1 < |w.loops| ::
              Copies(w', l1, g) == Copies(w, l1, g) + if l1 == l && g == f then 1 else 0
  {
    var w' := QueueInLoop(w, l, f);
    assert w'.loops[l].Queue() == w.loops[l].Queue() + [f];
  }

  // Taking the next functor of a batch removes exactly that copy.
  ghost function Popped(w: World, l: LoopId): World
    requires l < |w.loops| && w.loops[l].batch != []
  {
    w.(loops := w.loops[l := w.loops[l].(batch := w.loops[l].batch[1..])])
  }

  lemma PopCopies(w: World, l: LoopId)
    requires l < |w.loops| && w.loops[l].batch != []
    ensures var w' := Popped(w, l); var f := w.loops[l].batch[0];
            forall l1: LoopId, g: Functor | l1 < |w.loops| ::
              Copies(w, l1, g) == Copies(w', l1, g) + if l1 == l && g == f then 1 else 0
  {
    var loop := w.loops[l];
    assert loop.Queue() == [loop.batch[0]] + Popped(w, l).loops[l].Queue();
  }

  lemma InitInv(loops: nat)
    requires loops > 0
    ensures Inv(Init(loops))
  {
  }

  // ---------- the operations keep the invariant ----------

  lemma EventsKept(w: World, l: LoopId, w': World, more: Debt)
    requires l < |w.loops| && w.loops[l].batch != []
    requires more.Owed? ==> more.loop < |w.loops|
    requires w'.loops == if more.Owed? then QueueInLoop(Popped(w, l), more.loop, more.f).loops else Popped(w, l).loops
    ensures SameEvents(w, w')
  {
  }

  // Running the functor at the head of loop l's batch gives w', queueing `more` on the way.
  lemma RunCopies(w: World, l: LoopId, w': World, more: Debt)
    requires l < |w.loops| && w.loops[l].batch != []
    requires more.Owed? ==> more.loop < |w.loops|
    requires w'.loops == if more.Owed? then QueueInLoop(Popped(w, l), more.loop, more.f).loops else Popped(w, l).loops
    ensures Moved(w, w', Owed(l, w.loops[l].batch[0]), more) && SameEvents(w, w')
  {
    EventsKept(w, l, w', more);
    PopCopies(w, l);
    if more.Owed? {
      QueueCopies(Popped(w, l), more.loop, more.f);
    }
    forall l1: LoopId, g: Functor | l1 < |w.loops|
      ensures Copies(w', l1, g) + (if l1 == l && g == w.loops[l].batch[0] then 1 else 0)
              == Copies(w, l1, g) + (if more == Owed(l1, g) then 1 else 0)
    {
      if more.Owed? {
        assert Copies(w', l1, g) == Copies(QueueInLoop(Popped(w, l), more.loop, more.f), l1, g);
      } else {
        assert Copies(w', l1, g) == Copies(Popped(w, l), l1, g);
      }
    }
  }

  lemma RunEstablish(w: World, l: LoopId, id: ConnId)
    requires Inv(w) && Enabled(w, RunFunctor(l)) && w.loops[l].batch[0] == Establish(id)
    ensures Inv(Apply(w, RunFunctor(l)))
  {
    HeadIsOwed(w, l);
    EstablishAdvances(w, Apply(w, RunFunctor(l)), l, id);
  }

  lemma EstablishAdvances(w: World, w': World, l: LoopId, id: ConnId)
    requires Inv(w) && l < |w.loops| && w.loops[l].phase == Functors
    requires w.loops[l].batch != [] && w.loops[l].batch[0] == Establish(id)
    requires Stage(w, id) == 1 && l == w.conns[id].ioLoop
    requires w' == World(w.nextId, w.conns[id := Conn(l, Connected, true, false, Added, true)], w.table,
                         Popped(w, l).loops, w.log + [Entry(Established, id)], false)
    ensures Inv(w')
  {
    assert Local(w, id);
    ProjectAppend(w.log, Entry(Established, id));
    RunCopies(w, l, w', Nothing);
    Advance(w, w', id, Owed(l, Establish(id)), Nothing);
  }

  lemma HeadIsOwed(w: World, l: LoopId)
    requires Inv(w) && l < |w.loops| && w.loops[l].batch != []
    ensures var f := w.loops[l].batch[0]; DebtOf(w, f.id) == Owed(l, f) && Local(w, f.id)
  {
    var f := w.loops[l].batch[0];
    assert Local(w, f.id);
    assert f in w.loops[l].Queue();
    assert Copies(w, l, f) > 0;
  }

  lemma RunRemove(w: World, l: LoopId, id: ConnId)
    requires Inv(w) && Enabled(w, RunFunctor(l)) && w.loops[l].batch[0] == RemoveInLoop(id)
    ensures Inv(Apply(w, RunFunctor(l)))
  {
    HeadIsOwed(w, l);
    RemoveAdvances(w, Apply(w, RunFunctor(l)), l, id);
  }

  lemma RemoveAdvances(w: World, w': World, l: LoopId, id: ConnId)
    requires Inv(w) && l < |w.loops| && w.loops[l].phase == Functors
    requires w.loops[l].batch != [] && w.loops[l].batch[0] == RemoveInLoop(id)
    requires Stage(w, id) == 3 && l == 0 && w.conns[id].ioLoop < |w.loops|
    requires w' == World(w.nextId, w.conns, w.table - {id},
                         QueueInLoop(Popped(w, l), w.conns[id].ioLoop, Destroy(id)).loops,
                         w.log + [Entry(Erased, id)], false)
    ensures Inv(w')
  {
    var next := Owed(w.conns[id].ioLoop, Destroy(id));
    assert Local(w, id);
    ProjectAppend(w.log, Entry(Erased, id));
    RunCopies(w, l, w', next);
    Advance(w, w', id, Owed(l, RemoveInLoop(id)), next);
  }

  lemma RunDestroy(w: World, l: LoopId, id: ConnId)
    requires Inv(w) && Enabled(w, RunFunctor(l)) && w.loops[l].batch[0] == Destroy(id)
    ensures Inv(Apply(w, RunFunctor(l)))
  {
    HeadIsOwed(w, l);
    DestroyAdvances(w, Apply(w, RunFunctor(l)), l, id);
  }

  lemma DestroyAdvances(w: World, w': World, l: LoopId, id: ConnId)
    requires Inv(w) && l < |w.loops| && w.loops[l].phase == Functors
    requires w.loops[l].batch != [] && w.loops[l].batch[0] == Destroy(id)
    requires Stage(w, id) == 4 && l == w.conns[id].ioLoop
    requires w' == World(w.nextId, w.conns[id := w.conns[id].(addedToLoop := false, status := New)], w.table,
                         Popped(w, l).loops, w.log + [Entry(Destroyed, id)], false)
    ensures Inv(w')
  {
    assert Local(w, id);
    ProjectAppend(w.log, Entry(Destroyed, id));
    RunCopies(w, l, w', Nothing);
    Advance(w, w', id, Owed(l, Destroy(id)), Nothing);
  }

  // An operation that keeps the loops, the table and the log, and only changes how an
  // open connection uses its channel.
  lemma StayOpen(w: World, w': World, id: ConnId)
    requires Inv(w) && id in w.conns && w.conns[id].Open()
    requires id in w'.conns && w' == w.(conns := w.conns[id := w'.conns[id]])
    requires var c, c' := w.conns[id], w'.conns[id];
             c'.Open() && c'.ioLoop == c.ioLoop && c'.reading && c'.status == Added && c'.addedToLoop
    ensures Inv(w')
  {
    assert Local(w, id);
    forall l: LoopId, f: Functor | l < |w.loops| ensures Copies(w', l, f) == Copies(w, l, f) {
    }
    assert Local(w', id);
    Assemble(w, w', id);
  }

  lemma SendInv(w: World, id: ConnId)
    requires Inv(w) && id in w.conns
    ensures Inv(Send(w, id))
  {
    assert Local(w, id);
    if w.conns[id].state == Connected && !w.conns[id].writing {
      StayOpen(w, Send(w, id), id);
    }
  }

  lemma ShutdownInv(w: World, id: ConnId)
    requires Inv(w) && id in w.conns
    ensures Inv(Shutdown(w, id))
  {
    assert Local(w, id);
    if w.conns[id].state == Connected {
      StayOpen(w, Shutdown(w, id), id);
    }
  }

  lemma HandleWriteInv(w: World, id: ConnId, drained: bool)
    requires Inv(w) && id in w.conns
    ensures Inv(HandleWrite(w, id, drained))
  {
    assert Local(w, id);
    if w.conns[id].writing && drained {
      StayOpen(w, HandleWrite(w, id, drained), id);
    }
  }

  lemma HandleCloseInv(w: World, id: ConnId)
    requires Inv(w) && Stage(w, id) == 2 && w.conns[id].ioLoop < |w.loops|
    requires forall l: LoopId | l < |w.loops| :: id !in w.loops[l].active
    ensures Inv(HandleClose(w, id))
  {
    assert Local(w, id);
    HandleCloseLog(w, id);
    var c := w.conns[id].(state := Disconnected, reading := false, writing := false, status := Deleted,
        addedToLoop := true);
    if w.conns[id].ioLoop == 0 {
      CloseAdvances(w, HandleClose(w, id), id, c, Owed(0, Destroy(id)));
    } else {
      CloseAdvances(w, HandleClose(w, id), id, c, Owed(0, RemoveInLoop(id)));
    }
  }

  lemma CloseAdvances(w: World, w': World, id: ConnId, c: Conn, next: Debt)
    requires Inv(w) && Stage(w, id) == 2 && w.conns[id].ioLoop < |w.loops|
    requires forall l: LoopId | l < |w.loops| :: id !in w.loops[l].active
    requires c == w.conns[id].(state := Disconnected, reading := false, writing := false, status := Deleted,
        addedToLoop := true)
    requires next == Owed(0, if w.conns[id].ioLoop == 0 then Destroy(id) else RemoveInLoop(id))
    requires w' == World(w.nextId, w.conns[id := c], if w.conns[id].ioLoop == 0 then w.table - {id} else w.table,
                         QueueInLoop(w, 0, next.f).loops, w'.log, false)
    requires forall i: ConnId | i != id :: Project(w'.log, i) == Project(w.log, i)
    requires Project(w'.log, id) == Project(w.log, id) + if w.conns[id].ioLoop == 0 then [Closed, Erased] else [Closed]
    ensures Inv(w')
  {
    assert Local(w, id);
    QueuedCopies(w, w', next);
    Advance(w, w', id, Nothing, next);
  }

  lemma QueuedCopies(w: World, w': World, next: Debt)
    requires next.Owed? ==> next.loop < |w.loops|
    requires w'.loops == if next.Owed? then QueueInLoop(w, next.loop, next.f).loops else w.loops
    ensures Moved(w, w', Nothing, next) && SameEvents(w, w')
  {
    if next.Owed? {
      QueueCopies(w, next.loop, next.f);
      forall l: LoopId, g: Functor | l < |w.loops|
        ensures Copies(w', l, g) == Copies(w, l, g) + if next == Owed(l, g) then 1 else 0
      {
        assert Copies(w', l, g) == Copies(QueueInLoop(w, next.loop, next.f), l, g);
      }
    }
  }

  lemma HandleCloseLog(w: World, id: ConnId)
    requires |w.loops| > 0 && id in w.conns && w.conns[id].ioLoop < |w.loops|
    ensures var log' := HandleClose(w, id).log;
            && (forall i: ConnId | i != id :: Project(log', i) == Project(w.log, i))
            && Project(log', id) == Project(w.log, id) + if w.conns[id].ioLoop == 0 then [Closed, Erased] else [Closed]
  {
    ProjectAppend(w.log, Entry(Closed, id));
    ProjectAppend(w.log + [Entry(Closed, id)], Entry(Erased, id));
  }

  lemma HandleReadInv(w: World, id: ConnId, read: ReadResult)
    requires Inv(w) && Stage(w, id) == 2 && w.conns[id].ioLoop < |w.loops|
    requires forall l: LoopId | l < |w.loops| :: id !in w.loops[l].active
    ensures Inv(HandleRead(w, id, read))
  {
    match read
    case Bytes(send, shutdown) =>
      SendInv(w, id);
      ShutdownInv(if send then Send(w, id) else w, id);
    case EndOfFile => HandleCloseInv(w, id);
    case ReadError =>
  }

  lemma HandleEventInv(w: World, l: LoopId, id: ConnId, r: Revents, read: ReadResult, drained: bool)
    requires Inv(w) && Enabled(w, HandleEvent(l, id, r, read, drained))
    ensures Inv(Apply(w, HandleEvent(l, id, r, read, drained)))
  {
    var w0 := w.(loops := w.loops[l := w.loops[l].(active := w.loops[l].active - {id})]);
    EventTaken(w, l, id);
    var w1 := if r.Hangup() then HandleClose(w0, id) else w0;
    if r.Hangup() {
      HandleCloseInv(w0, id);
    }
    var w2 := if r.Readable() then HandleRead(w1, id, read) else w1;
    if r.Readable() {
      HandleReadInv(w1, id, read);
    }
    if r.out {
      HandleWriteInv(w2, id, drained);
    }
  }

  // A channel being handled is open and in no list of active channels any more.
  lemma EventTaken(w: World, l: LoopId, id: ConnId)
    requires Inv(w) && l < |w.loops| && id in w.loops[l].active
    ensures var w0 := w.(loops := w.loops[l := w.loops[l].(active := w.loops[l].active - {id})]);
            && Inv(w0) && Stage(w0, id) == 2
            && forall k: LoopId | k < |w0.loops| :: id !in w0.loops[k].active
  {
    var w0 := w.(loops := w.loops[l := w.loops[l].(active := w.loops[l].active - {id})]);
    assert LoopOk(w, l);
    assert Local(w, id);
    forall k: LoopId, f: Functor | k < |w.loops| ensures Copies(w0, k, f) == Copies(w, k, f) {
    }
    assert Local(w0, id);
    Assemble(w, w0, id);
    forall k: LoopId | k < |w0.loops| ensures id !in w0.loops[k].active {
      assert LoopOk(w, k);
    }
  }

  lemma AcceptInv(w: World, l: LoopId)
    requires Inv(w) && Enabled(w, Accept(l))
    ensures Inv(Apply(w, Accept(l)))
  {
    AcceptLog(w, l);
    assert Local(w, w.nextId);
    if l == 0 {
      AcceptHere(w, NewConnection(w, l));
    } else {
      AcceptElsewhere(w, NewConnection(w, l), l);
    }
  }

  lemma AcceptHere(w: World, w': World)
    requires Inv(w) && Local(w, w.nextId)
    requires w' == World(w.nextId + 1, w.conns[w.nextId := Conn(0, Connected, true, false, Added, true)],
                         w.table + {w.nextId}, w.loops, w'.log, false)
    requires forall i: ConnId | i != w.nextId :: Project(w'.log, i) == Project(w.log, i)
    requires Project(w'.log, w.nextId) == Project(w.log, w.nextId) + [Accepted, Established]
    ensures Inv(w')
  {
    QueuedCopies(w, w', Nothing);
    Advance(w, w', w.nextId, Nothing, Nothing);
  }

  lemma AcceptElsewhere(w: World, w': World, l: LoopId)
    requires Inv(w) && Local(w, w.nextId) && 0 < l < |w.loops|
    requires w' == World(w.nextId + 1, w.conns[w.nextId := Conn(l, Connecting, false, false, New, false)],
                         w.table + {w.nextId}, QueueInLoop(w, l, Establish(w.nextId)).loops, w'.log, false)
    requires forall i: ConnId | i != w.nextId :: Project(w'.log, i) == Project(w.log, i)
    requires Project(w'.log, w.nextId) == Project(w.log, w.nextId) + [Accepted]
    ensures Inv(w')
  {
    QueuedCopies(w, w', Owed(l, Establish(w.nextId)));
    Advance(w, w', w.nextId, Nothing, Owed(l, Establish(w.nextId)));
  }

  lemma AcceptLog(w: World, l: LoopId)
    requires l < |w.loops|
    ensures var log', id := NewConnection(w, l).log, w.nextId;
            && (forall i: ConnId | i != id :: Project(log', i) == Project(w.log, i))
            && Project(log', id) == Project(w.log, id) + if l == 0 then [Accepted, Established] else [Accepted]
  {
    ProjectAppend(w.log, Entry(Accepted, w.nextId));
    ProjectAppend(w.log + [Entry(Accepted, w.nextId)], Entry(Established, w.nextId));
  }

  lemma PollInv(w: World, l: LoopId, ready: set<ConnId>)
    requires Inv(w) && Enabled(w, Poll(l, ready))
    ensures Inv(Apply(w, Poll(l, ready)))
  {
    var w' := Apply(w, Poll(l, ready));
    SameQueues(w, w');
    forall k: LoopId | k < |w'.loops| ensures LoopOk(w', k) {
      assert LoopOk(w, k);
      forall id <- ready ensures Stage(w, id) == 2 { assert Local(w, id); }
      forall id <- w'.loops[k].active ensures id in w'.conns && w'.conns[id].ioLoop == k && Stage(w', id) == 2 {
        assert Stage(w', id) == Stage(w, id);
      }
    }
  }

  lemma SwapInv(w: World, l: LoopId)
    requires Inv(w) && Enabled(w, Swap(l))
    ensures Inv(Apply(w, Swap(l)))
  {
    var w' := Apply(w, Swap(l));
    assert LoopOk(w, l);
    assert w'.loops[l].Queue() == w.loops[l].Queue();
    SameQueues(w, w');
    forall k: LoopId | k < |w'.loops| ensures LoopOk(w', k) {
      assert LoopOk(w, k);
      forall id <- w'.loops[k].active ensures Stage(w', id) == Stage(w, id) {}
    }
  }

  lemma SameQueues(w: World, w': World)
    requires forall id: ConnId :: Local(w, id)
    requires w' == w.(loops := w'.loops) && |w'.loops| == |w.loops|
    requires forall l: LoopId | l < |w.loops| :: w'.loops[l].Queue() == w.loops[l].Queue()
    ensures forall id: ConnId :: Local(w', id)
  {
    forall id: ConnId ensures Local(w', id) {
      assert Local(w, id);
      assert Stage(w', id) == Stage(w, id);
      forall l: LoopId, f: Functor | l < |w.loops| && f.id == id
        ensures Copies(w', l, f) == if DebtOf(w', id) == Owed(l, f) then 1 else 0
      {
        assert Copies(w, l, f) == if DebtOf(w, id) == Owed(l, f) then 1 else 0;
      }
    }
  }

  lemma StepInv(w: World, s: Step)
    requires Inv(w) && Enabled(w, s)
    ensures Inv(Apply(w, s))
  {
    match s
    case Accept(l) => AcceptInv(w, l);
    case Poll(l, ready) => PollInv(w, l, ready);
    case HandleEvent(l, id, r, read, drained) => HandleEventInv(w, l, id, r, read, drained);
    case Swap(l) => SwapInv(w, l);
    case RunFunctor(l) =>
      match w.loops[l].batch[0] {
        case Establish(id) => RunEstablish(w, l, id);
        case RemoveInLoop(id) => RunRemove(w, l, id);
        case Destroy(id) => RunDestroy(w, l, id);
      }
    case UserSend(id) => SendInv(w, id);
    case UserShutdown(id) => ShutdownInv(w, id);
  }

  // ---------- main results ----------

  lemma RunInv(w: World, steps: seq<Step>)
    requires Inv(w) && ValidRun(w, steps)
    ensures Inv(Run(w, steps))
    decreases |steps|
  {
    if steps != [] {
      StepInv(w, steps[0]);
      RunInv(Apply(w, steps[0]), steps[1..]);
    }
  }

  // Somebody still holds a shared_ptr to the connection.
  ghost predicate Referenced(w: World, id: ConnId) {
    id in w.table || exists l: LoopId, f: Functor :: l < |w.loops| && f.id == id && Copies(w, l, f) > 0
  }

  /** In every reachable state no assert has failed, and each connection has gone through
      a prefix of: accepted, established, closed, erased, destroyed, each once. */
  lemma {:induction false} Lifecycle(loops: nat, steps: seq<Step>)
    requires loops > 0 && ValidRun(Init(loops), steps)
    ensures var w := Run(Init(loops), steps);
            && !w.failed
            && forall id <- w.conns :: Project(w.log, id) <= LIFECYCLE
                                       && (id in w.table <==> Erased !in Project(w.log, id))
  {
    InitInv(loops);
    RunInv(Init(loops), steps);
    var w := Run(Init(loops), steps);
    forall id <- w.conns
      ensures Project(w.log, id) <= LIFECYCLE && (id in w.table <==> Erased !in Project(w.log, id))
    {
      assert Local(w, id);
      MilestonesPrefix(Stage(w, id));
    }
  }

  lemma MilestonesPrefix(n: nat)
    requires n <= 5
    ensures Milestones(n) == LIFECYCLE[..n] && |LIFECYCLE| == 5
  {
    assert n > 0 ==> Milestones(n) == Milestones(n - 1) + [Nth(n)];
    if n > 0 { MilestonesPrefix(n - 1); }
  }

  /** The channel pointers an Epoll holds, and those a poll delivered that are still to be
      handled, belong to connections somebody keeps alive; and a connection nobody keeps
      alive meets what its destructor and its channel's destructor assert. */
  lemma {:induction false} NoDanglingChannel(loops: nat, steps: seq<Step>, id: ConnId)
    requires loops > 0 && ValidRun(Init(loops), steps)
    ensures var w := Run(Init(loops), steps);
            && (forall l: LoopId | l < |w.loops| && id in w.loops[l].active ::
                  id in w.conns && w.conns[id].status == Added)
            && (id in w.conns && w.conns[id].status != New ==> Referenced(w, id))
            && (id in w.conns && !Referenced(w, id) ==> w.conns[id].state == Disconnected && !w.conns[id].addedToLoop)
  {
    InitInv(loops);
    RunInv(Init(loops), steps);
    var w := Run(Init(loops), steps);
    assert Local(w, id);
    forall l: LoopId | l < |w.loops| && id in w.loops[l].active ensures id in w.conns && w.conns[id].status == Added {
      assert LoopOk(w, l);
    }
    if id in w.conns && id !in w.table && w.conns[id].status != New {
      assert Copies(w, w.conns[id].ioLoop, Destroy(id)) == 1;
    }
  }

  /** Nothing leaks: when no loop has a functor left, every connection that was ever closed
      has been erased and destroyed, and every other one is open. */
  lemma {:induction false} QuietServer(loops: nat, steps: seq<Step>, id: ConnId)
    requires loops > 0 && ValidRun(Init(loops), steps)
    requires var w := Run(Init(loops), steps);
             id in w.conns && forall l: LoopId | l < |w.loops| :: w.loops[l].Queue() == []
    ensures var w := Run(Init(loops), steps);
            if Closed in Project(w.log, id)
            then Project(w.log, id) == LIFECYCLE && id !in w.table && w.conns[id].status == New
            else w.conns[id].Open() && id in w.table && w.conns[id].status == Added
  {
    InitInv(loops);
    RunInv(Init(loops), steps);
    var w := Run(Init(loops), steps);
    assert Local(w, id);
    MilestonesPrefix(Stage(w, id));
    assert forall l: LoopId, f: Functor | l < |w.loops| :: Copies(w, l, f) == 0;
    assert DebtOf(w, id) == Nothing;
  }

  /** A functor taken from a batch, and a channel taken from the active list, always belong
      to a known connection of a known loop, so neither step is ever stuck. */
  lemma {:induction false} NothingStuck(loops: nat, steps: seq<Step>, l: LoopId)
    requires loops > 0 && ValidRun(Init(loops), steps) && l < |Run(Init(loops), steps).loops|
    ensures var w := Run(Init(loops), steps);
            && (w.loops[l].phase == Functors && w.loops[l].batch != [] ==> Enabled(w, RunFunctor(l)))
            && (forall id <- w.loops[l].active, r: Revents, read: ReadResult, drained: bool | Benign(r) ::
                  Enabled(w, HandleEvent(l, id, r, read, drained)))
  {
    InitInv(loops);
    RunInv(Init(loops), steps);
    var w := Run(Init(loops), steps);
    assert LoopOk(w, l);
    if w.loops[l].batch != [] {
      HeadIsOwed(w, l);
    }
    forall id <- w.loops[l].active ensures id in w.conns && w.conns[id].ioLoop < |w.loops| {
      assert Local(w, id);
    }
  }

  // ---------- what an event does, bit by bit ----------

  // The bits of a mask that make handleEventWithGuard close, read and write
  predicate AsksToClose(r: Revents) { r.hup && !r.in_ }
  predicate AsksToRead(r: Revents) { r.in_ || r.pri || r.rdhup }

  /** An event of an open connection is acted on. A hang-up without readable data and an end of
      file close it. Otherwise a callback that shuts a connected connection down leaves it
      disconnecting, and one that sends starts writing; and a write that empties the buffer
      ends the write interest, also when the callback has only just started it. No other
      connection changes, and a mask without these bits changes nothing. */
  lemma {:induction false} EventActedOn(loops: nat, steps: seq<Step>, l: LoopId, id: ConnId, r: Revents,
                                        read: ReadResult, drained: bool)
    requires loops > 0 && ValidRun(Init(loops), steps) && !(AsksToClose(r) && AsksToRead(r))
    requires var w := Run(Init(loops), steps); l < |w.loops| && w.loops[l].phase == Events && id in w.loops[l].active
    ensures var w, s := Run(Init(loops), steps), HandleEvent(l, id, r, read, drained);
            && id in w.conns && w.conns[id].Open() && Enabled(w, s)
            && var c, w' := w.conns[id], Apply(w, s);
               && id in w'.conns && (forall i <- w.conns | i != id :: i in w'.conns && w'.conns[i] == w.conns[i])
               && var c' := w'.conns[id];
                  if AsksToClose(r) || (AsksToRead(r) && read == EndOfFile)
                  then c'.state == Disconnected && !c'.reading && !c'.writing && Closed in Project(w'.log, id)
                  else
                    var sends := AsksToRead(r) && read.Bytes? && read.send && c.state == Connected;
                    var shuts := AsksToRead(r) && read.Bytes? && read.shutdown;
                    && c'.state == (if shuts then Disconnecting else c.state)
                    && c'.reading && c'.writing == ((c.writing || sends) && !(r.out && drained))
                    && w'.log == w.log
  {
    InitInv(loops);
    RunInv(Init(loops), steps);
    var w := Run(Init(loops), steps);
    assert LoopOk(w, l);
    assert Local(w, id);
    var v := w.(loops := w.loops[l := w.loops[l].(active := w.loops[l].active - {id})]);
    HandleCloseLog(v, id);
    ClosesOnly(v, id);
    ActedOn(v, id, r, read, drained);
  }

  // Only the connection differs.
  ghost predicate OthersKept(w: World, w': World, id: ConnId) {
    id in w'.conns && forall i <- w.conns | i != id :: i in w'.conns && w'.conns[i] == w.conns[i]
  }

  lemma ActedOn(w: World, id: ConnId, r: Revents, read: ReadResult, drained: bool)
    requires |w.loops| > 0 && id in w.conns && w.conns[id].ioLoop < |w.loops|
    requires w.conns[id].Open() && w.conns[id].reading && !(AsksToClose(r) && AsksToRead(r))
    ensures var c, w' := w.conns[id], Dispatch(w, id, r, read, drained);
            && OthersKept(w, w', id)
            && if AsksToClose(r) || (AsksToRead(r) && read == EndOfFile) then w' == HandleClose(w, id)
               else
                 var sends := AsksToRead(r) && read.Bytes? && read.send && c.state == Connected;
                 var shuts := AsksToRead(r) && read.Bytes? && read.shutdown;
                 && w'.conns[id].state == (if shuts then Disconnecting else c.state)
                 && w'.conns[id].reading && w'.conns[id].writing == ((c.writing || sends) && !(r.out && drained))
                 && w'.log == w.log
  {
    ClosesOnly(w, id);
    if AsksToClose(r) || (AsksToRead(r) && read == EndOfFile) {
      assert HandleWrite(HandleClose(w, id), id, drained) == HandleClose(w, id);
    } else if AsksToRead(r) {
      ReadActedOn(w, id, read);
      WriteActedOn(HandleRead(w, id, read), id, drained);
    } else {
      WriteActedOn(w, id, drained);
    }
  }

  lemma ClosesOnly(w: World, id: ConnId)
    requires |w.loops| > 0 && id in w.conns && w.conns[id].ioLoop < |w.loops|
    ensures var w' := HandleClose(w, id);
            && OthersKept(w, w', id) && |w'.loops| == |w.loops| && w'.conns[id].ioLoop == w.conns[id].ioLoop
            && w'.conns[id].state == Disconnected && !w'.conns[id].reading && !w'.conns[id].writing
  {
  }

  lemma ReadActedOn(w: World, id: ConnId, read: ReadResult)
    requires id in w.conns && w.conns[id].ioLoop < |w.loops| && w.conns[id].Open() && read != EndOfFile
    ensures var c, w' := w.conns[id], HandleRead(w, id, read);
            && OthersKept(w, w', id) && w'.log == w.log && w'.conns[id].reading == c.reading
            && w'.conns[id].state == (if read.Bytes? && read.shutdown then Disconnecting else c.state)
            && w'.conns[id].writing == (c.writing || (read.Bytes? && read.send && c.state == Connected))
  {
  }

  lemma WriteActedOn(w: World, id: ConnId, drained: bool)
    requires id in w.conns
    ensures var c, w' := w.conns[id], HandleWrite(w, id, drained);
            && OthersKept(w, w', id) && w'.log == w.log && w'.conns[id].reading == c.reading
            && w'.conns[id].state == c.state && w'.conns[id].writing == (c.writing && !drained)
  {
  }

  /** A mask with none of the bits that are acted on, an error alone among them, changes nothing. */
  lemma NoBitsNoChange(w: World, id: ConnId, r: Revents, read: ReadResult, drained: bool)
    requires id in w.conns && w.conns[id].ioLoop < |w.loops|
    requires !AsksToClose(r) && !AsksToRead(r) && !r.out
    ensures Dispatch(w, id, r, read, drained) == w
  {
  }

  /** Without the assumption on event masks: handling one event of an open connection
      breaks the state assert of handleClose exactly when a hang-up without readable data
      comes with urgent data or a peer half-close and the read then finds end of file. */
  lemma {:induction false} DoubleClose(loops: nat, steps: seq<Step>, l: LoopId, id: ConnId, r: Revents,
      read: ReadResult, drained: bool)
    requires loops > 0 && ValidRun(Init(loops), steps)
    requires var w := Run(Init(loops), steps);
             l < |w.loops| && id in w.loops[l].active && id in w.conns && w.conns[id].ioLoop < |w.loops|
    ensures var w := Run(Init(loops), steps);
            Dispatch(w, id, r, read, drained).failed <==> !Benign(r) && read == EndOfFile
  {
    InitInv(loops);
    RunInv(Init(loops), steps);
    var w := Run(Init(loops), steps);
    assert LoopOk(w, l);
    assert Local(w, id);
  }

  /** Such an event breaks the assert: the first connection of a server with one loop. */
  lemma DoubleCloseHappens()
    ensures var steps := [Poll(0, {}), Accept(0), Swap(0), Poll(0, {1})];
            && ValidRun(Init(1), steps)
            && var w := Run(Init(1), steps);
               && 1 in w.loops[0].active && 1 in w.conns && w.conns[1].ioLoop < |w.loops|
               && Dispatch(w, 1, Revents(true, false, false, true, false, false), EndOfFile, false).failed
  {
    var w0 := Init(1);
    var w1 := Apply(w0, Poll(0, {}));
    var w2 := Apply(w1, Accept(0));
    var w3 := Apply(w2, Swap(0));
    var w4 := Apply(w3, Poll(0, {1}));
    RunCons(w3, Poll(0, {1}), []);
    RunCons(w2, Swap(0), [Poll(0, {1})]);
    RunCons(w1, Accept(0), [Swap(0)] + [Poll(0, {1})]);
    RunCons(w0, Poll(0, {}), [Accept(0)] + ([Swap(0)] + [Poll(0, {1})]));
    assert [Poll(0, {}), Accept(0), Swap(0), Poll(0, {1})]
        == [Poll(0, {})] + ([Accept(0)] + ([Swap(0)] + [Poll(0, {1})]));
    DoubleClose(1, [Poll(0, {}), Accept(0), Swap(0), Poll(0, {1})], 0, 1,
                Revents(true, false, false, true, false, false), EndOfFile, false);
  }

  lemma RunCons(w: World, s: Step, steps: seq<Step>)
    requires Enabled(w, s) && ValidRun(Apply(w, s), steps)
    ensures ValidRun(w, [s] + steps) && Run(w, [s] + steps) == Run(Apply(w, s), steps)
  {
    assert ([s] + steps)[1..] == steps;
  }
}
