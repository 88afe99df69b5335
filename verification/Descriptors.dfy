/** Why each channel has a descriptor of its own: a connection's socket is closed when nobody
    keeps the connection any more, and until then the kernel gives its descriptor to no other
    socket. */
module Descriptors {
  import opened ChannelStatus
  import opened TcpServer
  import opened TcpServerSafety

  // The descriptors of the sockets accepted so far
  type Sockets = map<ConnId, int>

  // accept(2) does not return the descriptor of a socket that is still open.
  ghost predicate Unused(w: World, fds: Sockets, fd: int) {
    forall id <- fds :: Referenced(w, id) ==> fds[id] != fd
  }

  // `chosen` holds the descriptor for each step that accepts a connection.
  ghost predicate KernelChooses(w: World, fds: Sockets, steps: seq<Step>, chosen: seq<int>)
    decreases |steps|
  {
    && ValidRun(w, steps) && |chosen| == |steps|
    && (steps != [] ==>
          && (steps[0].Accept? ==> Unused(w, fds, chosen[0]))
          && KernelChooses(Apply(w, steps[0]), Given(w, fds, steps[0], chosen[0]), steps[1..], chosen[1..]))
  }

  function Given(w: World, fds: Sockets, s: Step, fd: int): Sockets {
    if s.Accept? then fds[w.nextId := fd] else fds
  }

  ghost function GivenAll(w: World, fds: Sockets, steps: seq<Step>, chosen: seq<int>): Sockets
    requires KernelChooses(w, fds, steps, chosen)
    decreases |steps|
  {
    if steps == [] then fds
    else GivenAll(Apply(w, steps[0]), Given(w, fds, steps[0], chosen[0]), steps[1..], chosen[1..])
  }

  ghost predicate OwnDescriptors(w: World, fds: Sockets) {
    && fds.Keys == w.conns.Keys
    && forall i <- fds, j <- fds | i != j && Referenced(w, i) && Referenced(w, j) :: fds[i] != fds[j]
  }

  // ---------- a connection that nobody keeps is not kept again ----------

  lemma {:induction false} ProjectGrows(log: seq<LogEntry>, log': seq<LogEntry>, id: ConnId)
    requires log <= log'
    ensures |Project(log, id)| <= |Project(log', id)|
    decreases |log'|
  {
    if |log| < |log'| {
      ProjectGrows(log, log'[..|log'| - 1], id);
    } else {
      assert log == log';
    }
  }

  lemma {:induction false} MilestonesLength(n: nat)
    ensures |Milestones(n)| == n
  {
    if n > 0 { MilestonesLength(n - 1); }
  }

  lemma LogGrows(w: World, s: Step)
    requires Enabled(w, s)
    ensures w.log <= Apply(w, s).log
  {
    match s
    case HandleEvent(l, id, r, read, drained) =>
      DispatchLog(w.(loops := w.loops[l := w.loops[l].(active := w.loops[l].active - {id})]), id, r, read, drained);
    case _ =>
  }

  lemma DispatchLog(w: World, id: ConnId, r: Revents, read: ReadResult, drained: bool)
    requires id in w.conns && w.conns[id].ioLoop < |w.loops|
    ensures w.log <= Dispatch(w, id, r, read, drained).log
  {
    var w1 := if r.Hangup() then HandleClose(w, id) else w;
    assert w.log <= w1.log;
    var w2 := if r.Readable() then HandleRead(w1, id, read) else w1;
    assert w1.log <= w2.log;
  }

  lemma StageGrows(w: World, s: Step, id: ConnId)
    requires Inv(w) && Enabled(w, s)
    ensures Stage(w, id) <= Stage(Apply(w, s), id)
  {
    StepInv(w, s);
    assert Local(w, id) && Local(Apply(w, s), id);
    LogGrows(w, s);
    ProjectGrows(w.log, Apply(w, s).log, id);
    MilestonesLength(Stage(w, id));
    MilestonesLength(Stage(Apply(w, s), id));
  }

  lemma KeptUntilDestroyed(w: World, id: ConnId)
    requires Inv(w) && id in w.conns
    ensures Referenced(w, id) <==> Stage(w, id) < 5
  {
    assert Local(w, id);
    var debt := DebtOf(w, id);
    if debt.Owed? {
      assert Copies(w, debt.loop, debt.f) == 1;
    }
  }

  lemma NotRevived(w: World, s: Step, id: ConnId)
    requires Inv(w) && Enabled(w, s) && id in w.conns
    ensures id in Apply(w, s).conns && (Referenced(Apply(w, s), id) ==> Referenced(w, id))
  {
    StepInv(w, s);
    StageGrows(w, s, id);
    assert Local(w, id) && Local(Apply(w, s), id);
    KeptUntilDestroyed(w, id);
    KeptUntilDestroyed(Apply(w, s), id);
  }

  lemma NextIsNew(w: World, s: Step)
    requires Inv(w) && Enabled(w, s)
    ensures w.nextId !in w.conns
    ensures Apply(w, s).conns.Keys == if s.Accept? then w.conns.Keys + {w.nextId} else w.conns.Keys
  {
    assert Local(w, w.nextId);
    ConnectionsOf(w, s);
  }

  lemma ConnectionsOf(w: World, s: Step)
    requires Enabled(w, s)
    ensures Apply(w, s).conns.Keys == if s.Accept? then w.conns.Keys + {w.nextId} else w.conns.Keys
  {
    match s
    case HandleEvent(l, id, r, read, drained) =>
      var v := w.(loops := w.loops[l := w.loops[l].(active := w.loops[l].active - {id})]);
      var w1 := if r.Hangup() then HandleClose(v, id) else v;
      assert w1.conns.Keys == w.conns.Keys;
      var w2 := if r.Readable() then HandleRead(w1, id, read) else w1;
      assert w2.conns.Keys == w.conns.Keys;
    case _ =>
  }

  lemma StepOwn(w: World, fds: Sockets, s: Step, fd: int)
    requires Inv(w) && Enabled(w, s) && OwnDescriptors(w, fds) && (s.Accept? ==> Unused(w, fds, fd))
    ensures OwnDescriptors(Apply(w, s), Given(w, fds, s, fd))
  {
    var w', fds' := Apply(w, s), Given(w, fds, s, fd);
    NextIsNew(w, s);
    forall i <- fds ensures Referenced(w', i) ==> Referenced(w, i) {
      NotRevived(w, s, i);
    }
    forall i <- fds', j <- fds' | i != j && Referenced(w', i) && Referenced(w', j) ensures fds'[i] != fds'[j] {
    }
  }

  lemma {:induction false} RunOwn(w: World, fds: Sockets, steps: seq<Step>, chosen: seq<int>)
    requires Inv(w) && OwnDescriptors(w, fds) && KernelChooses(w, fds, steps, chosen)
    ensures OwnDescriptors(Run(w, steps), GivenAll(w, fds, steps, chosen)) && Inv(Run(w, steps))
    decreases |steps|
  {
    if steps != [] {
      StepInv(w, steps[0]);
      StepOwn(w, fds, steps[0], chosen[0]);
      RunOwn(Apply(w, steps[0]), Given(w, fds, steps[0], chosen[0]), steps[1..], chosen[1..]);
    }
  }

  /** In every interleaving, two channels that are in some epoll, or still to be registered,
      have different descriptors, although the kernel uses closed ones again. */
  lemma {:induction false} OneChannelPerDescriptor(loops: nat, steps: seq<Step>, chosen: seq<int>, i: ConnId, j: ConnId)
    requires loops > 0 && KernelChooses(Init(loops), map[], steps, chosen)
    requires var w := Run(Init(loops), steps);
             && i != j && i in w.conns && j in w.conns
             && (w.conns[i].status != New || i in w.table) && (w.conns[j].status != New || j in w.table)
    ensures var fds := GivenAll(Init(loops), map[], steps, chosen);
            i in fds && j in fds && fds[i] != fds[j]
  {
    InitInv(loops);
    RunOwn(Init(loops), map[], steps, chosen);
    NoDanglingChannel(loops, steps, i);
    NoDanglingChannel(loops, steps, j);
  }
}
