/** The server with the output side of its connections. TcpServer follows the state and the
    interest of a connection only, ConnectionModel its output as well; here both run together,
    and it is shown that they agree, so that what each of them proves holds of the whole. */
module ConnectionRefinement {
  import opened ConnectionState
  import M = ConnectionModel
  import S = TcpServer
  import Safety = TcpServerSafety

  predicate Agree(server: S.Conn, c: M.Conn) {
    server.state == c.state && server.reading == c.reading && server.writing == c.writing
  }

  // What the user does on the loop of a connection; n is what write(2) returns if it is called.
  datatype UserOp = Send(message: string, n: int) | Shutdown

  // What readFd finds, and what the message callback does about it
  datatype Read = Data(ops: seq<UserOp>) | EndOfFile | ReadError

  datatype Step =
    | Accept(ioLoop: S.LoopId)
    | Poll(loop: S.LoopId, ready: set<S.ConnId>)
    | HandleEvent(loop: S.LoopId, id: S.ConnId, revents: S.Revents, read: Read, n: int)
    | Swap(loop: S.LoopId)
    | RunFunctor(loop: S.LoopId)
    | User(id: S.ConnId, op: UserOp)

  /** `runs` records what has been done to each connection since it was accepted. */
  datatype System = System(world: S.World, models: map<S.ConnId, M.Conn>, runs: map<S.ConnId, seq<M.Step>>)

  // ---------- what a step does to its connection ----------

  // All that is assumed of write(2): it takes no more than it is offered.
  predicate Sized(c: M.Conn, s: M.Step) {
    match s
    case DoSend(message, n) => n <= |message|
    case DoWrite(n) => c.writing ==> n <= |c.output|
    case _ => true
  }

  function Do(c: M.Conn, s: M.Step): M.Conn
    requires Sized(c, s)
  {
    match s
    case DoEstablish => M.ConnectionEstablished(c)
    case DoSend(message, n) => M.Send(c, message, n)
    case DoShutdown => M.Shutdown(c)
    case DoWrite(n) => M.HandleWrite(c, n)
    case DoClose => M.HandleClose(c)
    case DoDestroy => M.ConnectionDestroyed(c)
  }

  ghost predicate AllSized(c: M.Conn, acts: seq<M.Step>)
    decreases |acts|
  {
    acts == [] || (Sized(c, acts[0]) && AllSized(Do(c, acts[0]), acts[1..]))
  }

  ghost function DoAll(c: M.Conn, acts: seq<M.Step>): M.Conn
    requires AllSized(c, acts)
    decreases |acts|
  {
    if acts == [] then c else DoAll(Do(c, acts[0]), acts[1..])
  }

  function ActOf(op: UserOp): M.Step {
    match op
    case Send(message, n) => M.DoSend(message, n)
    case Shutdown => M.DoShutdown
  }

  function ActsOf(ops: seq<UserOp>): seq<M.Step> {
    if ops == [] then [] else [ActOf(ops[0])] + ActsOf(ops[1..])
  }

  // handleEventWithGuard in three parts: hang-up, reading, writing
  function HangupActs(r: S.Revents): seq<M.Step> {
    if r.Hangup() then [M.DoClose] else []
  }

  function ReadActs(r: S.Revents, read: Read): seq<M.Step> {
    if !r.Readable() then []
    else
      match read
      case Data(ops) => ActsOf(ops)
      case EndOfFile => [M.DoClose]
      case ReadError => []
  }

  function WriteActs(r: S.Revents, n: int): seq<M.Step> {
    if r.out then [M.DoWrite(n)] else []
  }

  function FunctorActs(f: S.Functor): seq<M.Step> {
    match f
    case Establish(_) => [M.DoEstablish]
    case RemoveInLoop(_) => []
    case Destroy(_) => [M.DoDestroy]
  }

  // ---------- the system ----------

  ghost predicate HandleSized(c: M.Conn, r: S.Revents, read: Read, n: int) {
    && AllSized(c, HangupActs(r))
    && var c1 := DoAll(c, HangupActs(r));
       && AllSized(c1, ReadActs(r, read))
       && AllSized(DoAll(c1, ReadActs(r, read)), WriteActs(r, n))
  }

  // How the server model sees what a read brings about
  ghost function SeenRead(c: M.Conn, r: S.Revents, read: Read): S.ReadResult
    requires AllSized(c, ReadActs(r, read))
  {
    match read
    case Data(_) =>
      var c' := DoAll(c, ReadActs(r, read));
      S.Bytes(c'.writing, c'.state == Disconnecting)
    case EndOfFile => S.EndOfFile
    case ReadError => S.ReadError
  }

  // The step of the server model that a step is, if it is one; a send that leaves nothing in
  // the output buffer is none.
  ghost function Seen(y: System, s: Step): seq<S.Step>
    requires Performable(y, s)
  {
    match s
    case Accept(l) => [S.Accept(l)]
    case Poll(l, ready) => [S.Poll(l, ready)]
    case HandleEvent(l, id, r, read, n) =>
      var c1 := DoAll(y.models[id], HangupActs(r));
      var c2 := DoAll(c1, ReadActs(r, read));
      [S.HandleEvent(l, id, r, SeenRead(c1, r, read), n == |c2.output|)]
    case Swap(l) => [S.Swap(l)]
    case RunFunctor(l) => [S.RunFunctor(l)]
    case User(id, Send(message, n)) => if Do(y.models[id], M.DoSend(message, n)).writing then [S.UserSend(id)] else []
    case User(id, Shutdown) => [S.UserShutdown(id)]
  }

  // The part of a step's guard that is about connections
  ghost predicate Performable(y: System, s: Step) {
    match s
    case HandleEvent(_, id, r, read, n) => id in y.models && id in y.runs && HandleSized(y.models[id], r, read, n)
    case User(id, op) => id in y.models && id in y.runs && Sized(y.models[id], ActOf(op))
    case _ => true
  }

  ghost predicate Enabled(y: System, s: Step) {
    Performable(y, s) && S.ValidRun(y.world, Seen(y, s))
  }

  ghost function Perform(y: System, world: S.World, id: S.ConnId, acts: seq<M.Step>): System
    requires id in y.models && id in y.runs && AllSized(y.models[id], acts)
  {
    System(world, y.models[id := DoAll(y.models[id], acts)], y.runs[id := y.runs[id] + acts])
  }

  ghost function Begin(y: System, world: S.World, id: S.ConnId, acts: seq<M.Step>): System
    requires AllSized(M.NEW_CONNECTION, acts)
  {
    System(world, y.models[id := DoAll(M.NEW_CONNECTION, acts)], y.runs[id := acts])
  }

  ghost function HandleAll(y: System, world: S.World, id: S.ConnId, r: S.Revents, read: Read, n: int): System
    requires id in y.models && id in y.runs && HandleSized(y.models[id], r, read, n)
  {
    var y1 := Perform(y, world, id, HangupActs(r));
    var y2 := Perform(y1, world, id, ReadActs(r, read));
    Perform(y2, world, id, WriteActs(r, n))
  }

  ghost function Apply(y: System, s: Step): System
    requires Enabled(y, s)
  {
    var world := S.Run(y.world, Seen(y, s));
    match s
    case Accept(l) => Begin(y, world, y.world.nextId, if l == 0 then [M.DoEstablish] else [])
    case HandleEvent(_, id, r, read, n) => HandleAll(y, world, id, r, read, n)
    case RunFunctor(l) =>
      var f := y.world.loops[l].batch[0];
      if f.id in y.models && f.id in y.runs then Perform(y, world, f.id, FunctorActs(f)) else y.(world := world)
    case User(id, op) => Perform(y, world, id, [ActOf(op)])
    case _ => y.(world := world)
  }

  ghost predicate ValidRun(y: System, steps: seq<Step>)
    decreases |steps|
  {
    steps == [] || (Enabled(y, steps[0]) && ValidRun(Apply(y, steps[0]), steps[1..]))
  }

  ghost function Run(y: System, steps: seq<Step>): System
    requires ValidRun(y, steps)
    decreases |steps|
  {
    if steps == [] then y else Run(Apply(y, steps[0]), steps[1..])
  }

  ghost function Init(loops: nat): System {
    System(S.Init(loops), map[], map[])
  }

  // ---------- the two views agree ----------

  // The connection has come to its model by a run of ConnectionModel.
  ghost predicate Followed(y: System, id: S.ConnId)
    requires id in y.models && id in y.runs
  {
    M.ValidRun(M.NEW_CONNECTION, y.runs[id]) && M.Run(M.NEW_CONNECTION, y.runs[id]) == y.models[id]
  }

  ghost predicate Linked(y: System, id: S.ConnId) {
    && (id in y.world.conns <==> id in y.models) && (id in y.models <==> id in y.runs)
    && (id in y.models ==> Followed(y, id) && Agree(y.world.conns[id], y.models[id]))
  }

  ghost predicate Inv(y: System) {
    Safety.Inv(y.world) && forall id: S.ConnId :: Linked(y, id)
  }

  lemma {:induction false} RunAppend(c: M.Conn, a: seq<M.Step>, b: seq<M.Step>)
    requires M.ValidRun(c, a) && M.ValidRun(M.Run(c, a), b)
    ensures M.ValidRun(c, a + b) && M.Run(c, a + b) == M.Run(M.Run(c, a), b)
    decreases |a|
  {
    if a == [] {
      assert a + b == b;
    } else {
      assert (a + b)[1..] == a[1..] + b;
      RunAppend(M.Apply(c, a[0]), a[1..], b);
    }
  }

  lemma FollowedInv(y: System, id: S.ConnId)
    requires id in y.models && id in y.runs && Followed(y, id)
    ensures M.Inv(y.models[id])
  {
    M.RunInv(M.NEW_CONNECTION, y.runs[id]);
  }

  // A single act that ConnectionModel allows
  lemma OneAct(c: M.Conn, s: M.Step)
    requires M.Possible(c, s)
    ensures AllSized(c, [s]) && M.ValidRun(c, [s]) && M.Run(c, [s]) == DoAll(c, [s]) == Do(c, s) == M.Apply(c, s)
  {
    assert [s][1..] == [];
    assert M.ValidRun(M.Apply(c, s), []) && AllSized(Do(c, s), []);
  }

  lemma OpEffect(c: M.Conn, op: UserOp)
    requires M.Inv(c) && Sized(c, ActOf(op))
    ensures var c' := Do(c, ActOf(op));
            && M.Inv(c') && c'.reading == c.reading
            && match op
               case Send(_, _) =>
                 c'.state == c.state && (c'.writing == c.writing || (c.state == Connected && c'.writing))
               case Shutdown =>
                 c'.writing == c.writing && c'.state == if c.state == Connected then Disconnecting else c.state
  {
    M.ApplyInv(c, ActOf(op));
  }

  // What the message callback does is always possible, and the server model sees it as at
  // most one send and one shutdown.
  lemma {:induction false} UserActs(c: M.Conn, ops: seq<UserOp>)
    requires M.Inv(c) && AllSized(c, ActsOf(ops))
    ensures M.ValidRun(c, ActsOf(ops)) && M.Run(c, ActsOf(ops)) == DoAll(c, ActsOf(ops))
    ensures var c' := DoAll(c, ActsOf(ops));
            && M.Inv(c') && c'.reading == c.reading
            && (c'.writing == c.writing || (c.state == Connected && c'.writing))
            && (c'.state == c.state || (c.state == Connected && c'.state == Disconnecting))
    decreases |ops|
  {
    if ops != [] {
      var act := ActOf(ops[0]);
      assert ActsOf(ops)[1..] == ActsOf(ops[1..]);
      OpEffect(c, ops[0]);
      UserActs(Do(c, act), ops[1..]);
    }
  }

  // ---------- one step ----------

  // A step on one connection that leaves the others alone keeps everything linked.
  lemma LinkOne(y: System, y1: System, id: S.ConnId)
    requires forall i: S.ConnId | i != id :: Linked(y, i)
    requires forall i: S.ConnId | i != id ::
               && (i in y1.world.conns <==> i in y.world.conns)
                   && (i in y.world.conns ==> y1.world.conns[i] == y.world.conns[i])
               && (i in y1.models <==> i in y.models) && (i in y.models ==> y1.models[i] == y.models[i])
               && (i in y1.runs <==> i in y.runs) && (i in y.runs ==> y1.runs[i] == y.runs[i])
    requires Linked(y1, id)
    ensures forall i: S.ConnId :: Linked(y1, i)
  {
    forall i: S.ConnId | i != id ensures Linked(y1, i) {
      assert Linked(y, i);
    }
  }

  // The acts are a run of ConnectionModel from where the connection is.
  lemma Follow(y: System, world: S.World, id: S.ConnId, acts: seq<M.Step>)
    requires id in y.models && id in y.runs && Followed(y, id)
    requires M.ValidRun(y.models[id], acts) && AllSized(y.models[id], acts)
        && M.Run(y.models[id], acts) == DoAll(y.models[id], acts)
    ensures Followed(Perform(y, world, id, acts), id)
  {
    RunAppend(M.NEW_CONNECTION, y.runs[id], acts);
  }

  lemma OneSeen(w: S.World, s: S.Step)
    requires S.ValidRun(w, [s])
    ensures S.Enabled(w, s) && S.Run(w, [s]) == S.Apply(w, s)
  {
    assert [s][1..] == [];
    assert S.ValidRun(S.Apply(w, s), []);
  }

  lemma AcceptLinked(y: System, l: S.LoopId)
    requires Inv(y) && Enabled(y, Accept(l))
    ensures Inv(Apply(y, Accept(l)))
  {
    var id := y.world.nextId;
    var y1 := Apply(y, Accept(l));
    OneSeen(y.world, S.Accept(l));
    Safety.StepInv(y.world, S.Accept(l));
    assert M.ValidRun(M.NEW_CONNECTION, []);
    OneAct(M.NEW_CONNECTION, M.DoEstablish);
    LinkOne(y, y1, id);
  }

  lemma UserLinked(y: System, id: S.ConnId, op: UserOp)
    requires Inv(y) && Enabled(y, User(id, op))
    ensures Inv(Apply(y, User(id, op)))
  {
    var y1 := Apply(y, User(id, op));
    assert Linked(y, id);
    FollowedInv(y, id);
    OneAct(y.models[id], ActOf(op));
    Follow(y, y1.world, id, [ActOf(op)]);
    UserSeen(y, id, op);
    OpSeen(y.world, id, y.models[id], op);
    LinkOne(y, y1, id);
  }

  ghost function WorldAfter(w: S.World, id: S.ConnId, c: M.Conn, op: UserOp): S.World
    requires id in w.conns && Sized(c, ActOf(op))
  {
    match op
    case Send(message, n) => if Do(c, M.DoSend(message, n)).writing then S.Send(w, id) else w
    case Shutdown => S.Shutdown(w, id)
  }

  lemma OpSeen(w: S.World, id: S.ConnId, c: M.Conn, op: UserOp)
    requires id in w.conns && Agree(w.conns[id], c) && M.Inv(c) && Sized(c, ActOf(op))
    ensures var w' := WorldAfter(w, id, c, op);
            && w'.conns.Keys == w.conns.Keys && Agree(w'.conns[id], Do(c, ActOf(op)))
            && forall i <- w.conns | i != id :: w'.conns[i] == w.conns[i]
  {
    match op
    case Send(message, n) => SendSeen(w, id, c, message, n);
    case Shutdown => ShutdownSeen(w, id, c);
  }

  lemma SendSeen(w: S.World, id: S.ConnId, c: M.Conn, message: string, n: int)
    requires id in w.conns && Agree(w.conns[id], c) && n <= |message|
    ensures var c' := M.Send(c, message, n);
            var w' := if c'.writing then S.Send(w, id) else w;
            && w'.conns.Keys == w.conns.Keys && Agree(w'.conns[id], c')
            && forall i <- w.conns | i != id :: w'.conns[i] == w.conns[i]
  {
    SendEffect(c, message, n);
  }

  lemma SendEffect(c: M.Conn, message: string, n: int)
    requires n <= |message|
    ensures var c' := M.Send(c, message, n);
            c'.state == c.state && c'.reading == c.reading
            && (c'.writing == c.writing || (c.state == Connected && !c.writing && c'.writing))
  {
  }

  lemma ShutdownSeen(w: S.World, id: S.ConnId, c: M.Conn)
    requires id in w.conns && Agree(w.conns[id], c)
    ensures var w' := S.Shutdown(w, id);
            && w'.conns.Keys == w.conns.Keys && Agree(w'.conns[id], M.Shutdown(c))
            && forall i <- w.conns | i != id :: w'.conns[i] == w.conns[i]
  {
  }

  lemma UserSeen(y: System, id: S.ConnId, op: UserOp)
    requires Inv(y) && Enabled(y, User(id, op)) && id in y.world.conns
    ensures Safety.Inv(S.Run(y.world, Seen(y, User(id, op))))
    ensures S.Run(y.world, Seen(y, User(id, op))) == WorldAfter(y.world, id, y.models[id], op)
  {
    var seen := Seen(y, User(id, op));
    if seen != [] {
      OneSeen(y.world, seen[0]);
      Safety.StepInv(y.world, seen[0]);
    }
  }

  lemma FunctorLinked(y: System, l: S.LoopId)
    requires Inv(y) && Enabled(y, RunFunctor(l))
    ensures Inv(Apply(y, RunFunctor(l)))
  {
    OneSeen(y.world, S.RunFunctor(l));
    Safety.StepInv(y.world, S.RunFunctor(l));
    Safety.HeadIsOwed(y.world, l);
    var f := y.world.loops[l].batch[0];
    var y1 := Apply(y, RunFunctor(l));
    assert Linked(y, f.id);
    var c := y.models[f.id];
    FollowedInv(y, f.id);
    assert M.ValidRun(c, []) && AllSized(c, []);
    match f {
      case Establish(_) => OneAct(c, M.DoEstablish);
      case RemoveInLoop(_) =>
      case Destroy(_) => OneAct(c, M.DoDestroy);
    }
    Follow(y, y1.world, f.id, FunctorActs(f));
    LinkOne(y, y1, f.id);
  }

  // One event: each part of its handling is possible, and the server model sees the same.
  lemma EventActs(c: M.Conn, r: S.Revents, read: Read, n: int)
    requires M.Inv(c) && c.Open() && S.Benign(r) && HandleSized(c, r, read, n)
    ensures M.ValidRun(c, HangupActs(r)) && M.Run(c, HangupActs(r)) == DoAll(c, HangupActs(r))
    ensures var c1 := DoAll(c, HangupActs(r));
            && M.Inv(c1)
            && M.ValidRun(c1, ReadActs(r, read)) && M.Run(c1, ReadActs(r, read)) == DoAll(c1, ReadActs(r, read))
            && var c2 := DoAll(c1, ReadActs(r, read));
               && M.Inv(c2)
               && M.ValidRun(c2, WriteActs(r, n)) && M.Run(c2, WriteActs(r, n)) == DoAll(c2, WriteActs(r, n))
  {
    assert M.ValidRun(c, []) && AllSized(c, []);
    if r.Hangup() {
      OneAct(c, M.DoClose);
      M.ApplyInv(c, M.DoClose);
    }
    var c1 := DoAll(c, HangupActs(r));
    assert M.ValidRun(c1, []) && AllSized(c1, []);
    if r.Readable() {
      match read {
        case Data(ops) => UserActs(c1, ops);
        case EndOfFile =>
          OneAct(c1, M.DoClose);
          M.ApplyInv(c1, M.DoClose);
        case ReadError =>
      }
    }
    var c2 := DoAll(c1, ReadActs(r, read));
    assert M.ValidRun(c2, []) && AllSized(c2, []);
    if r.out {
      assert Sized(c2, M.DoWrite(n));
      OneAct(c2, M.DoWrite(n));
    }
  }

  lemma HangupSeen(w: S.World, id: S.ConnId, c: M.Conn, r: S.Revents)
    requires id in w.conns && w.conns[id].ioLoop < |w.loops| && Agree(w.conns[id], c)
    requires AllSized(c, HangupActs(r))
    ensures var w' := if r.Hangup() then S.HandleClose(w, id) else w;
            && w'.conns.Keys == w.conns.Keys && w'.conns[id].ioLoop == w.conns[id].ioLoop && |w'.loops| == |w.loops|
            && Agree(w'.conns[id], DoAll(c, HangupActs(r)))
            && forall i <- w.conns | i != id :: w'.conns[i] == w.conns[i]
  {
    if r.Hangup() {
      assert [M.DoClose][1..] == [];
      assert DoAll(c, [M.DoClose]) == M.HandleClose(c);
    }
  }

  lemma ReadSeen(w: S.World, id: S.ConnId, c: M.Conn, r: S.Revents, read: Read)
    requires id in w.conns && w.conns[id].ioLoop < |w.loops| && Agree(w.conns[id], c) && M.Inv(c)
    requires AllSized(c, ReadActs(r, read))
    ensures var w' := if r.Readable() then S.HandleRead(w, id, SeenRead(c, r, read)) else w;
            && w'.conns.Keys == w.conns.Keys && |w'.loops| == |w.loops|
            && Agree(w'.conns[id], DoAll(c, ReadActs(r, read)))
            && forall i <- w.conns | i != id :: w'.conns[i] == w.conns[i]
  {
    if r.Readable() {
      match read
      case Data(ops) => DataSeen(w, id, c, ops);
      case EndOfFile =>
        assert [M.DoClose][1..] == [];
        assert DoAll(c, [M.DoClose]) == M.HandleClose(c);
      case ReadError =>
    }
  }

  lemma DataSeen(w: S.World, id: S.ConnId, c: M.Conn, ops: seq<UserOp>)
    requires id in w.conns && w.conns[id].ioLoop < |w.loops| && Agree(w.conns[id], c) && M.Inv(c)
    requires AllSized(c, ActsOf(ops))
    ensures var c' := DoAll(c, ActsOf(ops));
            var w' := S.HandleRead(w, id, S.Bytes(c'.writing, c'.state == Disconnecting));
            && w'.conns.Keys == w.conns.Keys && |w'.loops| == |w.loops| && Agree(w'.conns[id], c')
            && forall i <- w.conns | i != id :: w'.conns[i] == w.conns[i]
  {
    UserActs(c, ops);
    BytesSeen(w, id, c, DoAll(c, ActsOf(ops)));
  }

  // What a message callback can do to state and interest, one send and one shutdown can.
  lemma BytesSeen(w: S.World, id: S.ConnId, c: M.Conn, c': M.Conn)
    requires id in w.conns && w.conns[id].ioLoop < |w.loops| && Agree(w.conns[id], c)
    requires c'.reading == c.reading && (c'.writing == c.writing || (c.state == Connected && c'.writing))
    requires c'.state == c.state || (c.state == Connected && c'.state == Disconnecting)
    ensures var w' := S.HandleRead(w, id, S.Bytes(c'.writing, c'.state == Disconnecting));
            && w'.conns.Keys == w.conns.Keys && |w'.loops| == |w.loops| && Agree(w'.conns[id], c')
            && forall i <- w.conns | i != id :: w'.conns[i] == w.conns[i]
  {
  }

  lemma WriteSeen(w: S.World, id: S.ConnId, c: M.Conn, r: S.Revents, n: int)
    requires id in w.conns && Agree(w.conns[id], c) && M.Inv(c)
    requires AllSized(c, WriteActs(r, n))
    ensures var w' := if r.out then S.HandleWrite(w, id, n == |c.output|) else w;
            && w'.conns.Keys == w.conns.Keys
            && Agree(w'.conns[id], DoAll(c, WriteActs(r, n)))
            && forall i <- w.conns | i != id :: w'.conns[i] == w.conns[i]
  {
    if r.out {
      assert [M.DoWrite(n)][1..] == [];
      assert DoAll(c, [M.DoWrite(n)]) == M.HandleWrite(c, n);
      if c.writing && n > 0 { assert c.output[n..] == "" <==> n == |c.output|; }
    }
  }

  lemma EventSeen(w: S.World, id: S.ConnId, c: M.Conn, r: S.Revents, read: Read, n: int)
    requires id in w.conns && w.conns[id].ioLoop < |w.loops| && Agree(w.conns[id], c)
    requires M.Inv(c) && c.Open() && S.Benign(r) && HandleSized(c, r, read, n)
    ensures var c1 := DoAll(c, HangupActs(r));
            var c2 := DoAll(c1, ReadActs(r, read));
            var w' := S.Dispatch(w, id, r, SeenRead(c1, r, read), n == |c2.output|);
            && w'.conns.Keys == w.conns.Keys
            && Agree(w'.conns[id], DoAll(c2, WriteActs(r, n)))
            && forall i <- w.conns | i != id :: w'.conns[i] == w.conns[i]
  {
    EventActs(c, r, read, n);
    HangupSeen(w, id, c, r);
    var c1 := DoAll(c, HangupActs(r));
    var w1 := if r.Hangup() then S.HandleClose(w, id) else w;
    ReadSeen(w1, id, c1, r, read);
    var w2 := if r.Readable() then S.HandleRead(w1, id, SeenRead(c1, r, read)) else w1;
    WriteSeen(w2, id, DoAll(c1, ReadActs(r, read)), r, n);
  }

  lemma EventLinked(y: System, l: S.LoopId, id: S.ConnId, r: S.Revents, read: Read, n: int)
    requires Inv(y) && Enabled(y, HandleEvent(l, id, r, read, n))
    ensures Inv(Apply(y, HandleEvent(l, id, r, read, n)))
  {
    var s := HandleEvent(l, id, r, read, n);
    var w, c, y1 := y.world, y.models[id], Apply(y, s);
    var seen := Seen(y, s)[0];
    assert Linked(y, id);
    OneSeen(w, seen);
    Safety.StepInv(w, seen);
    assert Safety.LoopOk(w, l) && Safety.Local(w, id);
    FollowedInv(y, id);
    EventActs(c, r, read, n);
    EventFollowed(y, y1.world, id, r, read, n);
    EventSeen(w.(loops := w.loops[l := w.loops[l].(active := w.loops[l].active - {id})]), id, c, r, read, n);
    LinkOne(y, y1, id);
  }

  lemma EventFollowed(y: System, world: S.World, id: S.ConnId, r: S.Revents, read: Read, n: int)
    requires id in y.models && id in y.runs && Followed(y, id) && y.models[id].Open()
    requires S.Benign(r) && HandleSized(y.models[id], r, read, n)
    ensures Followed(HandleAll(y, world, id, r, read, n), id)
  {
    FollowedInv(y, id);
    EventActs(y.models[id], r, read, n);
    Follow(y, world, id, HangupActs(r));
    var y1 := Perform(y, world, id, HangupActs(r));
    Follow(y1, world, id, ReadActs(r, read));
    Follow(Perform(y1, world, id, ReadActs(r, read)), world, id, WriteActs(r, n));
  }

  lemma {:induction false} ActsOfEach(ops: seq<UserOp>, k: nat)
    requires k < |ops|
    ensures |ActsOf(ops)| == |ops|
    ensures ActsOf(ops)[k] == if ops[k].Send? then M.DoSend(ops[k].message, ops[k].n) else M.DoShutdown
  {
    if |ops| > 1 {
      ActsOfEach(ops[1..], if k > 0 then k - 1 else 0);
    }
  }

  /** An event does to its connection what its bits ask for, in this order: a hang-up without
      readable data closes it, readable data, urgent data or a peer's half-close are read, and
      writability writes. */
  lemma EventRecorded(y: System, l: S.LoopId, id: S.ConnId, r: S.Revents, read: Read, n: int)
    requires Inv(y) && Enabled(y, HandleEvent(l, id, r, read, n))
    ensures var y' := Apply(y, HandleEvent(l, id, r, read, n));
            && id in y.runs && id in y'.runs
            && y'.runs[id] == y.runs[id]
                 + (if r.hup && !r.in_ then [M.DoClose] else [])
                 + (if !(r.in_ || r.pri || r.rdhup) then []
                    else match read
                         case Data(ops) => ActsOf(ops)
                         case EndOfFile => [M.DoClose]
                         case ReadError => [])
                 + (if r.out then [M.DoWrite(n)] else [])
  {
  }

  lemma StepLinked(y: System, s: Step)
    requires Inv(y) && Enabled(y, s)
    ensures Inv(Apply(y, s))
  {
    match s
    case Accept(l) => AcceptLinked(y, l);
    case HandleEvent(l, id, r, read, n) => EventLinked(y, l, id, r, read, n);
    case RunFunctor(l) => FunctorLinked(y, l);
    case User(id, op) => UserLinked(y, id, op);
    case Poll(l, ready) => QuietLinked(y, s, S.Poll(l, ready));
    case Swap(l) => QuietLinked(y, s, S.Swap(l));
  }

  lemma QuietLinked(y: System, s: Step, seen: S.Step)
    requires Inv(y) && Enabled(y, s) && (s.Poll? || s.Swap?) && Seen(y, s) == [seen]
    ensures Inv(Apply(y, s))
  {
    OneSeen(y.world, seen);
    Safety.StepInv(y.world, seen);
    forall id: S.ConnId ensures Linked(Apply(y, s), id) {
      assert Linked(y, id);
    }
  }

  lemma {:induction false} RunLinked(y: System, steps: seq<Step>)
    requires Inv(y) && ValidRun(y, steps)
    ensures Inv(Run(y, steps))
    decreases |steps|
  {
    if steps != [] {
      StepLinked(y, steps[0]);
      RunLinked(Apply(y, steps[0]), steps[1..]);
    }
  }

  /** In every interleaving of the accept loop and the IO loops, with the output buffers in
      place: no assert of the server or of a connection fails, and what has happened to each
      connection is a run of ConnectionModel that ends in the state and interest the server
      sees. So every connection conserves its output, in every interleaving. */
  lemma {:induction false} EveryConnectionFollows(loops: nat, steps: seq<Step>, id: S.ConnId)
    requires loops > 0 && ValidRun(Init(loops), steps)
    ensures var y := Run(Init(loops), steps);
            && !y.world.failed && (id in y.world.conns <==> id in y.models) && (id in y.models <==> id in y.runs)
            && (id in y.models ==>
                  && M.ValidRun(M.NEW_CONNECTION, y.runs[id]) && M.Run(M.NEW_CONNECTION, y.runs[id]) == y.models[id]
                  && Agree(y.world.conns[id], y.models[id])
                  && M.WrittenBytes(y.models[id].history) + y.models[id].output
                      == M.AcceptedBytes(y.models[id].history))
  {
    Safety.InitInv(loops);
    assert Inv(Init(loops));
    RunLinked(Init(loops), steps);
    var y := Run(Init(loops), steps);
    assert Linked(y, id);
    if id in y.models { FollowedInv(y, id); }
  }
}
