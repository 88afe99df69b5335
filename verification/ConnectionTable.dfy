/** TcpServer as an object: connectionMap_, nextConnectionId_ and the functors it queues.
    TcpServer.World speaks of ids where the map is keyed by names; here the two are shown to
    be the same, because no two connections of a server have one name. */
module ConnectionTable {
  import opened TcpServer
  import opened Decimal

  function NameOf(server: string, id: ConnId): string {
    server + "#" + Signed(id)
  }

  lemma NamesDistinct(server: string, i: ConnId, j: ConnId)
    ensures NameOf(server, i) == NameOf(server, j) <==> i == j
  {
    var at := |server| + 1;
    assert NameOf(server, i)[at..] == Signed(i) && NameOf(server, j)[at..] == Signed(j);
    SignedRoundTrip(i);
    SignedRoundTrip(j);
  }

  class Server {
    const name: string
    var nextConnectionId: nat
    var connectionMap: map<string, ConnId> // the id stands for the connection
    var pending: seq<seq<Functor>> // pendingFunctors_ of each loop

    // The server holds what the world says of it.
    ghost predicate Shows(w: World)
      reads this
    {
      && nextConnectionId == w.nextId
      && (forall id <- w.table :: id < w.nextId)
      && (forall key :: key in connectionMap <==> exists id :: id in w.table && key == NameOf(name, id))
      && (forall id <- w.table :: NameOf(name, id) in connectionMap && connectionMap[NameOf(name, id)] == id)
      && |pending| == |w.loops| && forall l: LoopId | l < |w.loops| :: pending[l] == w.loops[l].pending
    }

    constructor (name: string, loops: nat)
      ensures Shows(Init(loops)) && this.name == name
    {
      this.name := name;
      nextConnectionId := 1;
      connectionMap := map[];
      pending := seq(loops, _ => []);
    }

    method QueueInLoop(l: LoopId, f: Functor)
      requires l < |pending|
      modifies this`pending
      ensures pending == old(pending)[l := old(pending)[l] + [f]]
    {
      pending := pending[l := pending[l] + [f]];
    }

    method NewConnection(ghost w: World, l: LoopId) returns (id: ConnId)
      requires Shows(w) && l < |w.loops|
      modifies this
      ensures id == w.nextId && Shows(TcpServer.NewConnection(w, l))
    {
      id := nextConnectionId;
      var key := NameOf(name, id);
      forall i: ConnId ensures NameOf(name, i) == key <==> i == id {
        NamesDistinct(name, i, id);
      }
      nextConnectionId := nextConnectionId + 1;
      connectionMap := connectionMap[key := id];
      if l != 0 {
        QueueInLoop(l, Establish(id));
      }
    }

    // removeConnection, called on the connection's loop
    method RemoveConnection(ghost w: World, id: ConnId, ioLoop: LoopId)
      requires Shows(w) && id in w.conns && ioLoop == w.conns[id].ioLoop < |w.loops|
      modifies this`connectionMap, this`pending
      ensures Shows(if ioLoop == 0 then TcpServer.RemoveConnectionInLoop(w, id)
              else TcpServer.QueueInLoop(w, 0, RemoveInLoop(id)))
    {
      if ioLoop == 0 {
        var n := RemoveConnectionInLoop(w, id, ioLoop);
      } else {
        QueueInLoop(0, RemoveInLoop(id));
      }
    }

    /** removeConnectionInLoop: the number of entries erased, which the code asserts to be 1 */
    method RemoveConnectionInLoop(ghost w: World, id: ConnId, ioLoop: LoopId) returns (n: nat)
      requires Shows(w) && id in w.conns && ioLoop == w.conns[id].ioLoop < |w.loops|
      modifies this`connectionMap, this`pending
      ensures Shows(TcpServer.RemoveConnectionInLoop(w, id)) && (n == 1 <==> id in w.table)
    {
      var key := NameOf(name, id);
      forall i: ConnId ensures NameOf(name, i) == key <==> i == id {
        NamesDistinct(name, i, id);
      }
      n := if key in connectionMap then 1 else 0;
      connectionMap := connectionMap - {key};
      QueueInLoop(ioLoop, Destroy(id));
    }
  }
}
