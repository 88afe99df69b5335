/** What a batch of timers leaves behind, what a cancelled timer can still do, and when the
    timer descriptor is armed early enough. */
module TimerRuns {
  import opened Options
  import opened TimerModel

  // ---------- what the callbacks of a batch do to the queue ----------

  ghost function Adds(ops: seq<Op>): nat {
    if ops == [] then 0 else (if ops[0].Add? then 1 else 0) + Adds(ops[1..])
  }

  // `id` is the timer that the operation at index i adds, the numbers starting at `first`.
  ghost predicate AddsAt(ops: seq<Op>, first: TimerId, i: nat, id: TimerId) {
    i < |ops| && ops[i].Add? && id == first + Adds(ops[..i])
  }

  // The operations that come before a timer exists cannot cancel it.
  ghost predicate AddedAndKept(ops: seq<Op>, first: TimerId, id: TimerId) {
    exists i: nat :: AddsAt(ops, first, i, id) && Cancel(id) !in ops[i..]
  }

  lemma AddsAtTail(ops: seq<Op>, first: TimerId, i: nat, id: TimerId)
    requires ops != []
    ensures AddsAt(ops[1..], first + Adds(ops[..1]), i, id) <==> AddsAt(ops, first, i + 1, id)
  {
    if i < |ops| - 1 {
      assert ops[..i + 1][1..] == ops[1..][..i];
      assert ops[..1][1..] == [];
    }
  }

  lemma AddsOne(op: Op)
    ensures Adds([op]) == if op.Add? then 1 else 0
  {
    assert [op][1..] == [];
  }

  lemma KeptTail(ops: seq<Op>, first: TimerId, id: TimerId)
    requires ops != []
    ensures AddedAndKept(ops, first, id) <==>
            || (ops[0].Add? && id == first && Cancel(id) !in ops[1..])
            || AddedAndKept(ops[1..], first + (if ops[0].Add? then 1 else 0), id)
    ensures Cancel(id) in ops <==> ops[0] == Cancel(id) || Cancel(id) in ops[1..]
  {
    var first' := first + Adds(ops[..1]);
    assert ops == [ops[0]] + ops[1..] && ops[..1] == [ops[0]];
    AddsOne(ops[0]);
    if AddedAndKept(ops, first, id) {
      var i: nat :| AddsAt(ops, first, i, id) && Cancel(id) !in ops[i..];
      if i == 0 {
        assert ops[0..][1..] == ops[1..];
      } else {
        AddsAtTail(ops, first, i - 1, id);
        assert ops[1..][i - 1..] == ops[i..];
      }
    }
    if ops[0].Add? && id == first && Cancel(id) !in ops[1..] {
      assert AddsAt(ops, first, 0, id);
      assert ops[0..] == [ops[0]] + ops[1..];
    }
    if AddedAndKept(ops[1..], first', id) {
      var i: nat :| AddsAt(ops[1..], first', i, id) && Cancel(id) !in ops[1..][i..];
      AddsAtTail(ops, first, i, id);
      assert ops[1..][i..] == ops[i + 1..];
    }
  }

  lemma NotKeptBefore(ops: seq<Op>, first: TimerId, id: TimerId)
    requires id < first
    ensures !AddedAndKept(ops, first, id)
  {
  }

  ghost predicate OpEffect(q: Queue, r: Queue, batch: seq<Entry>, op: Op, id: TimerId) {
    && r.calling == q.calling
    && r.nextId == q.nextId + (if op.Add? then 1 else 0)
    && (id in r.active <==> (id in q.active && op != Cancel(id)) || (op.Add? && id == q.nextId))
    && (id in IdSet(batch) ==> (id in r.canceling <==> id in q.canceling || op == Cancel(id)))
    && (id in q.recs ==> id in r.recs && r.recs[id] == q.recs[id])
    && (op.Add? && id == q.nextId ==> id in r.recs && r.recs[id] == op.rec)
  }

  lemma PerformEffect(q: Queue, batch: seq<Entry>, op: Op, id: TimerId)
    requires Inv(q) && BatchOk(q, batch) && q.calling
    ensures OpEffect(q, Perform(q, batch, op), batch, op, id)
  {
  }

  lemma {:induction false} PerformAllEffect(q: Queue, batch: seq<Entry>, ops: seq<Op>, id: TimerId)
    requires Inv(q) && BatchOk(q, batch) && q.calling
    ensures var r := PerformAll(q, batch, ops);
            && (id in r.active <==> (id in q.active && Cancel(id) !in ops) || AddedAndKept(ops, q.nextId, id))
            && (id in IdSet(batch) ==> (id in r.canceling <==> id in q.canceling || Cancel(id) in ops))
            && (id in q.recs ==> id in r.recs && r.recs[id] == q.recs[id])
            && r.nextId == q.nextId + Adds(ops)
    decreases |ops|
  {
    if ops == [] {
      return;
    }
    var q1 := Perform(q, batch, ops[0]);
    PerformInv(q, batch, ops[0]);
    PerformEffect(q, batch, ops[0], id);
    PerformAllEffect(q1, batch, ops[1..], id);
    Combine(q, q1, PerformAll(q1, batch, ops[1..]), batch, ops, id);
  }

  lemma Combine(q: Queue, q1: Queue, r: Queue, batch: seq<Entry>, ops: seq<Op>, id: TimerId)
    requires ops != [] && OpEffect(q, q1, batch, ops[0], id)
    requires (id in r.active <==> (id in q1.active && Cancel(id) !in ops[1..]) || AddedAndKept(ops[1..], q1.nextId, id))
    requires id in IdSet(batch) ==> (id in r.canceling <==> id in q1.canceling || Cancel(id) in ops[1..])
    requires r.nextId == q1.nextId + Adds(ops[1..])
    ensures id in r.active <==> (id in q.active && Cancel(id) !in ops) || AddedAndKept(ops, q.nextId, id)
    ensures id in IdSet(batch) ==> (id in r.canceling <==> id in q.canceling || Cancel(id) in ops)
    ensures r.nextId == q.nextId + Adds(ops)
  {
    KeptTail(ops, q.nextId, id);
  }

  // ---------- what reset does to the timers of the batch ----------

  lemma {:induction false} RestartEffect(q: Queue, due: seq<Entry>, now: int, id: TimerId)
    requires BatchOk(q, due) && DistinctIds(due)
    ensures var r := Restart(q, due, now);
            && (id in r.active <==> id in q.active || (id in IdSet(due) && q.recs[id].Repeat() && id !in q.canceling))
            && r.recs.Keys == q.recs.Keys && r.canceling == q.canceling
            && (id in q.recs ==>
                  r.recs[id] == if id in IdSet(due) && q.recs[id].Repeat() && id !in q.canceling
                                then q.recs[id].(expired := now + q.recs[id].interval) else q.recs[id])
            && r.calling == q.calling && r.nextId == q.nextId && r.fd == q.fd && r.lastArm == q.lastArm
    decreases |due|
  {
    if due != [] {
      var first := due[0].id;
      assert due[0] in due;
      RestartOneBatch(q, due, now);
      RestartEffect(RestartOne(q, first, now), due[1..], now, id);
      IdSetTail(due, id);
    }
  }

  lemma IdSetTail(due: seq<Entry>, id: TimerId)
    requires due != [] && DistinctIds(due)
    ensures id in IdSet(due) <==> id == due[0].id || id in IdSet(due[1..])
    ensures due[0].id !in IdSet(due[1..])
  {
    assert due == [due[0]] + due[1..];
    forall e <- due[1..] ensures e.id != due[0].id {
      var i :| 1 <= i < |due| && due[i] == e;
    }
  }

  lemma {:induction false} PerformAllAdded(q: Queue, batch: seq<Entry>, ops: seq<Op>, i: nat, id: TimerId)
    requires Inv(q) && BatchOk(q, batch) && q.calling && AddsAt(ops, q.nextId, i, id)
    ensures var r := PerformAll(q, batch, ops); id in r.recs && r.recs[id] == ops[i].rec
    decreases |ops|
  {
    var q1 := Perform(q, batch, ops[0]);
    PerformInv(q, batch, ops[0]);
    PerformEffect(q, batch, ops[0], id);
    if i == 0 {
      PerformAllEffect(q1, batch, ops[1..], id);
    } else {
      assert ops[..1] == [ops[0]];
      AddsOne(ops[0]);
      AddsAtTail(ops, q.nextId, i - 1, id);
      PerformAllAdded(q1, batch, ops[1..], i - 1, id);
    }
  }

  // The queue between the last callback of a batch and reset.
  lemma ServeEffect(q: Queue, now: int, callbacks: map<TimerId, seq<Op>>, id: TimerId)
    requires Inv(q)
    ensures var r, due, ops := Serve(q, now, callbacks), Due(q, now), Script(Due(q, now), callbacks);
            && Inv(r) && BatchOk(r, due) && DistinctIds(due) && !r.calling && r.nextId == q.nextId + Adds(ops)
            && (id in r.active <==>
                  || (id in q.active && id !in IdSet(due) && Cancel(id) !in ops)
                  || AddedAndKept(ops, q.nextId, id))
            && (id in IdSet(due) ==> (id in r.canceling <==> Cancel(id) in ops))
            && (id in q.recs ==> id in r.recs && r.recs[id] == q.recs[id])
            && (id in IdSet(due) ==> id in q.recs && !AddedAndKept(ops, q.nextId, id))
            && forall i: nat | AddsAt(ops, q.nextId, i, id) :: id in r.recs && r.recs[id] == ops[i].rec
  {
    var due, ops := Due(q, now), Script(Due(q, now), callbacks);
    var taken := TakeDue(q, now).(calling := true, canceling := {});
    DueExactly(q, now);
    TakeDueInv(q, now);
    ServeInv(q, now, callbacks);
    PerformAllEffect(taken, due, ops, id);
    forall i: nat | AddsAt(ops, q.nextId, i, id)
      ensures id in Serve(q, now, callbacks).recs && Serve(q, now, callbacks).recs[id] == ops[i].rec
    {
      PerformAllAdded(taken, due, ops, i, id);
    }
    if id in IdSet(due) {
      NotKeptBefore(ops, q.nextId, id);
    }
  }

  /** One handleRead, whatever its callbacks do. Afterwards a timer is queued exactly if it
      was queued, not yet due and not cancelled; or was added by a callback and not
      cancelled after that; or was due, is periodic and was not cancelled. A periodic timer
      that was due now expires at now plus its interval, no other expiry changes, and an
      added timer has the expiry it was added with. */
  lemma HandleReadLeaves(q: Queue, now: int, callbacks: map<TimerId, seq<Op>>, clock: int, id: TimerId)
    requires Inv(q)
    ensures var r, due, ops := HandleRead(q, now, callbacks, clock), Due(q, now), Script(Due(q, now), callbacks);
            && (id in r.active <==>
                  || (id in q.active && id !in IdSet(due) && Cancel(id) !in ops)
                  || AddedAndKept(ops, q.nextId, id)
                  || (id in IdSet(due) && q.recs[id].Repeat() && Cancel(id) !in ops))
            && (id in q.recs && id in r.active ==>
                  (id in r.recs &&
                   r.recs[id].expired == if id in IdSet(due) then now + q.recs[id].interval else q.recs[id].expired))
            && (forall i: nat | AddsAt(ops, q.nextId, i, id) :: id in r.recs && r.recs[id] == ops[i].rec)
            && !r.calling && r.nextId == q.nextId + Adds(ops)
  {
    var served := Serve(q, now, callbacks);
    ServeEffect(q, now, callbacks, id);
    RestartEffect(served, Due(q, now), now, id);
    forall i: nat | AddsAt(Script(Due(q, now), callbacks), q.nextId, i, id) ensures id !in IdSet(Due(q, now)) {
      DueExactly(q, now);
    }
  }

  // The timers a batch runs, in the order it runs them.
  ghost function Ran(q: Queue, now: int): seq<TimerId> {
    seq(|Due(q, now)|, i requires 0 <= i < |Due(q, now)| => Due(q, now)[i].id)
  }

  /** A batch runs exactly the timers that expired before `now`, each once and in the order
      of their expiry. */
  lemma RanOnceInOrder(q: Queue, now: int)
    requires Inv(q)
    ensures forall id :: id in Ran(q, now) <==> id in q.active && q.recs[id].expired < now
    ensures forall i, j | 0 <= i < j < |Ran(q, now)| :: Ran(q, now)[i] != Ran(q, now)[j]
    ensures forall i | 0 <= i < |Ran(q, now)| :: Ran(q, now)[i] in q.recs
    ensures forall i, j | 0 <= i < j < |Ran(q, now)| ::
              q.recs[Ran(q, now)[i]].expired <= q.recs[Ran(q, now)[j]].expired
  {
    DueExactly(q, now);
    var due, ran := Due(q, now), Ran(q, now);
    forall id ensures id in ran <==> id in q.active && q.recs[id].expired < now {
      if id in q.active && q.recs[id].expired < now {
        assert EntryOf(q.recs, id) in due;
        var i :| 0 <= i < |due| && due[i] == EntryOf(q.recs, id);
        assert ran[i] == id;
      }
      if id in ran {
        var i :| 0 <= i < |ran| && ran[i] == id;
        assert due[i] in due;
      }
    }
    forall i | 0 <= i < |ran| ensures ran[i] in q.recs && q.recs[ran[i]].expired == due[i].time {
      assert due[i] in due;
    }
    forall i, j | 0 <= i < j < |ran| ensures q.recs[ran[i]].expired <= q.recs[ran[j]].expired {
      assert Less(due[i], due[j]);
    }
  }

  /** The assert after lower_bound in getExpired (the first timer left expires after `now`)
      holds exactly when no queued timer expires at `now` itself: the null pointer in the
      searched pair sorts before every timer. */
  lemma SentryAssert(q: Queue, now: int)
    requires Inv(q)
    ensures (DueCount(q, now) < |q.entries| ==> now < q.entries[DueCount(q, now)].time)
            <==> forall id <- q.active :: q.recs[id].expired != now
  {
    var k := DueCount(q, now);
    DueExactly(q, now);
    SortedSplit(q.entries, k);
    if k < |q.entries| {
      var e := q.entries[k];
      assert e in q.entries && e in q.entries[k..];
      if e.time > now {
        forall id <- q.active ensures q.recs[id].expired != now {
          var x := EntryOf(q.recs, id);
          if x in q.entries[k..] {
            var i :| k <= i < |q.entries| && q.entries[i] == x;
            assert i > k ==> Less(e, x);
          }
        }
      }
    } else {
      forall id <- q.active ensures q.recs[id].expired != now {
        assert EntryOf(q.recs, id) in Due(q, now);
      }
    }
  }

  /** And it does fail: a timer that is served in the very microsecond it expires. */
  lemma SentryFails()
    ensures var q := AddTimer(EMPTY, Rec(1, 1000, 0), 0);
            && Inv(q) && DueCount(q, 1000) < |q.entries| && q.entries[DueCount(q, 1000)].time == 1000
  {
    var q := AddTimer(EMPTY, Rec(1, 1000, 0), 0);
    AddInv(EMPTY, Rec(1, 1000, 0), 0);
    assert q.entries == [Entry(1000, 1, 1)];
  }

  // ---------- a cancelled timer never runs again ----------

  datatype Step =
    | Do(op: Op)
    | Fire // the armed deadline passes and the descriptor becomes readable
    | Batch(now: int, callbacks: map<TimerId, seq<Op>>, clock: int)

  ghost function Next(q: Queue, s: Step): Queue
    requires Inv(q)
  {
    match s
    case Do(op) => Perform(q, [], op)
    case Fire => q.(fd := None)
    case Batch(now, callbacks, clock) => HandleRead(q, now, callbacks, clock)
  }

  ghost function RanBy(q: Queue, s: Step): seq<TimerId> {
    match s
    case Batch(now, _, _) => Ran(q, now)
    case _ => []
  }

  lemma NextInv(q: Queue, s: Step)
    requires Inv(q)
    ensures Inv(Next(q, s))
  {
    match s
    case Do(op) => PerformInv(q, [], op);
    case Fire =>
    case Batch(now, callbacks, clock) => HandleReadInv(q, now, callbacks, clock);
  }

  ghost function After(q: Queue, steps: seq<Step>): Queue
    requires Inv(q)
    ensures Inv(After(q, steps))
    decreases |steps|
  {
    if steps == [] then q
    else
      NextInv(q, steps[0]);
      After(Next(q, steps[0]), steps[1..])
  }

  // Everything the batches among the steps run.
  ghost function RanDuring(q: Queue, steps: seq<Step>): seq<TimerId>
    requires Inv(q)
    decreases |steps|
  {
    if steps == [] then []
    else
      NextInv(q, steps[0]);
      RanBy(q, steps[0]) + RanDuring(Next(q, steps[0]), steps[1..])
  }

  // The step asks for the timer to be cancelled, once it exists.
  ghost predicate Cancels(q: Queue, s: Step, id: TimerId) {
    match s
    case Do(op) => id in q.recs && op == Cancel(id)
    case Fire => false
    case Batch(now, callbacks, _) =>
      var ops := Script(Due(q, now), callbacks);
      || (id in q.recs && Cancel(id) in ops)
      || exists i: nat :: AddsAt(ops, q.nextId, i, id) && Cancel(id) in ops[i..]
  }

  lemma AddsAtOnce(ops: seq<Op>, first: TimerId, i: nat, j: nat, id: TimerId)
    requires AddsAt(ops, first, i, id) && AddsAt(ops, first, j, id)
    ensures i == j
  {
    if i < j {
      AddsGrow(ops, i, j);
    } else if j < i {
      AddsGrow(ops, j, i);
    }
  }

  lemma {:induction false} AddsGrow(ops: seq<Op>, i: nat, j: nat)
    requires i < j <= |ops| && ops[i].Add?
    ensures Adds(ops[..i]) < Adds(ops[..j])
    decreases i
  {
    assert ops[..j][1..] == ops[1..][..j - 1];
    if i > 0 {
      assert ops[..i][1..] == ops[1..][..i - 1];
      AddsGrow(ops[1..], i - 1, j - 1);
    }
  }

  ghost predicate Gone(q: Queue, id: TimerId) {
    id < q.nextId && id !in q.active
  }

  lemma CancelledAddition(ops: seq<Op>, first: TimerId, i: nat, id: TimerId)
    requires AddsAt(ops, first, i, id) && Cancel(id) in ops[i..]
    ensures !AddedAndKept(ops, first, id) && first <= id < first + Adds(ops)
  {
    AddsGrow(ops, i, |ops|);
    assert ops[..|ops|] == ops;
    if AddedAndKept(ops, first, id) {
      var j: nat :| AddsAt(ops, first, j, id) && Cancel(id) !in ops[j..];
      AddsAtOnce(ops, first, i, j, id);
    }
  }

  lemma CancelledIsGone(q: Queue, s: Step, id: TimerId)
    requires Inv(q) && !q.calling && Cancels(q, s, id)
    ensures Gone(Next(q, s), id)
  {
    match s
    case Do(op) =>
    case Fire =>
    case Batch(now, callbacks, clock) =>
      var ops := Script(Due(q, now), callbacks);
      HandleReadLeaves(q, now, callbacks, clock, id);
      ServeEffect(q, now, callbacks, id);
      if id in q.recs {
        NotKeptBefore(ops, q.nextId, id);
      } else {
        var i: nat :| AddsAt(ops, q.nextId, i, id) && Cancel(id) in ops[i..];
        CancelledAddition(ops, q.nextId, i, id);
      }
  }

  lemma GoneStays(q: Queue, s: Step, id: TimerId)
    requires Inv(q) && !q.calling && Gone(q, id)
    ensures Gone(Next(q, s), id) && id !in RanBy(q, s) && !Next(q, s).calling
  {
    match s
    case Do(op) =>
    case Fire =>
    case Batch(now, callbacks, clock) =>
      HandleReadLeaves(q, now, callbacks, clock, id);
      NotKeptBefore(Script(Due(q, now), callbacks), q.nextId, id);
      RanOnceInOrder(q, now);
  }

  lemma {:induction false} GoneForGood(q: Queue, steps: seq<Step>, id: TimerId)
    requires Inv(q) && !q.calling && Gone(q, id)
    ensures Gone(After(q, steps), id) && id !in RanDuring(q, steps)
    decreases |steps|
  {
    if steps != [] {
      NextInv(q, steps[0]);
      GoneStays(q, steps[0], id);
      GoneForGood(Next(q, steps[0]), steps[1..], id);
    }
  }

  /** A timer cancelled after its insertion, also from its own or a sibling's callback, is
      queued no more once that step ends, and no later batch of any run runs it. */
  lemma NeverAgain(q: Queue, s: Step, steps: seq<Step>, id: TimerId)
    requires Inv(q) && !q.calling && Cancels(q, s, id)
    ensures Inv(Next(q, s)) && id !in Next(q, s).active
    ensures id !in After(Next(q, s), steps).active && id !in RanDuring(Next(q, s), steps)
  {
    NextInv(q, s);
    CancelledIsGone(q, s, id);
    if s.Batch? {
      HandleReadLeaves(q, s.now, s.callbacks, s.clock, id);
    }
    GoneForGood(Next(q, s), steps, id);
  }

  // ---------- a cancel from another thread ----------

  // The step holds no cancel of the timer.
  ghost predicate NoCancel(q: Queue, s: Step, id: TimerId)
    requires Inv(q)
  {
    match s
    case Do(op) => op != Cancel(id)
    case Fire => true
    case Batch(now, callbacks, _) => Cancel(id) !in Script(Due(q, now), callbacks)
  }

  ghost predicate NeverCancelled(q: Queue, steps: seq<Step>, id: TimerId)
    requires Inv(q)
    decreases |steps|
  {
    steps == [] || (NextInv(q, steps[0]); NoCancel(q, steps[0], id)
        && NeverCancelled(Next(q, steps[0]), steps[1..], id))
  }

  lemma {:induction false} NotInBatch(q: Queue, batch: seq<Entry>, ops: seq<Op>, id: TimerId)
    requires Inv(q) && BatchOk(q, batch) && id !in q.canceling && id !in IdSet(batch)
    ensures id !in PerformAll(q, batch, ops).canceling
    decreases |ops|
  {
    if ops != [] {
      PerformInv(q, batch, ops[0]);
      NotInBatch(Perform(q, batch, ops[0]), batch, ops[1..], id);
    }
  }

  /** After a batch cancelingTimers_ holds exactly the timers it has served and its callbacks
      have cancelled. */
  lemma CancelingExactly(q: Queue, now: int, callbacks: map<TimerId, seq<Op>>, clock: int, id: TimerId)
    requires Inv(q)
    ensures id in HandleRead(q, now, callbacks, clock).canceling
            <==> id in IdSet(Due(q, now)) && Cancel(id) in Script(Due(q, now), callbacks)
  {
    var due, ops := Due(q, now), Script(Due(q, now), callbacks);
    ServeEffect(q, now, callbacks, id);
    RestartEffect(Serve(q, now, callbacks), due, now, id);
    TakeDueInv(q, now);
    if id !in IdSet(due) {
      NotInBatch(TakeDue(q, now).(calling := true, canceling := {}), due, ops, id);
    }
  }

  lemma RanAreDue(q: Queue, now: int, id: TimerId)
    requires Inv(q)
    ensures id in Ran(q, now) <==> id in IdSet(Due(q, now))
  {
    var due, ran := Due(q, now), Ran(q, now);
    if id in IdSet(due) {
      var e :| e in due && e.id == id;
      var i :| 0 <= i < |due| && due[i] == e;
      assert ran[i] == id;
    }
    if id in ran {
      var i :| 0 <= i < |ran| && ran[i] == id;
      assert due[i] in due;
    }
  }

  // A step that does not cancel the timer
  lemma KeptByStep(q: Queue, s: Step, id: TimerId)
    requires Inv(q) && !q.calling && id in q.active && NoCancel(q, s, id)
    ensures var r := Next(q, s);
            && !r.calling && id !in r.canceling && id in r.recs && r.recs[id].interval == q.recs[id].interval
            && id < r.nextId && (id in r.active <==> q.recs[id].Repeat() || id !in RanBy(q, s))
  {
    NextInv(q, s);
    if s.Batch? {
      KeptByBatch(q, s.now, s.callbacks, s.clock, id);
      RanAreDue(q, s.now, id);
    }
  }

  lemma KeptByBatch(q: Queue, now: int, callbacks: map<TimerId, seq<Op>>, clock: int, id: TimerId)
    requires Inv(q) && !q.calling && id in q.active && Cancel(id) !in Script(Due(q, now), callbacks)
    ensures var r := HandleRead(q, now, callbacks, clock);
            && !r.calling && id !in r.canceling && id in r.recs && r.recs[id].interval == q.recs[id].interval
            && id < r.nextId && (id in r.active <==> q.recs[id].Repeat() || id !in IdSet(Due(q, now)))
  {
    HandleReadLeaves(q, now, callbacks, clock, id);
    ServeEffect(q, now, callbacks, id);
    RestartEffect(Serve(q, now, callbacks), Due(q, now), now, id);
    NotKeptBefore(Script(Due(q, now), callbacks), q.nextId, id);
    CancelingExactly(q, now, callbacks, clock, id);
  }

  // A step that does
  lemma CancelledByStep(q: Queue, s: Step, id: TimerId)
    requires Inv(q) && !q.calling && id in q.active && !NoCancel(q, s, id)
    ensures var r := Next(q, s);
            && !r.calling && id < r.nextId && id !in r.active
            && (id in r.canceling <==> s.Batch? && id in RanBy(q, s))
  {
    NextInv(q, s);
    if s.Batch? {
      HandleReadLeaves(q, s.now, s.callbacks, s.clock, id);
      NotKeptBefore(Script(Due(q, s.now), s.callbacks), q.nextId, id);
      RanAreDue(q, s.now, id);
      CancelingExactly(q, s.now, s.callbacks, s.clock, id);
    }
  }

  predicate NoBatch(steps: seq<Step>) {
    forall s <- steps :: !s.Batch?
  }

  // A timer that is queued no more is held, if at all, until the next batch begins.
  lemma {:induction false} HeldUntilBatch(q: Queue, steps: seq<Step>, id: TimerId)
    requires Inv(q) && !q.calling && Gone(q, id)
    ensures var r := After(q, steps);
            id !in r.active && (id in r.canceling <==> id in q.canceling && NoBatch(steps))
    decreases |steps|
  {
    if steps != [] {
      var s := steps[0];
      NextInv(q, s);
      GoneStays(q, s, id);
      if s.Batch? {
        CancelingExactly(q, s.now, s.callbacks, s.clock, id);
        RanAreDue(q, s.now, id);
      }
      HeldUntilBatch(Next(q, s), steps[1..], id);
      assert NoBatch(steps) <==> !s.Batch? && NoBatch(steps[1..]);
    }
  }

  /** While nothing cancels the timer, it is periodic or has not run; the first step that does
      cancel it is a batch that is serving it, and no batch comes after that. */
  ghost predicate Survives(q: Queue, steps: seq<Step>, id: TimerId)
    requires Inv(q) && id in q.recs
    decreases |steps|
  {
    if steps == [] then true
    else
      NextInv(q, steps[0]);
      var r := Next(q, steps[0]);
      if NoCancel(q, steps[0], id)
      then (q.recs[id].Repeat() || id !in RanBy(q, steps[0])) && id in r.recs && Survives(r, steps[1..], id)
      else steps[0].Batch? && id in RanBy(q, steps[0]) && NoBatch(steps[1..])
  }

  lemma {:induction false} ActiveSurvives(q: Queue, steps: seq<Step>, id: TimerId)
    requires Inv(q) && !q.calling && id in q.active
    ensures var r := After(q, steps); Alive(r.active, r.canceling, [], id) <==> Survives(q, steps, id)
    decreases |steps|
  {
    if steps != [] {
      var s, q1 := steps[0], Next(q, steps[0]);
      NextInv(q, s);
      if NoCancel(q, s, id) {
        KeptByStep(q, s, id);
        if id in q1.active {
          ActiveSurvives(q1, steps[1..], id);
        } else {
          HeldUntilBatch(q1, steps[1..], id);
        }
      } else {
        CancelledByStep(q, s, id);
        HeldUntilBatch(q1, steps[1..], id);
      }
    }
  }

  /** A cancel that another thread asks for is only queued, with a weak pointer, and
      cancelInLoop asserts that the timer still exists. Whatever happens between the request
      and its execution, the assert holds exactly if the timer survives it: a queued timer as
      above, one that only cancelingTimers_ holds until the next batch. */
  lemma QueuedCancelAssert(q: Queue, steps: seq<Step>, id: TimerId)
    requires Inv(q) && !q.calling && Alive(q.active, q.canceling, [], id)
    ensures var r := After(q, steps);
            Alive(r.active, r.canceling, [], id) <==> if id in q.active then Survives(q, steps, id) else NoBatch(steps)
  {
    if id in q.active {
      ActiveSurvives(q, steps, id);
    } else {
      HeldUntilBatch(q, steps, id);
    }
  }

  /** If nobody else cancels the timer, that is exactly if it is periodic or has not run
      between the request and its execution. */
  lemma {:induction false} QueuedCancelAlone(q: Queue, steps: seq<Step>, id: TimerId)
    requires Inv(q) && !q.calling && id in q.active && NeverCancelled(q, steps, id)
    ensures var r := After(q, steps);
            Alive(r.active, r.canceling, [], id) <==> q.recs[id].Repeat() || id !in RanDuring(q, steps)
    decreases |steps|
  {
    if steps != [] {
      var q1 := Next(q, steps[0]);
      NextInv(q, steps[0]);
      KeptByStep(q, steps[0], id);
      if id in q1.active {
        QueuedCancelAlone(q1, steps[1..], id);
        RanByOnce(q, steps, id);
      } else {
        HeldUntilBatch(q1, steps[1..], id);
      }
    }
  }

  lemma RanByOnce(q: Queue, steps: seq<Step>, id: TimerId)
    requires Inv(q) && steps != []
    ensures Inv(Next(q, steps[0]))
    ensures id in RanDuring(q, steps) <==> id in RanBy(q, steps[0]) || id in RanDuring(Next(q, steps[0]), steps[1..])
  {
    NextInv(q, steps[0]);
  }

  /** It does fail: a one-shot timer runs before the queued cancel is executed, or another
      cancel is executed first. */
  lemma QueuedCancelFails()
    ensures var q := AddTimer(EMPTY, Rec(1, 1000, 0), 0);
            && Inv(q) && !q.calling && 1 in q.active
            && (var r := After(q, [Batch(1001, map[], 1002)]); !Alive(r.active, r.canceling, [], 1))
            && (var r := After(q, [Do(Cancel(1))]); !Alive(r.active, r.canceling, [], 1))
  {
    var q, batch := AddTimer(EMPTY, Rec(1, 1000, 0), 0), Batch(1001, map[], 1002);
    AddInv(EMPTY, Rec(1, 1000, 0), 0);
    RanOnceInOrder(q, 1001);
    assert NoCallbacks(Due(q, 1001)) by { NoCallbacksScript(Due(q, 1001)); }
    KeptByStep(q, batch, 1);
    AfterOne(q, batch);
    CancelledByStep(q, Do(Cancel(1)), 1);
    AfterOne(q, Do(Cancel(1)));
  }

  lemma AfterOne(q: Queue, s: Step)
    requires Inv(q)
    ensures After(q, [s]) == Next(q, s)
  {
    NextInv(q, s);
    assert [s][1..] == [];
    assert After(Next(q, s), []) == Next(q, s);
  }

  predicate NoCallbacks(due: seq<Entry>) {
    Script(due, map[]) == []
  }

  lemma {:induction false} NoCallbacksScript(due: seq<Entry>)
    ensures NoCallbacks(due)
  {
    if due != [] { NoCallbacksScript(due[1..]); }
  }

  // ---------- the timer descriptor ----------

  /** The descriptor is armed no later than the earliest expiry, but for the minimal delay. */
  ghost predicate Covered(q: Queue) {
    q.entries != [] ==>
      q.fd.Some? && (q.fd.value <= q.entries[0].time || q.fd.value <= q.lastArm + MIN_DELAY)
  }

  lemma AddCovered(q: Queue, rec: Rec, clock: int)
    requires Inv(q) && Covered(q)
    ensures Covered(AddTimer(q, rec, clock))
  {
    var e := EntryOf(q.recs[q.nextId := rec], q.nextId);
    assert e !in q.entries;
    InsertSorted(q.entries, e);
  }

  lemma CancelCovered(q: Queue, id: TimerId)
    requires Inv(q) && Covered(q)
    ensures Covered(CancelTimer(q, id))
  {
    if id in q.active {
      EraseSorted(q.entries, EntryOf(q.recs, id));
    }
  }

  // The earliest timer, if there is one, has not expired when reset looks at it.
  ghost predicate EarliestValid(q: Queue, now: int, callbacks: map<TimerId, seq<Op>>, clock: int)
    requires Inv(q)
  {
    var r := HandleRead(q, now, callbacks, clock);
    r.entries != [] ==> r.entries[0].time >= clock
  }

  lemma BatchCovered(q: Queue, now: int, callbacks: map<TimerId, seq<Op>>, clock: int)
    requires Inv(q) && EarliestValid(q, now, callbacks, clock)
    ensures Covered(HandleRead(q, now, callbacks, clock))
  {
  }

  // What the callbacks of a batch have armed covers the queue that reset leaves.
  ghost predicate ArmedBefore(q: Queue, now: int, callbacks: map<TimerId, seq<Op>>, clock: int)
    requires Inv(q)
  {
    var served, r := Serve(q, now, callbacks), HandleRead(q, now, callbacks, clock);
    && served.fd.Some? && r.entries != []
    && (served.fd.value <= r.entries[0].time || served.fd.value <= served.lastArm + MIN_DELAY)
  }

  /** Whatever is armed before and whatever the callbacks do, a batch leaves the queue covered
      exactly when reset finds the earliest timer still valid, or what the callbacks have left
      armed is early enough. */
  lemma CoveredIffValid(q: Queue, now: int, callbacks: map<TimerId, seq<Op>>, clock: int)
    requires Inv(q)
    ensures Covered(HandleRead(q, now, callbacks, clock))
            <==> EarliestValid(q, now, callbacks, clock) || ArmedBefore(q, now, callbacks, clock)
  {
    DueExactly(q, now);
    ServeInv(q, now, callbacks);
    ResetArms(Serve(q, now, callbacks), Due(q, now), now, clock);
  }

  // reset arms the descriptor or leaves it alone.
  lemma ResetArms(q: Queue, due: seq<Entry>, now: int, clock: int)
    requires Inv(q) && BatchOk(q, due) && DistinctIds(due)
    ensures var r := Rearm(Restart(q, due, now), clock);
            if r.entries != [] && r.entries[0].time >= clock
            then r.fd.Some? && r.lastArm == clock
                && (r.fd.value == r.entries[0].time || r.fd.value == clock + MIN_DELAY)
            else r.fd == q.fd && r.lastArm == q.lastArm
  {
    RestartEffect(q, due, now, 0);
  }

  /** After a firing, when the callbacks add no timer, only reset can arm the descriptor. */
  lemma UnarmedUnlessValid(q: Queue, now: int, callbacks: map<TimerId, seq<Op>>, clock: int)
    requires Inv(q) && q.fd == None && forall op <- Script(Due(q, now), callbacks) :: op.Cancel?
    ensures var r := HandleRead(q, now, callbacks, clock);
            && (Covered(r) <==> EarliestValid(q, now, callbacks, clock))
            && (!EarliestValid(q, now, callbacks, clock) ==> r.fd == None)
  {
    CoveredIffValid(q, now, callbacks, clock);
    DueExactly(q, now);
    ServeInv(q, now, callbacks);
    TakeDueInv(q, now);
    CancelsKeepFd(TakeDue(q, now).(calling := true, canceling := {}), Due(q, now), Script(Due(q, now), callbacks));
    ResetArms(Serve(q, now, callbacks), Due(q, now), now, clock);
  }

  lemma {:induction false} CancelsKeepFd(q: Queue, batch: seq<Entry>, ops: seq<Op>)
    requires Inv(q) && BatchOk(q, batch) && forall op <- ops :: op.Cancel?
    ensures PerformAll(q, batch, ops).fd == q.fd
    decreases |ops|
  {
    if ops != [] {
      assert ops[0] in ops;
      PerformInv(q, batch, ops[0]);
      CancelsKeepFd(Perform(q, batch, ops[0]), batch, ops[1..]);
    }
  }

  // A run whose batches all find the earliest timer still valid.
  ghost predicate Timely(q: Queue, steps: seq<Step>)
    requires Inv(q)
    decreases |steps|
  {
    steps == [] ||
    (NextInv(q, steps[0]);
     && (match steps[0] case Batch(now, callbacks, clock) => EarliestValid(q, now, callbacks, clock) case _ => true)
     && Timely(Next(q, steps[0]), steps[1..]))
  }

  // Whether every firing has been followed by its batch.
  ghost predicate Settled(settled: bool, steps: seq<Step>)
    decreases |steps|
  {
    if steps == [] then settled
    else Settled(match steps[0] case Do(_) => settled case Fire => false case Batch(_, _, _) => true, steps[1..])
  }

  lemma {:induction false} RunCovered(q: Queue, settled: bool, steps: seq<Step>)
    requires Inv(q) && Timely(q, steps) && (settled ==> Covered(q)) && Settled(settled, steps)
    ensures Covered(After(q, steps))
    decreases |steps|
  {
    if steps == [] { return; }
    var q1 := Next(q, steps[0]);
    NextInv(q, steps[0]);
    match steps[0] {
      case Do(op) =>
        if settled {
          match op {
            case Add(rec, clock) => AddCovered(q, rec, clock);
            case Cancel(id) => CancelCovered(q, id);
          }
        }
        RunCovered(q1, settled, steps[1..]);
      case Fire => RunCovered(q1, false, steps[1..]);
      case Batch(now, callbacks, clock) =>
        BatchCovered(q, now, callbacks, clock);
        RunCovered(q1, true, steps[1..]);
    }
  }

  /** In every run whose batches find the earliest timer still valid, once each firing has
      been served, a non-empty queue has its descriptor armed no later than its earliest
      expiry or 100 microseconds after the last arming. */
  lemma ArmedInTime(steps: seq<Step>)
    requires Timely(EMPTY, steps) && Settled(true, steps)
    ensures Covered(After(EMPTY, steps))
  {
    RunCovered(EMPTY, true, steps);
  }

  /** A periodic timer whose batch takes longer than its period is queued but never served
      again: nothing is armed. */
  lemma StuckTimer()
    ensures var q0 := AddTimer(EMPTY, Rec(1, 1000, 10), 0);
            && Inv(q0) && Covered(q0)
            && var q1 := Next(q0, Fire); var q2 := Next(q1, Batch(1001, map[], 2000));
               q2.entries == [Entry(1011, 1, 1)] && q2.fd == None
  {
    var q0 := AddTimer(EMPTY, Rec(1, 1000, 10), 0);
    AddInv(EMPTY, Rec(1, 1000, 10), 0);
    assert q0.entries == [Entry(1000, 1, 1)];
    var q1 := Next(q0, Fire);
    var due := Due(q1, 1001);
    assert LowerBound(q1.entries[1..], Entry(1001, 0, 0)) == 0;
    assert due == [Entry(1000, 1, 1)];
    assert due[1..] == [];
    assert Script(due, map[]) == [] by { assert Script(due[1..], map[]) == []; }
    var served := Serve(q1, 1001, map[]);
    assert served.entries == [];
    var restarted := RestartOne(served, 1, 1001);
    assert Restart(served, due, 1001) == Restart(restarted, [], 1001) == restarted;
  }

  // ---------- what the descriptor is armed for ----------

  // The larger of the time and 100 microseconds from now
  function NoSooner(time: int, clock: int): int {
    if time >= clock + 100 then time else clock + 100
  }

  predicate Rearmed(q: Queue, q': Queue) {
    q'.fd != q.fd || q'.lastArm != q.lastArm
  }

  // If the descriptor has been armed, then for the earliest expiry, or 100 microseconds ahead.
  predicate ArmedRight(q: Queue, q': Queue, clock: int) {
    Rearmed(q, q') ==>
      q'.entries != [] && q'.fd == Some(NoSooner(q'.entries[0].time, clock)) && q'.lastArm == clock
  }

  /** An added timer that expires before all queued ones leaves the descriptor armed for exactly
      its expiry, or 100 microseconds from now; any other addition leaves it alone. */
  lemma AddDeadline(q: Queue, rec: Rec, clock: int)
    requires Inv(q)
    ensures var r := AddTimer(q, rec, clock);
            && ArmedRight(q, r, clock)
            && if forall e <- q.entries :: rec.expired < e.time
               then r.fd == Some(NoSooner(rec.expired, clock)) && r.lastArm == clock
               else r.fd == q.fd && r.lastArm == q.lastArm
  {
    var e := EntryOf(q.recs[q.nextId := rec], q.nextId);
    assert e !in q.entries;
    InsertSorted(q.entries, e);
    if q.entries != [] {
      assert q.entries[0] in q.entries;
      forall x <- q.entries ensures q.entries[0].time <= x.time {
        var i :| 0 <= i < |q.entries| && q.entries[i] == x;
        assert i > 0 ==> Less(q.entries[0], x);
      }
    }
  }

  /** reset leaves the descriptor armed for exactly the earliest expiry, or 100 microseconds
      from now, when it finds the earliest timer valid; otherwise it leaves it alone. */
  lemma ResetDeadline(q: Queue, now: int, callbacks: map<TimerId, seq<Op>>, clock: int)
    requires Inv(q)
    ensures var served, r := Serve(q, now, callbacks), HandleRead(q, now, callbacks, clock);
            && ArmedRight(served, r, clock)
            && if r.entries != [] && clock <= r.entries[0].time
               then r.fd == Some(NoSooner(r.entries[0].time, clock)) && r.lastArm == clock
               else r.fd == served.fd && r.lastArm == served.lastArm
  {
    DueExactly(q, now);
    ServeInv(q, now, callbacks);
    var served := Serve(q, now, callbacks);
    RestartEffect(served, Due(q, now), now, 0);
    RearmDeadline(served, Restart(served, Due(q, now), now), clock);
  }

  lemma RearmDeadline(before: Queue, q: Queue, clock: int)
    requires q.fd == before.fd && q.lastArm == before.lastArm
    ensures var r := Rearm(q, clock);
            && r.entries == q.entries && ArmedRight(before, r, clock)
            && if q.entries != [] && clock <= q.entries[0].time
               then r.fd == Some(NoSooner(q.entries[0].time, clock)) && r.lastArm == clock
               else r.fd == q.fd && r.lastArm == q.lastArm
  {
  }

  // Every addition among the operations arms right or not at all.
  ghost predicate OpsArmRight(q: Queue, batch: seq<Entry>, ops: seq<Op>)
    requires Inv(q) && BatchOk(q, batch)
    decreases |ops|
  {
    ops == [] ||
    (PerformInv(q, batch, ops[0]);
     var r := Perform(q, batch, ops[0]);
     && (if ops[0].Add? then ArmedRight(q, r, ops[0].clock) else !Rearmed(q, r))
     && OpsArmRight(r, batch, ops[1..]))
  }

  lemma {:induction false} OpsArm(q: Queue, batch: seq<Entry>, ops: seq<Op>)
    requires Inv(q) && BatchOk(q, batch)
    ensures OpsArmRight(q, batch, ops)
    decreases |ops|
  {
    if ops != [] {
      PerformInv(q, batch, ops[0]);
      if ops[0].Add? { AddDeadline(q, ops[0].rec, ops[0].clock); }
      OpsArm(Perform(q, batch, ops[0]), batch, ops[1..]);
    }
  }

  ghost predicate StepsArmRight(q: Queue, steps: seq<Step>)
    requires Inv(q)
    decreases |steps|
  {
    steps == [] ||
    (NextInv(q, steps[0]);
     && (match steps[0]
         case Do(op) => OpsArmRight(q, [], [op])
         case Fire => Next(q, Fire).fd == None
         case Batch(now, callbacks, clock) =>
           TakeDueInv(q, now);
           var taken := TakeDue(q, now).(calling := true, canceling := {});
           && !Rearmed(q, taken) && OpsArmRight(taken, Due(q, now), Script(Due(q, now), callbacks))
           && ArmedRight(Serve(q, now, callbacks), Next(q, steps[0]), clock))
     && StepsArmRight(Next(q, steps[0]), steps[1..]))
  }

  lemma {:induction false} StepsArm(q: Queue, steps: seq<Step>)
    requires Inv(q)
    ensures StepsArmRight(q, steps)
    decreases |steps|
  {
    if steps != [] {
      NextInv(q, steps[0]);
      match steps[0] {
        case Do(op) => OpsArm(q, [], [op]);
        case Fire =>
        case Batch(now, callbacks, clock) =>
          TakeDueInv(q, now);
          OpsArm(TakeDue(q, now).(calling := true, canceling := {}), Due(q, now), Script(Due(q, now), callbacks));
          ResetDeadline(q, now, callbacks, clock);
      }
      StepsArm(Next(q, steps[0]), steps[1..]);
    }
  }

  /** In every run, each time the descriptor is armed, it is for exactly the earliest expiry
      queued at that moment, or for 100 microseconds ahead if that is later: never sooner, so
      the loop does not spin while timers are queued. */
  lemma ArmedExactly(steps: seq<Step>)
    ensures Inv(EMPTY) && StepsArmRight(EMPTY, steps)
  {
    StepsArm(EMPTY, steps);
  }
}
