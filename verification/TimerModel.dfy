/** The state of a TimerQueue as a value, and what each of its operations does to it.

    A timer is named by its sequence number. timers_ is an ordered set of pairs of expiry
    and pointer; pointers are compared by address, and live timers have different
    addresses. Ties left over are broken by sequence number, so no hypothesis on addresses
    is needed. */
module TimerModel {
  import opened Options

  type TimerId = nat

  datatype Rec = Rec(addr: nat, expired: int, interval: int)
  {
    predicate Repeat() { interval > 0 }
  }

  datatype Entry = Entry(time: int, addr: nat, id: TimerId)

  predicate Less(a: Entry, b: Entry) {
    || a.time < b.time
    || (a.time == b.time && (a.addr < b.addr || (a.addr == b.addr && a.id < b.id)))
  }

  /** `fd` is the deadline timerfd_ is armed for and `lastArm` the clock when it was armed;
      `nextId` is the number the next timer gets. */
  datatype Queue = Queue(entries: seq<Entry>, active: set<TimerId>, canceling: set<TimerId>, calling: bool,
                         recs: map<TimerId, Rec>, nextId: TimerId, fd: Option<int>, lastArm: int)

  // What a callback, or anybody else on the loop's thread, may do with the queue.
  datatype Op =
    | Add(rec: Rec, clock: int)
    | Cancel(id: TimerId)

  function EntryOf(recs: map<TimerId, Rec>, id: TimerId): Entry
    requires id in recs
  {
    Entry(recs[id].expired, recs[id].addr, id)
  }

  // std::set::lower_bound
  function LowerBound(s: seq<Entry>, e: Entry): (k: nat)
    ensures k <= |s| && (forall i | 0 <= i < k :: Less(s[i], e)) && (k < |s| ==> !Less(s[k], e))
  {
    if s == [] || !Less(s[0], e) then 0 else 1 + LowerBound(s[1..], e)
  }

  function InsertEntry(s: seq<Entry>, e: Entry): seq<Entry> {
    var k := LowerBound(s, e);
    s[..k] + [e] + s[k..]
  }

  function EraseEntry(s: seq<Entry>, e: Entry): seq<Entry> {
    var k := LowerBound(s, e);
    if k < |s| && s[k] == e then s[..k] + s[k + 1..] else s
  }

  const MIN_DELAY := 100 // microseconds

  // resetTimerfd: the deadline is `when`, but at least 100 microseconds away
  function Arm(q: Queue, when: int, clock: int): Queue {
    q.(fd := Some(if when - clock < MIN_DELAY then clock + MIN_DELAY else when), lastArm := clock)
  }

  datatype TimeSpec = TimeSpec(sec: int, nsec: int)

  const MICROS_PER_SECOND := 1_000_000

  // howMuchTimeFromNow
  function HowMuchTimeFromNow(when: int, clock: int): TimeSpec {
    var micros := if when - clock < MIN_DELAY then MIN_DELAY else when - clock;
    TimeSpec(micros / MICROS_PER_SECOND, (micros % MICROS_PER_SECOND) * 1000)
  }

  // The time, in nanoseconds, at which timerfd_settime at `clock` makes the descriptor fire
  function FiresAt(ts: TimeSpec, clock: int): int {
    clock * 1000 + ts.sec * 1_000_000_000 + ts.nsec
  }

  predicate Proper(ts: TimeSpec) {
    0 <= ts.sec && 0 <= ts.nsec < 1_000_000_000
  }

  /** The delay handed to timerfd_settime is a proper, non-zero timespec (a zero one would
      disarm the timer) and ends at the deadline Arm records. */
  lemma DelayReachesDeadline(q: Queue, when: int, clock: int)
    ensures var ts := HowMuchTimeFromNow(when, clock);
            && Proper(ts) && ts != TimeSpec(0, 0)
            && FiresAt(ts, clock) == Arm(q, when, clock).fd.value * 1000
  {
  }

  // TimerQueue::insert
  function Insert(q: Queue, id: TimerId): Queue
    requires id in q.recs
  {
    q.(entries := InsertEntry(q.entries, EntryOf(q.recs, id)), active := q.active + {id})
  }

  predicate IsEarliest(q: Queue, time: int) {
    q.entries == [] || time < q.entries[0].time
  }

  // TimerQueue::addTimerInLoop, with the timer that addTimer created
  function AddTimer(q: Queue, rec: Rec, clock: int): Queue {
    var id := q.nextId;
    var q' := Insert(q.(recs := q.recs[id := rec], nextId := id + 1), id);
    if IsEarliest(q, rec.expired) then Arm(q', rec.expired, clock) else q'
  }

  // TimerQueue::cancelInLoop
  function CancelTimer(q: Queue, id: TimerId): Queue
    requires id in q.active ==> id in q.recs
  {
    if id in q.active
    then q.(entries := EraseEntry(q.entries, EntryOf(q.recs, id)), active := q.active - {id})
    else if q.calling then q.(canceling := q.canceling + {id})
    else q
  }

  // Whether a TimerId can still be turned into a timer: the queue, the batch being served
  // or cancelingTimers_ holds it.
  predicate Alive(active: set<TimerId>, canceling: set<TimerId>, batch: seq<Entry>, id: TimerId) {
    id in active || id in canceling || exists e <- batch :: e.id == id
  }

  function Perform(q: Queue, batch: seq<Entry>, op: Op): Queue
    requires q.active <= q.recs.Keys
  {
    match op
    case Add(rec, clock) => AddTimer(q, rec, clock)
    case Cancel(id) => if Alive(q.active, q.canceling, batch, id) then CancelTimer(q, id) else q
  }

  function PerformAll(q: Queue, batch: seq<Entry>, ops: seq<Op>): (r: Queue)
    requires q.active <= q.recs.Keys
    ensures r.active <= r.recs.Keys && q.recs.Keys <= r.recs.Keys
    decreases |ops|
  {
    if ops == [] then q
    else
      var q' := Perform(q, batch, ops[0]);
      PerformAll(q', batch, ops[1..])
  }

  // getExpired looks for the first entry not below the pair of `now` and a null pointer.
  function DueCount(q: Queue, now: int): nat {
    LowerBound(q.entries, Entry(now, 0, 0))
  }

  function Due(q: Queue, now: int): seq<Entry> {
    q.entries[..DueCount(q, now)]
  }

  // TimerQueue::getExpired
  function TakeDue(q: Queue, now: int): Queue {
    q.(entries := q.entries[DueCount(q, now)..], active := q.active - IdSet(Due(q, now)))
  }

  function IdSet(s: seq<Entry>): set<TimerId> {
    set e | e in s :: e.id
  }

  // What the callbacks of a batch do, one after the other.
  function OpsOf(callbacks: map<TimerId, seq<Op>>, id: TimerId): seq<Op> {
    if id in callbacks then callbacks[id] else []
  }

  function Script(due: seq<Entry>, callbacks: map<TimerId, seq<Op>>): seq<Op> {
    if due == [] then []
    else OpsOf(callbacks, due[0].id) + Script(due[1..], callbacks)
  }

  // The loop of TimerQueue::reset
  function Restart(q: Queue, due: seq<Entry>, now: int): Queue
    requires forall e <- due :: e.id in q.recs
    decreases |due|
  {
    if due == [] then q
    else
      Restart(RestartOne(q, due[0].id, now), due[1..], now)
  }

  function RestartOne(q: Queue, id: TimerId, now: int): (q': Queue)
    requires id in q.recs
    ensures q'.recs.Keys == q.recs.Keys
  {
    if q.recs[id].Repeat() && id !in q.canceling
    then Insert(q.(recs := Restarted(q, id, now)), id)
    else q
  }

  // Timer::restart of a periodic timer
  function Restarted(q: Queue, id: TimerId, now: int): map<TimerId, Rec>
    requires id in q.recs
  {
    q.recs[id := q.recs[id].(expired := now + q.recs[id].interval)]
  }

  // The rest of TimerQueue::reset
  function Rearm(q: Queue, clock: int): Queue {
    if q.entries != [] && q.entries[0].time >= clock then Arm(q, q.entries[0].time, clock) else q
  }

  // From reading the timer descriptor to the last callback of the batch.
  function Serve(q: Queue, now: int, callbacks: map<TimerId, seq<Op>>): Queue
    requires q.active <= q.recs.Keys
  {
    var due := Due(q, now);
    PerformAll(TakeDue(q, now).(calling := true, canceling := {}), due, Script(due, callbacks)).(calling := false)
  }

  /** TimerQueue::handleRead, serving everything due at `now`; `clock` is the time reset
      sees at the end. */
  function HandleRead(q: Queue, now: int, callbacks: map<TimerId, seq<Op>>, clock: int): Queue
    requires q.active <= q.recs.Keys && forall e <- q.entries :: e.id in q.recs
  {
    Rearm(Restart(Serve(q, now, callbacks), Due(q, now), now), clock)
  }

  // ---------- the invariant ----------

  ghost predicate Sorted(s: seq<Entry>) {
    forall i, j | 0 <= i < j < |s| :: Less(s[i], s[j])
  }

  /** timers_ and activeTimers_ hold the same timers, each under its current expiry. */
  ghost predicate Inv(q: Queue) {
    && Sorted(q.entries)
    && (forall e <- q.entries :: e.id in q.active && e.id in q.recs && e == EntryOf(q.recs, e.id))
    && (forall id <- q.active :: id in q.recs && EntryOf(q.recs, id) in q.entries)
    && (forall id <- q.recs :: id < q.nextId)
    && (forall id <- q.canceling :: id in q.recs && id !in q.active)
  }

  const EMPTY := Queue([], {}, {}, false, map[], 1, None, 0)

  lemma InsertSorted(s: seq<Entry>, e: Entry)
    requires Sorted(s) && e !in s
    ensures Sorted(InsertEntry(s, e))
    ensures forall x :: x in InsertEntry(s, e) <==> x == e || x in s
    ensures var s' := InsertEntry(s, e); s'[0] == if s == [] || Less(e, s[0]) then e else s[0]
  {
    var k := LowerBound(s, e);
    var s' := InsertEntry(s, e);
    assert forall i | k <= i < |s| :: Less(e, s[i]) by {
      forall i | k <= i < |s| ensures Less(e, s[i]) {
        assert s[i] in s;
        assert i > k ==> Less(s[k], s[i]);
      }
    }
    forall i, j | 0 <= i < j < |s'| ensures Less(s'[i], s'[j]) {
      assert s'[i] == if i < k then s[i] else if i == k then e else s[i - 1];
      assert s'[j] == if j < k then s[j] else if j == k then e else s[j - 1];
    }
    forall x ensures x in s' <==> x == e || x in s {
      if x in s {
        assert x in s[..k] || x in s[k..];
      }
    }
  }

  lemma EraseSorted(s: seq<Entry>, e: Entry)
    requires Sorted(s) && e in s
    ensures var s' := EraseEntry(s, e); Sorted(s') && |s'| == |s| - 1
    ensures forall x :: x in EraseEntry(s, e) <==> x != e && x in s
    ensures var s' := EraseEntry(s, e); s' != [] ==> s'[0] == s[0] || (s[0] == e && Less(s[0], s'[0]))
  {
    var k := LowerBound(s, e);
    var m :| 0 <= m < |s| && s[m] == e;
    assert m == k;
    var s' := EraseEntry(s, e);
    forall i, j | 0 <= i < j < |s'| ensures Less(s'[i], s'[j]) {
      assert s'[i] == if i < k then s[i] else s[i + 1];
      assert s'[j] == if j < k then s[j] else s[j + 1];
    }
    forall x ensures x in s' <==> x != e && x in s {
      if x in s && x != e {
        assert x in s[..k] || x in s[k + 1..];
      }
    }
  }

  // ---------- every operation keeps the invariant ----------

  // The timers of a batch are known, but no longer active.
  ghost predicate BatchOk(q: Queue, batch: seq<Entry>) {
    forall e <- batch :: e.id in q.recs && e.id !in q.active
  }

  lemma InsertInv(q: Queue, recs: map<TimerId, Rec>, id: TimerId)
    requires Inv(q) && id !in q.active && id !in q.canceling && id < q.nextId
    requires id in recs && recs == q.recs[id := recs[id]]
    ensures Inv(Insert(q.(recs := recs), id))
  {
    var e := EntryOf(recs, id);
    assert e !in q.entries;
    InsertSorted(q.entries, e);
    forall i <- q.active ensures EntryOf(recs, i) == EntryOf(q.recs, i) {}
  }

  lemma AddInv(q: Queue, rec: Rec, clock: int)
    requires Inv(q)
    ensures Inv(AddTimer(q, rec, clock))
  {
    InsertInv(q.(nextId := q.nextId + 1), q.recs[q.nextId := rec], q.nextId);
  }

  lemma CancelInv(q: Queue, id: TimerId)
    requires Inv(q) && id in q.recs
    ensures Inv(CancelTimer(q, id))
  {
    if id in q.active {
      EraseSorted(q.entries, EntryOf(q.recs, id));
    }
  }

  lemma PerformInv(q: Queue, batch: seq<Entry>, op: Op)
    requires Inv(q) && BatchOk(q, batch)
    ensures Inv(Perform(q, batch, op)) && BatchOk(Perform(q, batch, op), batch)
  {
    match op
    case Add(rec, clock) => AddInv(q, rec, clock);
    case Cancel(id) => if Alive(q.active, q.canceling, batch, id) { CancelInv(q, id); }
  }

  lemma {:induction false} PerformAllInv(q: Queue, batch: seq<Entry>, ops: seq<Op>)
    requires Inv(q) && BatchOk(q, batch)
    ensures Inv(PerformAll(q, batch, ops)) && BatchOk(PerformAll(q, batch, ops), batch)
    decreases |ops|
  {
    if ops != [] {
      PerformInv(q, batch, ops[0]);
      PerformAllInv(Perform(q, batch, ops[0]), batch, ops[1..]);
    }
  }

  lemma SortedSplit(s: seq<Entry>, k: nat)
    requires Sorted(s) && k <= |s|
    ensures Sorted(s[..k]) && Sorted(s[k..])
    ensures forall a <- s[..k], b <- s[k..] :: Less(a, b)
    ensures forall e :: e in s <==> e in s[..k] || e in s[k..]
  {
    assert s == s[..k] + s[k..];
    forall a <- s[..k], b <- s[k..] ensures Less(a, b) {
      var i :| 0 <= i < k && s[i] == a;
      var j :| k <= j < |s| && s[j] == b;
    }
  }

  /** getExpired takes exactly the timers that expired before `now`, in order. */
  lemma DueExactly(q: Queue, now: int)
    requires Inv(q)
    ensures forall e <- q.entries :: e in Due(q, now) <==> e.time < now
    ensures Sorted(Due(q, now))
    ensures DistinctIds(Due(q, now))
    ensures forall e <- Due(q, now) :: e.id in q.active && e.id in q.recs && e == EntryOf(q.recs, e.id)
  {
    var k := DueCount(q, now);
    var due := Due(q, now);
    SortedSplit(q.entries, k);
    forall e <- q.entries[k..] ensures e.time >= now && e !in due {
      var i :| k <= i < |q.entries| && q.entries[i] == e;
      assert i > k ==> Less(q.entries[k], e);
      assert forall d <- due :: Less(d, e);
    }
    forall i, j | 0 <= i < j < |due| ensures due[i].id != due[j].id {
      assert due[i] in q.entries && due[j] in q.entries;
      assert Less(due[i], due[j]);
    }
  }

  lemma TakeDueInv(q: Queue, now: int)
    requires Inv(q)
    ensures Inv(TakeDue(q, now)) && BatchOk(TakeDue(q, now), Due(q, now))
  {
    DueExactly(q, now);
    SortedSplit(q.entries, DueCount(q, now));
    var due, q' := Due(q, now), TakeDue(q, now);
    forall e <- q'.entries ensures e.id !in IdSet(due) {
      assert forall d <- due :: Less(d, e);
    }
    forall id <- q'.active ensures EntryOf(q.recs, id) in q'.entries {
      assert EntryOf(q.recs, id) !in due;
    }
  }

  ghost predicate DistinctIds(s: seq<Entry>) {
    forall i, j | 0 <= i < j < |s| :: s[i].id != s[j].id
  }

  lemma RestartOneInv(q: Queue, id: TimerId, now: int)
    requires Inv(q) && id in q.recs && id !in q.active
    ensures Inv(RestartOne(q, id, now))
  {
    if q.recs[id].Repeat() && id !in q.canceling {
      InsertInv(q, Restarted(q, id, now), id);
    }
  }

  lemma RestartOneBatch(q: Queue, due: seq<Entry>, now: int)
    requires BatchOk(q, due) && due != [] && DistinctIds(due)
    requires due[0].id in q.recs
    ensures BatchOk(RestartOne(q, due[0].id, now), due[1..])
  {
    forall e <- due[1..] ensures e in due && e.id != due[0].id {
      var i :| 1 <= i < |due| && due[i] == e;
    }
  }

  lemma {:induction false} RestartInv(q: Queue, due: seq<Entry>, now: int)
    requires Inv(q) && BatchOk(q, due) && DistinctIds(due)
    ensures Inv(Restart(q, due, now))
    decreases |due|
  {
    if due != [] {
      assert due[0] in due;
      RestartOneInv(q, due[0].id, now);
      RestartOneBatch(q, due, now);
      RestartInv(RestartOne(q, due[0].id, now), due[1..], now);
    }
  }

  // The batch loop of handleRead: one callback after the other.
  function RunBatch(q: Queue, batch: seq<Entry>, due: seq<Entry>, callbacks: map<TimerId, seq<Op>>): Queue
    requires q.active <= q.recs.Keys
    decreases |due|
  {
    if due == [] then q
    else RunBatch(PerformAll(q, batch, OpsOf(callbacks, due[0].id)), batch, due[1..], callbacks)
  }

  lemma {:induction false} RunBatchIsScript(q: Queue, batch: seq<Entry>, due: seq<Entry>, callbacks: map<TimerId,
      seq<Op>>)
    requires q.active <= q.recs.Keys
    ensures RunBatch(q, batch, due, callbacks) == PerformAll(q, batch, Script(due, callbacks))
    decreases |due|
  {
    if due != [] {
      var ops := OpsOf(callbacks, due[0].id);
      RunBatchIsScript(PerformAll(q, batch, ops), batch, due[1..], callbacks);
      PerformAllAppend(q, batch, ops, Script(due[1..], callbacks));
    }
  }

  lemma {:induction false} PerformAllAppend(q: Queue, batch: seq<Entry>, ops: seq<Op>, more: seq<Op>)
    requires q.active <= q.recs.Keys
    ensures PerformAll(q, batch, ops + more) == PerformAll(PerformAll(q, batch, ops), batch, more)
    decreases |ops|
  {
    if ops == [] {
      assert ops + more == more;
    } else {
      assert (ops + more)[1..] == ops[1..] + more;
      PerformAllAppend(Perform(q, batch, ops[0]), batch, ops[1..], more);
    }
  }

  lemma ServeInv(q: Queue, now: int, callbacks: map<TimerId, seq<Op>>)
    requires Inv(q)
    ensures Inv(Serve(q, now, callbacks)) && BatchOk(Serve(q, now, callbacks), Due(q, now))
  {
    var due := Due(q, now);
    TakeDueInv(q, now);
    PerformAllInv(TakeDue(q, now).(calling := true, canceling := {}), due, Script(due, callbacks));
  }

  lemma HandleReadInv(q: Queue, now: int, callbacks: map<TimerId, seq<Op>>, clock: int)
    requires Inv(q)
    ensures Inv(HandleRead(q, now, callbacks, clock))
  {
    ServeInv(q, now, callbacks);
    DueExactly(q, now);
    RestartInv(Serve(q, now, callbacks), Due(q, now), now);
  }

  // ---------- the two sets have the same size ----------

  lemma {:induction false} IdSetSize(s: seq<Entry>)
    requires DistinctIds(s)
    ensures |IdSet(s)| == |s|
  {
    if s != [] {
      var front, last := s[..|s| - 1], s[|s| - 1];
      IdSetSize(front);
      assert s == front + [last];
      assert IdSet(s) == IdSet(front) + {last.id};
    }
  }

  /** timers_.size() == activeTimers_.size(), which every operation asserts. */
  lemma SizesAgree(q: Queue)
    requires Inv(q)
    ensures |q.entries| == |q.active|
  {
    forall i, j | 0 <= i < j < |q.entries| ensures q.entries[i].id != q.entries[j].id {
      assert Less(q.entries[i], q.entries[j]);
      assert q.entries[i] in q.entries && q.entries[j] in q.entries;
    }
    IdSetSize(q.entries);
    assert IdSet(q.entries) == q.active by {
      forall id <- q.active ensures id in IdSet(q.entries) {
        assert EntryOf(q.recs, id) in q.entries;
      }
    }
  }

  /** What insert and cancelInLoop assert about the containers: a timer that is put back is
      in neither set, and erasing an active one removes exactly one pair. */
  lemma ContainerAsserts(q: Queue, id: TimerId)
    requires Inv(q) && id in q.recs
    ensures if id in q.active then |EraseEntry(q.entries, EntryOf(q.recs, id))| == |q.entries| - 1
            else EntryOf(q.recs, id) !in q.entries && |InsertEntry(q.entries, EntryOf(q.recs, id))| == |q.entries| + 1
  {
    if id in q.active {
      EraseSorted(q.entries, EntryOf(q.recs, id));
    }
  }
}
