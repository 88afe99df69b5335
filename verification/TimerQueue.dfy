/** Timer and TimerQueue as the objects they are. A pointer to a timer is its sequence
    number, looked up in `store`; View is the state as TimerModel sees it, and each method is
    tied to the operation of TimerModel it performs. */
module TimerQueue {
  import opened Options
  import opened TimerModel

  const INVALID := 0

  class Timer {
    const addr: nat
    const interval: int
    const sequence: TimerId
    var expiredTime: int

    constructor (addr: nat, timeout: int, interval: int, sequence: TimerId)
      ensures this.sequence == sequence && Value() == Rec(addr, timeout, interval)
    {
      this.addr, this.expiredTime, this.interval, this.sequence := addr, timeout, interval, sequence;
    }

    predicate Repeat() { interval > 0 }

    function Value(): Rec
      reads this
    {
      Rec(addr, expiredTime, interval)
    }

    // isValid at the given time
    predicate IsValid(clock: int)
      reads this
    {
      expiredTime >= clock
    }

    /** restart: a periodic timer is valid for one more interval; any other one is valid at no
        time after the epoch. */
    method Restart(now: int)
      modifies this
      ensures forall clock | clock > 0 :: IsValid(clock) <==> Repeat() && clock - now <= interval
      ensures Value() == old(Value()).(expired := if Repeat() then now + interval else INVALID)
    {
      if Repeat() {
        expiredTime := now + interval;
      } else {
        expiredTime := INVALID;
      }
    }
  }

  class TimerQueue {
    var timers: seq<Entry>
    var activeTimers: set<TimerId>
    var cancelingTimers: set<TimerId>
    var callingExpiredTimers: bool
    var fd: Option<int>
    ghost var lastArm: int
    var store: map<TimerId, Timer>
    var created: TimerId

    ghost predicate Valid()
      reads this, store.Values
    {
      && activeTimers <= store.Keys && (forall e <- timers :: e.id in store)
      && forall id <- store :: store[id].sequence == id
    }

    ghost function View(): Queue
      reads this, store.Values
    {
      Queue(timers, activeTimers, cancelingTimers, callingExpiredTimers, Recs(), created + 1, fd, lastArm)
    }

    ghost function Recs(): map<TimerId, Rec>
      reads this`store, store.Values
    {
      map id | id in store :: store[id].Value()
    }

    constructor ()
      ensures Valid() && View() == EMPTY && store == map[]
    {
      timers, activeTimers, cancelingTimers, callingExpiredTimers := [], {}, {}, false;
      fd, lastArm, store, created := None, 0, map[], 0;
    }

    // timers_.lower_bound
    method Find(e: Entry) returns (k: nat)
      ensures k == LowerBound(timers, e)
    {
      k := 0;
      while k < |timers| && Less(timers[k], e)
        invariant k <= |timers|
        invariant LowerBound(timers, e) == k + LowerBound(timers[k..], e)
      {
        assert timers[k..][1..] == timers[k + 1..];
        k := k + 1;
      }
    }

    // TimerQueue::insert
    method Insert(id: TimerId) returns (isEarliest: bool)
      requires id in store
      modifies this`timers, this`activeTimers
      ensures View() == TimerModel.Insert(old(View()), id)
      ensures old(Valid()) ==> Valid()
      ensures isEarliest == IsEarliest(old(View()), store[id].expiredTime)
    {
      isEarliest := timers == [] || store[id].expiredTime < timers[0].time;
      var e := Entry(store[id].expiredTime, store[id].addr, id);
      var k := Find(e);
      timers := timers[..k] + [e] + timers[k..];
      activeTimers := activeTimers + {id};
    }

    /** resetTimerfd: the descriptor will fire at `when`, but no sooner than 100 microseconds
        from now, and it is never disarmed. */
    method ResetTimerfd(when: int, clock: int)
      modifies this`fd, this`lastArm
      ensures fd.Some? && fd.value >= when && fd.value >= clock + MIN_DELAY
      ensures fd.value == when || fd.value == clock + MIN_DELAY
      ensures View() == Arm(old(View()), when, clock)
    {
      DelayReachesDeadline(View(), when, clock);
      TimerfdSettime(HowMuchTimeFromNow(when, clock), clock);
    }

    // timerfd_settime with a relative time; zero disarms
    method TimerfdSettime(newValue: TimeSpec, clock: int)
      requires Proper(newValue)
      modifies this`fd, this`lastArm
      ensures fd == (if newValue == TimeSpec(0, 0) then None else Some(FiresAt(newValue, clock) / 1000))
              && lastArm == clock
    {
      fd := if newValue == TimeSpec(0, 0) then None else Some(FiresAt(newValue, clock) / 1000);
      lastArm := clock;
    }

    // addTimer and addTimerInLoop, on the loop's own thread
    method AddTimer(rec: Rec, clock: int)
      requires Valid()
      modifies this
      ensures Valid() && View() == TimerModel.AddTimer(old(View()), rec, clock)
      ensures fresh(store.Values - old(store.Values)) && old(store.Keys) <= store.Keys
    {
      var id := NewTimer(rec);
      var isEarliest := Insert(id);
      if isEarliest {
        ResetTimerfd(rec.expired, clock);
      }
    }

    // The timer addTimer creates
    method NewTimer(rec: Rec) returns (id: TimerId)
      requires Valid()
      modifies this`store, this`created
      ensures Valid() && id == old(View()).nextId && id in store
      ensures View() == old(View()).(recs := old(View()).recs[id := rec], nextId := id + 1)
      ensures fresh(store.Values - old(store.Values)) && old(store.Keys) <= store.Keys
    {
      created := created + 1;
      id := created;
      var timer := new Timer(rec.addr, rec.expired, rec.interval, id);
      store := store[id := timer];
      assert Recs() == old(Recs())[id := rec];
    }

    // timers_.erase
    method Erase(e: Entry)
      modifies this`timers
      ensures timers == EraseEntry(old(timers), e) && forall x <- timers :: x in old(timers)
    {
      var k := Find(e);
      if k < |timers| && timers[k] == e {
        timers := timers[..k] + timers[k + 1..];
      }
    }

    // TimerQueue::cancelInLoop
    method CancelInLoop(id: TimerId)
      requires Valid()
      modifies this`timers, this`activeTimers, this`cancelingTimers
      ensures Valid() && View() == CancelTimer(old(View()), id)
    {
      if id in activeTimers {
        Erase(Entry(store[id].expiredTime, store[id].addr, id));
        activeTimers := activeTimers - {id};
      } else if callingExpiredTimers {
        cancelingTimers := cancelingTimers + {id};
      }
    }

    // The operations of one callback, run while `batch` is being served
    method RunOps(ops: seq<Op>, batch: seq<Entry>)
      requires Valid()
      modifies this
      ensures Valid() && View() == PerformAll(old(View()), batch, ops)
      ensures fresh(store.Values - old(store.Values)) && old(store.Keys) <= store.Keys
    {
      for i := 0 to |ops|
        invariant Valid() && fresh(store.Values - old(store.Values)) && old(store.Keys) <= store.Keys
        invariant PerformAll(old(View()), batch, ops) == PerformAll(View(), batch, ops[i..])
      {
        assert ops[i..][1..] == ops[i + 1..];
        match ops[i]
        case Add(rec, clock) => AddTimer(rec, clock);
        case Cancel(id) =>
          if Alive(activeTimers, cancelingTimers, batch, id) {
            CancelInLoop(id);
          }
      }
    }

    // TimerQueue::getExpired
    method GetExpired(now: int) returns (expired: seq<Entry>)
      requires Valid()
      modifies this`timers, this`activeTimers
      ensures expired == Due(old(View()), now)
      ensures Valid() && View() == TakeDue(old(View()), now)
    {
      var k := Find(Entry(now, 0, 0));
      expired := timers[..k];
      timers := timers[k..];
      Deactivate(expired);
    }

    // The second loop of getExpired
    method Deactivate(expired: seq<Entry>)
      modifies this`activeTimers
      ensures activeTimers == old(activeTimers) - IdSet(expired)
    {
      for i := 0 to |expired|
        invariant activeTimers == old(activeTimers) - IdSet(expired[..i])
      {
        assert expired[..i + 1] == expired[..i] + [expired[i]];
        activeTimers := activeTimers - {expired[i].id};
      }
      assert expired[..|expired|] == expired;
    }

    // The body of the loop in TimerQueue::reset
    method RestartTimer(id: TimerId, now: int)
      requires Valid() && id in store
      modifies this`timers, this`activeTimers, store[id]
      ensures Valid() && View() == RestartOne(old(View()), id, now)
    {
      if store[id].Repeat() && id !in cancelingTimers {
        ghost var before := View();
        store[id].Restart(now);
        assert Recs() == Restarted(before, id, now);
        var _ := Insert(id);
      }
    }

    // TimerQueue::reset
    method Reset(expired: seq<Entry>, now: int, clock: int)
      requires Valid() && forall e <- expired :: e.id in store
      modifies this`timers, this`activeTimers, this`fd, this`lastArm, store.Values
      ensures Valid() && View() == Rearm(Restart(old(View()), expired, now), clock)
    {
      for i := 0 to |expired|
        invariant Valid()
        invariant Restart(old(View()), expired, now) == Restart(View(), expired[i..], now)
      {
        assert expired[i..][1..] == expired[i + 1..];
        assert expired[i] in expired;
        RestartTimer(expired[i].id, now);
      }
      if timers != [] && timers[0].time >= clock {
        ResetTimerfd(timers[0].time, clock);
      }
    }

    // The loop of handleRead: `callbacks` says what the callback of each timer does with the
    // queue.
    method RunExpired(expired: seq<Entry>, callbacks: map<TimerId, seq<Op>>)
      requires Valid()
      modifies this
      ensures Valid() && View() == RunBatch(old(View()), expired, expired, callbacks)
      ensures fresh(store.Values - old(store.Values)) && old(store.Keys) <= store.Keys
    {
      for i := 0 to |expired|
        invariant Valid() && fresh(store.Values - old(store.Values)) && old(store.Keys) <= store.Keys
        invariant RunBatch(old(View()), expired, expired, callbacks)
            == RunBatch(View(), expired, expired[i..], callbacks)
      {
        assert expired[i..][1..] == expired[i + 1..];
        RunOps(OpsOf(callbacks, expired[i].id), expired);
      }
    }

    // handleRead up to the last callback
    method ServeExpired(now: int, callbacks: map<TimerId, seq<Op>>) returns (expired: seq<Entry>)
      requires Valid()
      modifies this
      ensures Valid() && View() == Serve(old(View()), now, callbacks) && expired == Due(old(View()), now)
      ensures fresh(store.Values - old(store.Values)) && old(store.Keys) <= store.Keys
    {
      expired := GetExpired(now);
      BeginCalling();
      RunBatchIsScript(View(), expired, expired, callbacks);
      RunExpired(expired, callbacks);
      EndCalling();
    }

    method BeginCalling()
      requires Valid()
      modifies this`callingExpiredTimers, this`cancelingTimers
      ensures Valid() && View() == old(View()).(calling := true, canceling := {})
    {
      callingExpiredTimers := true;
      cancelingTimers := {};
    }

    method EndCalling()
      requires Valid()
      modifies this`callingExpiredTimers
      ensures Valid() && View() == old(View()).(calling := false)
    {
      callingExpiredTimers := false;
    }

    /** handleRead; `clock` is the time when reset looks at the earliest timer. */
    method HandleRead(now: int, callbacks: map<TimerId, seq<Op>>, clock: int)
      requires Valid()
      modifies this, store.Values
      ensures Valid() && View() == TimerModel.HandleRead(old(View()), now, callbacks, clock)
      ensures fresh(store.Values - old(store.Values))
    {
      var expired := ServeExpired(now, callbacks);
      assert forall e <- expired :: e.id in store;
      Reset(expired, now, clock);
    }
  }
}
