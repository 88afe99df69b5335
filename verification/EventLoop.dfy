/** EventLoop as a protocol between the loop's own thread and any number of other threads:
    the locked queue of functors, the eventfd that ends a poll, and the quit flag. A step is
    what one thread does between two points where others may get in. */
module EventLoop {
  type Functor = nat
  type ThreadId = nat

  // Where the loop's thread is.
  datatype Pc =
    | Outside  // loop() is not running
    | Check    // about to test quit_
    | Polling  // in epoll_wait
    | Events   // handling active channels
    | Swapping // in doPendingFunctors, before the swap
    | Running  // running the swapped batch

  /** `pushed` holds the other threads between their push and their wakeup, `quitting` those
      between setting quit_ and their wakeup; `owes` says the same of the loop's own thread
      inside a functor. `early` records that the loop's thread has queued something outside
      loop() that no swap has taken since. `history` is everything ever pushed. */
  datatype State = State(pc: Pc, quit: bool, calling: bool, counter: nat,
                         pending: seq<Functor>, batch: seq<Functor>,
                         pushed: set<ThreadId>, quitting: set<ThreadId>, owes: bool, early: bool,
                         history: seq<Functor>, executed: seq<Functor>)

  datatype Step =
    | OtherPush(t: ThreadId, f: Functor)
    | OtherWakeup(t: ThreadId)
    | OtherQuit(t: ThreadId)
    | OtherQuitWakeup(t: ThreadId)
    | Start
    | TestQuit
    | PollReturns
    | ReadWakeup
    | OwnPush(f: Functor)
    | OwnWakeup
    | OwnQuit
    | EventsDone
    | Swap
    | RunNext
    | BatchDone

  const MAX_COUNTER := 0xffff_ffff_ffff_fffe

  const INIT := State(Outside, false, false, 0, [], [], {}, {}, false, false, [], [])

  // Writing 1 to a non-blocking eventfd: at the maximum the write fails and changes nothing.
  function Wakeup(s: State): State {
    if s.counter < MAX_COUNTER then s.(counter := s.counter + 1) else s
  }

  function Push(s: State, f: Functor): State {
    s.(pending := s.pending + [f], history := s.history + [f])
  }

  predicate Enabled(s: State, step: Step) {
    match step
    case OtherPush(t, _) => t !in s.pushed && t !in s.quitting
    case OtherWakeup(t) => t in s.pushed
    case OtherQuit(t) => t !in s.pushed && t !in s.quitting
    case OtherQuitWakeup(t) => t in s.quitting
    case Start => s.pc == Outside
    case TestQuit => s.pc == Check
    case PollReturns => s.pc == Polling
    case ReadWakeup => s.pc == Events
    case OwnPush(_) => !s.owes && (s.pc == Outside || s.pc == Events || s.pc == Running)
    case OwnWakeup => s.owes
    case OwnQuit => !s.owes && (s.pc == Outside || s.pc == Events || s.pc == Running)
    case EventsDone => s.pc == Events
    case Swap => s.pc == Swapping
    case RunNext => s.pc == Running && !s.owes && s.batch != []
    case BatchDone => s.pc == Running && !s.owes && s.batch == []
  }

  function Apply(s: State, step: Step): State
    requires Enabled(s, step)
  {
    match step
    case OtherPush(t, f) => Push(s, f).(pushed := s.pushed + {t})
    case OtherWakeup(t) => Wakeup(s).(pushed := s.pushed - {t})
    case OtherQuit(t) => s.(quit := true, quitting := s.quitting + {t})
    case OtherQuitWakeup(t) => Wakeup(s).(quitting := s.quitting - {t})
    case Start => s.(pc := Check, quit := false)
    case TestQuit => s.(pc := if s.quit then Outside else Polling)
    case PollReturns => s.(pc := Events)
    case ReadWakeup => s.(counter := 0)
    case OwnPush(f) => Push(s, f).(owes := s.calling, early := s.early || s.pc == Outside)
    case OwnWakeup => Wakeup(s).(owes := false)
    case OwnQuit => s.(quit := true)
    case EventsDone => s.(pc := Swapping, calling := true)
    case Swap => s.(pc := Running, batch := s.pending, pending := [], early := false)
    case RunNext => s.(executed := s.executed + [s.batch[0]], batch := s.batch[1..])
    case BatchDone => s.(pc := Check, calling := false)
  }

  ghost predicate ValidRun(s: State, steps: seq<Step>)
    decreases |steps|
  {
    steps == [] || (Enabled(s, steps[0]) && ValidRun(Apply(s, steps[0]), steps[1..]))
  }

  ghost function Run(s: State, steps: seq<Step>): State
    requires ValidRun(s, steps)
    decreases |steps|
  {
    if steps == [] then s else Run(Apply(s, steps[0]), steps[1..])
  }

  // The functors: run, then the rest of the batch, then the queue
  ghost predicate InOrder(s: State) {
    && s.history == s.executed + s.batch + s.pending
    && (s.batch != [] ==> s.pc == Running)
  }

  predicate Phased(s: State) {
    && (s.calling <==> s.pc == Swapping || s.pc == Running)
    && (s.owes ==> s.pc == Running)
  }

  // Nothing queued is forgotten.
  predicate Remembered(s: State) {
    && (s.pending != [] ==>
          || s.counter > 0 || s.pushed != {} || s.owes || s.early
          || s.pc == Events || s.pc == Swapping)
    && (s.early ==> s.pending != [])
  }

  // Nor is a request to quit that came while loop() was running.
  predicate QuitSeen(s: State) {
    s.quit && s.pc == Polling ==> s.counter > 0 || s.quitting != {}
  }

  ghost predicate Inv(s: State) {
    InOrder(s) && Phased(s) && Remembered(s) && QuitSeen(s)
  }

  lemma InOrderStep(s: State, step: Step)
    requires InOrder(s) && Enabled(s, step)
    ensures InOrder(Apply(s, step))
  {
    match step
    case OtherPush(_, f) => PushInOrder(s, f);
    case OwnPush(f) => PushInOrder(s, f);
    case Swap => assert s.executed + s.batch + s.pending == s.executed + s.pending + [];
    case RunNext => RunNextInOrder(s);
    case _ =>
  }

  lemma PushInOrder(s: State, f: Functor)
    requires s.history == s.executed + s.batch + s.pending
    ensures Push(s, f).history == s.executed + s.batch + (s.pending + [f])
  {
  }

  lemma RunNextInOrder(s: State)
    requires InOrder(s) && s.batch != []
    ensures s.history == (s.executed + [s.batch[0]]) + s.batch[1..] + s.pending
  {
    assert s.batch == [s.batch[0]] + s.batch[1..];
  }

  lemma PhasedStep(s: State, step: Step)
    requires Phased(s) && Enabled(s, step)
    ensures Phased(Apply(s, step))
  {
  }

  lemma RememberedStep(s: State, step: Step)
    requires Phased(s) && Remembered(s) && Enabled(s, step)
    ensures Remembered(Apply(s, step))
  {
    var s' := Apply(s, step);
    match step
    case OtherPush(t, _) => assert t in s'.pushed;
    case _ =>
  }

  lemma QuitSeenStep(s: State, step: Step)
    requires QuitSeen(s) && Enabled(s, step)
    ensures QuitSeen(Apply(s, step))
  {
    var s' := Apply(s, step);
    match step
    case OtherQuit(t) => assert t in s'.quitting;
    case _ =>
  }

  lemma StepInv(s: State, step: Step)
    requires Inv(s) && Enabled(s, step)
    ensures Inv(Apply(s, step))
  {
    InOrderStep(s, step);
    PhasedStep(s, step);
    RememberedStep(s, step);
    QuitSeenStep(s, step);
  }

  lemma {:induction false} RunInv(s: State, steps: seq<Step>)
    requires Inv(s) && ValidRun(s, steps)
    ensures Inv(Run(s, steps))
    decreases |steps|
  {
    if steps != [] {
      StepInv(s, steps[0]);
      RunInv(Apply(s, steps[0]), steps[1..]);
    }
  }

  /** Every functor runs at most once and in the order of the pushes: what has run, then the
      rest of the current batch, then the queue is always everything pushed. */
  lemma {:induction false} FirstInFirstOut(steps: seq<Step>)
    requires ValidRun(INIT, steps)
    ensures var s := Run(INIT, steps); s.history == s.executed + s.batch + s.pending
  {
    RunInv(INIT, steps);
  }

  // The loop sleeps in epoll_wait with nothing to end the sleep but its timeout.
  predicate Asleep(s: State) {
    s.pc == Polling && s.counter == 0
  }

  /** No lost wakeup: the loop sleeps on functors whose enqueuers have finished exactly if its
      own thread queued some outside loop() and no swap has come since; and it does not sleep
      through a request to quit that was made while it was running. */
  lemma {:induction false} NoLostWakeup(steps: seq<Step>)
    requires ValidRun(INIT, steps)
    ensures var s := Run(INIT, steps);
            && (Asleep(s) && s.pushed == {} ==> (s.pending != [] <==> s.early))
            && (Asleep(s) && s.quitting == {} ==> !s.quit)
  {
    RunInv(INIT, steps);
  }

  predicate Wakes(step: Step) {
    step.OtherWakeup? || step.OtherQuitWakeup? || step.OwnWakeup?
  }

  // The writes to the eventfd since it was last read
  function Wakeups(steps: seq<Step>): nat {
    if steps == [] then 0
    else
      var last := steps[|steps| - 1];
      if last.ReadWakeup? then 0 else Wakeups(steps[..|steps| - 1]) + if Wakes(last) then 1 else 0
  }

  lemma {:induction false} RunLast(s: State, steps: seq<Step>)
    requires steps != [] && ValidRun(s, steps)
    ensures var front, last := steps[..|steps| - 1], steps[|steps| - 1];
            ValidRun(s, front) && Enabled(Run(s, front), last) && Run(s, steps) == Apply(Run(s, front), last)
    decreases |steps|
  {
    var front := steps[..|steps| - 1];
    if front != [] {
      RunLast(Apply(s, steps[0]), steps[1..]);
      assert front[1..] == steps[1..][..|steps| - 2];
    }
  }

  /** The eventfd counts the wakeups since the last read, up to its maximum: one read ends them
      all, so a poll returns at once exactly if a wakeup has come since. */
  lemma {:induction false} CounterExactly(steps: seq<Step>)
    requires ValidRun(INIT, steps)
    ensures var s, n := Run(INIT, steps), Wakeups(steps);
            && s.counter == (if n <= 0xffff_ffff_ffff_fffe then n else 0xffff_ffff_ffff_fffe)
            && (s.pc == Polling ==> (Asleep(s) <==> n == 0))
    decreases |steps|
  {
    if steps != [] {
      RunLast(INIT, steps);
      CounterExactly(steps[..|steps| - 1]);
    }
  }

  predicate OwnPushOutside(s: State, step: Step) {
    step.OwnPush? && s.pc == Outside
  }

  ghost predicate PushesOnlyInside(s: State, steps: seq<Step>)
    requires ValidRun(s, steps)
    decreases |steps|
  {
    steps == [] || (!OwnPushOutside(s, steps[0]) && PushesOnlyInside(Apply(s, steps[0]), steps[1..]))
  }

  lemma {:induction false} NeverEarly(s: State, steps: seq<Step>)
    requires ValidRun(s, steps) && PushesOnlyInside(s, steps) && !s.early
    ensures !Run(s, steps).early
    decreases |steps|
  {
    if steps != [] {
      NeverEarly(Apply(s, steps[0]), steps[1..]);
    }
  }

  /** When the loop's thread queues only from event callbacks and functors, the loop never
      sleeps while a finished enqueue is waiting. */
  lemma {:induction false} NeverSleepsOnWork(steps: seq<Step>)
    requires ValidRun(INIT, steps) && PushesOnlyInside(INIT, steps)
    ensures var s := Run(INIT, steps); Asleep(s) && s.pushed == {} ==> s.pending == []
  {
    NeverEarly(INIT, steps);
    NoLostWakeup(steps);
  }

  /** The exception is real: what the loop's thread queues before loop() is still there, and
      nothing wakes the loop, when it goes to sleep. */
  lemma EarlyPushSleeps(f: Functor)
    ensures var steps := [OwnPush(f), Start, TestQuit];
            ValidRun(INIT, steps) && Asleep(Run(INIT, steps)) && Run(INIT, steps).pending == [f]
  {
    var s1 := Apply(INIT, OwnPush(f));
    var s2 := Apply(s1, Start);
    var s3 := Apply(s2, TestQuit);
    var steps := [OwnPush(f), Start, TestQuit];
    assert steps[1..] == [Start, TestQuit] && steps[1..][1..] == [TestQuit] && steps[1..][1..][1..] == [];
    assert ValidRun(s3, []) && Run(s3, []) == s3;
    assert ValidRun(s2, [TestQuit]) && Run(s2, [TestQuit]) == s3;
    assert ValidRun(s1, [Start, TestQuit]) && Run(s1, [Start, TestQuit]) == s3;
  }

  predicate AsksToQuit(step: Step) {
    step.OtherQuit? || step.OwnQuit?
  }

  // The flag is not tested, and nobody asks to quit.
  predicate Unasked(steps: seq<Step>) {
    TestQuit !in steps && forall x <- steps :: !AsksToQuit(x)
  }

  // The next time loop() tests the flag it returns, if nobody asks again.
  ghost predicate Honoured(s: State) {
    forall steps | ValidRun(s, steps) && Unasked(steps) && Run(s, steps).pc == Check ::
      Run(s, steps).quit
  }

  lemma {:induction false} QuitWaits(s: State, steps: seq<Step>)
    requires ValidRun(s, steps) && s.quit && s.pc != Outside && TestQuit !in steps
    ensures Run(s, steps).quit && Run(s, steps).pc != Outside
    decreases |steps|
  {
    if steps != [] {
      assert steps[0] in steps;
      QuitWaits(Apply(s, steps[0]), steps[1..]);
    }
  }

  /** A request to quit is honoured by the next test of the flag exactly if it is made while
      loop() is running. */
  lemma QuitHonouredExactly(s: State, step: Step)
    requires Enabled(s, step) && AsksToQuit(step)
    ensures Honoured(Apply(s, step)) <==> s.pc != Outside
  {
    var s1 := Apply(s, step);
    if s.pc != Outside {
      forall steps | ValidRun(s1, steps) && Unasked(steps) && Run(s1, steps).pc == Check
        ensures Run(s1, steps).quit
      {
        QuitWaits(s1, steps);
      }
    } else {
      assert [Start][1..] == [] && ValidRun(Apply(s1, Start), []);
      assert ValidRun(s1, [Start]) && Run(s1, [Start]) == Apply(s1, Start);
    }
  }

  /** Once asked to quit while it is running, loop() begins no further poll before it is
      called again. */
  lemma {:induction false} QuitEndsLoop(s: State, steps: seq<Step>)
    requires ValidRun(s, steps) && s.quit && s.pc != Outside && Start !in steps
    ensures var s' := Run(s, steps); s'.quit && (s'.pc == Polling ==> s.pc == Polling)
    decreases |steps|
  {
    if steps != [] {
      var s1 := Apply(s, steps[0]);
      if s1.pc == Outside {
        StaysOutside(s1, steps[1..]);
      } else {
        QuitEndsLoop(s1, steps[1..]);
      }
    }
  }

  lemma {:induction false} StaysOutside(s: State, steps: seq<Step>)
    requires ValidRun(s, steps) && s.quit && s.pc == Outside && Start !in steps
    ensures Run(s, steps).quit && Run(s, steps).pc == Outside
    decreases |steps|
  {
    if steps != [] {
      assert steps[0] in steps;
      StaysOutside(Apply(s, steps[0]), steps[1..]);
    }
  }

  /** A quit that comes before loop() clears the flag is lost: the loop goes on polling. */
  lemma EarlyQuitIsLost(t: ThreadId)
    ensures var steps := [OtherQuit(t), OtherQuitWakeup(t), Start, TestQuit];
            && ValidRun(INIT, steps)
            && var s := Run(INIT, steps); s.pc == Polling && !s.quit && s.quitting == {}
  {
    var s1 := Apply(INIT, OtherQuit(t));
    var s2 := Apply(s1, OtherQuitWakeup(t));
    var s3 := Apply(s2, Start);
    var s4 := Apply(s3, TestQuit);
    var steps := [OtherQuit(t), OtherQuitWakeup(t), Start, TestQuit];
    assert steps[1..] == [OtherQuitWakeup(t), Start, TestQuit];
    assert steps[1..][1..] == [Start, TestQuit] && steps[1..][1..][1..] == [TestQuit];
    assert ValidRun(s4, []) && Run(s4, []) == s4;
    assert [TestQuit][1..] == [];
    assert ValidRun(s3, [TestQuit]) && Run(s3, [TestQuit]) == s4;
    assert [Start, TestQuit][1..] == [TestQuit];
    assert ValidRun(s2, [Start, TestQuit]) && Run(s2, [Start, TestQuit]) == s4;
    assert ValidRun(s1, steps[1..]) && Run(s1, steps[1..]) == s4;
  }

  lemma {:induction false} BatchProgress(s: State, steps: seq<Step>, n: nat)
    requires Inv(s) && ValidRun(s, steps) && |s.executed| + |s.batch| >= n
    ensures var s' := Run(s, steps); |s'.executed| + |s'.batch| >= n
    decreases |steps|
  {
    if steps != [] {
      StepInv(s, steps[0]);
      BatchProgress(Apply(s, steps[0]), steps[1..], n);
    }
  }

  lemma {:induction false} HistoryGrows(s: State, steps: seq<Step>)
    requires ValidRun(s, steps)
    ensures s.history <= Run(s, steps).history
    decreases |steps|
  {
    if steps != [] {
      HistoryGrows(Apply(s, steps[0]), steps[1..]);
    }
  }

  /** Everything queued when the loop reaches its swap has run when it next tests quit_ or
      polls, whatever the functors and the other threads queue meanwhile. */
  lemma {:induction false} ServedInOnePass(before: seq<Step>, after: seq<Step>)
    requires ValidRun(INIT, before) && Run(INIT, before).pc == Swapping
    requires ValidRun(Apply(Run(INIT, before), Swap), after)
    ensures var s, s' := Run(INIT, before), Run(Apply(Run(INIT, before), Swap), after);
            s'.pc != Running ==> s.history <= s'.executed
  {
    var s := Run(INIT, before);
    var s1 := Apply(s, Swap);
    RunInv(INIT, before);
    StepInv(s, Swap);
    RunInv(s1, after);
    BatchProgress(s1, after, |s.history|);
    HistoryGrows(s1, after);
    var s' := Run(s1, after);
    if s'.pc != Running {
      assert s'.executed == s'.history[..|s'.executed|];
    }
  }
}
