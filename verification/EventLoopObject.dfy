/** The EventLoop object as its own thread changes it when no other thread gets in between.
    Its trace is a run of the protocol, so what holds of every run holds of the object. */
module EventLoopObject {
  import opened EventLoop

  lemma {:induction false} RunSnoc(s: State, steps: seq<Step>, step: Step)
    requires ValidRun(s, steps) && Enabled(Run(s, steps), step)
    ensures ValidRun(s, steps + [step]) && Run(s, steps + [step]) == Apply(Run(s, steps), step)
    decreases |steps|
  {
    if steps == [] {
      assert steps + [step] == [step] && [step][1..] == [];
      assert ValidRun(Apply(s, step), []);
    } else {
      assert (steps + [step])[1..] == steps[1..] + [step];
      RunSnoc(Apply(s, steps[0]), steps[1..], step);
    }
  }

  // What the functors queue when they are run one after the other
  function AllQueued(script: Functor -> seq<Functor>, functors: seq<Functor>): seq<Functor> {
    if functors == [] then []
    else AllQueued(script, functors[..|functors| - 1]) + script(functors[|functors| - 1])
  }

  class Loop {
    var quit: bool
    var callingPendingFunctors: bool
    var wakeups: nat // the counter of wakeupFd_
    var pendingFunctors: seq<Functor>
    ghost var trace: seq<Step>

    ghost function Now(): State
      requires ValidRun(INIT, trace)
      reads this`trace
    {
      Run(INIT, trace)
    }

    ghost predicate Valid()
      reads this
    {
      && ValidRun(INIT, trace)
      && Now().quit == quit && Now().calling == callingPendingFunctors
      && Now().counter == wakeups && Now().pending == pendingFunctors
    }

    constructor ()
      ensures Valid() && Now() == INIT
    {
      quit, callingPendingFunctors, wakeups, pendingFunctors, trace := false, false, 0, [], [];
    }

    ghost method Record(step: Step)
      requires ValidRun(INIT, trace) && Enabled(Now(), step)
      modifies this`trace
      ensures ValidRun(INIT, trace) && Now() == Apply(old(Now()), step)
    {
      RunSnoc(INIT, trace, step);
      trace := trace + [step];
    }

    method Wakeup()
      modifies this`wakeups
      ensures wakeups == if old(wakeups) < MAX_COUNTER then old(wakeups) + 1 else old(wakeups)
    {
      if wakeups < MAX_COUNTER {
        wakeups := wakeups + 1;
      }
    }

    // The read callback of the wakeup channel
    method HandleRead()
      requires Valid() && Now().pc == Events
      modifies this`wakeups, this`trace
      ensures Valid() && Now() == old(Now()).(counter := 0)
    {
      wakeups := 0;
      Record(ReadWakeup);
    }

    // queueInLoop on the loop's thread
    method QueueInLoop(f: Functor)
      requires Valid() && Enabled(Now(), OwnPush(f))
      modifies this`pendingFunctors, this`wakeups, this`trace
      ensures Valid()
      ensures var s := Apply(old(Now()), OwnPush(f)); Now() == if s.owes then Apply(s, OwnWakeup) else s
    {
      pendingFunctors := pendingFunctors + [f];
      Record(OwnPush(f));
      if callingPendingFunctors {
        Wakeup();
        Record(OwnWakeup);
      }
    }

    // In doPendingFunctors, after the swap: what is left of the batch, and what has run
    ghost predicate During(batch: seq<Functor>, executed: seq<Functor>)
      reads this
    {
      && Valid() && callingPendingFunctors && Now().pc == Running && !Now().owes
      && Now().batch == batch && Now().executed == executed
      && (pendingFunctors != [] ==> wakeups > 0)
    }

    method QueueFromFunctor(f: Functor, ghost batch: seq<Functor>, ghost executed: seq<Functor>)
      requires During(batch, executed)
      modifies this`pendingFunctors, this`wakeups, this`trace
      ensures During(batch, executed) && pendingFunctors == old(pendingFunctors) + [f]
    {
      QueueInLoop(f);
    }

    // Running a functor, which queues the given ones
    method RunFunctor(queued: seq<Functor>, ghost batch: seq<Functor>, ghost executed: seq<Functor>)
      requires During(batch, executed) && batch != []
      modifies this`pendingFunctors, this`wakeups, this`trace
      ensures During(batch[1..], executed + [batch[0]]) && pendingFunctors == old(pendingFunctors) + queued
    {
      Record(RunNext);
      for j := 0 to |queued|
        invariant During(batch[1..], executed + [batch[0]]) && pendingFunctors == old(pendingFunctors) + queued[..j]
      {
        assert queued[..j + 1] == queued[..j] + [queued[j]];
        QueueFromFunctor(queued[j], batch[1..], executed + [batch[0]]);
      }
    }

    // The critical section of doPendingFunctors
    method SwapOut() returns (functors: seq<Functor>)
      requires Valid() && Now().pc == Events
      modifies this`callingPendingFunctors, this`pendingFunctors, this`trace
      ensures functors == old(pendingFunctors) && pendingFunctors == [] && During(functors, old(Now().executed))
    {
      RunInv(INIT, trace);
      callingPendingFunctors := true;
      Record(EventsDone);
      functors := pendingFunctors;
      pendingFunctors := [];
      Record(Swap);
    }

    /** doPendingFunctors: runs what was pending, in order and once; what the functors queue
        meanwhile is left pending, with a wakeup for the next poll. */
    method DoPendingFunctors(script: Functor -> seq<Functor>)
      requires Valid() && Now().pc == Events
      modifies this`callingPendingFunctors, this`pendingFunctors, this`wakeups, this`trace
      ensures Valid() && Now().pc == Check && Now().batch == []
      ensures Now().executed == old(Now().executed) + old(pendingFunctors)
      ensures pendingFunctors == AllQueued(script, old(pendingFunctors)) && (pendingFunctors != [] ==> wakeups > 0)
    {
      ghost var before := Now().executed;
      var functors := SwapOut();
      assert functors[0..] == functors && before + functors[..0] == before;
      for i := 0 to |functors|
        invariant During(functors[i..], before + functors[..i]) && pendingFunctors == AllQueued(script, functors[..i])
      {
        assert functors[..i + 1][..i] == functors[..i] && functors[i..][1..] == functors[i + 1..];
        assert before + functors[..i] + [functors[i]] == before + functors[..i + 1];
        RunFunctor(script(functors[i]), functors[i..], before + functors[..i]);
      }
      assert functors[..|functors|] == functors;
      callingPendingFunctors := false;
      Record(BatchDone);
    }
  }
}
