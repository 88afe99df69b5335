/** The ThreadPool object: what each critical section does to dequeue_ and running_. The trace
    of the sections is a run of the protocol, so what holds of every run holds of the object. */
module ThreadPoolObject {
  import opened Options
  import opened ThreadPool

  lemma {:induction false} RunSnoc(p: Pool, steps: seq<Step>, s: Step)
    requires ValidRun(p, steps) && Enabled(Run(p, steps), s)
    ensures ValidRun(p, steps + [s]) && Run(p, steps + [s]) == Apply(Run(p, steps), s)
    decreases |steps|
  {
    if steps == [] {
      assert steps + [s] == [s] && [s][1..] == [];
      assert ValidRun(Apply(p, s), []);
    } else {
      assert (steps + [s])[1..] == steps[1..] + [s];
      RunSnoc(Apply(p, steps[0]), steps[1..], s);
    }
  }

  class Shared {
    const threads: nat
    var running: bool
    var dequeue: seq<Task>
    ghost var trace: seq<Step>

    ghost function Now(): Pool
      requires ValidRun(Started(threads), trace)
      reads this`trace
    {
      Run(Started(threads), trace)
    }

    ghost predicate Valid()
      reads this
    {
      && ValidRun(Started(threads), trace)
      && Now().queue == dequeue && Now().running == running && |Now().workers| == threads
    }

    // start
    constructor (threads: nat)
      ensures Valid() && this.threads == threads && Now() == Started(threads)
    {
      this.threads, running, dequeue, trace := threads, true, [], [];
    }

    ghost method Record(s: Step)
      requires ValidRun(Started(threads), trace) && Enabled(Now(), s)
      modifies this`trace
      ensures ValidRun(Started(threads), trace) && Now() == Apply(old(Now()), s)
    {
      RunSnoc(Started(threads), trace, s);
      trace := trace + [s];
    }

    // run; without threads the caller runs it itself
    method Submit(task: Task, ghost signalled: WorkerId)
      requires Valid() && Enabled(Now(), ThreadPool.Step.Submit(task, signalled))
      modifies this`dequeue, this`trace
      ensures Valid() && Now() == Apply(old(Now()), ThreadPool.Step.Submit(task, signalled))
    {
      if threads > 0 {
        dequeue := dequeue + [task];
      }
      Record(ThreadPool.Step.Submit(task, signalled));
    }

    method Stop()
      requires Valid() && running
      modifies this`running, this`trace
      ensures Valid() && Now() == Apply(old(Now()), ThreadPool.Step.Stop)
    {
      running := false;
      Record(ThreadPool.Step.Stop);
    }

    /** take, from one locking of the mutex to the next unlocking: the worker goes to sleep
        exactly if there is nothing to do and the pool runs, and otherwise has the one that
        was submitted first of those not taken yet, if there is one. */
    method Take(w: WorkerId) returns (sleeps: bool, task: Option<Task>)
      requires Valid() && Enabled(Now(), ThreadPool.Step.Take(w))
      modifies this`dequeue, this`trace
      ensures Valid() && Now() == Apply(old(Now()), ThreadPool.Step.Take(w))
      ensures sleeps <==> Now().workers[w] == Waiting
      ensures match task
              case Some(t) =>
                && Now().workers[w] == Busy(t)
                && var n := old(|Now().taken|); n < |Now().history| && t == Now().history[n]
              case None => sleeps || Now().workers[w] == AtLoop
    {
      sleeps, task := dequeue == [] && running, None;
      if dequeue != [] {
        task := Some(dequeue[0]);
        dequeue := dequeue[1..];
      }
      Record(ThreadPool.Step.Take(w));
      StartedOk(threads, 0);
      RunAwake(Started(threads), trace);
    }
  }
}
