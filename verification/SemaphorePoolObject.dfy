/** The threadpool<T> object: what append and the locked section of run do to m_workqueue and
    the semaphore. The trace is a run of the protocol. */
module SemaphorePoolObject {
  import opened SemaphorePool

  class Shared {
    const threadNumber: nat
    const maxRequests: nat
    var workqueue: seq<Request>
    var queuestat: nat // the semaphore's value
    ghost var trace: seq<Step>

    ghost function Now(): Pool
      requires ValidRun(Created(threadNumber, maxRequests), trace)
      reads this`trace
    {
      Run(Created(threadNumber, maxRequests), trace)
    }

    ghost predicate Valid()
      reads this
    {
      && ValidRun(Created(threadNumber, maxRequests), trace)
      && Now().queue == workqueue && Now().sem == queuestat && Now().maxRequests == maxRequests
    }

    constructor (threadNumber: nat, maxRequests: nat)
      requires threadNumber > 0 && maxRequests > 0
      ensures Valid() && Now() == Created(threadNumber, maxRequests)
    {
      this.threadNumber, this.maxRequests := threadNumber, maxRequests;
      workqueue, queuestat, trace := [], 0, [];
    }

    ghost method Record(s: Step)
      requires ValidRun(Created(threadNumber, maxRequests), trace) && Enabled(Now(), s)
      modifies this`trace
      ensures ValidRun(Created(threadNumber, maxRequests), trace) && Now() == Apply(old(Now()), s)
    {
      RunSnoc(Created(threadNumber, maxRequests), trace, s);
      trace := trace + [s];
    }

    // append up to its second unlock
    method Enqueue(request: Request, a: AppenderId) returns (ok: bool)
      requires Valid() && a !in Now().posting
      modifies this`workqueue, this`trace
      ensures Valid() && Now() == Apply(old(Now()), SemaphorePool.Step.Append(a, request))
      ensures ok <==> a in Now().posting
      ensures ok <==> old(|workqueue|) <= maxRequests
    {
      Record(SemaphorePool.Step.Append(a, request));
      ok := !(|workqueue| > maxRequests);
      if ok {
        workqueue := workqueue + [request];
      }
    }

    // The post of an append
    method Post(a: AppenderId)
      requires Valid() && a in Now().posting
      modifies this`queuestat, this`trace
      ensures Valid() && Now() == Apply(old(Now()), SemaphorePool.Step.Post(a))
    {
      queuestat := queuestat + 1;
      Record(SemaphorePool.Step.Post(a));
    }

    // append with nobody between its unlock and its post
    method Append(request: Request, a: AppenderId) returns (ok: bool)
      requires Valid() && a !in Now().posting
      modifies this`workqueue, this`queuestat, this`trace
      ensures Valid() && ok == (old(|workqueue|) <= maxRequests)
      ensures var p := Apply(old(Now()), SemaphorePool.Step.Append(a, request));
              Now() == if ok then Apply(p, SemaphorePool.Step.Post(a)) else p
    {
      ok := Enqueue(request, a);
      if ok {
        Post(a);
      }
    }

    // sem_wait that does not fail
    method Wait(w: WorkerId)
      requires Valid() && Enabled(Now(), SemaphorePool.Step.Wait(w))
      modifies this`queuestat, this`trace
      ensures Valid() && Now() == Apply(old(Now()), SemaphorePool.Step.Wait(w))
    {
      queuestat := queuestat - 1;
      Record(SemaphorePool.Step.Wait(w));
    }

    /** The locked section of run: a worker gets the oldest request, or finds the queue empty,
        which happens only if some wait has failed. */
    method Pop(w: WorkerId) returns (found: bool, request: Request)
      requires Valid() && Enabled(Now(), SemaphorePool.Step.Pop(w))
      modifies this`workqueue, this`trace
      ensures Valid() && Now() == Apply(old(Now()), SemaphorePool.Step.Pop(w))
      ensures found ==> Now().workers[w] == Busy(request) && request == old(workqueue)[0]
      ensures !found ==> Now().workers[w] == AtWait && exists s <- old(trace) :: s.WaitFails?
    {
      if workqueue == [] {
        if forall s <- trace :: !s.WaitFails? {
          TokensMatch(threadNumber, maxRequests, trace);
          assert false;
        }
        found, request := false, 0;
      } else {
        found, request := true, workqueue[0];
        workqueue := workqueue[1..];
      }
      Record(SemaphorePool.Step.Pop(w));
    }
  }
}
