/** ThreadPool: a queue guarded by a mutex and a condition variable, shared by any number of
    workers. Each critical section is one step. */
module ThreadPool {
  type Task = nat
  type WorkerId = nat

  // Where a worker is: in runInThread or in take
  datatype Pc =
    | AtLoop  // about to test running_
    | AtTake  // about to lock in take
    | Waiting // in cond_.wait, not signalled
    | Woken   // signalled, or woken for no reason; about to lock again
    | Busy(task: Task)
    | Exited

  datatype Pool = Pool(workers: seq<Pc>, queue: seq<Task>, running: bool,
                       history: seq<Task>, taken: seq<Task>, finished: multiset<Task>)

  datatype Step =
    | Submit(task: Task, signalled: WorkerId)
    | Stop
    | Spurious(w: WorkerId)
    | TestRunning(w: WorkerId)
    | Take(w: WorkerId)
    | Finish(w: WorkerId)

  function Started(n: nat): Pool {
    Pool(seq(n, _ => AtLoop), [], true, [], [], multiset{})
  }

  function Set(p: Pool, w: WorkerId, pc: Pc): Pool
    requires w < |p.workers|
  {
    p.(workers := p.workers[w := pc])
  }

  predicate SomeWaiting(ws: seq<Pc>) {
    exists w | 0 <= w < |ws| :: ws[w] == Waiting
  }

  // notify wakes one of the waiting workers, if there are any.
  predicate Enabled(p: Pool, s: Step) {
    match s
    case Submit(_, w) => SomeWaiting(p.workers) ==> w < |p.workers| && p.workers[w] == Waiting
    case Stop => p.running
    case Spurious(w) => w < |p.workers| && p.workers[w] == Waiting
    case TestRunning(w) => w < |p.workers| && p.workers[w] == AtLoop
    case Take(w) => w < |p.workers| && (p.workers[w] == AtTake || p.workers[w] == Woken)
    case Finish(w) => w < |p.workers| && p.workers[w].Busy?
  }

  // ThreadPool::run
  function Submitted(p: Pool, task: Task, w: WorkerId): Pool
    requires Enabled(p, Submit(task, w))
  {
    if p.workers == [] then
      p.(history := p.history + [task], taken := p.taken + [task], finished := p.finished + multiset{task})
    else
      var p' := p.(queue := p.queue + [task], history := p.history + [task]);
      if SomeWaiting(p.workers) then Set(p', w, Woken) else p'
  }

  function WakeAll(ws: seq<Pc>): (r: seq<Pc>)
    ensures |r| == |ws| && forall w | 0 <= w < |ws| :: r[w] == if ws[w] == Waiting then Woken else ws[w]
  {
    seq(|ws|, w requires 0 <= w < |ws| => if ws[w] == Waiting then Woken else ws[w])
  }

  // ThreadPool::take, from one locking of the mutex to the next unlocking
  function Taken(p: Pool, w: WorkerId): Pool
    requires w < |p.workers|
  {
    if p.queue != [] then
      Set(p, w, Busy(p.queue[0])).(queue := p.queue[1..], taken := p.taken + [p.queue[0]])
    else if p.running then Set(p, w, Waiting)
    else Set(p, w, AtLoop)
  }

  function Apply(p: Pool, s: Step): Pool
    requires Enabled(p, s)
  {
    match s
    case Submit(task, w) => Submitted(p, task, w)
    case Stop => p.(running := false, workers := WakeAll(p.workers))
    case Spurious(w) => Set(p, w, Woken)
    case TestRunning(w) => Set(p, w, if p.running then AtTake else Exited)
    case Take(w) => Taken(p, w)
    case Finish(w) => Set(p, w, AtLoop).(finished := p.finished + multiset{p.workers[w].task})
  }

  ghost predicate ValidRun(p: Pool, steps: seq<Step>)
    decreases |steps|
  {
    steps == [] || (Enabled(p, steps[0]) && ValidRun(Apply(p, steps[0]), steps[1..]))
  }

  ghost function Run(p: Pool, steps: seq<Step>): Pool
    requires ValidRun(p, steps)
    decreases |steps|
  {
    if steps == [] then p else Run(Apply(p, steps[0]), steps[1..])
  }

  // ---------- counting workers ----------

  ghost function Sum(ws: seq<Pc>, f: Pc -> nat): nat {
    if ws == [] then 0 else Sum(ws[..|ws| - 1], f) + f(ws[|ws| - 1])
  }

  function IsWaiting(pc: Pc): nat { if pc == Waiting then 1 else 0 }

  function IsBusyWith(task: Task): Pc -> nat { pc => if pc == Busy(task) then 1 else 0 }

  // How many of its own steps a worker can still make once the pool has been stopped
  function StepsLeft(pc: Pc): nat {
    match pc
    case Exited => 0
    case AtLoop => 1
    case Busy(_) => 2
    case _ => 3
  }

  ghost function Asleep(p: Pool): nat { Sum(p.workers, IsWaiting) }

  ghost function Runners(p: Pool, task: Task): nat { Sum(p.workers, IsBusyWith(task)) }

  lemma {:induction false} SumSet(ws: seq<Pc>, w: WorkerId, pc: Pc, f: Pc -> nat)
    requires w < |ws|
    ensures Sum(ws[w := pc], f) + f(ws[w]) == Sum(ws, f) + f(pc)
  {
    var ws', last := ws[w := pc], |ws| - 1;
    if w == last {
      assert ws'[..last] == ws[..last];
    } else {
      SumSet(ws[..last], w, pc, f);
      assert ws'[..last] == ws[..last][w := pc];
    }
  }

  lemma {:induction false} SumBound(ws: seq<Pc>, f: Pc -> nat, bound: nat)
    requires forall pc :: f(pc) <= bound
    ensures Sum(ws, f) <= bound * |ws|
  {
    if ws != [] { SumBound(ws[..|ws| - 1], f, bound); }
  }

  lemma {:induction false} SumPositive(ws: seq<Pc>, w: WorkerId, f: Pc -> nat)
    requires w < |ws| && f(ws[w]) > 0
    ensures Sum(ws, f) > 0
  {
    if w < |ws| - 1 { SumPositive(ws[..|ws| - 1], w, f); }
  }

  lemma {:induction false} SumZero(ws: seq<Pc>, f: Pc -> nat)
    requires forall w | 0 <= w < |ws| :: f(ws[w]) == 0
    ensures Sum(ws, f) == 0
  {
    if ws != [] { SumZero(ws[..|ws| - 1], f); }
  }

  // A change of every worker that the count does not see
  lemma {:induction false} SumSame(ws: seq<Pc>, ws': seq<Pc>, f: Pc -> nat)
    requires |ws'| == |ws| && forall w | 0 <= w < |ws| :: f(ws'[w]) == f(ws[w])
    ensures Sum(ws', f) == Sum(ws, f)
  {
    if ws != [] { SumSame(ws[..|ws| - 1], ws'[..|ws| - 1], f); }
  }

  // ---------- the invariants ----------

  function Min(a: nat, b: nat): nat { if a < b then a else b }

  ghost predicate Awake(p: Pool) {
    if p.running then Min(|p.queue|, |p.workers|) + Asleep(p) <= |p.workers| else !SomeWaiting(p.workers)
  }

  lemma AwakeStep(p: Pool, s: Step)
    requires Awake(p) && Enabled(p, s)
    ensures Awake(Apply(p, s))
  {
    match s
    case Submit(task, w) =>
      if SomeWaiting(p.workers) { SumSet(p.workers, w, Woken, IsWaiting); }
      else { SumZero(p.workers, IsWaiting); }
    case Stop =>
    case Spurious(w) => SumSet(p.workers, w, Woken, IsWaiting);
    case TestRunning(w) => SumSet(p.workers, w, if p.running then AtTake else Exited, IsWaiting);
    case Take(w) => SumSet(p.workers, w, Taken(p, w).workers[w], IsWaiting);
      SumBound(Taken(p, w).workers, IsWaiting, 1);
    case Finish(w) => SumSet(p.workers, w, AtLoop, IsWaiting);
  }

  // Each task taken is finished or being run by one worker per time it was submitted.
  ghost predicate Accounted(p: Pool, task: Task) {
    multiset(p.taken)[task] == p.finished[task] + Runners(p, task)
  }

  lemma AccountedStep(p: Pool, s: Step, task: Task)
    requires Accounted(p, task) && Enabled(p, s)
    ensures Accounted(Apply(p, s), task)
  {
    var f := IsBusyWith(task);
    match s
    case Submit(_, w) => if SomeWaiting(p.workers) { SumSet(p.workers, w, Woken, f); }
    case Stop => SumSame(p.workers, WakeAll(p.workers), f);
    case Spurious(w) => SumSet(p.workers, w, Woken, f);
    case TestRunning(w) => SumSet(p.workers, w, if p.running then AtTake else Exited, f);
    case Take(w) => AccountedTake(p, w, task);
    case Finish(w) => SumSet(p.workers, w, AtLoop, f);
  }

  lemma AccountedTake(p: Pool, w: WorkerId, task: Task)
    requires Accounted(p, task) && Enabled(p, Take(w))
    ensures Accounted(Taken(p, w), task)
  {
    SumSet(p.workers, w, Taken(p, w).workers[w], IsBusyWith(task));
  }

  ghost predicate InOrder(p: Pool) {
    p.history == p.taken + p.queue && (p.workers == [] ==> p.queue == [])
  }

  lemma InOrderStep(p: Pool, s: Step)
    requires InOrder(p) && Enabled(p, s)
    ensures InOrder(Apply(p, s)) && |Apply(p, s).workers| == |p.workers|
  {
    if s.Take? && p.queue != [] {
      assert p.queue == [p.queue[0]] + p.queue[1..];
    }
  }

  lemma {:induction false} RunAwake(p: Pool, steps: seq<Step>)
    requires Awake(p) && InOrder(p) && ValidRun(p, steps)
    ensures Awake(Run(p, steps)) && InOrder(Run(p, steps)) && |Run(p, steps).workers| == |p.workers|
    decreases |steps|
  {
    if steps != [] {
      AwakeStep(p, steps[0]);
      InOrderStep(p, steps[0]);
      RunAwake(Apply(p, steps[0]), steps[1..]);
    }
  }

  lemma {:induction false} RunAccounted(p: Pool, steps: seq<Step>, task: Task)
    requires Accounted(p, task) && ValidRun(p, steps)
    ensures Accounted(Run(p, steps), task)
    decreases |steps|
  {
    if steps != [] {
      AccountedStep(p, steps[0], task);
      RunAccounted(Apply(p, steps[0]), steps[1..], task);
    }
  }

  lemma StartedOk(n: nat, task: Task)
    ensures Awake(Started(n)) && InOrder(Started(n)) && Accounted(Started(n), task)
  {
    SumZero(Started(n).workers, IsWaiting);
    SumZero(Started(n).workers, IsBusyWith(task));
  }

  /** While the pool runs, at least as many workers are awake as there are tasks queued, up
      to the number of workers: a queued task never waits for a sleeping worker to be
      signalled. After stop no worker sleeps. */
  lemma {:induction false} EnoughAwake(n: nat, steps: seq<Step>)
    requires ValidRun(Started(n), steps)
    ensures var p := Run(Started(n), steps);
            && |p.workers| == n
            && (p.running ==> Min(|p.queue|, n) <= n - Asleep(p))
            && (!p.running ==> !SomeWaiting(p.workers))
  {
    StartedOk(n, 0);
    RunAwake(Started(n), steps);
  }

  /** Tasks are taken in the order they were submitted, and every task taken is finished or
      being run by exactly one worker. */
  lemma {:induction false} EachTaskOnce(n: nat, steps: seq<Step>, task: Task)
    requires ValidRun(Started(n), steps)
    ensures var p := Run(Started(n), steps);
            && p.history == p.taken + p.queue
            && multiset(p.taken)[task] == p.finished[task] + Runners(p, task)
  {
    StartedOk(n, task);
    RunAwake(Started(n), steps);
    RunAccounted(Started(n), steps, task);
  }

  // ---------- stop ends ----------

  predicate WorkerStep(s: Step) {
    !s.Submit? && !s.Stop?
  }

  ghost function WorkerSteps(steps: seq<Step>): nat {
    if steps == [] then 0 else (if WorkerStep(steps[0]) then 1 else 0) + WorkerSteps(steps[1..])
  }

  ghost function Rank(p: Pool): nat { Sum(p.workers, StepsLeft) }

  lemma RankStep(p: Pool, s: Step)
    requires Awake(p) && !p.running && Enabled(p, s)
    ensures Rank(Apply(p, s)) + (if WorkerStep(s) then 1 else 0) <= Rank(p)
  {
    match s
    case Submit(_, _) =>
    case Stop =>
    case Spurious(w) =>
    case TestRunning(w) => SumSet(p.workers, w, Exited, StepsLeft);
    case Take(w) => SumSet(p.workers, w, Taken(p, w).workers[w], StepsLeft);
    case Finish(w) => SumSet(p.workers, w, AtLoop, StepsLeft);
  }

  lemma {:induction false} RankFalls(p: Pool, steps: seq<Step>)
    requires Awake(p) && !p.running && ValidRun(p, steps)
    ensures WorkerSteps(steps) + Rank(Run(p, steps)) <= Rank(p) && !Run(p, steps).running
    decreases |steps|
  {
    if steps != [] {
      AwakeStep(p, steps[0]);
      RankStep(p, steps[0]);
      RankFalls(Apply(p, steps[0]), steps[1..]);
    }
  }

  ghost predicate CanMove(p: Pool, w: WorkerId) {
    Enabled(p, TestRunning(w)) || Enabled(p, Take(w)) || Enabled(p, Finish(w))
  }

  /** After stop the joins return: every worker that has not exited can move, and all the
      workers together move at most three times each. */
  lemma {:induction false} StopEnds(n: nat, before: seq<Step>, after: seq<Step>)
    requires ValidRun(Started(n), before) && !Run(Started(n), before).running
    requires ValidRun(Run(Started(n), before), after)
    ensures var p := Run(Run(Started(n), before), after);
            && WorkerSteps(after) <= 3 * n
            && (forall w: WorkerId | w < |p.workers| && p.workers[w] != Exited :: CanMove(p, w))
            && (WorkerSteps(after) == 3 * n ==> forall w: WorkerId | w < |p.workers| :: p.workers[w] == Exited)
  {
    var q := Run(Started(n), before);
    var p := Run(q, after);
    StartedOk(n, 0);
    RunAwake(Started(n), before);
    RunAwake(q, after);
    RankFalls(q, after);
    SumBound(q.workers, StepsLeft, 3);
    forall w: WorkerId | w < |p.workers| && p.workers[w] != Exited
      ensures CanMove(p, w) && Rank(p) > 0
    {
      SumPositive(p.workers, w, StepsLeft);
      assert p.workers[w] != Waiting;
    }
  }

  // ---------- what stop leaves behind ----------

  // A worker that is in take, or will lock again there, still takes one task.
  function InTake(pc: Pc): nat {
    match pc
    case AtTake => 1
    case Waiting => 1
    case Woken => 1
    case _ => 0
  }

  ghost function Takers(p: Pool): nat { Sum(p.workers, InTake) }

  ghost function Left(p: Pool): nat {
    if |p.queue| > Takers(p) then |p.queue| - Takers(p) else 0
  }

  ghost predicate NoSubmit(steps: seq<Step>) {
    forall s <- steps :: !s.Submit?
  }

  // The second queue is what is left of the first.
  ghost predicate EndOf(queue: seq<Task>, queue': seq<Task>) {
    |queue'| <= |queue| && queue' == queue[|queue| - |queue'|..]
  }

  lemma LeftStep(p: Pool, s: Step)
    requires Awake(p) && !p.running && Enabled(p, s) && !s.Submit?
    ensures Left(Apply(p, s)) == Left(p) && EndOf(p.queue, Apply(p, s).queue)
  {
    match s
    case Spurious(w) => SumSet(p.workers, w, Woken, InTake);
    case TestRunning(w) => SumSet(p.workers, w, Exited, InTake);
    case Take(w) => SumSet(p.workers, w, Taken(p, w).workers[w], InTake);
    case Finish(w) => SumSet(p.workers, w, AtLoop, InTake);
  }

  lemma {:induction false} LeftStays(p: Pool, steps: seq<Step>)
    requires Awake(p) && !p.running && ValidRun(p, steps) && NoSubmit(steps)
    ensures Left(Run(p, steps)) == Left(p) && EndOf(p.queue, Run(p, steps).queue)
    decreases |steps|
  {
    if steps != [] {
      AwakeStep(p, steps[0]);
      RankStep(p, steps[0]);
      LeftStep(p, steps[0]);
      LeftStays(Apply(p, steps[0]), steps[1..]);
    }
  }

  /** Once stopped, and nothing more submitted, the pool still serves as many of the oldest
      tasks as it has workers in take, and no others: when all workers have exited, exactly the
      rest of the queue is left behind. */
  lemma LeftBehind(n: nat, before: seq<Step>, after: seq<Step>)
    requires ValidRun(Started(n), before) && !Run(Started(n), before).running
    requires ValidRun(Run(Started(n), before), after) && NoSubmit(after)
    requires forall w: WorkerId | w < |Run(Run(Started(n), before), after).workers| ::
               Run(Run(Started(n), before), after).workers[w] == Exited
    ensures var q := Run(Started(n), before);
            Run(q, after).queue == if Takers(q) < |q.queue| then q.queue[Takers(q)..] else []
  {
    var q := Run(Started(n), before);
    StartedOk(n, 0);
    RunAwake(Started(n), before);
    LeftStays(q, after);
    SumZero(Run(q, after).workers, InTake);
  }
}
