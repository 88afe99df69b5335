/** threadpool<T>: a locked list and a counting semaphore. Each locked section and each
    semaphore operation is one step. */
module SemaphorePool {
  type Request = nat
  type WorkerId = nat
  type AppenderId = nat

  datatype Pc =
    | AtWait  // about to call m_queuestat.wait
    | Token   // the wait succeeded; about to lock
    | NoToken // the wait failed, which run does not notice; about to lock
    | Busy(request: Request)

  /** `posting` holds the appenders between unlocking and post; `debt` counts the requests
      taken without a token for which no token has been wasted yet. */
  datatype Pool = Pool(workers: seq<Pc>, queue: seq<Request>, sem: nat, posting: set<AppenderId>, maxRequests: nat,
                       history: seq<Request>, popped: seq<Request>, debt: int)

  datatype Step =
    | Append(a: AppenderId, request: Request)
    | Post(a: AppenderId)
    | Wait(w: WorkerId)
    | WaitFails(w: WorkerId)
    | Pop(w: WorkerId)
    | Finish(w: WorkerId)

  function Created(threadNumber: nat, maxRequests: nat): Pool {
    Pool(seq(threadNumber, _ => AtWait), [], 0, {}, maxRequests, [], [], 0)
  }

  function Set(p: Pool, w: WorkerId, pc: Pc): Pool
    requires w < |p.workers|
  {
    p.(workers := p.workers[w := pc])
  }

  predicate At(p: Pool, w: WorkerId, pc: Pc) {
    w < |p.workers| && p.workers[w] == pc
  }

  predicate Enabled(p: Pool, s: Step) {
    match s
    case Append(a, _) => a !in p.posting
    case Post(a) => a in p.posting
    case Wait(w) => At(p, w, AtWait) && p.sem > 0
    case WaitFails(w) => At(p, w, AtWait)
    case Pop(w) => At(p, w, Token) || At(p, w, NoToken)
    case Finish(w) => w < |p.workers| && p.workers[w].Busy?
  }

  // threadpool::append up to its second unlock; a full queue turns the request away
  function Appended(p: Pool, a: AppenderId, request: Request): Pool {
    if |p.queue| > p.maxRequests then p
    else p.(queue := p.queue + [request], history := p.history + [request], posting := p.posting + {a})
  }

  // The locked section of threadpool::run
  function Popped(p: Pool, w: WorkerId): Pool
    requires w < |p.workers|
  {
    var owed := if p.workers[w] == NoToken then 1 else 0;
    if p.queue == [] then Set(p, w, AtWait).(debt := p.debt - 1 + owed)
    else
      Set(p, w, Busy(p.queue[0])).(queue := p.queue[1..], popped := p.popped + [p.queue[0]], debt := p.debt + owed)
  }

  function Apply(p: Pool, s: Step): Pool
    requires Enabled(p, s)
  {
    match s
    case Append(a, request) => Appended(p, a, request)
    case Post(a) => p.(sem := p.sem + 1, posting := p.posting - {a})
    case Wait(w) => Set(p, w, Token).(sem := p.sem - 1)
    case WaitFails(w) => Set(p, w, NoToken)
    case Pop(w) => Popped(p, w)
    case Finish(w) => Set(p, w, AtWait)
  }

  ghost predicate ValidRun(p: Pool, steps: seq<Step>)
    decreases |steps|
  {
    steps == [] || (Enabled(p, steps[0]) && ValidRun(Apply(p, steps[0]), steps[1..]))
  }

  ghost function Run(p: Pool, steps: seq<Step>): Pool
    requires ValidRun(p, steps)
    decreases |steps|
  {
    if steps == [] then p else Run(Apply(p, steps[0]), steps[1..])
  }

  // ---------- the counting invariant ----------

  ghost function Count(ws: seq<Pc>, pc: Pc): nat {
    if ws == [] then 0 else Count(ws[..|ws| - 1], pc) + if ws[|ws| - 1] == pc then 1 else 0
  }

  lemma {:induction false} CountSet(ws: seq<Pc>, w: WorkerId, pc: Pc, of: Pc)
    requires w < |ws|
    ensures Count(ws[w := pc], of) + (if ws[w] == of then 1 else 0) == Count(ws, of) + (if pc == of then 1 else 0)
  {
    var ws', last := ws[w := pc], |ws| - 1;
    if w == last {
      assert ws'[..last] == ws[..last];
    } else {
      CountSet(ws[..last], w, pc, of);
      assert ws'[..last] == ws[..last][w := pc];
    }
  }

  lemma {:induction false} CountPositive(ws: seq<Pc>, w: WorkerId)
    requires w < |ws|
    ensures Count(ws, ws[w]) > 0
  {
    if w < |ws| - 1 { CountPositive(ws[..|ws| - 1], w); }
  }

  lemma {:induction false} CountFresh(n: nat, of: Pc)
    requires of != AtWait
    ensures Count(seq(n, _ => AtWait), of) == 0
  {
    if n > 0 {
      CountFresh(n - 1, of);
      assert seq(n, _ => AtWait)[..n - 1] == seq(n - 1, _ => AtWait);
    }
  }

  // The tokens on their way from a push to a pop
  ghost function Tokens(p: Pool): nat {
    p.sem + |p.posting| + Count(p.workers, Token)
  }

  ghost predicate Inv(p: Pool) {
    && |p.queue| + p.debt == Tokens(p) && p.debt >= 0
    && |p.queue| <= p.maxRequests + 1
    && p.history == p.popped + p.queue
  }

  lemma StepInv(p: Pool, s: Step)
    requires Inv(p) && Enabled(p, s)
    ensures Inv(Apply(p, s))
  {
    match s
    case Append(_, _) =>
    case Post(_) =>
    case Wait(w) => CountSet(p.workers, w, Token, Token);
    case WaitFails(w) => CountSet(p.workers, w, NoToken, Token);
    case Pop(w) => PopInv(p, w);
    case Finish(w) => CountSet(p.workers, w, AtWait, Token);
  }

  lemma PopInv(p: Pool, w: WorkerId)
    requires Inv(p) && Enabled(p, Pop(w))
    ensures Inv(Popped(p, w))
  {
    CountPositive(p.workers, w);
    if p.queue == [] {
      CountSet(p.workers, w, AtWait, Token);
    } else {
      CountSet(p.workers, w, Busy(p.queue[0]), Token);
      assert p.popped + p.queue == (p.popped + [p.queue[0]]) + p.queue[1..];
    }
  }

  lemma {:induction false} RunInv(p: Pool, steps: seq<Step>)
    requires Inv(p) && ValidRun(p, steps)
    ensures Inv(Run(p, steps)) && Run(p, steps).maxRequests == p.maxRequests
    decreases |steps|
  {
    if steps != [] {
      StepInv(p, steps[0]);
      RunInv(Apply(p, steps[0]), steps[1..]);
    }
  }

  /** Requests leave in the order they came; as long as any is queued, some token is on its
      way to a worker, even if waits fail; and the queue never holds more than one request
      above its limit. */
  lemma {:induction false} NothingStranded(n: nat, maxRequests: nat, steps: seq<Step>)
    requires ValidRun(Created(n, maxRequests), steps)
    ensures var p := Run(Created(n, maxRequests), steps);
            && p.history == p.popped + p.queue
            && |p.queue| <= Tokens(p)
            && |p.queue| <= maxRequests + 1
  {
    CountFresh(n, Token);
    RunInv(Created(n, maxRequests), steps);
  }

  // No wait has failed so far.
  ghost predicate Clean(p: Pool) {
    p.debt == 0 && forall w | 0 <= w < |p.workers| :: p.workers[w] != NoToken
  }

  lemma CleanStep(p: Pool, s: Step)
    requires Inv(p) && Clean(p) && Enabled(p, s) && !s.WaitFails?
    ensures Clean(Apply(p, s))
  {
    if s.Pop? { CountPositive(p.workers, s.w); }
  }

  lemma {:induction false} RunClean(p: Pool, steps: seq<Step>)
    requires Inv(p) && Clean(p) && ValidRun(p, steps) && forall s <- steps :: !s.WaitFails?
    ensures Clean(Run(p, steps))
    decreases |steps|
  {
    if steps != [] {
      assert steps[0] in steps;
      StepInv(p, steps[0]);
      CleanStep(p, steps[0]);
      RunClean(Apply(p, steps[0]), steps[1..]);
    }
  }

  /** When every wait succeeds, the length of the queue is exactly the number of tokens on
      their way, and a worker that has one never finds the queue empty. */
  lemma {:induction false} TokensMatch(n: nat, maxRequests: nat, steps: seq<Step>)
    requires ValidRun(Created(n, maxRequests), steps) && forall s <- steps :: !s.WaitFails?
    ensures var p := Run(Created(n, maxRequests), steps);
            && |p.queue| == p.sem + |p.posting| + Count(p.workers, Token)
            && forall w: WorkerId | Enabled(p, Pop(w)) :: p.queue != []
  {
    CountFresh(n, Token);
    RunInv(Created(n, maxRequests), steps);
    RunClean(Created(n, maxRequests), steps);
    var p := Run(Created(n, maxRequests), steps);
    forall w: WorkerId | Enabled(p, Pop(w)) ensures p.queue != [] {
      CountPositive(p.workers, w);
    }
  }

  /** The limit is one more than max_requests says: it is reached by that many appends. */
  lemma {:induction false} FullQueue(n: nat, maxRequests: nat, k: nat) returns (steps: seq<Step>)
    requires k <= maxRequests + 1
    ensures |steps| == k && ValidRun(Created(n, maxRequests), steps)
    ensures var p := Run(Created(n, maxRequests), steps);
            |p.queue| == k && p.maxRequests == maxRequests && forall a <- p.posting :: a < k
  {
    if k == 0 {
      steps := [];
    } else {
      var front := FullQueue(n, maxRequests, k - 1);
      steps := front + [Append(k - 1, 0)];
      RunSnoc(Created(n, maxRequests), front, Append(k - 1, 0));
    }
  }

  lemma {:induction false} RunSnoc(p: Pool, steps: seq<Step>, s: Step)
    requires ValidRun(p, steps) && Enabled(Run(p, steps), s)
    ensures ValidRun(p, steps + [s]) && Run(p, steps + [s]) == Apply(Run(p, steps), s)
    decreases |steps|
  {
    if steps == [] {
      assert steps + [s] == [s] && [s][1..] == [];
      assert ValidRun(Apply(p, s), []);
    } else {
      assert (steps + [s])[1..] == steps[1..] + [s];
      RunSnoc(Apply(p, steps[0]), steps[1..], s);
    }
  }

  // ---------- what a failed wait costs ----------

  lemma {:induction false} RunAppend(p: Pool, a: seq<Step>, b: seq<Step>)
    requires ValidRun(p, a) && ValidRun(Run(p, a), b)
    ensures ValidRun(p, a + b) && Run(p, a + b) == Run(Run(p, a), b)
    decreases |a|
  {
    if a == [] {
      assert a + b == b;
    } else {
      assert (a + b)[1..] == a[1..] + b;
      RunAppend(Apply(p, a[0]), a[1..], b);
    }
  }

  lemma OneStep(p: Pool, s: Step)
    requires Enabled(p, s)
    ensures ValidRun(p, [s]) && Run(p, [s]) == Apply(p, s)
  {
    assert [s][1..] == [];
    assert ValidRun(Apply(p, s), []);
  }

  predicate WaitsSucceed(steps: seq<Step>) {
    forall s <- steps :: !s.WaitFails?
  }

  lemma {:induction false} CountSome(ws: seq<Pc>, of: Pc)
    requires Count(ws, of) > 0
    ensures exists w | 0 <= w < |ws| :: ws[w] == of
  {
    if ws[|ws| - 1] != of {
      CountSome(ws[..|ws| - 1], of);
    }
  }

  // A step that takes nothing from the queue
  predicate Quiet(s: Step) {
    s.Post? || s.Wait? || s.Finish?
  }

  lemma QuietStep(p: Pool, s: Step)
    requires Inv(p) && Enabled(p, s) && Quiet(s)
    ensures var r := Apply(p, s);
            && ValidRun(p, [s]) && Run(p, [s]) == r && WaitsSucceed([s])
            && Inv(r) && r.queue == p.queue && r.debt == p.debt && |r.workers| == |p.workers|
  {
    StepInv(p, s);
    OneStep(p, s);
  }

  // With more tokens than requests, some worker can be brought to look at the queue.
  lemma LookAtQueue(p: Pool) returns (steps: seq<Step>, w: WorkerId)
    requires Inv(p) && p.debt > 0 && |p.workers| > 0
    ensures ValidRun(p, steps) && WaitsSucceed(steps)
    ensures var r := Run(p, steps);
            && Inv(r) && r.queue == p.queue && r.debt == p.debt && |r.workers| == |p.workers|
            && Enabled(r, Pop(w))
  {
    if v: WorkerId :| Enabled(p, Pop(v)) {
      steps, w := [], v;
    } else {
      if Count(p.workers, Token) > 0 {
        CountSome(p.workers, Token);
        var v: WorkerId :| v < |p.workers| && p.workers[v] == Token;
        assert Enabled(p, Pop(v));
      }
      assert !Enabled(p, Pop(0));
      var p1, posts := p, [];
      if p.sem == 0 {
        var a :| a in p.posting;
        posts := [Post(a)];
        QuietStep(p, Post(a));
        p1 := Apply(p, Post(a));
      }
      var more := WaitFirst(p1);
      steps, w := posts + more, 0;
      RunAppend(p, posts, more);
    }
  }

  // The first worker, wherever it is, takes a token.
  lemma WaitFirst(p: Pool) returns (steps: seq<Step>)
    requires Inv(p) && p.sem > 0 && |p.workers| > 0 && !Enabled(p, Pop(0))
    ensures ValidRun(p, steps) && WaitsSucceed(steps)
    ensures var r := Run(p, steps);
            && Inv(r) && r.queue == p.queue && r.debt == p.debt && |r.workers| == |p.workers|
            && Enabled(r, Pop(0))
  {
    var p1, finish := p, [];
    if p.workers[0].Busy? {
      finish := [Finish(0)];
      QuietStep(p, Finish(0));
      p1 := Apply(p, Finish(0));
    }
    QuietStep(p1, Wait(0));
    steps := finish + [Wait(0)];
    RunAppend(p, finish, [Wait(0)]);
  }

  // ... until it finds it empty.
  lemma {:induction false} FindEmpty(p: Pool) returns (steps: seq<Step>, w: WorkerId)
    requires Inv(p) && p.debt > 0 && |p.workers| > 0
    ensures ValidRun(p, steps) && WaitsSucceed(steps)
    ensures Enabled(Run(p, steps), Pop(w)) && Run(p, steps).queue == []
    decreases |p.queue|
  {
    steps, w := LookAtQueue(p);
    var r := Run(p, steps);
    if r.queue != [] {
      StepInv(r, Pop(w));
      OneStep(r, Pop(w));
      var more, v := FindEmpty(Apply(r, Pop(w)));
      RunAppend(r, [Pop(w)], more);
      RunAppend(p, steps, [Pop(w)] + more);
      steps, w := steps + ([Pop(w)] + more), v;
    }
  }

  // No worker will find the queue empty, as long as no wait fails from now on.
  ghost predicate NeverEmpty(p: Pool) {
    forall steps, w: WorkerId | ValidRun(p, steps) && WaitsSucceed(steps) && Enabled(Run(p, steps), Pop(w)) ::
      Run(p, steps).queue != []
  }

  /** A worker will find the queue empty, even if no further wait fails, exactly if some failed
      wait has not been made up for: a worker is still to act on it, or more tokens are on
      their way than requests. */
  lemma EmptyExactly(n: nat, maxRequests: nat, before: seq<Step>)
    requires n > 0 && ValidRun(Created(n, maxRequests), before)
    ensures var p := Run(Created(n, maxRequests), before);
            && (NeverEmpty(p) <==> Clean(p))
            && (p.queue == [] <==> p.debt == Tokens(p))
  {
    var p := Run(Created(n, maxRequests), before);
    CountFresh(n, Token);
    RunInv(Created(n, maxRequests), before);
    WorkersStay(Created(n, maxRequests), before);
    if Clean(p) {
      forall steps, w: WorkerId | ValidRun(p, steps) && WaitsSucceed(steps) && Enabled(Run(p, steps), Pop(w))
        ensures Run(p, steps).queue != []
      {
        RunClean(p, steps);
        RunInv(p, steps);
        CountPositive(Run(p, steps).workers, w);
      }
    } else if p.debt > 0 {
      var steps, w := FindEmpty(p);
    } else {
      var w: WorkerId :| w < |p.workers| && p.workers[w] == NoToken;
      AfterNoToken(p, w);
    }
  }

  lemma AfterNoToken(p: Pool, w: WorkerId)
    requires Inv(p) && At(p, w, NoToken)
    ensures !NeverEmpty(p)
  {
    assert ValidRun(p, []) && Run(p, []) == p && WaitsSucceed([]);
    if p.queue != [] {
      StepInv(p, Pop(w));
      OneStep(p, Pop(w));
      var more, v := FindEmpty(Apply(p, Pop(w)));
      RunAppend(p, [Pop(w)], more);
      assert WaitsSucceed([Pop(w)] + more);
    } else {
      assert Enabled(Run(p, []), Pop(w));
    }
  }

  lemma {:induction false} WorkersStay(p: Pool, steps: seq<Step>)
    requires ValidRun(p, steps)
    ensures |Run(p, steps).workers| == |p.workers|
    decreases |steps|
  {
    if steps != [] {
      WorkersStay(Apply(p, steps[0]), steps[1..]);
    }
  }

  /** One failed wait is enough to send a worker that holds a token to an empty queue. */
  lemma FailedWait()
    ensures var p0 := Created(2, 10);
            var p1 := Apply(p0, Append(0, 7));
            var p2 := Apply(p1, WaitFails(0));
            var p3 := Apply(p2, Pop(0));
            var p4 := Apply(p3, Post(0));
            var p5 := Apply(p4, Wait(1));
            Enabled(p5, Pop(1)) && p5.workers[1] == Token && p5.queue == []
  {
  }
}
