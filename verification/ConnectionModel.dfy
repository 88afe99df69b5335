/** What one connection writes to its socket, over every run of its operations on its loop.
    The results of write(2) are parameters of the operations. */
module ConnectionModel {
  import opened ConnectionState

  /** What has happened on the output side, in order: a message is taken over or given up by
      sendInLoop, write(2) takes some bytes, the write-complete callback is queued, the
      sending half of the socket is shut down. */
  datatype Event = Accepted(bytes: string) | Dropped(bytes: string) | Written(bytes: string) | WriteComplete | HalfClose

  datatype Conn = Conn(state: ConnState, reading: bool, writing: bool, output: string, history: seq<Event>)
  {
    predicate Open() { state == Connected || state == Disconnecting }

    function Log(e: Event): Conn { this.(history := history + [e]) }
  }

  const NEW_CONNECTION := Conn(Connecting, false, false, "", [])

  // ---------- the operations ----------

  function ConnectionEstablished(c: Conn): Conn {
    c.(state := Connected, reading := true)
  }

  // n is what write(2) returns, if it is called.
  function SendInLoop(c: Conn, message: string, n: int): Conn
    requires n <= |message|
  {
    if !c.writing && c.output == "" then
      var written := if n >= 0 then n else 0;
      var c1 := c.Log(Accepted(message));
      var c2 := if written > 0 then c1.Log(Written(message[..written])) else c1;
      if n == |message| then c2.Log(WriteComplete)
      else if written < |message| then c2.(output := message[written..], writing := true)
      else c2
    else c.Log(Dropped(message))
  }

  function Send(c: Conn, message: string, n: int): Conn
    requires n <= |message|
  {
    if c.state == Connected then SendInLoop(c, message, n) else c.Log(Dropped(message))
  }

  function ShutdownInLoop(c: Conn): Conn {
    if c.writing then c else c.Log(HalfClose)
  }

  function Shutdown(c: Conn): Conn {
    if c.state == Connected then ShutdownInLoop(c.(state := Disconnecting)) else c
  }

  function HandleWrite(c: Conn, n: int): Conn
    requires c.writing ==> n <= |c.output|
  {
    if c.writing && n > 0 then
      var c1 := c.(output := c.output[n..]).Log(Written(c.output[..n]));
      if c1.output != "" then c1
      else
        var c2 := c1.(writing := false).Log(WriteComplete);
        if c2.state == Disconnecting then ShutdownInLoop(c2) else c2
    else c
  }

  function HandleClose(c: Conn): Conn {
    c.(state := Disconnected, reading := false, writing := false)
  }

  function ConnectionDestroyed(c: Conn): Conn {
    if c.state == Connected then HandleClose(c) else c
  }

  // ---------- runs ----------

  datatype Step = DoEstablish | DoSend(message: string, n: int) | DoShutdown | DoWrite(n: int) | DoClose | DoDestroy

  /** write(2) never takes more than it is offered; an end of file or a hang-up only reaches a
      channel that the kernel still watches. */
  predicate Possible(c: Conn, s: Step) {
    match s
    case DoEstablish => c.state == Connecting
    case DoSend(message, n) => n <= |message|
    case DoWrite(n) => c.writing ==> n <= |c.output|
    case DoClose => c.reading || c.writing
    case _ => true
  }

  function Apply(c: Conn, s: Step): Conn
    requires Possible(c, s)
  {
    match s
    case DoEstablish => ConnectionEstablished(c)
    case DoSend(message, n) => Send(c, message, n)
    case DoShutdown => Shutdown(c)
    case DoWrite(n) => HandleWrite(c, n)
    case DoClose => HandleClose(c)
    case DoDestroy => ConnectionDestroyed(c)
  }

  ghost predicate ValidRun(c: Conn, steps: seq<Step>)
    decreases |steps|
  {
    steps == [] || (Possible(c, steps[0]) && ValidRun(Apply(c, steps[0]), steps[1..]))
  }

  ghost function Run(c: Conn, steps: seq<Step>): Conn
    requires ValidRun(c, steps)
    decreases |steps|
  {
    if steps == [] then c else Run(Apply(c, steps[0]), steps[1..])
  }

  // ---------- what a history says ----------

  function AcceptedBytes(h: seq<Event>): string {
    if h == [] then ""
    else
      var last := h[|h| - 1];
      AcceptedBytes(h[..|h| - 1]) + if last.Accepted? then last.bytes else ""
  }

  function WrittenBytes(h: seq<Event>): string {
    if h == [] then ""
    else
      var last := h[|h| - 1];
      WrittenBytes(h[..|h| - 1]) + if last.Written? then last.bytes else ""
  }

  // Everything accepted so far has been written.
  predicate Settled(h: seq<Event>) {
    WrittenBytes(h) == AcceptedBytes(h)
  }

  /** What may come next: bytes are written in the order of acceptance, a message is only
      accepted when all earlier ones have been written, completion is only announced then, and
      the half-close comes at most once, only then, with no byte after it. */
  predicate Lawful(before: seq<Event>, e: Event) {
    match e
    case Accepted(_) => Settled(before) && HalfClose !in before
    case Dropped(_) => true
    case Written(b) => b != "" && WrittenBytes(before) + b <= AcceptedBytes(before) && HalfClose !in before
    case WriteComplete => Settled(before) && HalfClose !in before
    case HalfClose => Settled(before) && HalfClose !in before
  }

  ghost predicate LawfulHistory(h: seq<Event>) {
    forall k | 0 <= k < |h| :: Lawful(h[..k], h[k])
  }

  // ---------- the invariant ----------

  ghost predicate Conserved(c: Conn) {
    WrittenBytes(c.history) + c.output == AcceptedBytes(c.history)
  }

  ghost predicate Inv(c: Conn) {
    && Conserved(c) && LawfulHistory(c.history)
    && c.reading == c.Open()
    && c.writing == (c.Open() && c.output != "")
    && (c.state == Connecting ==> c.output == "")
    && (HalfClose in c.history ==> c.output == "" && (c.state == Disconnecting || c.state == Disconnected))
    && (c.state == Disconnecting ==> (HalfClose in c.history <==> c.output == ""))
  }

  lemma Counts(h: seq<Event>, e: Event)
    ensures AcceptedBytes(h + [e]) == if e.Accepted? then AcceptedBytes(h) + e.bytes else AcceptedBytes(h)
    ensures WrittenBytes(h + [e]) == if e.Written? then WrittenBytes(h) + e.bytes else WrittenBytes(h)
  {
    assert (h + [e])[..|h|] == h;
  }

  lemma Extend(c: Conn, e: Event)
    requires LawfulHistory(c.history) && Lawful(c.history, e)
    ensures LawfulHistory(c.Log(e).history)
            && (HalfClose in c.Log(e).history <==> HalfClose in c.history || e == HalfClose)
    ensures var h := c.Log(e).history;
            && AcceptedBytes(h) == (if e.Accepted? then AcceptedBytes(c.history) + e.bytes
                else AcceptedBytes(c.history))
            && WrittenBytes(h) == (if e.Written? then WrittenBytes(c.history) + e.bytes else WrittenBytes(c.history))
  {
    Counts(c.history, e);
    var h := c.history + [e];
    forall k | 0 <= k < |h| ensures Lawful(h[..k], h[k]) {
      assert h[..k] == c.history[..k];
      assert k == |c.history| ==> h[..k] == c.history;
    }
  }

  // sendInLoop on an idle connection, up to the direct write
  lemma DirectWrite(c: Conn, message: string, written: nat) returns (c2: Conn)
    requires Conserved(c) && LawfulHistory(c.history) && c.output == "" && HalfClose !in c.history
    requires written <= |message|
    ensures c2 == var c1 := c.Log(Accepted(message)); if written > 0 then c1.Log(Written(message[..written])) else c1
    ensures LawfulHistory(c2.history) && HalfClose !in c2.history && c.history + [Accepted(message)] <= c2.history
    ensures AcceptedBytes(c2.history) == WrittenBytes(c2.history) + message[written..]
            == AcceptedBytes(c.history) + message
  {
    Extend(c, Accepted(message));
    c2 := c.Log(Accepted(message));
    var sent := WrittenBytes(c.history);
    assert sent + message == sent + message[..written] + message[written..];
    if written > 0 {
      Extend(c2, Written(message[..written]));
      c2 := c2.Log(Written(message[..written]));
    }
  }

  lemma SendInv(c: Conn, message: string, n: int)
    requires Inv(c) && n <= |message|
    ensures Inv(Send(c, message, n))
  {
    if c.state == Connected && c.output == "" {
      IdleSendInv(c, message, n);
    } else {
      Extend(c, Dropped(message));
    }
  }

  lemma IdleSendInv(c: Conn, message: string, n: int)
    requires Inv(c) && n <= |message| && c.state == Connected && c.output == ""
    ensures Inv(SendInLoop(c, message, n))
  {
    var c2 := DirectWrite(c, message, if n >= 0 then n else 0);
    if n == |message| {
      Extend(c2, WriteComplete);
      assert message[n..] == "";
    }
  }

  lemma ShutdownInv(c: Conn)
    requires Inv(c)
    ensures Inv(Shutdown(c))
  {
    if c.state == Connected && !c.writing {
      assert Settled(c.history) by { SettledIdle(c); }
      Extend(c, HalfClose);
    }
  }

  lemma SettledIdle(c: Conn)
    requires Conserved(c) && c.output == ""
    ensures Settled(c.history)
  {
    assert WrittenBytes(c.history) + "" == WrittenBytes(c.history);
  }

  lemma HandleWriteInv(c: Conn, n: int)
    requires Inv(c) && (c.writing ==> n <= |c.output|)
    ensures Inv(HandleWrite(c, n))
  {
    if c.writing && n > 0 {
      var head, tail := c.output[..n], c.output[n..];
      assert c.output == head + tail;
      Extend(c, Written(head));
      var c1 := c.(output := tail).Log(Written(head));
      assert WrittenBytes(c.history) + (head + tail) == WrittenBytes(c.history) + head + tail;
      if tail == "" {
        Extend(c1, WriteComplete);
        if c.state == Disconnecting {
          Extend(c1.Log(WriteComplete), HalfClose);
        }
      }
    }
  }

  lemma ApplyInv(c: Conn, s: Step)
    requires Inv(c) && Possible(c, s)
    ensures Inv(Apply(c, s))
  {
    match s
    case DoSend(message, n) => SendInv(c, message, n);
    case DoShutdown => ShutdownInv(c);
    case DoWrite(n) => HandleWriteInv(c, n);
    case _ =>
  }

  lemma {:induction false} RunInv(c: Conn, steps: seq<Step>)
    requires Inv(c) && ValidRun(c, steps)
    ensures Inv(Run(c, steps))
    decreases |steps|
  {
    if steps != [] {
      ApplyInv(c, steps[0]);
      RunInv(Apply(c, steps[0]), steps[1..]);
    }
  }

  // ---------- theorems ----------

  lemma NewInv()
    ensures Inv(NEW_CONNECTION)
  {
  }

  /** In every run: what has been written, followed by the output buffer, is what has been
      accepted, in order; and an open connection waits for writability exactly while the
      buffer is not empty. */
  lemma OutputConserved(steps: seq<Step>)
    requires ValidRun(NEW_CONNECTION, steps)
    ensures var c := Run(NEW_CONNECTION, steps);
            && WrittenBytes(c.history) + c.output == AcceptedBytes(c.history)
            && (c.Open() ==> (c.writing <==> c.output != ""))
  {
    RunInv(NEW_CONNECTION, steps);
  }

  /** In every run the sending half is shut down at most once, after every accepted byte has
      been written, and nothing is accepted or written afterwards. */
  lemma HalfCloseOnceAndLast(steps: seq<Step>, i: nat)
    requires ValidRun(NEW_CONNECTION, steps)
    requires var h := Run(NEW_CONNECTION, steps).history; i < |h| && h[i] == HalfClose
    ensures var h := Run(NEW_CONNECTION, steps).history; Settled(h[..i]) && forall j | i < j < |h| :: h[j].Dropped?
  {
    RunInv(NEW_CONNECTION, steps);
    var h := Run(NEW_CONNECTION, steps).history;
    assert Lawful(h[..i], h[i]);
    forall j | i < j < |h| ensures h[j].Dropped? {
      assert Lawful(h[..j], h[j]);
      assert h[..j][i] == HalfClose;
    }
  }

  /** Of a connection that is being shut down, the half-close has happened exactly if the
      buffer is empty. */
  lemma HalfClosedExactly(steps: seq<Step>)
    requires ValidRun(NEW_CONNECTION, steps) && Run(NEW_CONNECTION, steps).state == Disconnecting
    ensures var c := Run(NEW_CONNECTION, steps); HalfClose in c.history <==> c.output == ""
  {
    RunInv(NEW_CONNECTION, steps);
  }

  lemma {:induction false} PrefixWritten(h: seq<Event>, k: nat)
    requires LawfulHistory(h) && k <= |h|
    ensures WrittenBytes(h[..k]) <= AcceptedBytes(h[..k])
    decreases k
  {
    if k > 0 {
      PrefixWritten(h, k - 1);
      assert h[..k][..k - 1] == h[..k - 1];
      assert Lawful(h[..k - 1], h[k - 1]);
    }
  }

  /** At every moment of a run the written bytes are a prefix of the accepted ones, and when
      completion is announced they are all of them. */
  lemma WrittenInOrder(steps: seq<Step>, k: nat)
    requires ValidRun(NEW_CONNECTION, steps) && k <= |Run(NEW_CONNECTION, steps).history|
    ensures var h := Run(NEW_CONNECTION, steps).history;
            && WrittenBytes(h[..k]) <= AcceptedBytes(h[..k])
            && (k < |h| && h[k] == WriteComplete ==> WrittenBytes(h[..k]) == AcceptedBytes(h[..k]))
  {
    RunInv(NEW_CONNECTION, steps);
    var h := Run(NEW_CONNECTION, steps).history;
    PrefixWritten(h, k);
    assert k < |h| ==> Lawful(h[..k], h[k]);
  }

  /** A message counts exactly if the connection is connected and everything accepted before
      has been written; otherwise it is lost as a whole. */
  lemma AcceptedExactly(c: Conn, message: string, n: int)
    requires Inv(c) && n <= |message|
    ensures var h := Send(c, message, n).history;
            if c.state == Connected && Settled(c.history)
            then c.history + [Accepted(message)] <= h && AcceptedBytes(h) == AcceptedBytes(c.history) + message
            else h == c.history + [Dropped(message)] && AcceptedBytes(h) == AcceptedBytes(c.history)
  {
    SettledExactly(c);
    if c.state == Connected && c.output == "" {
      IdleAccepts(c, message, n);
    } else {
      Counts(c.history, Dropped(message));
    }
  }

  // sendInLoop on an idle connection takes the message over.
  lemma IdleAccepts(c: Conn, message: string, n: int)
    requires Inv(c) && n <= |message| && c.state == Connected && c.output == ""
    ensures var h := SendInLoop(c, message, n).history;
            c.history + [Accepted(message)] <= h && AcceptedBytes(h) == AcceptedBytes(c.history) + message
  {
    var c2 := DirectWrite(c, message, if n >= 0 then n else 0);
    IdleHistory(c, message, n, c2.history);
    Counts(c2.history, WriteComplete);
    Longer(c.history + [Accepted(message)], c2.history, WriteComplete);
  }

  lemma Longer(h: seq<Event>, h': seq<Event>, e: Event)
    requires h <= h'
    ensures h <= h' + [e]
  {
  }

  lemma IdleHistory(c: Conn, message: string, n: int, h2: seq<Event>)
    requires n <= |message| && !c.writing && c.output == ""
    requires var written, h1 := if n >= 0 then n else 0, c.history + [Accepted(message)];
             h2 == if written > 0 then h1 + [Written(message[..written])] else h1
    ensures SendInLoop(c, message, n).history == if n == |message| then h2 + [WriteComplete] else h2
  {
  }

  lemma SettledExactly(c: Conn)
    requires Conserved(c)
    ensures Settled(c.history) <==> c.output == ""
  {
    assert |WrittenBytes(c.history)| + |c.output| == |AcceptedBytes(c.history)|;
  }

  /** So a message handed to a connected connection may never be written, even though the
      connection stays open and the peer reads everything. */
  lemma SecondMessageLost()
    ensures var steps := [DoEstablish] + ([DoSend("ab", 1)] + ([DoSend("c", 1)] + [DoWrite(1)]));
            && ValidRun(NEW_CONNECTION, steps)
            && var c := Run(NEW_CONNECTION, steps);
               c.state == Connected && c.output == "" && WrittenBytes(c.history) == "ab"
  {
    var c1, c2, c3 := SecondDropped();
    AcceptsNothing(c3, 1);
    HandleWriteInv(c3, 1);
    SettledExactly(HandleWrite(c3, 1));
    RunCons(c3, DoWrite(1), []);
    RunCons(c2, DoSend("c", 1), [DoWrite(1)]);
    RunCons(c1, DoSend("ab", 1), [DoSend("c", 1)] + [DoWrite(1)]);
    RunCons(NEW_CONNECTION, DoEstablish, [DoSend("ab", 1)] + ([DoSend("c", 1)] + [DoWrite(1)]));
  }

  lemma SecondDropped() returns (c1: Conn, c2: Conn, c3: Conn)
    ensures c1 == ConnectionEstablished(NEW_CONNECTION) && c2 == Send(c1, "ab", 1) && c3 == Send(c2, "c", 1)
    ensures Inv(c3) && c3.state == Connected && c3.writing && c3.output == "b" && AcceptedBytes(c3.history) == "ab"
  {
    c1 := ConnectionEstablished(NEW_CONNECTION);
    c2 := Send(c1, "ab", 1);
    c3 := Send(c2, "c", 1);
    assert c1.output == "" && c2.output == "b" && c2.writing;
    NewInv();
    AcceptedExactly(c1, "ab", 1);
    SendInv(c1, "ab", 1);
    Counts(c2.history, Dropped("c"));
    SendInv(c2, "c", 1);
  }

  lemma RunCons(c: Conn, s: Step, steps: seq<Step>)
    requires Possible(c, s) && ValidRun(Apply(c, s), steps)
    ensures ValidRun(c, [s] + steps) && Run(c, [s] + steps) == Run(Apply(c, s), steps)
  {
    assert ([s] + steps)[1..] == steps;
  }

  // Writable events that each take at least one byte, as many as there are bytes to write
  ghost predicate Empties(c: Conn, writes: seq<Step>) {
    ValidRun(c, writes) && |writes| >= |c.output| && forall s <- writes :: s.DoWrite? && s.n > 0
  }

  /** Enough writable events write out everything, and complete a shutdown that was waiting
      for it. */
  lemma {:induction false} Drains(c: Conn, writes: seq<Step>)
    requires Inv(c) && c.Open() && Empties(c, writes)
    ensures var c' := Run(c, writes);
            && c'.output == "" && c'.state == c.state
            && WrittenBytes(c'.history) == AcceptedBytes(c.history)
            && (c.state == Disconnecting ==> HalfClose in c'.history)
    decreases |writes|
  {
    if writes == [] {
      SettledExactly(c);
    } else {
      var n := writes[0].n;
      assert writes[0] in writes;
      HandleWriteInv(c, n);
      AcceptsNothing(c, n);
      Drains(HandleWrite(c, n), writes[1..]);
    }
  }

  lemma AcceptsNothing(c: Conn, n: int)
    requires c.writing ==> n <= |c.output|
    ensures AcceptedBytes(HandleWrite(c, n).history) == AcceptedBytes(c.history)
  {
    if c.writing && n > 0 {
      var h1 := c.history + [Written(c.output[..n])];
      Counts(c.history, Written(c.output[..n]));
      Counts(h1, WriteComplete);
      Counts(h1 + [WriteComplete], HalfClose);
    }
  }

  /** The asserts: handleClose always finds an open connection; when the connection is
      destroyed its channel wants no event, exactly if it was not being shut down. */
  lemma AssertsHold(c: Conn)
    requires Inv(c)
    ensures Possible(c, DoClose) ==> c.Open()
    ensures (var c' := ConnectionDestroyed(c); !c'.reading && !c'.writing) <==> c.state != Disconnecting
  {
  }

  // ---------- what the socket has taken ----------

  /** The bytes write(2) takes in a step: the first n of what it is offered, where n is what it
      returns. sendInLoop offers the message, handleWrite the output buffer. */
  function Took(c: Conn, s: Step): string {
    match s
    case DoSend(message, n) =>
      if c.state == Connected && !c.writing && c.output == "" && 0 < n <= |message| then message[..n] else ""
    case DoWrite(n) => if c.writing && 0 < n <= |c.output| then c.output[..n] else ""
    case _ => ""
  }

  ghost function Sent(c: Conn, steps: seq<Step>): string
    requires ValidRun(c, steps)
    decreases |steps|
  {
    if steps == [] then "" else Took(c, steps[0]) + Sent(Apply(c, steps[0]), steps[1..])
  }

  lemma StepTakes(c: Conn, s: Step)
    requires Inv(c) && Possible(c, s)
    ensures WrittenBytes(Apply(c, s).history) == WrittenBytes(c.history) + Took(c, s)
  {
    var sent := WrittenBytes(c.history);
    assert sent + "" == sent;
    match s
    case DoSend(message, n) => SendTakes(c, message, n);
    case DoWrite(n) => WriteTakes(c, n);
    case DoShutdown => Counts(c.history, HalfClose);
    case _ =>
  }

  lemma SendTakes(c: Conn, message: string, n: int)
    requires Inv(c) && n <= |message|
    ensures WrittenBytes(Send(c, message, n).history) == WrittenBytes(c.history) + Took(c, DoSend(message, n))
  {
    var h := c.history;
    assert WrittenBytes(h) + "" == WrittenBytes(h);
    Counts(h, Dropped(message));
    if c.state == Connected && !c.writing && c.output == "" {
      var h1 := h + [Accepted(message)];
      Counts(h, Accepted(message));
      var h2 := if n > 0 then h1 + [Written(message[..n])] else h1;
      if n > 0 { Counts(h1, Written(message[..n])); }
      Counts(h2, WriteComplete);
      IdleHistory(c, message, n, h2);
    }
  }

  lemma WriteTakes(c: Conn, n: int)
    requires Inv(c) && (c.writing ==> n <= |c.output|)
    ensures WrittenBytes(HandleWrite(c, n).history) == WrittenBytes(c.history) + Took(c, DoWrite(n))
  {
    assert WrittenBytes(c.history) + "" == WrittenBytes(c.history);
    if c.writing && n > 0 {
      var h1 := c.history + [Written(c.output[..n])];
      Counts(c.history, Written(c.output[..n]));
      Counts(h1, WriteComplete);
      Counts(h1 + [WriteComplete], HalfClose);
    }
  }

  lemma {:induction false} RunTakes(c: Conn, steps: seq<Step>)
    requires Inv(c) && ValidRun(c, steps)
    ensures WrittenBytes(Run(c, steps).history) == WrittenBytes(c.history) + Sent(c, steps)
    decreases |steps|
  {
    if steps == [] {
      assert WrittenBytes(c.history) + "" == WrittenBytes(c.history);
    } else {
      StepTakes(c, steps[0]);
      ApplyInv(c, steps[0]);
      RunTakes(Apply(c, steps[0]), steps[1..]);
      Join(WrittenBytes(c.history), Took(c, steps[0]), Sent(Apply(c, steps[0]), steps[1..]));
    }
  }

  lemma Join(a: string, b: string, c: string)
    ensures (a + b) + c == a + (b + c)
  {
  }

  /** What the socket has taken in a run, byte for byte, is what is recorded as written; so
      that, followed by the output buffer, is the accepted messages in order. */
  lemma SocketConserved(steps: seq<Step>)
    requires ValidRun(NEW_CONNECTION, steps)
    ensures var c := Run(NEW_CONNECTION, steps);
            && Sent(NEW_CONNECTION, steps) == WrittenBytes(c.history)
            && Sent(NEW_CONNECTION, steps) + c.output == AcceptedBytes(c.history)
  {
    NewInv();
    OutputConserved(steps);
    RunTakes(NEW_CONNECTION, steps);
    assert WrittenBytes(NEW_CONNECTION.history) == "";
  }

  // What a step adds to the history
  function Logged(c: Conn, s: Step): seq<Event> {
    match s
    case DoSend(message, n) =>
      if c.state == Connected && !c.writing && c.output == "" && n <= |message| then
        [Accepted(message)] + (if n > 0 then [Written(message[..n])] else [])
        + (if n == |message| then [WriteComplete] else [])
      else [Dropped(message)]
    case DoShutdown => if c.state == Connected && !c.writing then [HalfClose] else []
    case DoWrite(n) =>
      if c.writing && 0 < n <= |c.output| then
        [Written(c.output[..n])]
        + (if n < |c.output| then [] else [WriteComplete] + if c.state == Disconnecting then [HalfClose] else [])
      else []
    case _ => []
  }

  lemma SendLogs(c: Conn, message: string, n: int)
    requires n <= |message|
    ensures Send(c, message, n).history == c.history + Logged(c, DoSend(message, n))
  {
    if c.state == Connected && !c.writing && c.output == "" {
      var h1 := c.history + [Accepted(message)];
      IdleHistory(c, message, n, if n > 0 then h1 + [Written(message[..n])] else h1);
    }
  }

  lemma WriteLogs(c: Conn, n: int)
    requires c.writing ==> n <= |c.output|
    ensures HandleWrite(c, n).history == c.history + Logged(c, DoWrite(n))
  {
    if c.writing && n > 0 { assert c.output[n..] == "" <==> n == |c.output|; }
  }

  lemma StepLogs(c: Conn, s: Step)
    requires Possible(c, s)
    ensures Apply(c, s).history == c.history + Logged(c, s)
    ensures Apply(c, s).history[|c.history|..] == Logged(c, s)
  {
    match s
    case DoSend(message, n) => SendLogs(c, message, n);
    case DoWrite(n) => WriteLogs(c, n);
    case _ =>
  }

  /** The write-complete callback is queued exactly when a write takes the last byte that is
      due; the socket's sending half is shut down exactly when that, or shutdown itself, finds
      nothing left to write on a connection to be shut down. */
  lemma AnnouncedExactly(c: Conn, s: Step)
    requires Inv(c) && Possible(c, s)
    ensures c.history <= Apply(c, s).history
    ensures WriteComplete in Apply(c, s).history[|c.history|..] <==>
              || (s.DoSend? && c.state == Connected && c.output == "" && s.n == |s.message|)
              || (s.DoWrite? && c.writing && s.n == |c.output|)
    ensures HalfClose in Apply(c, s).history[|c.history|..] <==>
              || (s.DoShutdown? && c.state == Connected && c.output == "")
              || (s.DoWrite? && c.writing && s.n == |c.output| && c.state == Disconnecting)
  {
    StepLogs(c, s);
  }
}
