/** sort_timer_lst: a hand-linked doubly linked list of timers, sorted by expiry. */
module SortTimerList {

  // ---------- the list as a sequence ----------

  /** A timer as its expiry and the position of the operation that added it. */
  datatype Item = Item(expire: int, stamp: nat)

  // Where a timer goes: before the first one that expires later.
  function Place(s: seq<Item>, expire: int): (k: nat)
    ensures k <= |s| && (forall i | 0 <= i < k :: s[i].expire <= expire) && (k < |s| ==> expire < s[k].expire)
  {
    if s == [] || expire < s[0].expire then 0 else 1 + Place(s[1..], expire)
  }

  function Inserted(s: seq<Item>, x: Item): seq<Item> {
    var k := Place(s, x.expire);
    s[..k] + [x] + s[k..]
  }

  function Removed(s: seq<Item>, stamp: nat): seq<Item> {
    if s == [] then [] else if s[0].stamp == stamp then s[1..] else [s[0]] + Removed(s[1..], stamp)
  }

  function Ticked(s: seq<Item>, now: int): seq<Item> {
    if s == [] || s[0].expire > now then s else Ticked(s[1..], now)
  }

  ghost predicate Before(a: Item, b: Item) {
    a.expire < b.expire || (a.expire == b.expire && a.stamp < b.stamp)
  }

  // Sorted by expiry, ties in the order of insertion.
  ghost predicate Ordered(s: seq<Item>) {
    forall i, j | 0 <= i < j < |s| :: Before(s[i], s[j])
  }

  datatype Op = Add(expire: int) | Del(stamp: nat) | Tick(now: int)

  function Apply(s: seq<Item>, op: Op, at: nat): seq<Item> {
    match op
    case Add(expire) => Inserted(s, Item(expire, at))
    case Del(stamp) => Removed(s, stamp)
    case Tick(now) => Ticked(s, now)
  }

  function Run(ops: seq<Op>): seq<Item> {
    if ops == [] then [] else Apply(Run(ops[..|ops| - 1]), ops[|ops| - 1], |ops| - 1)
  }

  predicate Ends(op: Op, x: Item) {
    match op
    case Add(_) => false
    case Del(stamp) => stamp == x.stamp
    case Tick(now) => x.expire <= now
  }

  /** Added by one of the operations and ended by none of the later ones. */
  ghost predicate Live(ops: seq<Op>, x: Item) {
    && x.stamp < |ops| && ops[x.stamp] == Add(x.expire)
    && forall j | x.stamp < j < |ops| :: !Ends(ops[j], x)
  }

  lemma OrderedInsert(s: seq<Item>, x: Item)
    requires Ordered(s) && forall y <- s :: y.stamp < x.stamp
    ensures Ordered(Inserted(s, x)) && forall y :: y in Inserted(s, x) <==> y == x || y in s
  {
    var k := Place(s, x.expire);
    forall i | 0 <= i < |s| ensures if i < k then Before(s[i], x) else Before(x, s[i]) {
      assert s[i] in s;
      assert i > k ==> Before(s[k], s[i]);
    }
    OrderedJoin(s, x, k);
    assert s == s[..k] + s[k..];
  }

  lemma OrderedJoin(s: seq<Item>, x: Item, k: nat)
    requires Ordered(s) && k <= |s|
    requires forall i | 0 <= i < |s| :: if i < k then Before(s[i], x) else Before(x, s[i])
    ensures Ordered(s[..k] + [x] + s[k..])
  {
    var s' := s[..k] + [x] + s[k..];
    forall i, j | 0 <= i < j < |s'| ensures Before(s'[i], s'[j]) {
      assert s'[i] == if i < k then s[i] else if i == k then x else s[i - 1];
      assert s'[j] == if j < k then s[j] else if j == k then x else s[j - 1];
    }
  }

  lemma {:induction false} OrderedRemove(s: seq<Item>, stamp: nat)
    requires Ordered(s) && DistinctStamps(s)
    ensures Ordered(Removed(s, stamp)) && forall y :: y in Removed(s, stamp) <==> y in s && y.stamp != stamp
  {
    if s != [] {
      assert s == [s[0]] + s[1..];
      if s[0].stamp == stamp {
        forall y <- s[1..] ensures y.stamp != stamp {
          var j :| 1 <= j < |s| && s[j] == y;
        }
      } else {
        OrderedRemove(s[1..], stamp);
        forall y <- Removed(s[1..], stamp) ensures Before(s[0], y) {
          var j :| 1 <= j < |s| && s[j] == y;
        }
      }
    }
  }

  lemma {:induction false} OrderedTick(s: seq<Item>, now: int)
    requires Ordered(s)
    ensures Ordered(Ticked(s, now)) && forall y :: y in Ticked(s, now) <==> y in s && y.expire > now
  {
    if s != [] {
      assert s == [s[0]] + s[1..];
      forall y <- s[1..] ensures Before(s[0], y) {
        var j :| 1 <= j < |s| && s[j] == y;
      }
      OrderedTick(s[1..], now);
    }
  }

  lemma LiveStep(ops: seq<Op>, x: Item)
    requires ops != []
    ensures var front, last := ops[..|ops| - 1], ops[|ops| - 1];
            Live(ops, x) <==> (Live(front, x) && !Ends(last, x)) || (last == Add(x.expire) && x.stamp == |ops| - 1)
  {
    var front := ops[..|ops| - 1];
    if Live(ops, x) && x.stamp < |front| {
      forall j | x.stamp < j < |front| ensures !Ends(front[j], x) {
        assert front[j] == ops[j];
      }
    }
    if Live(front, x) && !Ends(ops[|ops| - 1], x) {
      forall j | x.stamp < j < |ops| ensures !Ends(ops[j], x) {
        assert j < |front| ==> front[j] == ops[j];
      }
    }
  }

  lemma DistinctWhenLive(ops: seq<Op>, s: seq<Item>)
    requires Ordered(s) && forall x <- s :: Live(ops, x)
    ensures DistinctStamps(s)
  {
    forall i, j | 0 <= i < j < |s| ensures s[i].stamp != s[j].stamp {
      assert Live(ops, s[i]) && Live(ops, s[j]);
      assert Before(s[i], s[j]);
    }
  }

  /** After any sequence of operations the list holds exactly the live timers, by expiry and
      then by insertion. */
  lemma {:induction false} RunIsLive(ops: seq<Op>)
    ensures Ordered(Run(ops)) && forall x :: x in Run(ops) <==> Live(ops, x)
  {
    if ops != [] {
      var front, last := ops[..|ops| - 1], ops[|ops| - 1];
      var s := Run(front);
      RunIsLive(front);
      match last {
        case Add(expire) => OrderedInsert(s, Item(expire, |front|));
        case Del(stamp) =>
          DistinctWhenLive(front, s);
          OrderedRemove(s, stamp);
        case Tick(now) => OrderedTick(s, now);
      }
      forall x ensures x in Run(ops) <==> Live(ops, x) {
        LiveStep(ops, x);
      }
    }
  }

  lemma RunSnoc(ops: seq<Op>, op: Op)
    ensures Run(ops + [op]) == Apply(Run(ops), op, |ops|)
  {
    assert (ops + [op])[..|ops|] == ops;
  }

  lemma RunDistinct(ops: seq<Op>)
    ensures DistinctStamps(Run(ops))
  {
    RunIsLive(ops);
    DistinctWhenLive(ops, Run(ops));
  }

  // ---------- the list on the heap ----------

  class UtilTimer {
    const expire: int
    ghost const stamp: nat // the position of the operation that adds it
    var prev: UtilTimer?
    var next: UtilTimer?

    constructor (expire: int, ghost stamp: nat)
      ensures this.expire == expire && this.stamp == stamp && prev == null && next == null
    {
      this.expire, this.stamp, prev, next := expire, stamp, null, null;
    }
  }

  ghost function AsItem(t: UtilTimer): Item { Item(t.expire, t.stamp) }

  ghost function Items(nodes: seq<UtilTimer>): (s: seq<Item>)
    ensures |s| == |nodes| && forall i | 0 <= i < |nodes| :: s[i] == AsItem(nodes[i])
  {
    seq(|nodes|, i requires 0 <= i < |nodes| => AsItem(nodes[i]))
  }

  class SortedTimerList {
    var head: UtilTimer?
    var tail: UtilTimer?
    ghost var nodes: seq<UtilTimer>
    ghost var ops: seq<Op> // what has been asked of the list so far

    /** Following next from head visits `nodes`; prev goes back one node, except that the
        first node may have none or point to itself; tail is the last node, and is stale
        when the list is empty. */
    ghost predicate Valid()
      reads this`head, this`tail, this`nodes, nodes
    {
      && (forall i, j | 0 <= i < j < |nodes| :: nodes[i] != nodes[j])
      && (if nodes == [] then head == null
          else head == nodes[0] && tail == nodes[|nodes| - 1] && nodes[|nodes| - 1].next == null
               && (nodes[0].prev == null || nodes[0].prev == nodes[0]))
      && (forall i {:trigger nodes[i].next} | 0 <= i < |nodes| - 1 :: nodes[i].next == nodes[i + 1])
      && (forall i {:trigger nodes[i].prev} | 1 <= i < |nodes| :: nodes[i].prev == nodes[i - 1])
    }

    /** The list holds what its operations leave, so by RunIsLive exactly the live timers, by
        expiry and then by insertion. */
    ghost predicate Tracks()
      reads this, nodes
    {
      Valid() && Items(nodes) == Run(ops)
    }

    ghost method Record(op: Op)
      requires Valid() && Items(nodes) == Run(ops + [op])
      modifies this`ops
      ensures Tracks() && ops == old(ops) + [op]
    {
      ops := ops + [op];
    }

    constructor ()
      ensures Tracks() && nodes == [] && ops == []
    {
      head, tail, nodes, ops := null, null, [], [];
    }

    // add_timer(timer)
    method AddTimer(timer: UtilTimer?)
      requires Tracks()
      requires timer != null ==> timer !in nodes && timer.prev == null && timer.next == null && timer.stamp == |ops|
      modifies this, nodes, timer
      ensures Tracks()
      ensures timer == null ==> nodes == old(nodes) && ops == old(ops)
      ensures timer != null ==> ops == old(ops) + [Add(timer.expire)]
      ensures timer != null ==>
                var k := Place(Items(old(nodes)), timer.expire);
                nodes == old(nodes)[..k] + [timer] + old(nodes)[k..]
    {
      if timer == null { return; }
      ghost var was := nodes;
      Insert(timer);
      AddRecorded(ops, was, timer);
      Record(Add(timer.expire));
    }

    // add_timer of a timer that is not null
    method Insert(timer: UtilTimer)
      requires Valid() && timer !in nodes && timer.prev == null && timer.next == null
      modifies this`head, this`tail, this`nodes, nodes, timer
      ensures Valid()
      ensures var k := Place(Items(old(nodes)), timer.expire); nodes == old(nodes)[..k] + [timer] + old(nodes)[k..]
    {
      if head == null {
        head, tail := timer, timer;
        nodes := [timer];
        AddAfterHead(timer, timer);
      } else if timer.expire < head.expire {
        timer.next := head;
        head.prev := timer;
        head := timer;
        nodes := [timer] + nodes;
      } else {
        AddAfterHead(timer, head);
      }
    }

    // add_timer(timer, lst_head); the first timer of a list is its own lst_head
    method AddAfterHead(timer: UtilTimer, lstHead: UtilTimer)
      requires || (nodes == [timer] && head == tail == lstHead == timer && timer.next == null && timer.prev == null)
               || (Valid() && timer !in nodes && timer.prev == null && nodes != [] && lstHead == head
                   && head.expire <= timer.expire)
      modifies this`tail, this`nodes, nodes, timer
      ensures Valid()
      ensures old(nodes) == [timer] ==> nodes == [timer]
      ensures old(timer !in nodes) ==>
                var k := Place(Items(old(nodes)), timer.expire);
                nodes == old(nodes)[..k] + [timer] + old(nodes)[k..]
    {
      ghost var was := nodes;
      ghost var k := 1;
      var preNode, nextNode := lstHead, lstHead.next;
      while nextNode != null
        invariant 1 <= k <= |was| && preNode == was[k - 1]
        invariant nextNode == if k < |was| then was[k] else null
        invariant forall j | 0 <= j < k :: was[j].expire <= timer.expire
        decreases |was| - k
        modifies {}
      {
        if timer.expire < nextNode.expire {
          break;
        }
        preNode, nextNode := nextNode, nextNode.next;
        k := k + 1;
      }
      if timer != lstHead {
        Placed(was, timer.expire, k);
      }
      if nextNode != null {
        LinkBefore(timer, preNode, nextNode, k);
      } else {
        LinkLast(timer, preNode);
      }
    }

    // del_timer of a timer in the list
    method DelTimer(timer: UtilTimer?)
      requires Tracks() && (timer != null ==> timer in nodes)
      modifies this, nodes
      ensures Tracks()
      ensures timer == null ==> nodes == old(nodes) && ops == old(ops)
      ensures timer != null ==> ops == old(ops) + [Del(timer.stamp)]
      ensures timer != null ==> exists k | 0 <= k < |old(nodes)| ::
                old(nodes)[k] == timer && nodes == old(nodes)[..k] + old(nodes)[k + 1..]
    {
      if timer == null { return; }
      ghost var was := nodes;
      ghost var k :| 0 <= k < |was| && was[k] == timer;
      Delete(timer, k);
      DelRecorded(ops, was, k);
      Record(Del(timer.stamp));
    }

    method Delete(timer: UtilTimer, ghost k: nat)
      requires Valid() && k < |nodes| && nodes[k] == timer
      modifies this`head, this`tail, this`nodes, nodes
      ensures Valid() && nodes == old(nodes)[..k] + old(nodes)[k + 1..]
    {
      if timer == head && timer == tail {
        head := null;
        tail := null;
        nodes := [];
      } else if timer == head {
        DropHead();
      } else if timer == tail {
        PopTail();
      } else {
        Unlink(timer, k);
      }
    }

    // del_timer of the first of several timers, which has a successor
    method DropHead()
      requires Valid() && |nodes| > 1
      modifies this`head, this`nodes, nodes[1..]
      ensures Valid() && nodes == old(nodes)[1..]
    {
      assert nodes[0].next == nodes[1] && nodes[1] in nodes[1..];
      head := head.next;
      head.prev := null;
      nodes := nodes[1..];
    }

    // What tick does to the first timer
    method PopHead()
      requires Valid() && nodes != []
      modifies this`head, this`nodes, nodes[1..]
      ensures Valid() && nodes == old(nodes)[1..]
    {
      assert |nodes| > 1 ==> nodes[0].next == nodes[1];
      head := head.next;
      if head != null {
        assert head in nodes[1..];
        head.prev := null;
      }
      nodes := nodes[1..];
    }

    method PopTail()
      requires Valid() && |nodes| > 1
      modifies this`tail, this`nodes, nodes
      ensures Valid() && nodes == old(nodes)[..|old(nodes)| - 1]
    {
      assert nodes[|nodes| - 1].prev == nodes[|nodes| - 2];
      tail := tail.prev;
      tail.next := null;
      nodes := nodes[..|nodes| - 1];
    }

    method Unlink(timer: UtilTimer, ghost k: nat)
      requires Valid() && 0 < k < |nodes| - 1 && nodes[k] == timer
      modifies this`nodes, nodes
      ensures Valid() && nodes == old(nodes)[..k] + old(nodes)[k + 1..]
    {
      ghost var was := nodes;
      assert nodes[k].prev == nodes[k - 1] && nodes[k].next == nodes[k + 1];
      timer.prev.next := timer.next;
      timer.next.prev := timer.prev;
      nodes := nodes[..k] + nodes[k + 1..];
      forall i | 0 <= i < |nodes| ensures nodes[i] == if i < k then was[i] else was[i + 1] {}
    }

    /** tick at time `now`: the timers whose connections it closes, in order, followed by
        those it leaves, are the timers it found. */
    method Tick(now: int) returns (closed: seq<UtilTimer>)
      requires Tracks()
      modifies this`head, this`nodes, this`ops, nodes
      ensures Tracks() && ops == old(ops) + [Op.Tick(now)]
      ensures |closed| <= |old(nodes)| && closed == old(nodes)[..|closed|] && nodes == old(nodes)[|closed|..]
      ensures forall t <- closed :: t.expire <= now
      ensures nodes != [] ==> nodes[0].expire > now
    {
      closed := CloseDue(now);
      RunSnoc(ops, Op.Tick(now));
      Record(Op.Tick(now));
    }

    // The loop of tick
    method CloseDue(now: int) returns (closed: seq<UtilTimer>)
      requires Valid()
      modifies this`head, this`nodes, nodes
      ensures |closed| <= |old(nodes)| && closed == old(nodes)[..|closed|] && nodes == old(nodes)[|closed|..]
      ensures Valid()
      ensures forall t <- closed :: t.expire <= now
      ensures nodes != [] ==> nodes[0].expire > now
      ensures Items(nodes) == Ticked(Items(old(nodes)), now)
    {
      closed := [];
      var temp := head;
      ghost var was, expected := nodes, Ticked(Items(nodes), now);
      while temp != null
        invariant Valid() && temp == head && |closed| <= |was| && closed == was[..|closed|] && nodes == was[|closed|..]
        invariant forall t <- closed :: t.expire <= now
        invariant expected == Ticked(Items(nodes), now)
        decreases |nodes|
      {
        if temp.expire > now {
          break;
        }
        TickedTail(nodes, now);
        NextDue(was, |closed|);
        var due: UtilTimer := temp;
        PopHead();
        closed := closed + [due];
        temp := head;
      }
    }

    method LinkBefore(timer: UtilTimer, preNode: UtilTimer, nextNode: UtilTimer, ghost k: nat)
      requires Valid() && timer !in nodes
      requires 1 <= k < |nodes| && preNode == nodes[k - 1] && nextNode == nodes[k]
      modifies this`nodes, timer, preNode, nextNode
      ensures Valid() && nodes == old(nodes)[..k] + [timer] + old(nodes)[k..]
    {
      ghost var was := nodes;
      preNode.next := timer;
      timer.prev := preNode;
      nextNode.prev := timer;
      timer.next := nextNode;
      nodes := nodes[..k] + [timer] + nodes[k..];
      forall i | 0 <= i < |nodes| ensures nodes[i] == if i < k then was[i] else if i == k then timer else was[i - 1] {}
    }

    method LinkLast(timer: UtilTimer, preNode: UtilTimer)
      requires || (nodes == [timer] && head == tail == preNode == timer)
               || (Valid() && timer !in nodes && nodes != [] && preNode == nodes[|nodes| - 1])
      modifies this`tail, this`nodes, timer, preNode
      ensures Valid() && nodes == if timer == preNode then old(nodes) else old(nodes) + [timer]
    {
      preNode.next := timer;
      timer.prev := preNode;
      timer.next := null;
      tail := timer;
      if timer != preNode {
        nodes := nodes + [timer];
      }
    }
  }

  lemma NextDue<T>(s: seq<T>, k: nat)
    requires k < |s|
    ensures s[..k] + [s[k]] == s[..k + 1] && s[k..][1..] == s[k + 1..] && s[k..][0] == s[k]
  {
  }

  lemma AddRecorded(ops: seq<Op>, nodes: seq<UtilTimer>, timer: UtilTimer)
    requires Items(nodes) == Run(ops) && timer.stamp == |ops|
    ensures var k := Place(Items(nodes), timer.expire);
            Items(nodes[..k] + [timer] + nodes[k..]) == Run(ops + [Add(timer.expire)])
  {
    ItemsInserted(nodes, timer);
    RunSnoc(ops, Add(timer.expire));
  }

  lemma DelRecorded(ops: seq<Op>, nodes: seq<UtilTimer>, k: nat)
    requires Items(nodes) == Run(ops) && k < |nodes|
    ensures Items(nodes[..k] + nodes[k + 1..]) == Run(ops + [Del(nodes[k].stamp)])
  {
    RunDistinct(ops);
    ItemsRemoved(nodes, k);
    RunSnoc(ops, Del(nodes[k].stamp));
  }

  lemma ItemsInserted(nodes: seq<UtilTimer>, timer: UtilTimer)
    ensures var k := Place(Items(nodes), timer.expire);
            Items(nodes[..k] + [timer] + nodes[k..]) == Inserted(Items(nodes), AsItem(timer))
  {
  }

  lemma TickedTail(nodes: seq<UtilTimer>, now: int)
    requires nodes != [] && nodes[0].expire <= now
    ensures Ticked(Items(nodes), now) == Ticked(Items(nodes[1..]), now)
  {
    assert Items(nodes)[1..] == Items(nodes[1..]);
  }

  ghost predicate DistinctStamps(s: seq<Item>) {
    forall i, j | 0 <= i < j < |s| :: s[i].stamp != s[j].stamp
  }

  lemma {:induction false} RemovedAt(s: seq<Item>, k: nat)
    requires k < |s| && DistinctStamps(s)
    ensures Removed(s, s[k].stamp) == s[..k] + s[k + 1..]
  {
    if k > 0 {
      RemovedAt(s[1..], k - 1);
      assert [s[0]] + s[1..][..k - 1] == s[..k];
    }
  }

  // Taking a timer out of the list removes its item, when every timer has its own stamp.
  lemma ItemsRemoved(nodes: seq<UtilTimer>, k: nat)
    requires k < |nodes| && DistinctStamps(Items(nodes))
    ensures Items(nodes[..k] + nodes[k + 1..]) == Removed(Items(nodes), nodes[k].stamp)
  {
    RemovedAt(Items(nodes), k);
    assert Items(nodes[..k] + nodes[k + 1..]) == Items(nodes)[..k] + Items(nodes)[k + 1..];
  }

  // The place is the only index that separates earlier or equal expiries from later ones.
  lemma Placed(nodes: seq<UtilTimer>, expire: int, k: nat)
    requires k <= |nodes| && forall j | 0 <= j < k :: nodes[j].expire <= expire
    requires k < |nodes| ==> expire < nodes[k].expire
    ensures Place(Items(nodes), expire) == k
  {
    var p, s := Place(Items(nodes), expire), Items(nodes);
    assert forall i | 0 <= i < |nodes| :: s[i].expire == nodes[i].expire;
  }
}
