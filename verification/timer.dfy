/**
 The timer service: a min-heap of nodes ordered by fire time, a counter that
 hands out node ids, and a set of active ids. Cancelling only removes the id
 from the active set; a popped node whose id is inactive is dropped (lazy
 deletion). Time is an integer number of milliseconds and `now` is a parameter.

 The heap is a multiset of nodes. Which of several nodes with the same
 earliest fire time sits on top is up to the heap implementation, so the tick
 step receives the top node as an argument constrained by `IsTop`.
 */
module Timers {
  import opened Base

  /** `TimerNode`. `task` names the callback that a dispatch hands to the
      thread pool. */
  datatype Node = Node(time: int, id: int, task: int, isPeriod: bool, isRepeated: bool,
                       repeatedNum: int, period: int)

  datatype Timer = Timer(heap: multiset<Node>, nextId: int, active: set<int>)

  /** `TimerNode::operator<` inverts the time order so that the standard
      max-heap keeps the earliest node on top: `a < b` iff `a` fires later. */
  predicate Below(a: Node, b: Node) {
    a.time > b.time
  }

  /** `top` is a node the heap may present first: none fires earlier. */
  predicate IsTop(heap: multiset<Node>, top: Node) {
    top in heap && forall n :: n in heap ==> !Below(top, n)
  }

  /** Ids are handed out below the counter and no two queued nodes share one. */
  ghost predicate Inv(t: Timer) {
    && t.nextId >= 0
    && (forall n :: n in t.heap ==> 0 <= n.id < t.nextId)
    && (forall id :: id in t.active ==> 0 <= id < t.nextId)
    && (forall a, b :: a in t.heap && b in t.heap && a.id == b.id ==> a == b)
    && (forall n :: n in t.heap ==> t.heap[n] == 1)
  }

  /** A fresh timer: id counter 0, nothing scheduled. */
  function Init(): (t: Timer)
    ensures Inv(t) && t.nextId == 0 && |t.heap| == 0 && t.active == {}
  {
    Timer(multiset{}, 0, {})
  }

  /** The result of a scheduling call: the new timer and the id it returned. */
  datatype Scheduled = Scheduled(timer: Timer, id: int)

  /** Push a node built around a fresh id and mark the id active. */
  function Schedule(t: Timer, mk: int -> Node): (r: Scheduled)
    requires Inv(t) && mk(t.nextId).id == t.nextId
    ensures Inv(r.timer)
    ensures r.id == t.nextId && r.timer.nextId == t.nextId + 1
    ensures forall n :: n in t.heap ==> n.id < r.id
    ensures r.id in r.timer.active && r.timer.active == t.active + {r.id}
    ensures r.timer.heap == t.heap + multiset{mk(r.id)}
  {
    var id := t.nextId;
    var n := mk(id);
    Scheduled(Timer(t.heap + multiset{n}, id + 1, t.active + {id}), id)
  }

  /** `run_after(ms, is_period, f)`: fire at `now + ms`; periodic nodes recur every `ms`. */
  function RunAfter(t: Timer, now: int, ms: int, isPeriod: bool, task: int): (r: Scheduled)
    requires Inv(t)
    ensures Inv(r.timer)
    ensures r.id == t.nextId && r.timer.nextId == t.nextId + 1 && r.id in r.timer.active
    ensures r.timer.heap == t.heap + multiset{Node(now + ms, r.id, task, isPeriod, false, 0, ms)}
    ensures r.timer.active == t.active + {r.id}
  {
    Schedule(t, id => Node(now + ms, id, task, isPeriod, false, 0, ms))
  }

  /** `run_at(tp, f)`: fire once at `tp`. The original leaves the period unset;
      it is never read for such a node and is 0 here. */
  function RunAt(t: Timer, tp: int, task: int): (r: Scheduled)
    requires Inv(t)
    ensures Inv(r.timer)
    ensures r.id == t.nextId && r.timer.nextId == t.nextId + 1 && r.id in r.timer.active
    ensures r.timer.heap == t.heap + multiset{Node(tp, r.id, task, false, false, 0, 0)}
    ensures r.timer.active == t.active + {r.id}
  {
    Schedule(t, id => Node(tp, id, task, false, false, 0, 0))
  }

  /** `run_repeated(ms, n, f)`: fire at `now + ms`, then again every `ms` while the
      remaining count is positive. */
  function RunRepeated(t: Timer, now: int, ms: int, num: int, task: int): (r: Scheduled)
    requires Inv(t)
    ensures Inv(r.timer)
    ensures r.id == t.nextId && r.timer.nextId == t.nextId + 1 && r.id in r.timer.active
    ensures r.timer.heap == t.heap + multiset{Node(now + ms, r.id, task, false, true, num, ms)}
    ensures r.timer.active == t.active + {r.id}
  {
    Schedule(t, id => Node(now + ms, id, task, false, true, num, ms))
  }

  /** `cancel(id)`: forget the id if it is active; the heap is left alone. */
  function Cancel(t: Timer, id: int): (r: Timer)
    requires Inv(t)
    ensures Inv(r)
    ensures r.active == t.active - {id} && id !in r.active
    ensures r.heap == t.heap && r.nextId == t.nextId
    ensures id !in t.active ==> r == t
  {
    if id in t.active then t.(active := t.active - {id}) else t
  }

  /** What one pass of the timer thread's loop does. */
  datatype TickOut = TickOut(timer: Timer, dispatched: Option<Node>)

  /** The node a due node is put back as, if it recurs: periodic nodes always,
      repeated nodes while the count is positive (with the count lowered). */
  function Rearm(n: Node, now: int): Option<Node> {
    if n.isPeriod then Some(n.(time := now + n.period))
    else if n.isRepeated && n.repeatedNum > 0 then Some(n.(time := now + n.period, repeatedNum := n.repeatedNum - 1))
    else None
  }

  /** One iteration of `run_local` at time `now` with `top` on the heap's top:
      wait if nothing is due; otherwise pop it, drop it if cancelled, put it back
      if it recurs, and hand it to the thread pool. */
  function Tick(t: Timer, now: int, top: Node): (r: TickOut)
    requires Inv(t)
    requires |t.heap| > 0 ==> IsTop(t.heap, top)
    ensures Inv(r.timer)
    ensures r.timer.nextId == t.nextId && r.timer.active == t.active
    ensures |t.heap| == 0 || top.time > now ==> r == TickOut(t, None)
    ensures |t.heap| > 0 && top.time <= now && top.id !in t.active ==>
              r == TickOut(t.(heap := t.heap - multiset{top}), None)
    ensures r.dispatched.Some? <==> |t.heap| > 0 && top.time <= now && top.id in t.active
    ensures r.dispatched.Some? ==> r.dispatched.value == top
    ensures r.dispatched.Some? ==>
              r.timer.heap == t.heap - multiset{top}
                              + (if Rearm(top, now).Some? then multiset{Rearm(top, now).value} else multiset{})
  {
    if |t.heap| == 0 || top.time - now > 0 then TickOut(t, None)
    else
      var rest := t.heap - multiset{top};
      if top.id !in t.active then TickOut(t.(heap := rest), None)
      else
        match Rearm(top, now)
        case Some(n) =>
          assert top !in rest;
          assert forall m :: m in rest ==> m in t.heap && m != top;
          TickOut(t.(heap := rest + multiset{n}), Some(top))
        case None => TickOut(t.(heap := rest), Some(top))
  }

  /** The heap top is a node with the earliest fire time: `IsTop` unfolded,
      kept as a named fact. */
  lemma TopIsEarliest(t: Timer, top: Node)
    requires IsTop(t.heap, top)
    ensures forall n :: n in t.heap ==> top.time <= n.time
  {
  }

  /** A dispatched one-shot node leaves no node with its id behind, and every
      later scheduled id is larger, so it is never dispatched again. */
  lemma OneShotFiresOnce(t: Timer, now: int, top: Node)
    requires Inv(t) && IsTop(t.heap, top)
    requires !top.isPeriod && !(top.isRepeated && top.repeatedNum > 0)
    requires Tick(t, now, top).dispatched.Some?
    ensures forall n :: n in Tick(t, now, top).timer.heap ==> n.id != top.id
    ensures top.id < Tick(t, now, top).timer.nextId
  {
    var rest := t.heap - multiset{top};
    assert top !in rest;
    assert forall m :: m in rest ==> m in t.heap && m != top;
  }

  /** How many more dispatches a non-periodic node is good for. */
  function Firings(n: Node): nat
    requires !n.isPeriod
  {
    if n.isRepeated && n.repeatedNum > 0 then n.repeatedNum + 1 else 1
  }

  /** Tick a lone active non-periodic node each time it falls due (at its own fire
      time), counting the dispatches until the heap is empty. */
  function FireAlone(t: Timer, n: Node): (count: nat)
    requires Inv(t) && t.heap == multiset{n} && n.id in t.active && !n.isPeriod
    decreases Firings(n)
  {
    var r := Tick(t, n.time, n);
    match Rearm(n, n.time)
    case None => 1
    case Some(m) =>
      assert r.timer.heap == multiset{m};
      1 + FireAlone(r.timer, m)
  }

  /** A repeated node with count k is dispatched k + 1 times in all; a one-shot
      node exactly once. */
  lemma {:induction false} RepeatedFiresCountPlusOne(t: Timer, n: Node)
    requires Inv(t) && t.heap == multiset{n} && n.id in t.active && !n.isPeriod
    ensures FireAlone(t, n) == Firings(n)
    ensures n.isRepeated && n.repeatedNum >= 0 ==> FireAlone(t, n) == n.repeatedNum + 1
    decreases Firings(n)
  {
    var r := Tick(t, n.time, n);
    match Rearm(n, n.time)
    case None =>
    case Some(m) =>
      assert r.timer.heap == multiset{m};
      RepeatedFiresCountPlusOne(r.timer, m);
  }

  /** A periodic node that is due and active is dispatched and put back one
      period later, so it stays scheduled. */
  lemma PeriodicRecurs(t: Timer, now: int, top: Node)
    requires Inv(t) && IsTop(t.heap, top) && top.isPeriod
    requires top.time <= now && top.id in t.active
    ensures Tick(t, now, top).dispatched == Some(top)
    ensures top.(time := now + top.period) in Tick(t, now, top).timer.heap
  {
  }

  /** Dispatches happen in fire-time order: after a due node is handled, the next
      top fires no earlier (for non-negative periods), whether it was already
      queued or is the node just put back. */
  lemma TopsNonDecreasing(t: Timer, now: int, top: Node, next: Node)
    requires Inv(t) && IsTop(t.heap, top) && top.time <= now && top.period >= 0
    requires IsTop(Tick(t, now, top).timer.heap, next)
    ensures top.time <= next.time
  {
    var rest := t.heap - multiset{top};
    assert forall m :: m in rest ==> m in t.heap;
  }
}
