/**
 The server's bookkeeping: the round-robin choice of a connection loop, the
 list of live connections, and the idle timeout each connection carries on
 the server's timer. A connection is identified by a key standing for the
 identity of its shared pointer; a timeout task is the key of the connection
 it closes.
 */
module TcpServer {
  import opened Base
  import Timers

  const DefaultThreadNum: int := 1
  const DefaultNextLoop: int := -1
  const DefaultTimeoutMs: int := 60000

  /** `loops` is the number of connection loops `start` created; `listenTasks`
      counts the listen tasks queued on the acceptor's loop. */
  datatype Server = Server(loops: nat, nextLoop: int, threadNum: int, timeoutMs: int,
                           timer: Timers.Timer, conns: seq<int>, hasMsgCb: bool,
                           listenTasks: nat)

  /** A server as constructed, with `loops` connection loops already running. */
  function Create(loops: nat): (s: Server)
    ensures s.threadNum == 1 && s.nextLoop == -1 && s.timeoutMs == 60000
    ensures Timers.Inv(s.timer) && s.timer.active == {} && |s.timer.heap| == 0
    ensures s.conns == [] && !s.hasMsgCb && s.listenTasks == 0 && s.loops == loops
  {
    Server(loops, DefaultNextLoop, DefaultThreadNum, DefaultTimeoutMs, Timers.Init(), [], false, 0)
  }

  /** `set_thread_num`. */
  function SetThreadNum(s: Server, n: int): (r: Server)
    ensures r.threadNum == n
    ensures r.(threadNum := s.threadNum) == s
  {
    s.(threadNum := n)
  }

  /** `set_tcp_conn_timeout_ms`. */
  function SetTimeoutMs(s: Server, ms: int): (r: Server)
    ensures r.timeoutMs == ms
    ensures r.(timeoutMs := s.timeoutMs) == s
  {
    s.(timeoutMs := ms)
  }

  /** `set_message_cb`: only whether a user callback is set matters here. */
  function SetMessageCb(s: Server): (r: Server)
    ensures r.hasMsgCb
    ensures r.(hasMsgCb := s.hasMsgCb) == s
  {
    s.(hasMsgCb := true)
  }

  /** C's `%`, which truncates toward zero. */
  function CMod(a: int, n: int): int
    requires n > 0
  {
    if a >= 0 then a % n else -((-a) % n)
  }

  /** `get_next_loop`: no loop when none exists, else advance the index cyclically. */
  function GetNextLoop(s: Server): (r: (Option<int>, Server))
    ensures s.loops == 0 <==> r.0.None?
    ensures s.loops == 0 ==> r.1 == s
    ensures r.0.Some? ==> r.1 == s.(nextLoop := r.0.value)
    ensures r.0.Some? && s.nextLoop >= -1 ==> 0 <= r.0.value < s.loops
    ensures r.0.Some? && -1 <= s.nextLoop < s.loops - 1 ==> r.0.value == s.nextLoop + 1
    ensures r.0.Some? && s.nextLoop == s.loops - 1 ==> r.0.value == 0
  {
    if s.loops == 0 then (None, s)
    else
      var next := CMod(s.nextLoop + 1, s.loops);
      (Some(next), s.(nextLoop := next))
  }

  /** The loops handed out by `k` successive `get_next_loop` calls. */
  function NextLoops(s: Server, k: nat): (r: seq<int>)
    requires s.loops > 0
    ensures |r| == k
    decreases k
  {
    if k == 0 then []
    else
      var step := GetNextLoop(s);
      [step.0.value] + NextLoops(step.1, k - 1)
  }

  lemma MulAtLeast(d: int, n: int)
    requires d >= 1 && n > 0
    ensures d * n >= n
  {
    assert d * n == (d - 1) * n + n;
  }

  /** Quotient and remainder are unique. */
  lemma ModUnique(a: int, n: int, q: int, r: int)
    requires n > 0 && a == q * n + r && 0 <= r < n
    ensures a % n == r
  {
    var d := q - a / n;
    assert d * n == a % n - r by {
      assert a == (a / n) * n + a % n;
      assert d * n == q * n - (a / n) * n;
    }
    if d > 0 {
      MulAtLeast(d, n);
    } else if d < 0 {
      MulAtLeast(-d, n);
    }
  }

  /** Reducing before adding does not change the residue. */
  lemma ModThenAdd(a: nat, b: nat, n: int)
    requires n > 0
    ensures (a % n + b) % n == (a + b) % n
  {
    var c := a % n + b;
    assert a == (a / n) * n + a % n;
    assert c == (c / n) * n + c % n;
    assert a + b == (a / n + c / n) * n + c % n;
    ModUnique(a + b, n, a / n + c / n, c % n);
  }

  /** From any in-range index, successive calls walk the loops cyclically. */
  lemma {:induction false} NextLoopsCycle(s: Server, k: nat)
    requires s.loops > 0 && s.nextLoop >= -1
    ensures forall i :: 0 <= i < k ==> NextLoops(s, k)[i] == (s.nextLoop + 1 + i) % s.loops
    decreases k
  {
    if k > 0 {
      var step := GetNextLoop(s);
      var j := step.0.value;
      NextLoopsCycle(step.1, k - 1);
      forall i | 0 <= i < k
        ensures NextLoops(s, k)[i] == (s.nextLoop + 1 + i) % s.loops
      {
        if i > 0 {
          assert NextLoops(s, k)[i] == NextLoops(step.1, k - 1)[i - 1];
          ModThenAdd(s.nextLoop + 1, i, s.loops);
        }
      }
    }
  }

  /** A fresh server hands out loops 0, 1, ..., N-1, 0, 1, ... */
  lemma RoundRobin(loops: nat, k: nat)
    requires loops > 0
    ensures forall i :: 0 <= i < k ==> NextLoops(Create(loops), k)[i] == i % loops
  {
    NextLoopsCycle(Create(loops), k);
  }

  /** The position of the first occurrence of `x`. */
  function IndexOf(xs: seq<int>, x: int): (i: nat)
    requires x in xs
    ensures i < |xs| && xs[i] == x
    ensures forall j :: 0 <= j < i ==> xs[j] != x
  {
    if xs[0] == x then 0 else 1 + IndexOf(xs[1..], x)
  }

  /** Erase the first element equal to `x`, if any. */
  function RemoveFirst(xs: seq<int>, x: int): (r: seq<int>)
    ensures x !in xs ==> r == xs
    ensures x in xs ==> r == xs[..IndexOf(xs, x)] + xs[IndexOf(xs, x) + 1..]
  {
    if xs == [] then []
    else if xs[0] == x then xs[1..]
    else
      var rest := RemoveFirst(xs[1..], x);
      assert x in xs ==> x in xs[1..] && IndexOf(xs, x) == 1 + IndexOf(xs[1..], x);
      [xs[0]] + rest
  }

  /** Erasing the first occurrence removes exactly one copy, when there is one. */
  lemma {:induction false} RemoveFirstCount(xs: seq<int>, x: int)
    ensures multiset(RemoveFirst(xs, x)) == multiset(xs) - multiset{x}
  {
    if xs != [] {
      assert xs == [xs[0]] + xs[1..];
      if xs[0] != x {
        RemoveFirstCount(xs[1..], x);
      }
    }
  }

  /** `do_clean`: drop the connection's first entry from the list. */
  function DoClean(s: Server, key: int): (r: Server)
    ensures r.conns == RemoveFirst(s.conns, key)
    ensures |r.conns| == if key in s.conns then |s.conns| - 1 else |s.conns|
    ensures r.(conns := s.conns) == s
  {
    s.(conns := RemoveFirst(s.conns, key))
  }

  /** Only one entry goes: a connection listed twice is still listed after one clean. */
  lemma CleanRemovesOneEntry(s: Server, key: int)
    requires multiset(s.conns)[key] >= 2
    ensures key in DoClean(s, key).conns
    ensures multiset(DoClean(s, key).conns)[key] == multiset(s.conns)[key] - 1
  {
    RemoveFirstCount(s.conns, key);
    assert key in multiset(DoClean(s, key).conns);
  }

  /** The new server and the id of the timeout task just armed. */
  datatype Added = Added(server: Server, timerId: int)

  /** `add_new_tcp_conn`: arm a one-shot timeout that closes the connection after
      the configured time, and append the connection to the list. */
  function AddNewTcpConn(s: Server, now: int, key: int): (r: Added)
    requires Timers.Inv(s.timer)
    ensures Timers.Inv(r.server.timer)
    ensures r.server.conns == s.conns + [key]
    ensures r.timerId == s.timer.nextId && r.timerId in r.server.timer.active
    ensures r.server.timer.active == s.timer.active + {r.timerId}
    ensures r.server.timer.heap == s.timer.heap + multiset{Timers.Node(now + s.timeoutMs, r.timerId, key, false, false, 0, s.timeoutMs)}
    ensures r.server.(timer := s.timer, conns := s.conns) == s
  {
    var sch := Timers.RunAfter(s.timer, now, s.timeoutMs, false, key);
    Added(s.(timer := sch.timer, conns := s.conns + [key]), sch.id)
  }

  /** `update_conn_timeout_time`: cancel the connection's timeout, take it off
      the list and add it again, so it moves to the end with a fresh timeout. */
  function UpdateConnTimeout(s: Server, now: int, key: int, timerId: int): (r: Added)
    requires Timers.Inv(s.timer)
    ensures Timers.Inv(r.server.timer)
    ensures r.server.conns == RemoveFirst(s.conns, key) + [key]
    ensures timerId < s.timer.nextId ==> timerId !in r.server.timer.active
    ensures r.timerId in r.server.timer.active && r.timerId == s.timer.nextId
    ensures r.server.timer.active == s.timer.active - {timerId} + {r.timerId}
    ensures Timers.Node(now + s.timeoutMs, r.timerId, key, false, false, 0, s.timeoutMs) in r.server.timer.heap
    ensures r.server.(timer := s.timer, conns := s.conns) == s
  {
    var s1 := s.(timer := Timers.Cancel(s.timer, timerId));
    AddNewTcpConn(DoClean(s1, key), now, key)
  }

  /** Refreshing a listed connection only reorders the list. */
  lemma UpdatePermutes(s: Server, now: int, key: int, timerId: int)
    requires Timers.Inv(s.timer) && key in s.conns
    ensures multiset(UpdateConnTimeout(s, now, key, timerId).server.conns) == multiset(s.conns)
  {
    RemoveFirstCount(s.conns, key);
  }

  /** What the server's message wrapper did: the re-armed timeout and whether
      the user's message callback ran. */
  datatype Wrapped = Wrapped(added: Added, userCbRan: bool)

  /** The message callback the server installs on every connection: refresh the
      connection's timeout, then run the user's callback if one is set. */
  function OnMessage(s: Server, now: int, key: int, timerId: int): (r: Wrapped)
    requires Timers.Inv(s.timer)
    ensures Timers.Inv(r.added.server.timer)
    ensures r.userCbRan <==> s.hasMsgCb
    ensures r.added == UpdateConnTimeout(s, now, key, timerId)
  {
    Wrapped(UpdateConnTimeout(s, now, key, timerId), s.hasMsgCb)
  }

  /** After a message, the timeout armed before it no longer closes the
      connection: when its node reaches the top it is dropped, not dispatched. */
  lemma StaleTimeoutDropped(s: Server, now: int, key: int, timerId: int, later: int, top: Timers.Node)
    requires Timers.Inv(s.timer) && timerId < s.timer.nextId
    requires Timers.IsTop(OnMessage(s, now, key, timerId).added.server.timer.heap, top)
    requires top.id == timerId
    ensures Timers.Tick(OnMessage(s, now, key, timerId).added.server.timer, later, top).dispatched.None?
  {
  }

  /** A message refreshes a singly listed connection without duplicating it. */
  lemma RefreshKeepsOneEntry(s: Server, now: int, key: int, timerId: int)
    requires Timers.Inv(s.timer) && multiset(s.conns)[key] == 1
    ensures var c := OnMessage(s, now, key, timerId).added.server.conns;
            multiset(c)[key] == 1 && c[|c| - 1] == key
  {
    RemoveFirstCount(s.conns, key);
  }

  /** A changed timeout applies to connections added afterwards: one
      `SetTimeoutMs` followed by one `AddNewTcpConn`, unfolded. */
  lemma TimeoutAppliesToNextConn(s: Server, ms: int, now: int, key: int)
    requires Timers.Inv(s.timer)
    ensures var r := AddNewTcpConn(SetTimeoutMs(s, ms), now, key);
            Timers.Node(now + ms, r.timerId, key, false, false, 0, ms) in r.server.timer.heap
  {
  }

  /** The listen-task part of `start`: queue a listen task on the acceptor's
      loop unless the acceptor already listens. */
  function Start(s: Server, listening: bool): (r: Server)
    ensures listening ==> r == s
    ensures !listening ==> r.listenTasks == s.listenTasks + 1 && r.(listenTasks := s.listenTasks) == s
  {
    if listening then s else s.(listenTasks := s.listenTasks + 1)
  }

  /** The acceptor only starts listening when the queued task runs, so two
      calls to `start` before that queue two listen tasks. This needs `start`
      to run off the acceptor loop's thread: on that thread `add_task` runs
      the task at once, so the acceptor is already listening at the second
      call, which is the `listening` case of `Start`. */
  lemma StartTwiceQueuesTwice(s: Server)
    ensures Start(Start(s, false), false).listenTasks == s.listenTasks + 2
    ensures Start(Start(s, false), true).listenTasks == s.listenTasks + 1
  {
  }
}
