/**
 One TCP connection: its socket, input and output buffers and timeout id, and
 what reading, writing, sending and closing do to the memory pool, the loop's
 poller and the server. Syscall results are parameters; callbacks into user
 code appear as entries in an ordered list of effects.
 */
module TcpConn {
  import opened Base
  import MemPool
  import DataBuf
  import Epoll
  import Timers
  import TcpServer

  /** The handler a poller slot holds: this connection's `do_read` or `do_write`. */
  datatype Handler = DoReadOf(key: int) | DoWriteOf(key: int)

  /** `TcpConnection`; `key` stands for the identity of its shared pointer. */
  datatype Conn = Conn(key: int, fd: int, ibuf: DataBuf.Buffer, obuf: DataBuf.Buffer,
                       timerId: int, hasCloseCb: bool)

  /** What a connection's operations reach: the process-wide pool, the poller of
      the connection's loop, and the server. */
  datatype Env = Env(pool: MemPool.Pool, poller: Epoll.Poller<Handler>, server: TcpServer.Server)

  /** Steps of a connection operation that leave the model, in order. */
  datatype Effect =
    | CloseCallback
    | MessageCallback(userCbRan: bool)
    | Deregistered(fd: int)
    | ClosedFd(fd: int)
    | Cleaned(key: int)

  datatype Step = Step(env: Env, conn: Conn, effects: seq<Effect>) | StepExited

  /** Buffers are well formed and compacted (both buffer operations assert
      `head == 0`), and the pool and timer keep their invariants. */
  ghost predicate Inv(e: Env, c: Conn) {
    && MemPool.Inv(e.pool)
    && DataBuf.BufOk(c.ibuf) && (c.ibuf.Some? ==> c.ibuf.value.head == 0)
    && DataBuf.BufOk(c.obuf) && (c.obuf.Some? ==> c.obuf.value.head == 0)
    && Timers.Inv(e.server.timer)
  }

  /** Pool memory not accounted for by this connection's buffers; every
      operation keeps it fixed. */
  function Elsewhere(e: Env, c: Conn): int {
    DataBuf.OutstandingKb(e.pool) - DataBuf.HeldKb(c.ibuf) - DataBuf.HeldKb(c.obuf)
  }

  /** A connection as constructed: no buffers and timer id -1. */
  function NewConn(key: int, fd: int): (c: Conn)
    ensures c.timerId == -1 && c.ibuf.None? && c.obuf.None? && !c.hasCloseCb
    ensures c.key == key && c.fd == fd
  {
    Conn(key, fd, None, None, -1, false)
  }

  /** `add_task`'s registration: watch the socket for input with this
      connection's `do_read`. */
  function AddTask(e: Env, c: Conn, ctlOk: bool): (r: Env)
    ensures c.fd in r.poller.events && Epoll.EPOLLIN in r.poller.events[c.fd].event
    ensures r.poller.events[c.fd].readCb == Some(DoReadOf(c.key))
    ensures r.pool == e.pool && r.server == e.server
  {
    e.(poller := Epoll.EpollAdd(e.poller, c.fd, {Epoll.EPOLLIN}, DoReadOf(c.key), ctlOk))
  }

  /** The pool after both buffers are cleared: their chunks are back. */
  function ReleaseBuffers(p: MemPool.Pool, c: Conn): (r: MemPool.Pool)
    requires MemPool.Inv(p) && DataBuf.BufOk(c.ibuf) && DataBuf.BufOk(c.obuf)
    ensures MemPool.Inv(r)
    ensures DataBuf.OutstandingKb(r) == DataBuf.OutstandingKb(p) - DataBuf.HeldKb(c.ibuf) - DataBuf.HeldKb(c.obuf)
  {
    var (p1, _) := DataBuf.Clear(p, c.ibuf);
    var (p2, _) := DataBuf.Clear(p1, c.obuf);
    p2
  }

  /** `do_close`: run the close callback if set, deregister the socket, return
      both buffers to the pool, close the socket, mark the connection closed
      (fd -1) and take it off the server's list. Nothing checks whether the
      connection is already closed, and the idle timeout is not cancelled. */
  function DoClose(e: Env, c: Conn): (r: Step)
    requires Inv(e, c)
    ensures r.Step? && Inv(r.env, r.conn)
    ensures r.conn == c.(fd := -1, ibuf := None, obuf := None)
    ensures Elsewhere(r.env, r.conn) == Elsewhere(e, c)
    ensures DataBuf.OutstandingKb(r.env.pool)
              == DataBuf.OutstandingKb(e.pool) - DataBuf.HeldKb(c.ibuf) - DataBuf.HeldKb(c.obuf)
    ensures c.fd !in r.env.poller.events && c.fd !in r.env.poller.listen
    ensures r.env.poller == Epoll.EpollDel(e.poller, c.fd)
    ensures r.env.server.conns == TcpServer.RemoveFirst(e.server.conns, c.key)
    ensures r.env.server.timer == e.server.timer
    ensures CloseCallback in r.effects <==> c.hasCloseCb
    ensures c.hasCloseCb ==> r.effects[0] == CloseCallback
    ensures |r.effects| >= 3 && r.effects[|r.effects| - 3..] == [Deregistered(c.fd), ClosedFd(c.fd), Cleaned(c.key)]
  {
    var effects := (if c.hasCloseCb then [CloseCallback] else [])
                   + [Deregistered(c.fd), ClosedFd(c.fd), Cleaned(c.key)];
    Step(Env(ReleaseBuffers(e.pool, c), Epoll.EpollDel(e.poller, c.fd), TcpServer.DoClean(e.server, c.key)),
         c.(fd := -1, ibuf := None, obuf := None), effects)
  }

  /** How often the close callback runs over a list of effects. */
  function CloseCallbacks(effects: seq<Effect>): (n: nat)
    ensures n <= |effects|
    ensures n == 0 <==> CloseCallback !in effects
  {
    if effects == [] then 0
    else (if effects[0] == CloseCallback then 1 else 0) + CloseCallbacks(effects[1..])
  }

  lemma {:induction false} CloseCallbacksAppend(a: seq<Effect>, b: seq<Effect>)
    ensures CloseCallbacks(a + b) == CloseCallbacks(a) + CloseCallbacks(b)
  {
    if a != [] {
      assert (a + b)[1..] == a[1..] + b;
      CloseCallbacksAppend(a[1..], b);
    } else {
      assert a + b == b;
    }
  }

  /** A close leaves the idle timeout armed: once its node is due on top of the
      timer's heap it is dispatched, and the task it runs closes the connection
      again. */
  lemma TimeoutOutlivesClose(e: Env, c: Conn, now: int, top: Timers.Node)
    requires Inv(e, c) && c.timerId in e.server.timer.active
    requires Timers.IsTop(DoClose(e, c).env.server.timer.heap, top)
    requires top.id == c.timerId && top.time <= now
    ensures Timers.Tick(DoClose(e, c).env.server.timer, now, top).dispatched == Some(top)
  {
  }

  /** Closing twice, as a peer hang-up followed by the still-armed timeout does,
      runs the close callback twice. */
  lemma CloseTwiceRunsCallbackTwice(e: Env, c: Conn)
    requires Inv(e, c) && c.hasCloseCb
    ensures var r1 := DoClose(e, c);
            var r2 := DoClose(r1.env, r1.conn);
            CloseCallbacks(r1.effects + r2.effects) == 2
  {
    var r1 := DoClose(e, c);
    var r2 := DoClose(r1.env, r1.conn);
    CloseCallbacksAppend(r1.effects, r2.effects);
    assert r1.effects == [CloseCallback] + [Deregistered(c.fd), ClosedFd(c.fd), Cleaned(c.key)];
    assert r2.effects == [CloseCallback] + [Deregistered(-1), ClosedFd(-1), Cleaned(c.key)];
  }

  /** The result of `send`. */
  datatype SendOut = Sent(env: Env, conn: Conn, ok: bool) | SendExited

  /** The poller after a successful `send`: watch for output with `do_write`
      when the buffer was empty before, else unchanged. */
  function WatchOutput(p: Epoll.Poller<Handler>, c: Conn, wasEmpty: bool, ctlOk: bool): (r: Epoll.Poller<Handler>)
    ensures wasEmpty ==> c.fd in r.events && Epoll.EPOLLOUT in r.events[c.fd].event
                         && r.events[c.fd].writeCb == Some(DoWriteOf(c.key))
    ensures !wasEmpty ==> r == p
  {
    if wasEmpty then Epoll.EpollAdd(p, c.fd, {Epoll.EPOLLOUT}, DoWriteOf(c.key), ctlOk) else p
  }

  /** `send`: append to the output buffer; if it was empty before, watch the
      socket for output with `do_write`. `false` when no chunk is large enough. */
  function Send(e: Env, c: Conn, data: seq<byte>, ctlOk: bool): (r: SendOut)
    requires Inv(e, c)
    ensures r.Sent? ==> Inv(r.env, r.conn) && Elsewhere(r.env, r.conn) == Elsewhere(e, c)
    ensures r.Sent? && !r.ok ==> r.env == e && r.conn == c
    ensures r.Sent? && r.ok ==> DataBuf.Contents(r.conn.obuf) == DataBuf.Contents(c.obuf) + data
    ensures r.Sent? && r.ok ==> r.conn == c.(obuf := r.conn.obuf) && r.env.server == e.server
    ensures r.Sent? && |data| + DataBuf.Length(c.obuf) <= MemPool.MUp ==> r.ok
    ensures r.Sent? && r.ok ==> r.env.poller == WatchOutput(e.poller, c, DataBuf.Length(c.obuf) == 0, ctlOk)
    ensures r.Sent? && DataBuf.Length(c.obuf) > 0 ==> r.env.poller == e.poller
    ensures r.SendExited? <==> DataBuf.Write2Buf(e.pool, c.obuf, data).Exited?
  {
    var w := DataBuf.Write2Buf(e.pool, c.obuf, data);
    if w.Exited? then SendExited
    else if w.ret != 0 then Sent(e, c, false)
    else
      Sent(Env(w.pool, WatchOutput(e.poller, c, DataBuf.Length(c.obuf) == 0, ctlOk), e.server),
           c.(obuf := w.buf), true)
  }

  /** The `write` outcomes `do_write` sees suffice for its loop to stop: the
      buffer empties, a write reports 0 or fails; each stays within the buffer. */
  predicate WriteLoopEnds(b: DataBuf.Buffer, ws: seq<DataBuf.WriteResult>)
    requires DataBuf.BufOk(b) && (b.Some? ==> b.value.head == 0)
    decreases |ws|
  {
    DataBuf.Length(b) == 0 ||
    (|ws| > 0 && DataBuf.WriteFits(b, ws[0]) &&
     var s := DataBuf.Write2Fd(b, ws[0]);
     s.ret <= 0 || WriteLoopEnds(s.buf, ws[1..]))
  }

  /** Where the loop of `do_write` stopped: the buffer, every byte the kernel
      took, and whether a write failed. */
  datatype LoopOut = LoopOut(buf: DataBuf.Buffer, sent: seq<byte>, failed: bool)

  /** The loop of `do_write`: write until the buffer is empty, a write reports
      0, or a write fails. */
  function WriteLoop(b: DataBuf.Buffer, ws: seq<DataBuf.WriteResult>): (r: LoopOut)
    requires DataBuf.BufOk(b) && (b.Some? ==> b.value.head == 0)
    requires WriteLoopEnds(b, ws)
    ensures DataBuf.BufOk(r.buf) && (r.buf.Some? ==> r.buf.value.head == 0)
    ensures r.sent + DataBuf.Contents(r.buf) == DataBuf.Contents(b)
    ensures DataBuf.HeldKb(r.buf) == DataBuf.HeldKb(b) && (r.buf.Some? <==> b.Some?)
    ensures DataBuf.Length(b) == 0 ==> r == LoopOut(b, [], false)
    ensures r.failed ==> DataBuf.Length(r.buf) > 0
    decreases |ws|
  {
    if DataBuf.Length(b) == 0 then LoopOut(b, [], false)
    else
      var s := DataBuf.Write2Fd(b, ws[0]);
      if s.ret == -1 then LoopOut(b, [], true)
      else if s.ret == 0 then LoopOut(s.buf, s.sent, false)
      else
        var rest := WriteLoop(s.buf, ws[1..]);
        assert (s.sent + rest.sent) + DataBuf.Contents(rest.buf) == s.sent + (rest.sent + DataBuf.Contents(rest.buf));
        LoopOut(rest.buf, s.sent + rest.sent, rest.failed)
  }

  /** The end of `do_write` when no write failed: keep the buffer and stop
      watching for output once it is empty. */
  function FinishWrite(e: Env, c: Conn, b: DataBuf.Buffer): (r: Step)
    requires Inv(e, c) && DataBuf.BufOk(b) && (b.Some? ==> b.value.head == 0)
    requires DataBuf.HeldKb(b) == DataBuf.HeldKb(c.obuf)
    ensures r.Step? && Inv(r.env, r.conn) && Elsewhere(r.env, r.conn) == Elsewhere(e, c)
    ensures r.conn == c.(obuf := b) && r.env.pool == e.pool && r.env.server == e.server && r.effects == []
    ensures DataBuf.Length(b) == 0 ==> r.env.poller == Epoll.EpollDelEvent(e.poller, c.fd, {Epoll.EPOLLOUT})
    ensures DataBuf.Length(b) > 0 ==> r.env.poller == e.poller
  {
    var poller := if DataBuf.Length(b) == 0 then Epoll.EpollDelEvent(e.poller, c.fd, {Epoll.EPOLLOUT}) else e.poller;
    Step(e.(poller := poller), c.(obuf := b), [])
  }

  /** `do_write`: run the write loop; a failed write closes the connection.
      Otherwise, once the buffer is empty the socket is no longer watched for
      output. */
  function DoWrite(e: Env, c: Conn, ws: seq<DataBuf.WriteResult>): (r: Step)
    requires Inv(e, c) && WriteLoopEnds(c.obuf, ws)
    ensures r.Step? && Inv(r.env, r.conn) && Elsewhere(r.env, r.conn) == Elsewhere(e, c)
    ensures var l := WriteLoop(c.obuf, ws);
            && (!l.failed ==>
                  && r.conn == c.(obuf := l.buf)
                  && r.env.pool == e.pool && r.env.server == e.server && r.effects == []
                  && r.env.poller == (if DataBuf.Length(l.buf) == 0
                                      then Epoll.EpollDelEvent(e.poller, c.fd, {Epoll.EPOLLOUT})
                                      else e.poller))
            && (l.failed ==>
                  && r.conn == c.(fd := -1, ibuf := None, obuf := None)
                  && ClosedFd(c.fd) in r.effects && c.fd !in r.env.poller.events)
    ensures DataBuf.Length(c.obuf) == 0 ==> r.conn == c
  {
    var l := WriteLoop(c.obuf, ws);
    assert Elsewhere(e, c.(obuf := l.buf)) == Elsewhere(e, c);
    if l.failed then DoClose(e, c.(obuf := l.buf)) else FinishWrite(e, c, l.buf)
  }

  /** The server's message wrapper, run for a connection whose read succeeded:
      refresh the idle timeout, then call the user's callback. */
  function Deliver(e: Env, c: Conn, now: int): (r: Step)
    requires Inv(e, c)
    ensures r.Step? && Inv(r.env, r.conn) && Elsewhere(r.env, r.conn) == Elsewhere(e, c)
    ensures r.conn == c.(timerId := r.conn.timerId) && r.env.pool == e.pool && r.env.poller == e.poller
    ensures r.effects == [MessageCallback(e.server.hasMsgCb)]
    ensures r.conn.timerId == e.server.timer.nextId && r.conn.timerId in r.env.server.timer.active
    ensures c.timerId < e.server.timer.nextId ==> c.timerId !in r.env.server.timer.active
    ensures r.env.server.conns == TcpServer.RemoveFirst(e.server.conns, c.key) + [c.key]
  {
    var w := TcpServer.OnMessage(e.server, now, c.key, c.timerId);
    Step(e.(server := w.added.server), c.(timerId := w.added.timerId), [MessageCallback(w.userCbRan)])
  }

  /** What `do_read` does with the return value of `read_from_fd`: -1 or 0
      closes the connection, anything else runs the message callback. */
  function AfterRead(e: Env, c: Conn, ret: int, now: int): (r: Step)
    requires Inv(e, c)
    ensures r.Step? && Inv(r.env, r.conn) && Elsewhere(r.env, r.conn) == Elsewhere(e, c)
    ensures ret <= 0 ==> r.conn == c.(fd := -1, ibuf := None, obuf := None) && ClosedFd(c.fd) in r.effects
    ensures ret > 0 ==> r.conn.ibuf == c.ibuf && r.conn.fd == c.fd && r.effects == [MessageCallback(e.server.hasMsgCb)]
  {
    if ret <= 0 then DoClose(e, c) else Deliver(e, c, now)
  }

  /** `do_read`: read what the socket has into the input buffer. A failure or
      end of file closes the connection; otherwise the message callback runs. */
  function DoRead(e: Env, c: Conn, io: DataBuf.Ioctl, rd: DataBuf.ReadResult, now: int): (r: Step)
    requires Inv(e, c) && DataBuf.ReadFits(c.ibuf, io, rd)
    ensures r.StepExited? <==> DataBuf.ReadFromFd(e.pool, c.ibuf, io, rd).Exited?
    ensures r.Step? ==> Inv(r.env, r.conn) && Elsewhere(r.env, r.conn) == Elsewhere(e, c)
    ensures r.Step? && DataBuf.ReadFromFd(e.pool, c.ibuf, io, rd).ret <= 0 ==>
              r.conn == c.(fd := -1, ibuf := None, obuf := None) && ClosedFd(c.fd) in r.effects
    ensures r.Step? && DataBuf.ReadFromFd(e.pool, c.ibuf, io, rd).ret > 0 ==>
              && rd.ReadBytes?
              && DataBuf.Contents(r.conn.ibuf) == DataBuf.Contents(c.ibuf) + rd.bytes
              && r.effects == [MessageCallback(e.server.hasMsgCb)]
              && r.conn.fd == c.fd
  {
    var rr := DataBuf.ReadFromFd(e.pool, c.ibuf, io, rd);
    if rr.Exited? then StepExited
    else AfterRead(e.(pool := rr.pool), c.(ibuf := rr.buf), rr.ret, now)
  }

  /** A message on a live connection refreshes its idle timeout: the old
      timeout id is no longer active, a fresh one is, and the connection moves
      to the end of the server's list. */
  lemma MessageRefreshesTimeout(e: Env, c: Conn, bytes: seq<byte>, need: nat, now: int)
    requires Inv(e, c) && DataBuf.ReadFits(c.ibuf, DataBuf.Readable(need), DataBuf.ReadBytes(bytes))
    requires c.timerId < e.server.timer.nextId
    requires DataBuf.Reserve(e.pool, c.ibuf, need).Reserved?
    ensures var r := DoRead(e, c, DataBuf.Readable(need), DataBuf.ReadBytes(bytes), now);
            && r.Step? && c.timerId !in r.env.server.timer.active
            && r.conn.timerId in r.env.server.timer.active
            && r.env.server.conns == TcpServer.RemoveFirst(e.server.conns, c.key) + [c.key]
  {
  }

  /** A peer hang-up closes the connection and hands its buffers back. */
  lemma EofCloses(e: Env, c: Conn, need: nat, now: int)
    requires Inv(e, c) && c.fd != -1
    requires DataBuf.ReadFromFd(e.pool, c.ibuf, DataBuf.Readable(need), DataBuf.ReadEof).BufStep?
    ensures var r := DoRead(e, c, DataBuf.Readable(need), DataBuf.ReadEof, now);
            && r.Step? && r.conn.fd == -1 && r.conn.ibuf.None? && r.conn.obuf.None?
            && DataBuf.OutstandingKb(r.env.pool) == Elsewhere(e, c)
  {
  }

  /** Bytes sent on a quiet connection reach the socket in order: after `send`
      succeeds, `do_write` writes a prefix of them and keeps the rest, and when
      the buffer empties exactly those bytes were written and the socket is no
      longer watched for output. */
  lemma SendThenWrite(e: Env, c: Conn, data: seq<byte>, ctlOk: bool, ws: seq<DataBuf.WriteResult>)
    requires Inv(e, c) && DataBuf.Length(c.obuf) == 0
    requires Send(e, c, data, ctlOk).Sent? && Send(e, c, data, ctlOk).ok
    requires WriteLoopEnds(Send(e, c, data, ctlOk).conn.obuf, ws)
    ensures var s := Send(e, c, data, ctlOk);
            var l := WriteLoop(s.conn.obuf, ws);
            && l.sent + DataBuf.Contents(l.buf) == data
            && (!l.failed && DataBuf.Length(l.buf) == 0 ==>
                  l.sent == data
                  && DoWrite(s.env, s.conn, ws).env.poller == Epoll.EpollDelEvent(s.env.poller, c.fd, {Epoll.EPOLLOUT}))
  {
    var s := Send(e, c, data, ctlOk);
    assert DataBuf.Contents(c.obuf) == [];
    var l := WriteLoop(s.conn.obuf, ws);
    assert DataBuf.Contents(s.conn.obuf) == data;
    if !l.failed && DataBuf.Length(l.buf) == 0 {
      assert l.sent + [] == l.sent;
    }
  }
}
