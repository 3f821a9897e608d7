/**
 The poller's bookkeeping: for every registered fd an interest mask and a
 read and a write callback slot, plus the set of fds the kernel accepted.
 `epoll_ctl` is an outcome parameter; `epoll_wait` is not modelled, the
 per-event dispatch choice is.

 An `events` word of `struct epoll_event` is modelled as the set of positions
 of its set bits: `a | b` is union, `a & ~b` is difference, `a & BIT` is a
 membership test and a zero word is the empty set.
 */
module Epoll {
  import opened Base

  /** A bit mask as the set of its set bit positions. */
  type Mask = set<nat>

  /** Bit positions of EPOLLIN (0x001), EPOLLOUT (0x004), EPOLLERR (0x008), EPOLLHUP (0x010). */
  const EPOLLIN: nat := 0
  const EPOLLOUT: nat := 2
  const EPOLLERR: nat := 3
  const EPOLLHUP: nat := 4

  /** `io_event`: the interest mask and the two callback slots (`None` = empty `std::function`). */
  datatype IoEvent<C> = IoEvent(event: Mask, readCb: Option<C>, writeCb: Option<C>)

  /** `ep_event_map` and `ep_listen_fds`. */
  datatype Poller<C> = Poller(events: map<int, IoEvent<C>>, listen: set<int>)

  function Empty<C>(): (p: Poller<C>)
    ensures p.events == map[] && p.listen == {}
  {
    Poller(map[], {})
  }

  /** The entry `operator[]` finds or default-constructs. */
  function EntryOf<C>(p: Poller<C>, fd: int): IoEvent<C> {
    if fd in p.events then p.events[fd] else IoEvent({}, None, None)
  }

  /** Store `cb` in the read slot if `event` has IN, else in the write slot if
      it has OUT, else leave both slots alone. */
  function Attach<C>(e: IoEvent<C>, event: Mask, cb: C): (r: IoEvent<C>)
    ensures r.event == e.event
    ensures EPOLLIN in event ==> r.readCb == Some(cb) && r.writeCb == e.writeCb
    ensures EPOLLIN !in event && EPOLLOUT in event ==> r.writeCb == Some(cb) && r.readCb == e.readCb
    ensures EPOLLIN !in event && EPOLLOUT !in event ==> r == e
  {
    if EPOLLIN in event then e.(readCb := Some(cb))
    else if EPOLLOUT in event then e.(writeCb := Some(cb))
    else e
  }

  /** `epoll_add(fd, event, cb)`: OR the bits into the fd's mask (a new fd gets
      exactly `event`) and attach `cb`. The map is updated whatever `epoll_ctl`
      says; the fd joins the listen set only when `epoll_ctl` succeeded. */
  function EpollAdd<C>(p: Poller<C>, fd: int, event: Mask, cb: C, ctlOk: bool): (r: Poller<C>)
    ensures fd in r.events
    ensures fd !in p.events ==> r.events[fd] == Attach(EntryOf(p, fd), event, cb).(event := event)
    ensures fd in p.events ==> r.events[fd] == Attach(p.events[fd], event, cb).(event := p.events[fd].event + event)
    ensures r.events.Keys == p.events.Keys + {fd}
    ensures forall f :: f in p.events && f != fd ==> r.events[f] == p.events[f]
    ensures r.listen == if ctlOk then p.listen + {fd} else p.listen
  {
    var e := if fd in p.events
             then Attach(p.events[fd], event, cb).(event := p.events[fd].event + event)
             else Attach(IoEvent({}, None, None), event, cb).(event := event);
    Poller(p.events[fd := e], if ctlOk then p.listen + {fd} else p.listen)
  }

  /** `epoll_del(fd)`: forget the fd entirely. */
  function EpollDel<C>(p: Poller<C>, fd: int): (r: Poller<C>)
    ensures fd !in r.events && fd !in r.listen
    ensures r.events.Keys == p.events.Keys - {fd} && r.listen == p.listen - {fd}
    ensures forall f :: f in r.events ==> r.events[f] == p.events[f]
  {
    Poller(map f | f in p.events && f != fd :: p.events[f], p.listen - {fd})
  }

  /** `epoll_del(fd, event)`: clear the bits; an fd left with no interest is
      deregistered. The result of the `EPOLL_CTL_MOD` call only decides whether
      an error is logged, so it is not a parameter. */
  function EpollDelEvent<C>(p: Poller<C>, fd: int, event: Mask): (r: Poller<C>)
    ensures fd !in p.events ==> r == p
    ensures fd in p.events && p.events[fd].event - event == {} ==> r == EpollDel(p, fd)
    ensures fd in p.events && p.events[fd].event - event != {} ==>
              && r.events == p.events[fd := p.events[fd].(event := p.events[fd].event - event)]
              && r.listen == p.listen
  {
    if fd !in p.events then p
    else
      var target := p.events[fd].event - event;
      if target == {} then EpollDel(p, fd)
      else Poller(p.events[fd := p.events[fd].(event := target)], p.listen)
  }

  /** What handling one ready event does. */
  datatype Action<C> = RunRead(cb: C) | RunWrite(cb: C) | NoAction | Deregister

  /** The dispatch rule of `execute_cbs` for one ready event on `fd`: IN runs the
      read callback, else OUT the write callback, else HUP or ERR runs the read
      callback, failing that the write callback, failing that deregisters the fd.
      At most one callback runs. */
  function Dispatch<C>(p: Poller<C>, fd: int, revents: Mask): (r: (Action<C>, Poller<C>))
    requires fd in p.events
    ensures r.0.Deregister? <==>
              EPOLLIN !in revents && EPOLLOUT !in revents && (EPOLLHUP in revents || EPOLLERR in revents)
              && p.events[fd].readCb.None? && p.events[fd].writeCb.None?
    ensures r.0.Deregister? ==> r.1 == EpollDel(p, fd)
    ensures !r.0.Deregister? ==> r.1 == p
    ensures r.0.RunRead? ==> Some(r.0.cb) == p.events[fd].readCb
                             && (EPOLLIN in revents || (EPOLLHUP in revents || EPOLLERR in revents))
    ensures r.0.RunWrite? ==> Some(r.0.cb) == p.events[fd].writeCb && EPOLLIN !in revents
    ensures EPOLLIN in revents ==> r.0 == (if p.events[fd].readCb.Some? then RunRead(p.events[fd].readCb.value) else NoAction)
    ensures EPOLLIN !in revents && EPOLLOUT in revents ==>
              r.0 == (if p.events[fd].writeCb.Some? then RunWrite(p.events[fd].writeCb.value) else NoAction)
    ensures EPOLLIN !in revents && EPOLLOUT !in revents && EPOLLHUP !in revents && EPOLLERR !in revents ==> r.0.NoAction?
  {
    var ev := p.events[fd];
    if EPOLLIN in revents then
      (if ev.readCb.Some? then RunRead(ev.readCb.value) else NoAction, p)
    else if EPOLLOUT in revents then
      (if ev.writeCb.Some? then RunWrite(ev.writeCb.value) else NoAction, p)
    else if (EPOLLHUP in revents || EPOLLERR in revents) then
      if ev.readCb.Some? then (RunRead(ev.readCb.value), p)
      else if ev.writeCb.Some? then (RunWrite(ev.writeCb.value), p)
      else (Deregister, EpollDel(p, fd))
    else (NoAction, p)
  }

  /** Removing exactly the interest that registered a new fd deregisters it. */
  lemma AddThenDelForgets<C>(p: Poller<C>, fd: int, event: Mask, cb: C, ctlOk: bool)
    requires fd !in p.events && fd !in p.listen
    ensures EpollDelEvent(EpollAdd(p, fd, event, cb, ctlOk), fd, event) == EpollDel(p, fd)
  {
    var q := EpollAdd(p, fd, event, cb, ctlOk);
    assert q.events[fd].event - event == {};
    assert EpollDelEvent(q, fd, event).events == EpollDel(p, fd).events;
  }

  /** Adding bits a known fd did not have and then removing them restores its
      mask and keeps it registered. */
  lemma AddThenDelRestoresMask<C>(p: Poller<C>, fd: int, event: Mask, cb: C, ctlOk: bool)
    requires fd in p.events && p.events[fd].event != {} && p.events[fd].event !! event
    ensures var r := EpollDelEvent(EpollAdd(p, fd, event, cb, ctlOk), fd, event);
            fd in r.events && r.events[fd].event == p.events[fd].event
  {
    var m := p.events[fd].event;
    assert (m + event) - event == m;
  }

  /** A read callback registered for IN is the one a readable event runs, and
      a write callback registered for OUT the one a writable event runs. */
  lemma AddThenDispatch<C>(p: Poller<C>, fd: int, event: Mask, cb: C, ctlOk: bool, revents: Mask)
    requires EPOLLIN in revents || (EPOLLOUT in revents && EPOLLIN !in event)
    requires EPOLLIN in revents ==> EPOLLIN in event
    requires EPOLLIN !in revents ==> EPOLLOUT in event
    ensures Dispatch(EpollAdd(p, fd, event, cb, ctlOk), fd, revents).0 ==
              (if EPOLLIN in revents then RunRead(cb) else RunWrite(cb))
  {
  }
}
