/**
 The log's bounded ring queue: an array of `capacity` slots with a `first`
 index (one before the oldest item, -1 when fresh), a `last` index (the newest
 item, -1 when fresh) and a `size`. Only the non-blocking behaviour is
 modelled: a `pop` on an empty queue returns false instead of waiting.
 */
module LogQueue {
  import opened Base

  /** Capacity of the default-constructed queue. */
  const DefaultCapacity := 1000

  datatype Queue<T> = Queue(arr: seq<T>, capacity: int, first: int, last: int, size: int,
                            debug: bool, rcnt: int, wcnt: int)

  /** An index in `[-1, 2 * capacity)` folded back into `[-1, capacity)`. */
  function Wrap(x: int, cap: int): int {
    if x >= cap then x - cap else x
  }

  /** The ring invariant: `last` is `size` slots after `first`, modulo the capacity. */
  ghost predicate Inv<T>(q: Queue<T>) {
    && q.capacity > 0 && |q.arr| == q.capacity
    && 0 <= q.size <= q.capacity
    && -1 <= q.first < q.capacity
    && -1 <= q.last < q.capacity
    && q.last == Wrap(q.first + q.size, q.capacity)
  }

  /** The array slot of the `i`-th oldest item. */
  function Slot<T>(q: Queue<T>, i: int): int
    requires Inv(q) && 0 <= i < q.size
    ensures 0 <= Slot(q, i) < q.capacity
  {
    Wrap(q.first + 1 + i, q.capacity)
  }

  /** The items in the queue, oldest first. */
  function Items<T>(q: Queue<T>): seq<T>
    requires Inv(q)
  {
    seq(q.size, i requires 0 <= i < q.size => q.arr[Slot(q, i)])
  }

  /** The C++ `%` on the non-negative operands the queue uses is a wrap-around. */
  lemma ModIsWrap(x: int, cap: int)
    requires cap > 0 && 0 <= x <= cap
    ensures x % cap == Wrap(x, cap)
  {
    if x == cap {
      assert x % cap == 0;
    }
  }

  /** The default constructor as evidently intended: 1000 slots, debug off.
      Slots hold `fill`, the element type's default value. */
  function CreateDefault<T>(fill: T): (q: Queue<T>)
    ensures Inv(q) && q.capacity == DefaultCapacity && Items(q) == [] && !q.debug
  {
    Queue(seq(DefaultCapacity, _ => fill), DefaultCapacity, -1, -1, 0, false, 0, 0)
  }

  /** The default constructor as written: `b_array(new T[capacity])` runs
      before `capacity` receives its initial value 1000, because `b_array` is
      declared first and members are initialised in declaration order. The
      array therefore has whatever length `capacity` held, `arrLen` here,
      while the queue goes on to use a capacity of 1000. */
  function CreateDefaultAsWritten<T>(arrLen: nat, fill: T): (q: Queue<T>)
    ensures Inv(q) <==> arrLen == DefaultCapacity
    ensures q.capacity == DefaultCapacity && |q.arr| == arrLen && q.size == 0 && q.last == -1
  {
    Queue(seq(arrLen, _ => fill), DefaultCapacity, -1, -1, 0, false, 0, 0)
  }

  /** `push` as written, without presuming that the array has `capacity`
      slots: `None` is the store past the end of the array. */
  function PushAsWritten<T>(q: Queue<T>, x: T): (r: Option<(bool, Queue<T>)>)
    requires q.capacity > 0 && -1 <= q.last < q.capacity
    ensures r.None? <==> q.size < q.capacity && (q.last + 1) % q.capacity >= |q.arr|
    ensures Inv(q) ==> r == Some(Push(q, x))
    ensures r.Some? ==> r.value.1.capacity == q.capacity && -1 <= r.value.1.last < q.capacity
    ensures r.Some? ==> |r.value.1.arr| == |q.arr|
    ensures r.Some? && r.value.0 ==> r.value.1.size == q.size + 1 && r.value.1.last == (q.last + 1) % q.capacity
  {
    if q.size >= q.capacity then Some((false, q))
    else
      var nl := (q.last + 1) % q.capacity;
      if nl >= |q.arr| then None
      else Some((true, q.(last := nl, arr := q.arr[nl := x], size := q.size + 1,
                          wcnt := if q.debug then q.wcnt + 1 else q.wcnt)))
  }

  /** `n` successive as-written pushes of `x`; `None` once one of them stores
      past the array. */
  function PushTimes<T>(q: Queue<T>, x: T, n: nat): (r: Option<Queue<T>>)
    requires q.capacity > 0 && -1 <= q.last < q.capacity
    ensures r.Some? ==> r.value.capacity == q.capacity && -1 <= r.value.last < q.capacity
    ensures r.Some? ==> |r.value.arr| == |q.arr|
    decreases n
  {
    if n == 0 then Some(q)
    else match PushAsWritten(q, x)
      case None => None
      case Some((_, q1)) => PushTimes(q1, x, n - 1)
  }

  /** From a queue of capacity 1000 holding `j` items that end at slot
      `j - 1`, `k` more as-written pushes succeed while `j + k` stays within a
      shorter array. */
  lemma {:induction false} PushTimesShift<T>(q: Queue<T>, x: T, k: nat, j: nat)
    requires q.capacity == DefaultCapacity && q.size == j && q.last == j - 1
    requires j + k <= |q.arr| < DefaultCapacity
    ensures PushTimes(q, x, k).Some?
    ensures PushTimes(q, x, k).value.size == j + k && PushTimes(q, x, k).value.last == j + k - 1
    decreases k
  {
    if k > 0 {
      assert (q.last + 1) % q.capacity == j;
      var q1 := PushAsWritten(q, x).value.1;
      assert q1.size == j + 1 && q1.last == j;
      PushTimesShift(q1, x, k - 1, j + 1);
    }
  }

  /** Whenever the length `capacity` held at construction is below 1000, the
      default-constructed queue accepts `arrLen` pushes and then, though not
      full, stores the next one past the end of the array. */
  lemma DefaultPushesPastArray<T>(arrLen: nat, x: T)
    requires arrLen < DefaultCapacity
    ensures var q := PushTimes(CreateDefaultAsWritten(arrLen, x), x, arrLen);
            && q.Some?
            && q.value.size < q.value.capacity
            && PushAsWritten(q.value, x).None?
  {
    PushTimesShift(CreateDefaultAsWritten(arrLen, x), x, arrLen, 0);
  }

  /** `buffer_queue(max_size, debug)`; `None` is the `invalid_argument` thrown for
      a non-positive size. */
  function Create<T>(maxSize: int, debug: bool, fill: T): (r: Option<Queue<T>>)
    ensures r.None? <==> maxSize <= 0
    ensures r.Some? ==> Inv(r.value) && r.value.capacity == maxSize && Items(r.value) == []
    ensures r.Some? ==> r.value.debug == debug && r.value.rcnt == 0 && r.value.wcnt == 0
  {
    if maxSize <= 0 then None
    else Some(Queue(seq(maxSize, _ => fill), maxSize, -1, -1, 0, debug, 0, 0))
  }

  /** `clear`: empty the queue; the counters restart only in debug mode. */
  function Clear<T>(q: Queue<T>): (r: Queue<T>)
    requires Inv(q)
    ensures Inv(r) && Items(r) == [] && r.capacity == q.capacity && r.debug == q.debug
    ensures r.first == -1 && r.last == -1
    ensures q.debug ==> r.rcnt == 0 && r.wcnt == 0
    ensures !q.debug ==> r.rcnt == q.rcnt && r.wcnt == q.wcnt
  {
    var q1 := if q.debug then q.(rcnt := 0, wcnt := 0) else q;
    q1.(first := -1, last := -1, size := 0)
  }

  /** The conversion of a `long long` counter to the `int` the getters return:
      the value modulo 2^32, read as a signed 32-bit number. */
  function ToInt32(x: int): (r: int)
    ensures -0x8000_0000 <= r < 0x8000_0000
    ensures (x - r) % 0x1_0000_0000 == 0
    ensures -0x8000_0000 <= x < 0x8000_0000 ==> r == x
  {
    (x + 0x8000_0000) % 0x1_0000_0000 - 0x8000_0000
  }

  /** `get_rcnt`: the pop counter narrowed to `int` in debug mode, -1 otherwise. */
  function GetRcnt<T>(q: Queue<T>): (r: int)
    ensures q.debug ==> r == ToInt32(q.rcnt)
    ensures q.debug && 0 <= q.rcnt < 0x8000_0000 ==> r == q.rcnt
    ensures !q.debug ==> r == -1
  {
    if q.debug then ToInt32(q.rcnt) else -1
  }

  /** `get_wcnt`: the push counter narrowed to `int` in debug mode, -1 otherwise. */
  function GetWcnt<T>(q: Queue<T>): (r: int)
    ensures q.debug ==> r == ToInt32(q.wcnt)
    ensures q.debug && 0 <= q.wcnt < 0x8000_0000 ==> r == q.wcnt
    ensures !q.debug ==> r == -1
  {
    if q.debug then ToInt32(q.wcnt) else -1
  }

  /** `get_size`: the number of items, always within the capacity. */
  function GetSize<T>(q: Queue<T>): (r: int)
    requires Inv(q)
    ensures r == |Items(q)| && 0 <= r <= q.capacity
  {
    q.size
  }

  function IsFull<T>(q: Queue<T>): (r: bool)
    requires Inv(q)
    ensures r <==> |Items(q)| == q.capacity
  {
    q.size == q.capacity
  }

  function IsEmpty<T>(q: Queue<T>): (r: bool)
    requires Inv(q)
    ensures r <==> Items(q) == []
  {
    q.size == 0
  }

  /** `push`: false on a full queue, otherwise store at the slot after `last`. */
  function Push<T>(q: Queue<T>, x: T): (r: (bool, Queue<T>))
    requires Inv(q)
    ensures Inv(r.1) && r.1.capacity == q.capacity && r.1.debug == q.debug
    ensures !r.0 <==> q.size >= q.capacity
    ensures !r.0 ==> r.1 == q
    ensures r.0 ==> Items(r.1) == Items(q) + [x]
    ensures r.0 ==> r.1.last == (q.last + 1) % q.capacity && r.1.arr[r.1.last] == x
    ensures r.0 ==> r.1.first == q.first
    ensures r.1.wcnt == q.wcnt + (if r.0 && q.debug then 1 else 0) && r.1.rcnt == q.rcnt
  {
    if q.size >= q.capacity then (false, q)
    else
      var nl := (q.last + 1) % q.capacity;
      ModIsWrap(q.last + 1, q.capacity);
      var q' := q.(last := nl, arr := q.arr[nl := x], size := q.size + 1,
                   wcnt := if q.debug then q.wcnt + 1 else q.wcnt);
      assert Items(q') == Items(q) + [x] by {
        forall i | 0 <= i < q.size
          ensures Items(q')[i] == Items(q)[i]
        {
          assert Slot(q', i) == Slot(q, i) != nl;
        }
        assert Slot(q', q.size) == nl;
      }
      (true, q')
  }

  /** The non-blocking outcome of `pop`: `None` when the queue is empty. */
  datatype PopOut<T> = PopOut(item: Option<T>, queue: Queue<T>)

  /** `pop`: take the oldest item from the slot after `first`. */
  function Pop<T>(q: Queue<T>): (r: PopOut<T>)
    requires Inv(q)
    ensures Inv(r.queue) && r.queue.capacity == q.capacity && r.queue.debug == q.debug
    ensures r.item.None? <==> Items(q) == []
    ensures r.item.None? ==> r.queue == q
    ensures r.item.Some? ==> r.item.value == Items(q)[0] && Items(r.queue) == Items(q)[1..]
    ensures r.item.Some? ==> r.queue.first == Wrap(q.first + 1, q.capacity)
    ensures r.queue.rcnt == q.rcnt + (if r.item.Some? && q.debug then 1 else 0) && r.queue.wcnt == q.wcnt
  {
    if q.size <= 0 then PopOut(None, q)
    else
      var nf := (q.first + 1) % q.capacity;
      ModIsWrap(q.first + 1, q.capacity);
      var q' := q.(first := nf, size := q.size - 1,
                   rcnt := if q.debug then q.rcnt + 1 else q.rcnt);
      assert Items(q') == Items(q)[1..] by {
        forall i | 0 <= i < q'.size
          ensures Items(q')[i] == Items(q)[i + 1]
        {
          assert Slot(q', i) == Slot(q, i + 1);
        }
      }
      PopOut(Some(q.arr[nf]), q')
  }

  /** What `front` reads: nothing, an in-range slot, or the slot index it reads
      past the end of the array. */
  datatype FrontRead<T> = FrontEmpty | InBounds(value: T) | OutOfBounds(index: int)

  /** `front` as written: it reads `b_array[b_first + 1]` without wrapping, so
      when `first` sits on the last slot the read is one past the array. */
  function FrontAsWritten<T>(q: Queue<T>): (r: FrontRead<T>)
    requires Inv(q)
    ensures r.FrontEmpty? <==> Items(q) == []
    ensures r.OutOfBounds? <==> q.size > 0 && q.first + 1 == q.capacity
    ensures r.OutOfBounds? ==> r.index == q.capacity
    ensures r.InBounds? ==> r.value == Items(q)[0]
  {
    if q.size == 0 then FrontEmpty
    else if q.first + 1 < q.capacity then InBounds(q.arr[q.first + 1])
    else OutOfBounds(q.first + 1)
  }

  /** `front` with the index wrapped like `pop` does: the oldest item. */
  function Front<T>(q: Queue<T>): (r: Option<T>)
    requires Inv(q)
    ensures r.None? <==> Items(q) == []
    ensures r.Some? ==> r.value == Items(q)[0] && r.value == Pop(q).item.value
  {
    if q.size == 0 then None
    else
      ModIsWrap(q.first + 1, q.capacity);
      Some(q.arr[(q.first + 1) % q.capacity])
  }

  /** `back`: the newest item, read from `last`. */
  function Back<T>(q: Queue<T>): (r: Option<T>)
    requires Inv(q)
    ensures r.None? <==> Items(q) == []
    ensures r.Some? ==> r.value == Items(q)[|Items(q)| - 1]
  {
    if q.size == 0 then None
    else
      assert Slot(q, q.size - 1) == q.last;
      Some(q.arr[q.last])
  }

  /** A one-slot queue that has been pushed, popped and pushed again holds one
      item, with `first` on the last slot: `front` reads `b_array[1]`. */
  lemma FrontReadsPastEnd()
    ensures var q0 := Create(1, false, 0).value;
            var q3 := Push(Pop(Push(q0, 7).1).queue, 8).1;
            Items(q3) == [8] && FrontAsWritten(q3) == OutOfBounds(1) && Front(q3) == Some(8)
  {
    var q0 := Create(1, false, 0).value;
    var q1 := Push(q0, 7).1;
    var q2 := Pop(q1).queue;
    var q3 := Push(q2, 8).1;
    assert Inv(q1) && q1.first == -1 && q1.size == 1 by {
      assert q0.first == -1 && q0.size == 0;
    }
    assert Inv(q2) && q2.first == 0 && Items(q2) == [] by {
      assert Items(q1) != [];
    }
    assert q3.first == 0 && Items(q3) == [8];
  }

  // ---------------------------------------------------------------------------
  // Traces: the ring behaves as a bounded FIFO and the debug counters count.

  datatype Op<T> = PushOp(x: T) | PopOp

  /** The reference bounded FIFO: a push past `cap` items is refused, a pop
      takes the head. Returns the final contents and the popped items. */
  function FifoRun<T>(items: seq<T>, cap: int, ops: seq<Op<T>>): (seq<T>, seq<T>)
    decreases |ops|
  {
    if ops == [] then (items, [])
    else match ops[0]
      case PushOp(x) =>
        FifoRun(if |items| < cap then items + [x] else items, cap, ops[1..])
      case PopOp =>
        if items == [] then FifoRun(items, cap, ops[1..])
        else var r := FifoRun(items[1..], cap, ops[1..]); (r.0, [items[0]] + r.1)
  }

  datatype RunOut<T> = RunOut(queue: Queue<T>, popped: seq<T>, pushes: nat, pops: nat)

  /** Apply a sequence of operations to the ring, recording what was popped and
      how many pushes and pops succeeded. */
  function Run<T>(q: Queue<T>, ops: seq<Op<T>>): (r: RunOut<T>)
    requires Inv(q)
    ensures Inv(r.queue) && r.queue.capacity == q.capacity && r.queue.debug == q.debug
    decreases |ops|
  {
    if ops == [] then RunOut(q, [], 0, 0)
    else match ops[0]
      case PushOp(x) =>
        var (ok, q') := Push(q, x);
        var r := Run(q', ops[1..]);
        r.(pushes := r.pushes + (if ok then 1 else 0))
      case PopOp =>
        var p := Pop(q);
        var r := Run(p.queue, ops[1..]);
        if p.item.Some? then r.(popped := [p.item.value] + r.popped, pops := r.pops + 1) else r
  }

  /** The ring agrees with the reference FIFO on every trace. */
  lemma {:induction false} RunIsFifo<T>(q: Queue<T>, ops: seq<Op<T>>)
    requires Inv(q)
    ensures Items(Run(q, ops).queue) == FifoRun(Items(q), q.capacity, ops).0
    ensures Run(q, ops).popped == FifoRun(Items(q), q.capacity, ops).1
    decreases |ops|
  {
    if ops != [] {
      match ops[0]
      case PushOp(x) => RunIsFifo(Push(q, x).1, ops[1..]);
      case PopOp => RunIsFifo(Pop(q).queue, ops[1..]);
    }
  }

  /** In debug mode the counters count exactly the successful pushes and pops;
      otherwise they do not move. */
  lemma {:induction false} RunCounts<T>(q: Queue<T>, ops: seq<Op<T>>)
    requires Inv(q)
    ensures var r := Run(q, ops);
            && r.queue.wcnt == q.wcnt + (if q.debug then r.pushes else 0)
            && r.queue.rcnt == q.rcnt + (if q.debug then r.pops else 0)
    decreases |ops|
  {
    if ops != [] {
      match ops[0]
      case PushOp(x) => RunCounts(Push(q, x).1, ops[1..]);
      case PopOp => RunCounts(Pop(q).queue, ops[1..]);
    }
  }

  /** What the counter getters report after a trace: in debug mode the earlier
      counts plus the successful pushes and pops, narrowed to `int`, and -1
      otherwise. */
  lemma {:induction false} CountersReport<T>(q: Queue<T>, ops: seq<Op<T>>)
    requires Inv(q)
    ensures var r := Run(q, ops);
            && GetWcnt(r.queue) == (if q.debug then ToInt32(q.wcnt + r.pushes) else -1)
            && GetRcnt(r.queue) == (if q.debug then ToInt32(q.rcnt + r.pops) else -1)
  {
    RunCounts(q, ops);
  }

  /** A queue cleared in debug mode and then run reports exactly that run's
      successful pushes and pops, as long as they fit in an `int`. */
  lemma ClearThenCount<T>(q: Queue<T>, ops: seq<Op<T>>)
    requires Inv(q) && q.debug
    ensures var r := Run(Clear(q), ops);
            && GetWcnt(r.queue) == ToInt32(r.pushes) && GetRcnt(r.queue) == ToInt32(r.pops)
            && (r.pushes < 0x8000_0000 ==> GetWcnt(r.queue) == r.pushes)
            && (r.pops < 0x8000_0000 ==> GetRcnt(r.queue) == r.pops)
  {
    CountersReport(Clear(q), ops);
  }
}
