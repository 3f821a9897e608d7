/**
 Input and output buffers. A buffer holds at most one chunk from the pool;
 it grows by allocating a larger chunk and copying the live bytes over, and
 it gives its chunk back to the pool when cleared or popped empty.

 The system calls are outcome parameters: `ioctl(FIONREAD)`, `read` and
 `write` each report what happened, and the retry on `EINTR` is folded into
 the outcome the caller passes in.
 */
module DataBuf {
  import opened Base
  import opened Chunks
  import opened MemPool

  /** `data_buf`: null or the one chunk the buffer owns. */
  type Buffer = Option<Chunk>

  /** A held chunk is well formed and of a pool size class. */
  predicate BufOk(b: Buffer) {
    b.Some? ==> Valid(b.value) && IsClass(b.value.capacity)
  }

  /** The bytes a buffer currently holds. */
  function Contents(b: Buffer): seq<byte>
    requires BufOk(b)
  {
    if b.None? then [] else Live(b.value)
  }

  /** Kilobytes checked out of the pool by this buffer. */
  function HeldKb(b: Buffer): int {
    if b.None? then 0 else b.value.capacity / 1024
  }

  /** Kilobytes of the pool currently checked out to its users. */
  function OutstandingKb(p: Pool): int {
    p.totalKb - p.leftKb
  }

  /** `BufferBase::length`. */
  function Length(b: Buffer): (n: int)
    requires BufOk(b)
    ensures n == |Contents(b)|
    ensures b.None? ==> n == 0
  {
    if b.None? then 0 else b.value.length
  }

  /** The effect of a buffer operation on the pool and the buffer, and its
      return value; `Exited` is the pool's `exit(1)` at its ceiling. */
  datatype BufStep = BufStep(pool: Pool, buf: Buffer, ret: int) | Exited

  /** `BufferBase::pop(len)`: drop `len` bytes from the front; a buffer popped
      empty gives its chunk back and holds none. */
  function Pop(p: Pool, b: Buffer, len: int): (r: (Pool, Buffer))
    requires Inv(p) && BufOk(b)
    requires b.Some? && 0 <= len <= b.value.length
    ensures Inv(r.0) && BufOk(r.1)
    ensures Contents(r.1) == Contents(b)[len..]
    ensures len == b.value.length ==> r.1.None? && r.0 == Retrieve(p, Chunks.Pop(b.value, len))
    ensures len < b.value.length ==> r.1.Some? && r.0 == p && r.1.value.capacity == b.value.capacity
    ensures OutstandingKb(r.0) - HeldKb(r.1) == OutstandingKb(p) - HeldKb(b)
  {
    var c := Chunks.Pop(b.value, len);
    if c.length == 0 then (Retrieve(p, c), None) else (p, Some(c))
  }

  /** `BufferBase::clear`: give any held chunk back to the pool. */
  function Clear(p: Pool, b: Buffer): (r: (Pool, Buffer))
    requires Inv(p) && BufOk(b)
    ensures Inv(r.0) && r.1.None?
    ensures b.None? ==> r.0 == p
    ensures b.Some? ==> r.0 == Retrieve(p, b.value) && r.0.leftKb == p.leftKb + b.value.capacity / 1024
    ensures OutstandingKb(r.0) - HeldKb(r.1) == OutstandingKb(p) - HeldKb(b)
  {
    if b.Some? then (Retrieve(p, b.value), None) else (p, None)
  }

  /** The outcome of making room for `need` more bytes. */
  datatype Reservation = Reserved(pool: Pool, chunk: Chunk) | NoChunk | ReserveExited

  /** The size `Reserve` asks the pool for: `need`, or `need + length` when a
      chunk is held. */
  function RequestSize(b: Buffer, need: int): int {
    if b.None? then need else need + b.value.length
  }

  /** The grow-and-copy policy shared by `read_from_fd` and `write2buf`: with no
      chunk, allocate one for `need` bytes; with a chunk whose free tail is too
      small, allocate one for `need + length` bytes, copy the live bytes into it
      and give the old chunk back. */
  function Reserve(p: Pool, b: Buffer, need: int): (r: Reservation)
    requires Inv(p) && BufOk(b)
    requires b.Some? ==> b.value.head == 0
    ensures r.Reserved? ==> Inv(r.pool) && BufOk(Some(r.chunk))
    ensures r.Reserved? ==> r.chunk.head == 0 && Live(r.chunk) == Contents(b) && Room(r.chunk) >= need
    ensures r.Reserved? && b.None? ==> Room(r.chunk) >= MLow
    ensures r.Reserved? ==> OutstandingKb(r.pool) - r.chunk.capacity / 1024 == OutstandingKb(p) - HeldKb(b)
    ensures b.Some? && Room(b.value) >= need ==> r == Reserved(p, b.value)
    ensures r.NoChunk? <==> (b.None? && need > MUp) || (b.Some? && Room(b.value) < need && need + b.value.length > MUp)
    ensures r.ReserveExited? ==> p.totalKb + MUp / 1024 >= MaxPoolSize
  {
    if b.None? then
      match AllocChunk(p, need)
      case Null => NoChunk
      case Abort => ReserveExited
      case Got(p1, c) => Reserved(p1, c)
    else
      var cur := b.value;
      if Room(cur) < need then
        match AllocChunk(p, need + cur.length)
        case Null => NoChunk
        case Abort => ReserveExited
        case Got(p1, c) =>
          var grown := Copy(c, cur);
          var p2 := Retrieve(p1, cur);
          Reserved(p2, grown)
      else
        Reserved(p, cur)
  }

  /** Which chunk `Reserve` obtains: the class for `need` without a chunk and the
      class for `need + length` when growing, with the old chunk, emptied, at
      the head of its own class list. It ends the process only when a new
      chunk is due, that class's list is empty, and one more chunk of that
      class would reach the ceiling. */
  lemma ReserveSizing(p: Pool, b: Buffer, need: int)
    requires Inv(p) && BufOk(b)
    requires b.Some? ==> b.value.head == 0
    ensures var r := Reserve(p, b, need);
            && (r.Reserved? && b.None? ==> ClassFor(need).Some? && r.chunk.capacity == ClassFor(need).value)
            && (r.Reserved? && b.Some? && Room(b.value) < need ==>
                  && ClassFor(need + b.value.length).Some?
                  && r.chunk.capacity == ClassFor(need + b.value.length).value
                  && r.pool.lists[b.value.capacity] == [Chunks.Clear(b.value)] + p.lists[b.value.capacity])
            && (r.ReserveExited? ==>
                  && (b.None? || Room(b.value) < need)
                  && ClassFor(RequestSize(b, need)).Some?
                  && p.lists[ClassFor(RequestSize(b, need)).value] == []
                  && p.totalKb + ClassFor(RequestSize(b, need)).value / 1024 >= MaxPoolSize)
  {
  }

  /** Write `bs` right after the live bytes (the `memcpy` to `data + length`). */
  function Append(c: Chunk, bs: seq<byte>): (r: Chunk)
    requires Valid(c) && c.head == 0 && |bs| <= Room(c)
    ensures Valid(r) && r.head == 0 && r.capacity == c.capacity
    ensures Live(r) == Live(c) + bs
  {
    var d := c.data[..c.length] + bs + c.data[c.length + |bs|..];
    assert d[..c.length + |bs|] == Live(c) + bs;
    c.(length := c.length + |bs|, data := d)
  }

  /** What `ioctl(fd, FIONREAD, &need_read)` reported. */
  datatype Ioctl = IoctlFailed | Readable(need: nat)

  /** What the `read` call finally returned after retrying interrupts. */
  datatype ReadResult = ReadBytes(bytes: seq<byte>) | ReadEof | ReadFailed

  /** The read request size: `need_read`, or 4096 when the kernel reported 0. */
  function ReadRequest(need: nat): nat {
    if need == 0 then M4K else need
  }

  /** What the original relies on without checking: a read returns at most the
      request, exactly `need_read` bytes when that is non-zero, and when
      `need_read` is 0 with a chunk already held, at most the chunk's free tail
      (the 4096-byte read is issued without a capacity check). */
  predicate ReadFits(b: Buffer, io: Ioctl, rd: ReadResult)
  {
    io.Readable? && rd.ReadBytes? ==>
      && 0 < |rd.bytes| <= ReadRequest(io.need)
      && (io.need != 0 ==> |rd.bytes| == io.need)
      && (io.need == 0 && b.Some? ==> |rd.bytes| <= Room(b.value))
  }

  /** The `read` into a reserved chunk: bytes read are appended after the live
      bytes; the return value is their count, 0 at end of file, -1 on error. */
  function ReadInto(p: Pool, c: Chunk, rd: ReadResult): (r: BufStep)
    requires BufOk(Some(c)) && c.head == 0
    requires rd.ReadBytes? ==> 0 < |rd.bytes| <= Room(c)
    ensures r.BufStep? && r.pool == p && r.buf.Some? && r.buf.value.head == 0
    ensures BufOk(r.buf) && r.buf.value.capacity == c.capacity
    ensures rd.ReadBytes? ==> r.ret == |rd.bytes| && Contents(r.buf) == Live(c) + rd.bytes
    ensures !rd.ReadBytes? ==> r.buf == Some(c)
    ensures rd.ReadEof? ==> r.ret == 0
    ensures rd.ReadFailed? ==> r.ret == -1
  {
    match rd
    case ReadBytes(bs) => BufStep(p, Some(Append(c, bs)), |bs|)
    case ReadEof => BufStep(p, Some(c), 0)
    case ReadFailed => BufStep(p, Some(c), -1)
  }

  /** `InputBuffer::read_from_fd`. */
  function ReadFromFd(p: Pool, b: Buffer, io: Ioctl, rd: ReadResult): (r: BufStep)
    requires Inv(p) && BufOk(b)
    requires b.Some? ==> b.value.head == 0
    requires ReadFits(b, io, rd)
    ensures r.BufStep? ==> Inv(r.pool) && BufOk(r.buf) && (r.buf.Some? ==> r.buf.value.head == 0)
    ensures r.BufStep? ==> OutstandingKb(r.pool) - HeldKb(r.buf) == OutstandingKb(p) - HeldKb(b)
    ensures r.BufStep? && r.ret > 0 ==> rd.ReadBytes? && r.ret == |rd.bytes| && Contents(r.buf) == Contents(b) + rd.bytes
    ensures r.BufStep? && r.ret <= 0 ==> Contents(r.buf) == Contents(b)
    ensures r.BufStep? ==> (r.ret == 0 <==> io.Readable? && rd.ReadEof? && Reserve(p, b, io.need).Reserved?)
    ensures io.IoctlFailed? ==> r == BufStep(p, b, -1)
    ensures io.Readable? && Reserve(p, b, io.need).NoChunk? ==> r == BufStep(p, b, -1)
    ensures r.Exited? <==> io.Readable? && Reserve(p, b, io.need).ReserveExited?
    ensures io.Readable? && rd.ReadFailed? && Reserve(p, b, io.need).Reserved? ==> r.BufStep? && r.ret == -1
    ensures io.Readable? && rd.ReadBytes? && Reserve(p, b, io.need).Reserved? ==>
              && r.BufStep? && r.ret == |rd.bytes| > 0 && Contents(r.buf) == Contents(b) + rd.bytes
  {
    match io
    case IoctlFailed => BufStep(p, b, -1)
    case Readable(need) =>
      match Reserve(p, b, need)
      case NoChunk => BufStep(p, b, -1)
      case ReserveExited => Exited
      case Reserved(p1, c) => ReadInto(p1, c, rd)
  }

  /** `InputBuffer::adjust`: move the held bytes to offset 0. */
  function AdjustInput(b: Buffer): (r: Buffer)
    requires BufOk(b)
    ensures BufOk(r) && Contents(r) == Contents(b)
    ensures r.Some? <==> b.Some?
    ensures r.Some? ==> r.value.head == 0 && r.value.capacity == b.value.capacity
  {
    if b.Some? then Some(Adjust(b.value)) else None
  }

  /** `OutputBuffer::write2buf`: append `data`, growing as needed; 0 on success,
      -1 (nothing changed) when no chunk large enough exists. */
  function Write2Buf(p: Pool, b: Buffer, data: seq<byte>): (r: BufStep)
    requires Inv(p) && BufOk(b)
    requires b.Some? ==> b.value.head == 0
    ensures r.BufStep? ==> Inv(r.pool) && BufOk(r.buf) && (r.ret == 0 || r.ret == -1)
    ensures r.BufStep? ==> OutstandingKb(r.pool) - HeldKb(r.buf) == OutstandingKb(p) - HeldKb(b)
    ensures r.BufStep? && r.ret == 0 ==> Contents(r.buf) == Contents(b) + data && r.buf.Some? && r.buf.value.head == 0
    ensures r.BufStep? && r.ret == -1 ==> r.pool == p && r.buf == b
    ensures r.BufStep? && r.ret == -1 <==> Reserve(p, b, |data|).NoChunk?
    ensures |data| + Length(b) <= MUp ==> !(r.BufStep? && r.ret == -1)
    ensures r.BufStep? && r.ret == 0 ==>
              && Reserve(p, b, |data|).Reserved?
              && r.pool == Reserve(p, b, |data|).pool
              && r.buf.value.capacity == Reserve(p, b, |data|).chunk.capacity
    ensures r.Exited? <==> Reserve(p, b, |data|).ReserveExited?
  {
    match Reserve(p, b, |data|)
    case NoChunk => BufStep(p, b, -1)
    case ReserveExited => Exited
    case Reserved(p1, c) => BufStep(p1, Some(Append(c, data)), 0)
  }

  /** What the `write` call finally returned after retrying interrupts. */
  datatype WriteResult = Wrote(count: int) | WouldBlock | WriteFailed

  /** A `write` of the live bytes never reports more than it was given. */
  predicate WriteFits(b: Buffer, w: WriteResult)
    requires BufOk(b)
  {
    w.Wrote? ==> 0 <= w.count <= Length(b)
  }

  /** The buffer after a `write2fd`, its return value, and the bytes the kernel took. */
  datatype WriteOut = WriteOut(buf: Buffer, ret: int, sent: seq<byte>)

  /** `OutputBuffer::write2fd`: write from offset 0, drop what was written and
      compact. The chunk is kept even when it empties. EAGAIN reads as 0. */
  function Write2Fd(b: Buffer, w: WriteResult): (r: WriteOut)
    requires BufOk(b) && b.Some? && b.value.head == 0
    requires WriteFits(b, w)
    ensures BufOk(r.buf) && r.buf.Some? && r.buf.value.head == 0
    ensures r.buf.value.capacity == b.value.capacity
    ensures r.sent + Contents(r.buf) == Contents(b)
    ensures r.ret == |r.sent| || (r.ret == -1 && r.sent == [])
    ensures w.Wrote? ==> r.ret == w.count
    ensures w.WouldBlock? ==> r.ret == 0 && r.buf == b
    ensures w.WriteFailed? ==> r.ret == -1 && r.buf == b
  {
    match w
    case Wrote(k) =>
      if k > 0 then
        var c := Adjust(Chunks.Pop(b.value, k));
        assert Live(b.value) == Live(b.value)[..k] + Live(b.value)[k..];
        WriteOut(Some(c), k, Live(b.value)[..k])
      else WriteOut(b, 0, [])
    case WouldBlock => WriteOut(b, 0, [])
    case WriteFailed => WriteOut(b, -1, [])
  }

  /** The write outcomes a sequence of `write2fd` calls may see, each within its buffer. */
  ghost predicate Drainable(b: Buffer, ws: seq<WriteResult>)
    requires BufOk(b) && b.Some? && b.value.head == 0
    decreases |ws|
  {
    ws != [] ==> WriteFits(b, ws[0]) && Drainable(Write2Fd(b, ws[0]).buf, ws[1..])
  }

  /** Repeated `write2fd`: the final buffer and every byte handed to the kernel. */
  function Drain(b: Buffer, ws: seq<WriteResult>): (r: (Buffer, seq<byte>))
    requires BufOk(b) && b.Some? && b.value.head == 0
    requires Drainable(b, ws)
    ensures BufOk(r.0) && r.0.Some? && r.0.value.head == 0
    ensures r.0.value.capacity == b.value.capacity
    decreases |ws|
  {
    if ws == [] then (b, [])
    else
      var s := Write2Fd(b, ws[0]);
      var rest := Drain(s.buf, ws[1..]);
      (rest.0, s.sent + rest.1)
  }

  /** Draining never loses or reorders bytes: what was sent followed by what is
      left is what the buffer held. */
  lemma {:induction false} DrainPreserves(b: Buffer, ws: seq<WriteResult>)
    requires BufOk(b) && b.Some? && b.value.head == 0
    requires Drainable(b, ws)
    ensures var r := Drain(b, ws);
            r.1 + Contents(r.0) == Contents(b)
    decreases |ws|
  {
    if ws != [] {
      var s := Write2Fd(b, ws[0]);
      DrainPreserves(s.buf, ws[1..]);
    }
  }

  /** Writing into an empty output buffer that does not end the process
      leaves exactly the data in a chunk. */
  lemma WriteIntoEmpty(p: Pool, data: seq<byte>)
    requires Inv(p) && |data| <= MUp
    requires Write2Buf(p, None, data).BufStep?
    ensures var s := Write2Buf(p, None, data);
            s.ret == 0 && s.buf.Some? && s.buf.value.head == 0 && BufOk(s.buf) && Contents(s.buf) == data && Inv(s.pool)
  {
  }

  /** Reading `data` into an empty input buffer, when it does not end the
      process, returns its length and holds exactly it. */
  lemma ReadIntoEmpty(p: Pool, data: seq<byte>)
    requires Inv(p) && 0 < |data| <= MUp
    ensures ReadFits(None, Readable(|data|), ReadBytes(data))
    ensures var rr := ReadFromFd(p, None, Readable(|data|), ReadBytes(data));
            rr.BufStep? ==> rr.ret == |data| && Contents(rr.buf) == data
  {
  }

  /** Bytes survive the trip through the buffers: appended to an empty output
      buffer, drained to the socket until nothing is left, and read back into an
      empty input buffer, they arrive unchanged. */
  lemma BufferRoundTrip(p: Pool, data: seq<byte>, ws: seq<WriteResult>)
    requires Inv(p) && 0 < |data| <= MUp
    requires Write2Buf(p, None, data).BufStep?
    requires Drainable(Write2Buf(p, None, data).buf, ws)
    requires Length(Drain(Write2Buf(p, None, data).buf, ws).0) == 0
    ensures Write2Buf(p, None, data).ret == 0
    ensures Drain(Write2Buf(p, None, data).buf, ws).1 == data
    ensures ReadFits(None, Readable(|data|), ReadBytes(data))
    ensures var rr := ReadFromFd(Write2Buf(p, None, data).pool, None, Readable(|data|), ReadBytes(data));
            rr.BufStep? ==> rr.ret == |data| && Contents(rr.buf) == data
  {
    var s := Write2Buf(p, None, data);
    WriteIntoEmpty(p, data);
    DrainPreserves(s.buf, ws);
    ReadIntoEmpty(s.pool, data);
  }

  /** Two appends to an empty output buffer, the second possibly growing it,
      drain as one stream: the bytes reach the socket as `d1 + d2`. When the
      first chunk lacks room for `d2`, the buffer moves to the class for
      `|d1| + |d2|` and the first chunk, emptied, heads its own class list. */
  lemma TwoWriteRoundTrip(p: Pool, d1: seq<byte>, d2: seq<byte>, ws: seq<WriteResult>)
    requires Inv(p) && |d1| + |d2| <= MUp
    ensures var s1 := Write2Buf(p, None, d1);
            s1.BufStep? ==>
              && s1.ret == 0 && s1.buf.Some?
              && var s2 := Write2Buf(s1.pool, s1.buf, d2);
                 s2.BufStep? ==>
                   && s2.ret == 0 && Contents(s2.buf) == d1 + d2
                   && (Drainable(s2.buf, ws) && Length(Drain(s2.buf, ws).0) == 0 ==> Drain(s2.buf, ws).1 == d1 + d2)
                   && (Room(s1.buf.value) < |d2| ==>
                         && s2.buf.value.capacity == ClassFor(|d1| + |d2|).value
                         && s2.buf.value.capacity > s1.buf.value.capacity
                         && s2.pool.lists[s1.buf.value.capacity]
                            == [Chunks.Clear(s1.buf.value)] + s1.pool.lists[s1.buf.value.capacity])
  {
    var s1 := Write2Buf(p, None, d1);
    if s1.BufStep? {
      WriteIntoEmpty(p, d1);
      var s2 := Write2Buf(s1.pool, s1.buf, d2);
      if s2.BufStep? {
        assert s2.ret == 0;
        ReserveSizing(s1.pool, s1.buf, |d2|);
        if Drainable(s2.buf, ws) {
          DrainPreserves(s2.buf, ws);
        }
      }
    }
  }
}
