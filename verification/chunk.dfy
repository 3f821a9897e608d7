/**
 A Chunk is a fixed-capacity byte buffer. Its live bytes are the window
 `data[head .. head + length)`; everything outside the window is slack.
 The `next` link of the original is not a field here: while a chunk sits in a
 pool free list, its successor is the next element of that list (see MemPool).
 */
module Chunks {
  import opened Base

  datatype Chunk = Chunk(capacity: int, length: int, head: int, data: seq<byte>)

  /** The structural invariant every chunk keeps: the live window fits inside the storage. */
  predicate Valid(c: Chunk) {
    && 0 <= c.head
    && 0 <= c.length
    && c.head + c.length <= c.capacity
    && |c.data| == c.capacity
  }

  /** The live bytes of a chunk. */
  function Live(c: Chunk): seq<byte>
    requires Valid(c)
  {
    c.data[c.head .. c.head + c.length]
  }

  /** Free space after the live window's end when the window starts at 0. */
  function Room(c: Chunk): int {
    c.capacity - c.length
  }

  /** `Chunk(size)`: storage of `size` bytes, empty window at offset 0. The fresh
      storage of `new char[size]` is indeterminate; it is modelled as zeros. */
  function New(size: nat): (c: Chunk)
    ensures Valid(c)
    ensures c.capacity == size
    ensures c.length == 0 && c.head == 0
    ensures Live(c) == []
  {
    Chunk(size, 0, 0, seq(size, _ => 0))
  }

  /** `Chunk::clear`: forget the live bytes without touching the storage. */
  function Clear(c: Chunk): (r: Chunk)
    requires Valid(c)
    ensures Valid(r)
    ensures r.length == 0 && r.head == 0
    ensures r.capacity == c.capacity && r.data == c.data
    ensures Live(r) == []
  {
    c.(length := 0, head := 0)
  }

  /** `Chunk::adjust`: move the live bytes to offset 0 (a `memmove`), bytes past
      the window keep their old values. */
  function Adjust(c: Chunk): (r: Chunk)
    requires Valid(c)
    ensures Valid(r)
    ensures r.head == 0
    ensures r.length == c.length && r.capacity == c.capacity
    ensures Live(r) == Live(c)
    ensures c.head == 0 ==> r == c
  {
    if c.head != 0 then
      var moved := if c.length != 0 then Live(c) + c.data[c.length..] else c.data;
      c.(head := 0, data := moved)
    else
      c
  }

  /** `Chunk::copy(other)`: copy other's live bytes to the front of this storage. */
  function Copy(c: Chunk, other: Chunk): (r: Chunk)
    requires Valid(c) && Valid(other)
    requires other.length <= c.capacity
    ensures Valid(r)
    ensures r.head == 0 && r.length == other.length
    ensures r.capacity == c.capacity
    ensures Live(r) == Live(other)
  {
    c.(head := 0, length := other.length, data := Live(other) + c.data[other.length..])
  }

  /** `Chunk::pop(len)`: drop the first `len` live bytes by advancing the head. */
  function Pop(c: Chunk, len: int): (r: Chunk)
    requires Valid(c)
    requires 0 <= len <= c.length
    ensures Valid(r)
    ensures r.head + r.length == c.head + c.length
    ensures r.capacity == c.capacity && r.data == c.data
    ensures Live(r) == Live(c)[len..]
  {
    c.(length := c.length - len, head := c.head + len)
  }

  /** Adjusting twice is adjusting once: a restatement of `Adjust`'s head-0
      clause, kept as a named fact. */
  lemma AdjustIdempotent(c: Chunk)
    requires Valid(c)
    ensures Adjust(Adjust(c)) == Adjust(c)
  {
  }
}
