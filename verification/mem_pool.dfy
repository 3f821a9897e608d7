/**
 The size-classed chunk pool. One LIFO free list per size class (4K * 4^i for
 i = 0..5); requests are rounded up to a class; two counters track the pool in
 kilobytes: `totalKb` (every chunk the pool ever created) and `leftKb` (the
 chunks currently on a free list).

 A free list is a sequence whose first element is the list head; the `next`
 link of a chunk in the list is the following element.
 */
module MemPool {
  import opened Base
  import opened Chunks

  const MemCapMultiPower := 4
  const M4K := 4096
  const M16K := M4K * MemCapMultiPower
  const M64K := M16K * MemCapMultiPower
  const M256K := M64K * MemCapMultiPower
  const M1M := M256K * MemCapMultiPower
  const M4M := M1M * MemCapMultiPower
  const MLow := M4K
  const MUp := M4M

  /** The six size classes, smallest first. */
  const Classes: seq<int> := [M4K, M16K, M64K, M256K, M1M, M4M]

  /** The pool ceiling. The original compares it against the kilobyte counter,
      so it is 4 Gi bytes expressed in KB, not the 4 MB the constant's name suggests. */
  const MaxPoolSize := 4 * 1024 * 1024

  predicate IsClass(n: int) {
    n == M4K || n == M16K || n == M64K || n == M256K || n == M1M || n == M4M
  }

  /** The classes as a set: the keys of the pool's map. */
  const ClassSet: set<int> := {M4K, M16K, M64K, M256K, M1M, M4M}

  /** `Classes` lists exactly the classes, each four times the previous. */
  lemma ClassesShape()
    ensures |Classes| == 6 && Classes[0] == MLow && Classes[5] == MUp
    ensures forall i :: 0 <= i < |Classes| ==> IsClass(Classes[i])
    ensures forall k :: IsClass(k) ==> k in Classes
    ensures forall i :: 0 < i < |Classes| ==> Classes[i] == Classes[i - 1] * MemCapMultiPower
  {
  }

  datatype Pool = Pool(lists: map<int, seq<Chunk>>, totalKb: int, leftKb: int)

  /** A chunk as it sits in the free list of class `k`. */
  predicate FreeChunk(c: Chunk, k: int) {
    Valid(c) && c.capacity == k && c.length == 0 && c.head == 0
  }

  /** Sum of the capacities along a free list (what the list-size query walks). */
  function ListBytes(l: seq<Chunk>): int {
    if |l| == 0 then 0 else l[0].capacity + ListBytes(l[1..])
  }

  /** Kilobytes the free list of class `k` holds, as the list-size query reports it. */
  function ListKb(lists: map<int, seq<Chunk>>, k: int): int
    requires k in lists
  {
    ListBytes(lists[k]) / 1024
  }

  /** Kilobytes held on all free lists. */
  function FreeKb(p: Pool): int
    requires ClassSet <= p.lists.Keys
  {
    var ls := p.lists;
    ListKb(ls, M4K) + ListKb(ls, M16K) + ListKb(ls, M64K)
    + ListKb(ls, M256K) + ListKb(ls, M1M) + ListKb(ls, M4M)
  }

  /** The pool invariant: exactly the six classes have a list, every listed chunk
      is an empty chunk of its class, and `leftKb` is what the lists hold. */
  ghost predicate Inv(p: Pool) {
    && p.lists.Keys == ClassSet
    && (forall k, i :: k in p.lists && 0 <= i < |p.lists[k]| ==> FreeChunk(p.lists[k][i], k))
    && p.leftKb == FreeKb(p)
  }

  // ---------------------------------------------------------------------------
  // Size-class selection

  /** The smallest class in `Classes[i..]` that is at least `n`. */
  function ClassFrom(n: int, i: nat): (r: Option<int>)
    decreases |Classes| - i
    ensures r.Some? ==> IsClass(r.value) && n <= r.value
    ensures r.Some? ==> forall j :: i <= j < |Classes| && Classes[j] < r.value ==> Classes[j] < n
    ensures r.None? <==> (i >= |Classes| || n > MUp)
  {
    if i >= |Classes| then None
    else if n <= Classes[i] then Some(Classes[i])
    else ClassFrom(n, i + 1)
  }

  /** The class an allocation of `n` bytes is served from; None above 4M. */
  function ClassFor(n: int): (r: Option<int>)
    ensures r.None? <==> n > MUp
    ensures r.Some? ==> IsClass(r.value) && n <= r.value
    ensures r.Some? ==> forall k :: IsClass(k) && k < r.value ==> k < n
    ensures n <= MLow ==> r == Some(MLow)
  {
    ClassFrom(n, 0)
  }

  /** The class-search loop of `alloc_chunk`, as written: start at mLow and
      multiply by 4 while not above mUp. */
  method SelectClass(n: int) returns (found: bool, index: int)
    ensures found <==> ClassFor(n).Some?
    ensures found ==> index == ClassFor(n).value
  {
    index := MLow;
    found := false;
    var i := 0;
    while index <= MUp
      invariant 0 <= i <= |Classes|
      invariant i < |Classes| ==> index == Classes[i]
      invariant i == |Classes| ==> index == MUp * MemCapMultiPower
      invariant forall j :: 0 <= j < i ==> Classes[j] < n
      decreases |Classes| - i
    {
      if n <= index {
        found := true;
        break;
      }
      index := index * MemCapMultiPower;
      i := i + 1;
    }
  }

  // ---------------------------------------------------------------------------
  // Construction

  /** `n` fresh chunks of `size` bytes chained into a list. */
  function FreshList(size: nat, n: nat): (l: seq<Chunk>)
    ensures |l| == n
    ensures forall j :: 0 <= j < n ==> FreeChunk(l[j], size)
  {
    seq(n, _ => New(size))
  }

  /** `mem_init(size, chunk_num)`: the class list is replaced by a fresh chain.
      The first chunk is created before the loop, so the chain always has at
      least one chunk, while the total grows by `size / 1024 * chunk_num`. */
  function MemInit(p: Pool, size: nat, chunkNum: int): (r: Pool)
    ensures size in r.lists
    ensures |r.lists[size]| == if chunkNum >= 1 then chunkNum else 1
    ensures forall j :: 0 <= j < |r.lists[size]| ==> FreeChunk(r.lists[size][j], size)
    ensures forall k :: k != size ==> (k in r.lists <==> k in p.lists)
    ensures forall k :: k != size && k in p.lists ==> r.lists[k] == p.lists[k]
    ensures r.totalKb == p.totalKb + size / 1024 * chunkNum
    ensures r.leftKb == p.leftKb
  {
    var n := if chunkNum >= 1 then chunkNum else 1;
    p.(lists := p.lists[size := FreshList(size, n)], totalKb := p.totalKb + size / 1024 * chunkNum)
  }

  /** The pool constructor: six chains of 2000/500/250/100/25/10 chunks, then
      `leftKb` is set to the total. */
  function Init(): (p: Pool)
    ensures p.lists.Keys == ClassSet
    ensures p.leftKb == p.totalKb
  {
    var p0 := Pool(map[], 0, 0);
    var p1 := MemInit(p0, M4K, 2000);
    var p2 := MemInit(p1, M16K, 500);
    var p3 := MemInit(p2, M64K, 250);
    var p4 := MemInit(p3, M256K, 100);
    var p5 := MemInit(p4, M1M, 25);
    var p6 := MemInit(p5, M4M, 10);
    p6.(leftKb := p6.totalKb)
  }

  /** A list of empty chunks of one capacity weighs `|l| * k` bytes. */
  lemma {:induction false} ListBytesUniform(l: seq<Chunk>, k: int)
    requires forall j :: 0 <= j < |l| ==> l[j].capacity == k
    ensures ListBytes(l) == |l| * k
  {
    if |l| > 0 {
      ListBytesUniform(l[1..], k);
    }
  }

  /** A fresh chain of `n` chunks of `size` bytes weighs `n * size` bytes. */
  lemma FreshListBytes(size: nat, n: nat)
    ensures ListBytes(FreshList(size, n)) == n * size
  {
    ListBytesUniform(FreshList(size, n), size);
  }

  /** The constructed pool satisfies the invariant, holds the documented chain
      lengths, and has every kilobyte on a free list. */
  lemma InitInv()
    ensures Inv(Init())
    ensures Init().leftKb == Init().totalKb == 124160
    ensures |Init().lists[M4K]| == 2000 && |Init().lists[M16K]| == 500
    ensures |Init().lists[M64K]| == 250 && |Init().lists[M256K]| == 100
    ensures |Init().lists[M1M]| == 25 && |Init().lists[M4M]| == 10
  {
    var p := Init();
    assert p.lists == map[M4K := FreshList(M4K, 2000), M16K := FreshList(M16K, 500),
                          M64K := FreshList(M64K, 250), M256K := FreshList(M256K, 100),
                          M1M := FreshList(M1M, 25), M4M := FreshList(M4M, 10)];
    assert p.totalKb == 124160;
    assert ListKb(p.lists, M4K) == 8000 by { FreshListBytes(M4K, 2000); }
    assert ListKb(p.lists, M16K) == 8000 by { FreshListBytes(M16K, 500); }
    assert ListKb(p.lists, M64K) == 16000 by { FreshListBytes(M64K, 250); }
    assert ListKb(p.lists, M256K) == 25600 by { FreshListBytes(M256K, 100); }
    assert ListKb(p.lists, M1M) == 25600 by { FreshListBytes(M1M, 25); }
    assert ListKb(p.lists, M4M) == 40960 by { FreshListBytes(M4M, 10); }
    assert FreeKb(p) == 124160;
  }

  // ---------------------------------------------------------------------------
  // Allocation and release

  /** What `alloc_chunk(n)` can do: hand out a chunk, return null for a request
      above the largest class, or end the process (`exit(1)`) at the ceiling. */
  datatype Alloc = Got(pool: Pool, chunk: Chunk) | Null | Abort

  /** Replacing one class list changes the free total by that list's difference. */
  lemma FreeKbUpdate(p: Pool, k: int, l: seq<Chunk>)
    requires ClassSet <= p.lists.Keys
    requires IsClass(k)
    ensures ClassSet <= p.lists[k := l].Keys
    ensures FreeKb(p.(lists := p.lists[k := l])) == FreeKb(p) + ListBytes(l) / 1024 - ListBytes(p.lists[k]) / 1024
  {
    var ls := p.lists[k := l];
    assert forall c :: c != k && c in p.lists ==> ListKb(ls, c) == ListKb(p.lists, c);
    assert ListKb(ls, k) == ListBytes(l) / 1024;
    if k == M4K {
    } else if k == M16K {
    } else if k == M64K {
    } else if k == M256K {
    } else if k == M1M {
    } else {
    }
  }

  /** Removing or adding one head chunk of class `k` moves the list's kilobytes by `k / 1024`. */
  lemma ConsKb(c: Chunk, l: seq<Chunk>, k: int)
    requires IsClass(k) && c.capacity == k
    ensures ListBytes([c] + l) / 1024 == ListBytes(l) / 1024 + k / 1024
  {
    assert ([c] + l)[1..] == l;
  }

  /** `alloc_chunk(n)`. */
  function AllocChunk(p: Pool, n: int): (r: Alloc)
    requires Inv(p)
    ensures r.Null? <==> n > MUp
    ensures r.Null? ==> ClassFor(n).None?
    ensures r.Got? ==> ClassFor(n).Some? && r.chunk.capacity == ClassFor(n).value
    ensures r.Got? ==> FreeChunk(r.chunk, r.chunk.capacity) && Inv(r.pool)
    ensures r.Got? ==> r.pool.totalKb - r.pool.leftKb == p.totalKb - p.leftKb + r.chunk.capacity / 1024
    ensures r.Got? ==> forall k :: k in p.lists && k != r.chunk.capacity ==> r.pool.lists[k] == p.lists[k]
    ensures r.Abort? ==> ClassFor(n).Some? && p.lists[ClassFor(n).value] == []
                         && p.totalKb + ClassFor(n).value / 1024 >= MaxPoolSize
  {
    match ClassFor(n)
    case None => Null
    case Some(k) =>
      var l := p.lists[k];
      if |l| == 0 then
        if p.totalKb + k / 1024 >= MaxPoolSize then Abort
        else Got(p.(totalKb := p.totalKb + k / 1024), New(k))
      else
        var p' := p.(lists := p.lists[k := l[1..]], leftKb := p.leftKb - k / 1024);
        FreeKbUpdate(p, k, l[1..]);
        ConsKb(l[0], l[1..], k);
        assert [l[0]] + l[1..] == l;
        Got(p', l[0])
  }

  /** The no-argument `alloc_chunk()`: a 4K chunk. */
  function AllocDefault(p: Pool): (r: Alloc)
    requires Inv(p)
    ensures !r.Null?
    ensures r.Got? ==> r.chunk.capacity == M4K
  {
    AllocChunk(p, M4K)
  }

  /** `retrieve(block)`: empty the chunk and push it on the front of its class list.
      The class must be known (the original asserts it). */
  function Retrieve(p: Pool, c: Chunk): (r: Pool)
    requires Inv(p) && Valid(c)
    requires c.capacity in p.lists
    ensures Inv(r)
    ensures r.lists[c.capacity] == [Clear(c)] + p.lists[c.capacity]
    ensures forall k :: k in p.lists && k != c.capacity ==> r.lists[k] == p.lists[k]
    ensures r.totalKb == p.totalKb
    ensures r.leftKb == p.leftKb + c.capacity / 1024
  {
    var k := c.capacity;
    var l' := [Clear(c)] + p.lists[k];
    FreeKbUpdate(p, k, l');
    ConsKb(Clear(c), p.lists[k], k);
    p.(lists := p.lists[k := l'], leftKb := p.leftKb + k / 1024)
  }

  /** Allocation from a non-empty class list pops the list head and leaves the
      total alone; from an empty one it creates a chunk and leaves `leftKb` alone. */
  lemma AllocFromList(p: Pool, n: int)
    requires Inv(p) && ClassFor(n).Some?
    ensures var k := ClassFor(n).value;
            var r := AllocChunk(p, n);
            if p.lists[k] != [] then
              r == Got(p.(lists := p.lists[k := p.lists[k][1..]], leftKb := p.leftKb - k / 1024), p.lists[k][0])
            else if p.totalKb + k / 1024 >= MaxPoolSize then r.Abort?
            else r == Got(p.(totalKb := p.totalKb + k / 1024), New(k))
  {
  }

  /** `get_list_size_byte(index)`: walk the free list and add up capacities. */
  method GetListSizeByte(p: Pool, index: int) returns (size: int)
    requires Inv(p)
    requires index in p.lists
    ensures size == ListBytes(p.lists[index])
    ensures size == |p.lists[index]| * index
  {
    size := 0;
    var node := p.lists[index];
    while node != []
      invariant size + ListBytes(node) == ListBytes(p.lists[index])
      decreases |node|
    {
      size := size + node[0].capacity;
      node := node[1..];
    }
    ListBytesUniform(p.lists[index], index);
  }

  // ---------------------------------------------------------------------------
  // Conservation: every created kilobyte is either on a free list or checked out.

  /** Kilobytes of a collection of checked-out chunks. */
  function OutKb(out: seq<Chunk>): int {
    if |out| == 0 then 0 else out[0].capacity / 1024 + OutKb(out[1..])
  }

  predicate Conserved(p: Pool, out: seq<Chunk>) {
    p.totalKb == p.leftKb + OutKb(out)
  }

  lemma {:induction false} OutKbAppend(a: seq<Chunk>, b: seq<Chunk>)
    ensures OutKb(a + b) == OutKb(a) + OutKb(b)
  {
    if |a| == 0 {
      assert a + b == b;
    } else {
      assert (a + b)[0] == a[0];
      assert (a + b)[1..] == a[1..] + b;
      OutKbAppend(a[1..], b);
    }
  }

  /** A successful allocation moves the chunk's kilobytes from the pool to the caller. */
  lemma AllocConserves(p: Pool, out: seq<Chunk>, n: int)
    requires Inv(p) && Conserved(p, out)
    requires AllocChunk(p, n).Got?
    ensures Conserved(AllocChunk(p, n).pool, out + [AllocChunk(p, n).chunk])
  {
    var c := AllocChunk(p, n).chunk;
    OutKbAppend(out, [c]);
    assert OutKb([c]) == c.capacity / 1024 + OutKb([c][1..]);
  }

  /** Retrieving the `i`-th checked-out chunk moves its kilobytes back to the pool. */
  lemma RetrieveConserves(p: Pool, out: seq<Chunk>, i: int)
    requires Inv(p) && Conserved(p, out)
    requires 0 <= i < |out| && Valid(out[i]) && out[i].capacity in p.lists
    ensures Conserved(Retrieve(p, out[i]), out[..i] + out[i + 1..])
  {
    assert out == out[..i] + ([out[i]] + out[i + 1..]);
    OutKbAppend(out[..i], [out[i]] + out[i + 1..]);
    OutKbAppend(out[..i], out[i + 1..]);
    assert ([out[i]] + out[i + 1..])[1..] == out[i + 1..];
  }
}
