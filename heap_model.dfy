/**
  Value-level model of the block registry of beavalloc.c.

  A `Heap` holds everything the allocator's operations read or write: the
  current program break, the two statics `brk_address` and `heap` (head and
  tail of the block list), and the `struct block` headers that have been
  written into the segment, keyed by their address.  The allocator's three
  real operations are the state transitions `AllocStep`, `FreeStep` and
  `ResetStep`; the class in module Beavalloc is proved against them.
 */
module HeapModel {

  datatype Option<T> = None | Some(value: T)

  /** The compile-time constants MIN_MEM, META_DATA and sizeof(struct block). */
  datatype Config = Config(minMem: nat, metaData: nat, blockBytes: nat)

  /**
    MIN_MEM leaves room for the META_DATA bytes taken off the capacity, and
    the header (a C struct, so of positive size) fits in the MIN_MEM bytes
    each allocation adds, so headers written MIN_MEM apart never overlap.
   */
  predicate ConfigValid(c: Config)
  {
    c.metaData <= c.minMem && 0 < c.blockBytes <= c.minMem
  }

  /** A `struct block` header: neighbour links, the availability flag and the capacity. */
  datatype Block = Block(next: Option<nat>, prev: Option<nat>, available: bool, size: nat)

  /** Program break, recorded initial break, list head and tail, and the headers in memory. */
  datatype Heap = Heap(
    brk: nat,
    brkAddress: Option<nat>,
    head: Option<nat>,
    tail: Option<nat>,
    blocks: map<nat, Block>)

  /** The new state after an allocation and the pointer handed to the caller (None is NULL). */
  datatype AllocResult = AllocResult(heap: Heap, ptr: Option<nat>)

  /** Both statics are NULL at program start; the break is wherever the process left it. */
  function Initial(brk: nat): (r: Heap)
    ensures r.brk == brk && r.blocks == map[]
    ensures forall c :: ConfigValid(c) ==> HeapValid(c, r)
  {
    Heap(brk, None, None, None, map[])
  }

  /** `new + META_DATA` with `new` a `struct block *`: the offset is scaled by the struct size. */
  function Handle(c: Config, a: nat): (r: nat)
    ensures r >= a
    ensures c.metaData == 0 || c.blockBytes == 1 ==> r == a + c.metaData
    ensures c.blockBytes > 0 ==> FreeTarget(c, r) >= a
  {
    MulAtLeast(c.metaData, c.blockBytes);
    a + c.metaData * c.blockBytes
  }

  /** `ptr - META_DATA` with `ptr` a `void *`: a plain byte offset. */
  function FreeTarget(c: Config, ptr: nat): (r: int)
    ensures r <= ptr
    ensures r >= 0 <==> ptr >= c.metaData
  {
    ptr - c.metaData
  }

  /** The addresses visited by following `next` links from `cur`, for at most `fuel` steps. */
  function Walk(blocks: map<nat, Block>, cur: Option<nat>, fuel: nat): (r: seq<nat>)
    ensures |r| <= fuel
    ensures forall i :: 0 <= i < |r| ==> r[i] in blocks
    decreases fuel
  {
    if fuel == 0 || cur.None? || cur.value !in blocks then []
    else [cur.value] + Walk(blocks, blocks[cur.value].next, fuel - 1)
  }

  /** The walk from `cur` reaches a NULL link within `fuel` steps, through headers only. */
  predicate Ends(blocks: map<nat, Block>, cur: Option<nat>, fuel: nat)
    decreases fuel
  {
    cur.None? || (fuel > 0 && cur.value in blocks && Ends(blocks, blocks[cur.value].next, fuel - 1))
  }

  /** The blocks `beavfree` can reach: the forward chain from the list head. */
  function Chain(h: Heap): (r: seq<nat>)
    ensures |r| <= |h.blocks|
    ensures forall i :: 0 <= i < |r| ==> r[i] in h.blocks
  {
    Walk(h.blocks, h.head, |h.blocks|)
  }

  /**
    What every reachable state satisfies: the list ends are headers in
    memory, the head is the block at the recorded break, the tail is the
    block just below the current break while a break is recorded, every
    header has the capacity MIN_MEM - META_DATA, and no header ever gets a
    forward link.
   */
  ghost predicate HeapValid(c: Config, h: Heap)
  {
    && ConfigValid(c)
    && (h.head.None? <==> h.tail.None?)
    && (h.head.None? ==> h.brkAddress.None?)
    && (h.head.Some? ==> h.head.value in h.blocks)
    && (h.head.Some? && h.brkAddress.Some? ==> h.brkAddress == h.head)
    && (h.head.Some? && h.brkAddress.None? ==> h.brk == h.head.value)
    && (h.tail.Some? ==> h.tail.value in h.blocks)
    && (h.brkAddress.Some? ==> h.brkAddress.value + c.minMem <= h.brk && h.tail == Some(h.brk - c.minMem))
    && (forall a :: a in h.blocks ==>
          && h.blocks[a].next.None?
          && h.blocks[a].size == c.minMem - c.metaData
          && (h.blocks[a].prev.Some? ==> h.blocks[a].prev.value in h.blocks))
  }

  /**
    beavalloc(size): NULL for size 0; otherwise record the break if none is
    recorded, grow the segment by MIN_MEM, write a used header of capacity
    MIN_MEM - META_DATA at the old break, append it at the tail without
    linking the old tail forward, and hand out the scaled payload pointer.
   */
  function AllocStep(c: Config, h: Heap, size: nat): (r: AllocResult)
    requires ConfigValid(c)
    ensures r.ptr.None? <==> size == 0
    ensures size == 0 ==> r.heap == h
    ensures size > 0 ==> r.heap.brk == h.brk + c.minMem && r.ptr == Some(Handle(c, h.brk))
    ensures h.brkAddress.Some? ==> r.heap.brkAddress == h.brkAddress
    ensures size > 0 && h.brkAddress.None? ==> r.heap.brkAddress == Some(h.brk)
    ensures size > 0 ==>
      && h.brk in r.heap.blocks
      && r.heap.blocks[h.brk].next.None?
      && !r.heap.blocks[h.brk].available
      && r.heap.blocks[h.brk].size == c.minMem - c.metaData
    ensures size > 0 && h.head.None? ==>
      r.heap.head == r.heap.tail == Some(h.brk) && r.heap.blocks[h.brk].prev.None?
    ensures size > 0 && h.head.Some? ==>
      && r.heap.head == h.head
      && r.heap.tail == Some(h.brk)
      && r.heap.blocks[h.brk].prev == h.tail
    ensures size > 0 ==> r.heap.blocks.Keys == h.blocks.Keys + {h.brk}
    ensures forall a :: a in h.blocks && a != h.brk ==> a in r.heap.blocks && r.heap.blocks[a] == h.blocks[a]
  {
    if size == 0 then AllocResult(h, None)
    else
      var recorded := if h.brkAddress.None? then Some(h.brk) else h.brkAddress;
      var a := h.brk;
      var prev := if h.head.None? then None else h.tail;
      var head := if h.head.None? then Some(a) else h.head;
      var hdr := Block(None, prev, false, c.minMem - c.metaData);
      AllocResult(Heap(a + c.minMem, recorded, head, Some(a), h.blocks[a := hdr]), Some(Handle(c, a)))
  }

  /**
    beavfree(ptr): the first block on the forward chain whose address is
    `ptr - META_DATA` becomes available; nothing else changes, and nothing
    at all when no reachable block matches.
   */
  function FreeStep(c: Config, h: Heap, ptr: nat): (r: Heap)
    ensures r.brk == h.brk && r.brkAddress == h.brkAddress && r.head == h.head && r.tail == h.tail
    ensures r.blocks.Keys == h.blocks.Keys
    ensures forall a :: a in h.blocks && a != FreeTarget(c, ptr) ==> r.blocks[a] == h.blocks[a]
    ensures FreeTarget(c, ptr) in Chain(h) ==>
      var t := FreeTarget(c, ptr) as nat; r.blocks[t] == h.blocks[t].(available := true)
    ensures FreeTarget(c, ptr) !in Chain(h) ==> r == h
    ensures HeapValid(c, h) ==> HeapValid(c, r)
  {
    var t := FreeTarget(c, ptr);
    if t in Chain(h) then
      var a := t as nat;
      h.(blocks := h.blocks[a := h.blocks[a].(available := true)])
    else h
  }

  /**
    beavalloc_reset(): move the break back to the recorded one and forget
    it; the block list and the headers are left as they are.  With no
    break recorded this is brk(NULL), which leaves the break where it is.
   */
  function ResetStep(h: Heap): (r: Heap)
    ensures r.brkAddress.None?
    ensures h.brkAddress.Some? ==> r.brk == h.brkAddress.value
    ensures h.brkAddress.None? ==> r == h
    ensures r.head == h.head && r.tail == h.tail && r.blocks == h.blocks
  {
    h.(brk := if h.brkAddress.Some? then h.brkAddress.value else h.brk, brkAddress := None)
  }

  /** beavalloc keeps the invariant. */
  lemma AllocPreservesValid(c: Config, h: Heap, size: nat)
    requires HeapValid(c, h)
    ensures HeapValid(c, AllocStep(c, h, size).heap)
  {
  }

  lemma ResetPreservesValid(c: Config, h: Heap)
    requires HeapValid(c, h)
    ensures HeapValid(c, ResetStep(h))
    ensures h.head.Some? ==> ResetStep(h).brk == h.head.value
  {
  }

  /**
    The old tail's `next` is never written, so in every reachable state the
    forward walk from the head stops after the head itself, and it does end.
   */
  lemma {:induction false} ChainIsHeadOnly(c: Config, h: Heap)
    requires HeapValid(c, h)
    ensures Chain(h) == if h.head.None? then [] else [h.head.value]
    ensures Ends(h.blocks, h.head, |h.blocks|)
  {
    if h.head.Some? {
      var a := h.head.value;
      assert a in h.blocks.Keys;
      assert |h.blocks| >= 1 by {
        assert h.blocks.Keys == (h.blocks.Keys - {a}) + {a};
      }
      assert h.blocks[a].next.None?;
      assert Walk(h.blocks, h.blocks[a].next, |h.blocks| - 1) == [];
    }
  }

  /** beavfree can only ever flag the head block, and only when its address is `ptr - META_DATA`. */
  lemma FreeTouchesOnlyHead(c: Config, h: Heap, ptr: nat)
    requires HeapValid(c, h)
    ensures FreeStep(c, h, ptr) == if h.head.Some? && h.head.value == FreeTarget(c, ptr)
      then h.(blocks := h.blocks[h.head.value := h.blocks[h.head.value].(available := true)])
      else h
  {
    ChainIsHeadOnly(c, h);
  }

  /** Freeing the same pointer twice leaves the state of a single free. */
  lemma FreeIdempotent(c: Config, h: Heap, ptr: nat)
    requires HeapValid(c, h)
    ensures FreeStep(c, FreeStep(c, h, ptr), ptr) == FreeStep(c, h, ptr)
  {
    FreeTouchesOnlyHead(c, h, ptr);
    FreeTouchesOnlyHead(c, FreeStep(c, h, ptr), ptr);
  }

  /**
    The pointer `beavalloc` returns lies META_DATA * sizeof(struct block)
    bytes past the header, while `beavfree` looks META_DATA bytes back, so
    the lookup lands on the header only when the two offsets coincide.
   */
  lemma HandleLookupOffset(c: Config, a: nat)
    requires ConfigValid(c)
    ensures FreeTarget(c, Handle(c, a)) == a + c.metaData * (c.blockBytes - 1)
    ensures FreeTarget(c, Handle(c, a)) == a <==> c.metaData == 0 || c.blockBytes == 1
  {
    var m, k := c.metaData, c.blockBytes - 1;
    MulDistributes(m, k, 1);
    if m != 0 && k != 0 {
      MulPositive(m, k);
    }
  }

  lemma MulDistributes(m: nat, x: nat, y: nat)
    ensures m * (x + y) == m * x + m * y
  {
  }

  lemma MulAtLeast(m: nat, k: nat)
    ensures k > 0 ==> m * k >= m
  {
  }

  lemma MulPositive(m: nat, k: nat)
    requires m > 0 && k > 0
    ensures m * k > 0
  {
  }

  /** Starting from a fresh process, freeing the first pointer handed out releases its block exactly when the offsets coincide. */
  lemma FirstHandleRoundTrip(c: Config, brk: nat, size: nat)
    requires ConfigValid(c) && size > 0
    ensures var r := AllocStep(c, Initial(brk), size);
      FreeStep(c, r.heap, r.ptr.value).blocks[brk].available <==> c.metaData == 0 || c.blockBytes == 1
  {
    var r := AllocStep(c, Initial(brk), size);
    assert HeapValid(c, Initial(brk));
    AllocPreservesValid(c, Initial(brk), size);
    HandleLookupOffset(c, brk);
    FreeTouchesOnlyHead(c, r.heap, r.ptr.value);
  }

  /**
    A block appended behind the head (a break recorded) stays
    in use whatever pointer is passed to `beavfree` afterwards.
   */
  lemma AppendedBlockNeverFreed(c: Config, h: Heap, size: nat, ptr: nat)
    requires HeapValid(c, h) && h.brkAddress.Some? && size > 0
    ensures FreeStep(c, AllocStep(c, h, size).heap, ptr).blocks[h.brk] == AllocStep(c, h, size).heap.blocks[h.brk]
    ensures !FreeStep(c, AllocStep(c, h, size).heap, ptr).blocks[h.brk].available
  {
    var h1 := AllocStep(c, h, size).heap;
    AllocPreservesValid(c, h, size);
    assert h1.head == h.head && h.head.value != h.brk;
    FreeTouchesOnlyHead(c, h1, ptr);
  }

  /**
    After beavalloc_reset the break is back at the head block, so the next
    allocation writes its header over the head's: it returns the head's
    pointer again and links the head back to the stale tail.
   */
  lemma ResetThenAllocReusesHead(c: Config, h: Heap, size: nat)
    requires HeapValid(c, h) && h.head.Some? && size > 0
    ensures var r := AllocStep(c, ResetStep(h), size);
      && r.ptr == Some(Handle(c, h.head.value))
      && r.heap.head == h.head
      && r.heap.tail == h.head
      && r.heap.blocks[h.head.value].prev == h.tail
      && !r.heap.blocks[h.head.value].available
  {
    ResetPreservesValid(c, h);
  }

  /** The number of requests in `sizes` that are not 0, i.e. that grow the segment. */
  function Granted(sizes: seq<nat>): nat
  {
    if sizes == [] then 0 else (if sizes[0] == 0 then 0 else 1) + Granted(sizes[1..])
  }

  /** A run of calls to beavalloc: the final state and every pointer returned, in order. */
  datatype Run = Run(heap: Heap, ptrs: seq<Option<nat>>)

  function AllocMany(c: Config, h: Heap, sizes: seq<nat>): (r: Run)
    requires ConfigValid(c)
    ensures |r.ptrs| == |sizes|
    ensures HeapValid(c, h) ==> HeapValid(c, r.heap)
    decreases |sizes|
  {
    if sizes == [] then Run(h, [])
    else
      var first := AllocStep(c, h, sizes[0]);
      var rest := AllocMany(c, first.heap, sizes[1..]);
      assert HeapValid(c, h) ==> HeapValid(c, first.heap) by {
        if HeapValid(c, h) { AllocPreservesValid(c, h, sizes[0]); }
      }
      Run(rest.heap, [first.ptr] + rest.ptrs)
  }

  /** Counting the granted requests of a prefix, one request at a time. */
  lemma GrantedPrefix(sizes: seq<nat>, i: nat)
    requires 0 < i <= |sizes|
    ensures Granted(sizes[..i]) == (if sizes[0] == 0 then 0 else 1) + Granted(sizes[1..][..i - 1])
  {
    assert sizes[..i][1..] == sizes[1..][..i - 1];
  }

  /** Every granted request moves the break by exactly MIN_MEM, whatever its size. */
  lemma {:induction false} AllocManyBreak(c: Config, h: Heap, sizes: seq<nat>)
    requires ConfigValid(c)
    ensures AllocMany(c, h, sizes).heap.brk == h.brk + c.minMem * Granted(sizes)
    decreases |sizes|
  {
    if sizes != [] {
      var g0 := if sizes[0] == 0 then 0 else 1;
      AllocManyBreak(c, AllocStep(c, h, sizes[0]).heap, sizes[1..]);
      MulDistributes(c.minMem, g0, Granted(sizes[1..]));
    }
  }

  /** A break is recorded by the first granted request of a run only, and kept by the later ones. */
  lemma {:induction false} AllocManyRecordsBreak(c: Config, h: Heap, sizes: seq<nat>)
    requires ConfigValid(c)
    ensures AllocMany(c, h, sizes).heap.brkAddress ==
      if h.brkAddress.None? && Granted(sizes) > 0 then Some(h.brk) else h.brkAddress
    decreases |sizes|
  {
    if sizes != [] {
      AllocManyRecordsBreak(c, AllocStep(c, h, sizes[0]).heap, sizes[1..]);
    }
  }

  /**
    The blocks of a run sit back to back from the starting break: request
    i gets NULL when it asks for 0 bytes, and otherwise the pointer of the
    block MIN_MEM bytes times the number of earlier granted requests up.
   */
  lemma {:induction false} AllocManyPointers(c: Config, h: Heap, sizes: seq<nat>, i: nat)
    requires ConfigValid(c) && i < |sizes|
    ensures AllocMany(c, h, sizes).ptrs[i] ==
      if sizes[i] == 0 then None else Some(Handle(c, h.brk + c.minMem * Granted(sizes[..i])))
    decreases i
  {
    var first := AllocStep(c, h, sizes[0]);
    var rest := AllocMany(c, first.heap, sizes[1..]);
    assert AllocMany(c, h, sizes).ptrs == [first.ptr] + rest.ptrs;
    if i == 0 {
      assert sizes[..0] == [];
    } else {
      var g := Granted(sizes[1..][..i - 1]);
      AllocManyPointers(c, first.heap, sizes[1..], i - 1);
      assert sizes[1..][i - 1] == sizes[i];
      assert AllocMany(c, h, sizes).ptrs[i] == rest.ptrs[i - 1];
      GrantedPrefix(sizes, i);
      if sizes[0] == 0 {
        assert first.heap == h && Granted(sizes[..i]) == g;
      } else {
        assert first.heap.brk == h.brk + c.minMem && Granted(sizes[..i]) == 1 + g;
        MulDistributes(c.minMem, 1, g);
        assert first.heap.brk + c.minMem * g == h.brk + c.minMem * Granted(sizes[..i]);
      }
    }
  }

  /** beavalloc_reset after any run started with no break recorded puts the break back where it started. */
  lemma ResetRestoresBreak(c: Config, h: Heap, sizes: seq<nat>)
    requires ConfigValid(c) && h.brkAddress.None?
    ensures ResetStep(AllocMany(c, h, sizes).heap).brk == h.brk
    ensures ResetStep(AllocMany(c, h, sizes).heap).brkAddress.None?
  {
    AllocManyBreak(c, h, sizes);
    AllocManyRecordsBreak(c, h, sizes);
  }
}
