/**
  The allocator of beavalloc.c as an object: its fields are the program
  break, the static `brk_address`, the static list `heap` (head and tail)
  and the `struct block` headers written into the segment.  Alloc, Free
  and Reset are proved to move the object from one state of the value
  model in HeapModel to the state the matching step function gives.
 */
module Beavalloc {
  import opened HeapModel

  class Allocator {
    /** MIN_MEM, META_DATA and sizeof(struct block). */
    const minMem: nat
    const metaData: nat
    const blockBytes: nat

    /** The program break, moved only by sbrk and brk. */
    var brk: nat
    /** `brk_address`: the break recorded by the first allocation, None for NULL. */
    var brkAddress: Option<nat>
    /** `heap.head` and `heap.tail`. */
    var head: Option<nat>
    var tail: Option<nat>
    /** The headers in memory, by address. */
    var blocks: map<nat, Block>

    function Cfg(): Config
    {
      Config(minMem, metaData, blockBytes)
    }

    function State(): Heap
      reads this
    {
      Heap(brk, brkAddress, head, tail, blocks)
    }

    ghost predicate Valid()
      reads this
    {
      HeapValid(Cfg(), State())
    }

    /** Program start: both statics are NULL and the break is where the process left it. */
    constructor (minMem: nat, metaData: nat, blockBytes: nat, initialBreak: nat)
      requires ConfigValid(Config(minMem, metaData, blockBytes))
      requires initialBreak > 0
      ensures Valid()
      ensures Cfg() == Config(minMem, metaData, blockBytes)
      ensures State() == Initial(initialBreak)
    {
      this.minMem, this.metaData, this.blockBytes := minMem, metaData, blockBytes;
      brk := initialBreak;
      brkAddress, head, tail := None, None, None;
      blocks := map[];
    }

    /** sbrk(increment): returns the old break and moves the break up; it never fails here. */
    method Sbrk(increment: nat) returns (prior: nat)
      modifies this`brk
      ensures prior == old(brk) && brk == old(brk) + increment
    {
      prior := brk;
      brk := brk + increment;
    }

    /** brk(addr): sets the break; brk(NULL) is refused and leaves the break where it is. */
    method SetBreak(addr: Option<nat>)
      modifies this`brk
      ensures brk == if addr.Some? then addr.value else old(brk)
    {
      if addr.Some? {
        brk := addr.value;
      }
    }

    /** beavalloc(size) */
    method Alloc(size: nat) returns (p: Option<nat>)
      requires Valid()
      modifies this
      ensures Valid()
      ensures AllocResult(State(), p) == AllocStep(Cfg(), old(State()), size)
    {
      AllocPreservesValid(Cfg(), State(), size);
      if size == 0 {
        return None;
      }
      if brkAddress.None? {
        var b := Sbrk(0);
        brkAddress := Some(b);
      }
      var blk := Sbrk(minMem);
      var hdr := Block(None, None, false, minMem - metaData);
      if head.None? {
        hdr := hdr.(prev := None);
        head, tail := Some(blk), Some(blk);
      } else {
        hdr := hdr.(prev := tail);
        tail := Some(blk);
      }
      blocks := blocks[blk := hdr];
      p := Some(blk + metaData * blockBytes);
    }

    /** beavfree(ptr): walk forward from the head and flag the first header at `ptr - META_DATA`. */
    method Free(ptr: nat)
      requires Valid()
      modifies this
      ensures Valid()
      ensures State() == FreeStep(Cfg(), old(State()), ptr)
    {
      ChainIsHeadOnly(Cfg(), State());
      var target: int := ptr - metaData;
      var curr := head;
      ghost var fuel: nat := |blocks|;
      ghost var visited: seq<nat> := [];
      while curr.Some?
        invariant State() == old(State())
        invariant Ends(blocks, curr, fuel)
        invariant Chain(State()) == visited + Walk(blocks, curr, fuel)
        invariant forall i :: 0 <= i < |visited| ==> visited[i] != target
        decreases fuel
      {
        if curr.value == target {
          blocks := blocks[curr.value := blocks[curr.value].(available := true)];
          return;
        }
        visited := visited + [curr.value];
        curr := blocks[curr.value].next;
        fuel := fuel - 1;
      }
    }

    /** beavalloc_reset(): brk(brk_address), then brk_address = NULL. */
    method Reset()
      requires Valid()
      modifies this
      ensures Valid()
      ensures State() == ResetStep(old(State()))
    {
      SetBreak(brkAddress);
      brkAddress := None;
      ResetPreservesValid(Cfg(), old(State()));
    }

    /** beavcalloc(nmemb, size): a stub that allocates nothing. */
    method Calloc(nmemb: nat, size: nat) returns (p: Option<nat>)
      ensures p.None?
    {
      p := None;
    }

    /** beavrealloc(ptr, size): a stub that allocates, frees and copies nothing. */
    method Realloc(ptr: nat, size: nat) returns (p: Option<nat>)
      ensures p.None?
    {
      p := None;
    }
  }
}
