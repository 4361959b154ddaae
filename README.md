# beavalloc: the block registry, modelled and proved in Dafny

This project models the allocator of `beavalloc.c`, an early version of a
replacement for `malloc` built on the program break. It models the code as
written, not the intended first-fit allocator with splitting and coalescing.

The allocator's state is two process-wide statics:

- `brk_address` holds the break recorded by the first allocation.
- `heap` is a head/tail list of `struct block` headers.

Around these sit the program break itself and the headers written into the
segment. The operations are:

- **beavalloc(size)** returns NULL for size 0. Otherwise it records the break
  if none is recorded and grows the segment by `MIN_MEM`. At the old break it
  writes one used header of capacity `MIN_MEM - META_DATA`, appends that
  header at the tail and returns `new + META_DATA`. That sum is pointer
  arithmetic on a `struct block *`, so the offset is
  `META_DATA * sizeof(struct block)` bytes.
- **beavfree(ptr)** walks forward from the head along `next` links. It flags
  the first header whose address is `ptr - META_DATA` as available, and that
  offset is in plain bytes (`void *` arithmetic).
- **beavalloc_reset()** calls `brk(brk_address)`, then sets `brk_address`
  back to NULL.
- **beavcalloc** and **beavrealloc** are stubs that return NULL.

Two files make up the model:

- `heap_model.dfy` (module `HeapModel`) is the value model. A `Heap` holds the
  break, the recorded break, the head, the tail and the headers, as a map from
  address to `Block`. The three operations are the step functions
  `AllocStep`, `FreeStep` and `ResetStep`. The invariant `HeapValid` holds in
  every reachable state, and the lemmas relate several calls.
- `beavalloc.dfy` (module `Beavalloc`) holds the class `Allocator`. Its fields
  are the same state. Its methods follow the C code statement by statement:
  `Free` is the `while` loop over the reachable prefix of the forward chain.
  `Alloc`, `Free` and `Reset` are each proved to keep `Valid()` and to produce
  exactly the state the matching step function gives.

The constants `MIN_MEM`, `META_DATA` and `sizeof(struct block)` come from
`beavalloc.h`, which is not part of this model. They are kept abstract, as
the class constants `minMem`, `metaData` and `blockBytes`. The model only
assumes `META_DATA <= MIN_MEM` and `0 < sizeof(struct block) <= MIN_MEM`, so that
every header fits in the `MIN_MEM` bytes its allocation adds.

Pointers are modelled as unbounded natural-number addresses. A returned
pointer is an `Option<nat>`, where `None` stands for NULL. The argument of
`beavfree` is a plain address, with NULL being address 0.

The code differs from the intended first-fit allocator in these ways, and the model
follows the code:

- The allocator does no first-fit search, no splitting, no coalescing and no
  resizing.
- Every nonzero request grows the segment by exactly `MIN_MEM`.
- The old tail's `next` is never set. As a result `beavfree` can reach only
  the head block (`ChainIsHeadOnly`, `AppendedBlockNeverFreed`).
- The returned pointer and the lookup in `beavfree` use different offsets.
  Freeing a pointer finds its own header only when `META_DATA` is 0 or
  `sizeof(struct block)` is 1 (`HandleLookupOffset`, `FirstHandleRoundTrip`).
- `beavalloc_reset` leaves the list as it is. The next allocation then writes
  its header over the head's header (`ResetThenAllocReusesHead`).

## Model

| member | source | states |
|---|---|---|
| `Beavalloc.Allocator.constructor` | beavalloc.c:9-10 | At program start `brk_address`, `heap.head` and `heap.tail` are NULL and no header exists; the invariant holds. |
| `Beavalloc.Allocator.Sbrk` | beavalloc.c:22 | `sbrk(n)` returns the previous break and moves the break up by exactly `n`; nothing else changes. |
| `Beavalloc.Allocator.SetBreak` | beavalloc.c:53 | `brk(addr)` sets the break to `addr`; `brk(NULL)` leaves it unchanged; nothing else changes. |
| `Beavalloc.Allocator.Alloc` | beavalloc.c:12-37 | `beavalloc` keeps the invariant, and its new state and returned pointer are exactly those `AllocStep` gives for the old state. |
| `Beavalloc.Allocator.Free` | beavalloc.c:39-49 | The forward walk from the head keeps the invariant, and its new state is exactly the one `FreeStep` gives. The loop invariant says that every block passed so far lies on the chain and did not match. |
| `Beavalloc.Allocator.Reset` | beavalloc.c:51-55 | `beavalloc_reset` keeps the invariant, and its new state is exactly the one `ResetStep` gives. |
| `Beavalloc.Allocator.Calloc` | beavalloc.c:62-65 | `beavcalloc` always returns NULL and changes no state. |
| `Beavalloc.Allocator.Realloc` | beavalloc.c:67-70 | `beavrealloc` always returns NULL and changes no state. |
| `HeapModel.Initial` | beavalloc.c:9-10 | At program start `brk_address`, `heap.head` and `heap.tail` are NULL, no header exists and the break is where the process left it; this state satisfies `HeapValid` for every valid configuration. |
| `HeapModel.Handle` | beavalloc.c:36 | The pointer `beavalloc` returns lies at or above its header. It is `META_DATA` bytes past the header when `META_DATA` is 0 or the struct size is 1. With a nonzero struct size, `ptr - META_DATA` computed from it never falls below the header. |
| `HeapModel.FreeTarget` | beavalloc.c:43 | The address `beavfree` looks up is never above `ptr`, and it is a valid (non-negative) address exactly when `ptr >= META_DATA`. |
| `HeapModel.Chain` | beavalloc.c:41-48 | The blocks the loop in `beavfree` can reach from `heap.head` are all headers, and there are no more of them than there are headers. |
| `HeapModel.Walk` | beavalloc.c:41-48 | The forward walk visits only addresses that hold a header, and takes at most as many steps as its bound. |
| `HeapModel.AllocStep` | beavalloc.c:12-37 | Size 0 gives NULL and leaves all state unchanged. Otherwise the break grows by exactly `MIN_MEM` whatever the size. A recorded break is kept, and a missing one is set to the old break. The new header sits at the old break with no `next`, not available and capacity `MIN_MEM - META_DATA`. On an empty list it becomes head and tail with no `prev`. Otherwise it becomes the tail with `prev` set to the old tail, and the head stays. Exactly one header is added or rewritten, the one at the old break; every other header is unchanged. The pointer is the header address plus `META_DATA * sizeof(struct block)`. |
| `HeapModel.AllocPreservesValid` | beavalloc.c:12-37 | `beavalloc` keeps `HeapValid`. |
| `HeapModel.FreeStep` | beavalloc.c:39-49 | Break, `brk_address`, head, tail and the set of headers are unchanged. Only the header at `ptr - META_DATA` can change, and only when the forward chain reaches it; it then becomes available with all other fields kept. With no reachable match the state is unchanged. `HeapValid` is preserved. |
| `HeapModel.ResetStep` | beavalloc.c:51-55 | `brk_address` becomes NULL. The break returns to the recorded break when one exists and is unchanged otherwise. Head, tail and headers are untouched. |
| `HeapModel.ResetPreservesValid` | beavalloc.c:51-55 | Reset keeps `HeapValid`. A reset with a non-empty list puts the break back at the head block's address. |
| `HeapModel.ChainIsHeadOnly` | beavalloc.c:24-34 | Because no header ever gets a forward link, the chain `beavfree` walks is exactly the head (or empty), and the walk terminates. |
| `HeapModel.FreeTouchesOnlyHead` | beavalloc.c:39-49 | In every reachable state of the model `beavfree` flags the head when the head's address is `ptr - META_DATA`, and otherwise changes nothing. |
| `HeapModel.FreeIdempotent` | beavalloc.c:39-49 | Freeing the same pointer twice leaves the same state as freeing it once. |
| `HeapModel.HandleLookupOffset` | beavalloc.c:36-43 | The address `beavfree` looks up for a returned pointer is the header address plus `META_DATA * (sizeof(struct block) - 1)`. It equals the header address exactly when `META_DATA` is 0 or the struct size is 1. |
| `HeapModel.FirstHandleRoundTrip` | beavalloc.c:12-49 | In a fresh process, freeing the first pointer returned marks its block available exactly when the two offsets coincide. |
| `HeapModel.AppendedBlockNeverFreed` | beavalloc.c:27-49 | Suppose a break is recorded. A newly appended block is then left unchanged and in use by `beavfree`, whatever pointer it is given. |
| `HeapModel.ResetThenAllocReusesHead` | beavalloc.c:12-55 | After a reset the next nonzero allocation returns the head block's pointer again. It rewrites the head's header as used, with `prev` set to the stale tail, and makes the head the tail too. |
| `HeapModel.AllocMany` | beavalloc.c:12-37 | A run of allocations returns one pointer per request and preserves `HeapValid`. |
| `HeapModel.AllocManyBreak` | beavalloc.c:22 | After a run, the break has moved by exactly `MIN_MEM` times the number of nonzero requests. |
| `HeapModel.AllocManyRecordsBreak` | beavalloc.c:18-20 | The first nonzero request of a run records the starting break when none is recorded. A recorded break is never changed by later allocations. |
| `HeapModel.AllocManyPointers` | beavalloc.c:14-36 | Request `i` of a run gets NULL exactly when it asks for 0 bytes. Otherwise it gets the pointer of the block at the starting break plus `MIN_MEM` times the number of earlier nonzero requests, so the blocks sit back to back. |
| `HeapModel.ResetRestoresBreak` | beavalloc.c:51-55 | Start from a state with no recorded break. After any run of allocations, a reset puts the break back exactly where it started and leaves no break recorded. |

## Left out

- `sbrk` and `brk` are modelled as a bump pointer that always succeeds. The code never checks for `(void *) -1`. The model also assumes that nothing else in the process moves the break.
- `brk(NULL)`, which happens on a reset with no break recorded, is modelled as leaving the break unchanged. The kernel refuses a break below the data segment.
- Addresses are unbounded. Wrap-around of pointer arithmetic is not modelled. In particular, a `ptr - META_DATA` below address 0 matches no header, where C would wrap to a high address.
- `HeapModel.Walk` bounds the forward walk by the number of headers. `ChainIsHeadOnly` proves that the walk ends before that bound in every reachable state, so the bound never cuts it short.
- `beavalloc_dump` is not modelled. Its body is commented out, and its intended effect is printing to stderr.
- `beavalloc_set_verbose` is not modelled. Its body is empty.
- The payload bytes are not modelled, because no operation reads or writes them. For the same reason, `beavcalloc`'s zero fill and `beavrealloc`'s copy do not exist in this code.
- First-fit search, block splitting, coalescing and resizing are not modelled. They belong to the intended first-fit allocator, but this version of the code has none of them.
- Concurrency is not modelled. The allocator is single-threaded and unsynchronised.
- Released memory stays readable. After `beavalloc_reset` the break is back at the head header, so every header sits at or above the break, yet the model keeps them all in `blocks`. A `beavfree` before the next allocation then reads (and may flag) the head in the model, where the C code dereferences memory `brk` has released, which is undefined behaviour and typically a crash.
- The program break is assumed never to be at address 0 (the class constructor requires a positive initial break), because a header at address 0 would be indistinguishable from NULL in `heap.head == NULL` at beavalloc.c:27. The step functions themselves accept any break.
- `beavalloc.h` is not part of this model. The struct layout and the values of `MIN_MEM`, `META_DATA`, `TRUE` and `FALSE` are abstract.
