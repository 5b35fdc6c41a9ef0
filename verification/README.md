# effective_allocator in Dafny

A model of `effective_allocator<T, SIZE>`, a node-based bump-pointer
(arena) allocator for standard containers. The allocator keeps an ordered
vector of nodes; each node is one backing block with a cursor (`current`),
a stored end pointer (`end`) and a counter of elements handed out from it
(`alloc_cnt`). `allocate(n)` serves requests from the last node only: it
advances that node's cursor when the request fits, and otherwise appends
one node of `max(SIZE, n)` elements and serves the request from its start.
`deallocate` returns immediately, so the allocator is a leaky arena whose
memory comes back only when the allocator is destroyed.

The model is functional. An allocator is a `seq<Node>`; a pointer is an
address `(node index, byte offset)` where offset 0 is the node's `data`
pointer. `sizeof(T)`, `SIZE` and the width of `size_t` are parameters
(`Config`). `allocate` is a pure function returning the new allocator
together with the pointer it returned or the `bad_alloc` it threw.

Files:

- `words.dfy` (`Words`): powers of two, and the `size_t` and 32-bit `int`
  conversions the C++ code performs implicitly.
- `allocator.dfy` (`EffectiveAllocator`): nodes, the constructors,
  `max_size`, the fit test, `allocate` and `deallocate`.
- `traces.dfy` (`Traces`): runs of several `allocate` calls, and what they
  guarantee together about the regions handed out.
- `counts.dfy` (`Counts`): the `alloc_cnt` bookkeeping over a run.
- `as_written.dfy` (`AsWritten`): the growth path with `init`'s `int`
  parameter, and the overrun it causes (see Findings).
- `scenarios.dfy` (`Scenarios`): concrete runs with hand-computed results.

Notes on the code's behaviour, as modelled:

- The stored `end` is `data + s + 1` and the fit test is the strict
  `current + sizeof(T)*n < end`. Together they accept a request exactly
  when it ends within the block (`Fits`). The two quirks cancel out: the
  extra byte is never handed out.
- `deallocate` is an unconditional no-op. The reclamation loop after its
  `return` is dead code and is not presented as its behaviour.
- The copy constructor creates no node. `allocate` reads `nodes.back()`
  after the `max_size` check, so on a copy only oversized requests are
  defined (they throw). `Allocate` requires exactly that: an oversized
  request or a non-empty node vector. This is listed under Findings;
  `FunctioningCopy` is the copy a client can allocate from.
- The rebind constructor builds one node of `SIZE` new elements per
  source node and copies each `alloc_cnt`; the source's block sizes are
  not carried over.
- Cursors start at `data` and move only by `sizeof(T)*n` bytes, so every
  pointer handed out is a whole number of elements from the start of its
  block (`OnBoundary`). The plain `operator new(s)` in `init` returns
  blocks aligned for any type of fundamental alignment, so for such a `T`
  these pointers are suitably aligned.
- `alloc_cnt` is an `int`; `alloc_cnt += n` converts it to `size_t`, adds
  modulo 2^w and narrows back. `AddCount` states this conversion chain;
  narrowing follows the modular rule of C++20, which mainstream compilers
  also apply under earlier standards.

## Model

| member | source | states |
|---|---|---|
| EffectiveAllocator.Init | src/effective_allocator.h:19-25 | `init(size)` for a count that fits: a block of `sizeof(T)*size` bytes with the cursor at `data` and `alloc_cnt` 0, so cursor-within-block holds |
| EffectiveAllocator.AddCount | src/effective_allocator.h:112 | `alloc_cnt += n` always leaves an `int`, and is exact addition while a non-negative counter plus n stays at most `INT_MAX` |
| EffectiveAllocator.Fits | src/effective_allocator.h:98 | the fit test against the stored `end` (one past the block) accepts a request exactly when cursor + request bytes is at most the block's byte capacity |
| EffectiveAllocator.DefaultAllocator | src/effective_allocator.h:46-51 | the default constructor yields exactly one node, of `SIZE*sizeof(T)` bytes, with its cursor at `data` and `alloc_cnt` 0; every cursor is within its block and on an element boundary |
| EffectiveAllocator.CopyAllocator | src/effective_allocator.h:53-56 | the copy constructor yields an allocator with no node at all |
| EffectiveAllocator.FunctioningCopy | src/effective_allocator.h:53-56 | a copy as evidently intended: one node at its start, with every cursor in its block and aligned, on which every request up to `max_size()` is granted a region inside its block |
| EffectiveAllocator.Rebind | src/effective_allocator.h:58-69 | the rebind constructor yields as many nodes as the source has; node i has `SIZE` elements of the new type, its cursor at `data`, and the `alloc_cnt` of the source's node i; every cursor is on an element boundary |
| EffectiveAllocator.MaxSize | src/effective_allocator.h:85-86 | `max_size()` is the largest element count m with m*sizeof(T) at most the largest `size_t`: one more element would not fit |
| EffectiveAllocator.Serve | src/effective_allocator.h:98-112 | the two branches after the `max_size` check: when the request fits, the tail's cursor advances by n*sizeof(T) and its old value is returned, with the node count kept; otherwise exactly the given node is appended, its cursor advanced by n*sizeof(T) and its start returned; either way the serving node's `alloc_cnt` gets `+= n` and no other node changes; from aligned cursors and an aligned new node, every cursor and the returned pointer lie on element boundaries |
| EffectiveAllocator.Allocate | src/effective_allocator.h:91-117 | throws `bad_alloc` exactly when n exceeds `max_size()`, leaving the allocator unchanged; otherwise returns a pointer into the tail node whose region ends at the new cursor and, from a valid allocator, lies in that node's block; on the fit path the old cursor is returned and the node count is kept; on the growth path exactly one node of `max(SIZE, n)` elements is appended and its start returned; the serving node's `alloc_cnt` grows by n; all nodes but the old tail are untouched, no block changes size, no cursor moves back, and cursor-within-block is preserved; from an allocator whose cursors lie on element boundaries, the returned pointer lies on one and so does every cursor afterwards |
| EffectiveAllocator.BoundaryStep | src/effective_allocator.h:102-109 | advancing a cursor on an element boundary by `sizeof(T)*n` bytes leaves it on an element boundary |
| EffectiveAllocator.TailStepAligned | src/effective_allocator.h:98-111 | replacing or appending the last node, with a cursor advanced from an element boundary by `sizeof(T)*n` bytes, keeps every cursor of an aligned allocator on an element boundary |
| EffectiveAllocator.Deallocate | src/effective_allocator.h:119-121 | `deallocate` leaves the allocator exactly as it was |
| EffectiveAllocator.DeallocatedRegionNotReused | src/effective_allocator.h:98-121 | a region that is allocated and then deallocated is never overlapped by the next allocation: that one starts in a later node or at or after the region's end |
| Traces.Run | src/effective_allocator.h:98-112 | over any sequence of `allocate` calls the node vector never shrinks, no block changes size, no cursor moves back, and cursor-within-block and element alignment of every cursor are preserved |
| Traces.BeyondStep | src/effective_allocator.h:98-111 | one `allocate` never moves the allocation point back: what lies beyond the allocator afterwards lay beyond it before |
| Traces.RunRegionsFresh | src/effective_allocator.h:98-111 | every region granted during a run starts beyond everything handed out before the run and lies below its node's final cursor |
| Traces.RunRegionsOrdered | src/effective_allocator.h:98-111 | the regions granted during a run come in address order: each ends before the next begins, in the same node or an earlier one |
| Traces.RunRegionsInBlock | src/effective_allocator.h:98-111 | every region granted during a run from a valid allocator lies inside the block of the node it points into |
| Traces.RunRegionsAligned | src/effective_allocator.h:98-111 | every region granted during a run from an allocator with aligned cursors starts on an element boundary of its node |
| Traces.RunRegionsDisjoint | src/effective_allocator.h:98-111 | no byte belongs to two different regions granted during a run |
| Counts.AllocateCounts | src/effective_allocator.h:98-112 | while no counter overflows (every counter non-negative and at most `INT_MAX` after n more elements), one `allocate` adds n to the serving node's counter and leaves every other counter as it was |
| Counts.RunCounts | src/effective_allocator.h:98-112 | while no counter can overflow (every counter plus the elements of all requests at most `max_size()` stays an `int`; requests that throw add nothing), every node's final `alloc_cnt` is its starting value plus the element counts of the regions served from it |
| AsWritten.Init | src/effective_allocator.h:19-25 | `init(int size)` yields a node with its cursor at `data`, `alloc_cnt` 0 and a byte size that is a `size_t`; a non-negative size whose byte size is a `size_t` gets exactly `sizeof(T)*size` bytes, and a negative size is read as the `size_t` 2^w + size, the product wrapping modulo 2^w |
| AsWritten.DefaultAllocator | src/effective_allocator.h:46-51 | the default constructor with `init(SIZE)` narrowing `SIZE` to `int`: one node at its start with `alloc_cnt` 0 and a `size_t` byte size, equal to the corrected allocator while `SIZE` is an `int` and `SIZE*sizeof(T)` a `size_t` |
| AsWritten.NarrowedSizeWraps | src/effective_allocator.h:19-25 | with 1-byte elements, `SIZE` 2^31 and 64-bit `size_t`, the first block is 2^64 - 2^31 bytes instead of 2^31 |
| AsWritten.CopyCannotServe | src/effective_allocator.h:53-56 | a copy made by the copy constructor has no node, so `allocate(1)` with 4-byte elements on a 64-bit platform is outside `allocate`'s defined behaviour, while the functioning copy grants it |
| AsWritten.Allocate | src/effective_allocator.h:104-111 | as written, the growth path appends a node whose size is `init`'s of `max(SIZE, n)` narrowed to `int`, while the cursor advances by the full n*sizeof(T) bytes |
| AsWritten.AgreesWhileCountFitsInt | src/effective_allocator.h:104-111 | while `max(SIZE, n)` fits in an `int` and its byte size in a `size_t`, the code as written and the corrected `Allocate` agree |
| AsWritten.GrowthOverrunsNarrowedBlock | src/effective_allocator.h:108-109 | with 1-byte elements, `SIZE` 16 and 64-bit `size_t`, `allocate(2^32+1)` appends a 1-byte node and returns a region that leaves its block, while the corrected model's node contains it |
| Scenarios.SequentialFromOneNode | src/effective_allocator.h:98-103 | three 1-element requests on a 4-element node of 4-byte elements are served from node 0 at offsets 0, 4 and 8 |
| Scenarios.GrowthOnOverflow | src/effective_allocator.h:104-111 | a following 2-element request needs bytes 12 to 20 of a 16-byte block, so a second 4-element node is appended and serves it from offset 0 |
| Scenarios.LargeRequestSizesNode | src/effective_allocator.h:104-111 | a 10000-element request with `SIZE` 16 gets a node of 10000 elements |
| Scenarios.ExactFillThenGrow | src/effective_allocator.h:98 | a request that fills the block to its last byte is served in place, and the next element goes to a new node |
| Scenarios.OversizedRequestThrows | src/effective_allocator.h:93-94 | a request above `max_size()` throws even on a copy without nodes, and leaves it unchanged |

## Findings

| source | as written | input that shows it | evidently intended | confidence | as-written member | corrected member |
|---|---|---|---|---|---|---|
| src/effective_allocator.h:108 | `init(SIZE > n ? SIZE : n)` passes a `size_t` count to `_node::init(int size)`, which narrows it to 32 bits, while line 109 advances the cursor by the full `sizeof(T)*n` | `sizeof(T)` 1, `SIZE` 16, 64-bit `size_t`, `allocate(2^32 + 1)` on a fresh allocator: the new block is 1 byte and the returned region is 2^32 + 1 bytes | the appended node holds `max(SIZE, n)` elements, so the returned region lies in its block | high; not executed | AsWritten.GrowthOverrunsNarrowedBlock | EffectiveAllocator.Allocate |
| src/effective_allocator.h:53-56 | the copy constructor leaves the node vector empty, so any later `allocate(n)` with n at most `max_size()` calls `nodes.back()` on an empty vector (line 98), which is undefined behaviour | `sizeof(T)` 4, `SIZE` 16, 64-bit `size_t`: `allocate(1)` on any copy; containers copy their allocator when they are copied | a copy is a functioning allocator with a node of its own, on which every request up to `max_size()` is granted a region inside its block | medium; not executed | AsWritten.CopyCannotServe | EffectiveAllocator.FunctioningCopy |

For counts between 2^31 and 2^32 the narrowed `int` is negative, and the
block request becomes a huge `size_t` that `operator new` would
presumably reject; the model does not decide what `operator new` does.

## Left out

- EffectiveAllocator.DefaultAllocator: builds a block of exactly `SIZE*sizeof(T)` bytes for every `Config`. The code narrows `SIZE` to `int` in `init(SIZE)` and computes `sizeof(T)*size` modulo 2^w, so it agrees only while `SIZE` is at most `INT_MAX` and `SIZE*sizeof(T)` is a `size_t`; `Config.Valid` does not require either. `AsWritten.DefaultAllocator` applies both and proves the agreement under those bounds.
- EffectiveAllocator.Rebind: the same: each node gets exactly `SIZE*sizeof(T)` bytes, without the narrowing of `SIZE` to `int` or the wrap of the byte size modulo 2^w; the two coincide under the bounds above.
- EffectiveAllocator.Init: takes its count as a natural number and does not wrap; `AsWritten.Init` is the `int`-parameter version, with the narrowing and the modular product.
- Counts.AllocateCounts: stated only while every counter stays within `int` after the request; past that `AddCount` states the wrapped result of one step.
- Counts.RunCounts: stated only for runs whose counters stay within `int`; beyond that, each step's wrap-around is modelled by `AddCount` but not summed over a run.
- Raw memory: `operator new` and `::operator delete` in `init` and the destructor. Blocks are abstract byte ranges; a failing `operator new` (out of memory) is not modelled, every block request succeeds.
- Over-aligned element types (`alignas` beyond the fundamental alignment): the plain `operator new(s)` does not honour their alignment, so whole-element offsets into its block need not be aligned for them; the model states element-boundary offsets only.
- Pointer arithmetic is on offsets within a node, so the wrap-around of raw addresses, and comparisons of pointers from different blocks, do not arise.
- The destructor (releasing every block) and `std::vector` relocating the `_node` records.
- `construct`, `destroy` and `address`: placement new, destructor calls and `std::addressof`, with no bookkeeping.
- The unreachable reclamation loop after `deallocate`'s `return`.
- The `rebind` member template: the element size of the new type is simply the `Config` of the rebound allocator.
- `allocate`'s unused hint parameter.
- The logging macros, which have no effect on behaviour.
- The benchmark driver (timing, file loading, standard containers).
