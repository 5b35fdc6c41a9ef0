/** The node-based bump-pointer allocator `effective_allocator<T, SIZE>`.

    An allocator owns an ordered sequence of nodes. Each node is one backing
    block with a cursor (`current`), a stored end pointer (`end`) and a
    count of elements handed out from it (`alloc_cnt`). Requests are served
    from the last node only: by advancing its cursor when the request fits,
    otherwise from the start of one freshly appended node.

    Raw pointers are replaced by addresses `(node index, byte offset)`,
    where offset 0 is the node's `data` pointer; every node field that is
    a pointer in C++ is an offset here. */
module EffectiveAllocator {
  import opened Words

  /** The compile-time parameters of one instantiation on one platform:
      `sizeof(T)`, the template argument `SIZE` (elements per default node)
      and the width in bits of `size_t`. */
  datatype Config = Config(elemSize: nat, nodeSize: nat, wordBits: nat)
  {
    /** `sizeof(T)` is positive in C++, and `size_t` is at least as wide
        as `int` on every platform the code's conversions are written for. */
    predicate Valid()
    {
      elemSize > 0 && wordBits >= 32
    }

    /** `size_type(-1)`, the largest `size_t`. */
    function SizeMax(): nat
    {
      Pow2(wordBits) - 1
    }
  }

  function Max(a: nat, b: nat): nat
  {
    if a > b then a else b
  }

  /** One `_node`. `capacity` is the byte count obtained from
      `operator new`; `cursor` is `current - data`; `allocCnt` is the
      32-bit `int` field `alloc_cnt`. */
  datatype Node = Node(capacity: nat, cursor: int, allocCnt: int)
  {
    /** The stored `end` pointer as an offset: `init` sets it one byte
        past the block. */
    function End(): int
    {
      capacity + 1
    }

    /** The cursor lies within the block (it may sit on its last byte's
        successor once the block is full). */
    predicate Valid()
    {
      0 <= cursor <= capacity
    }
  }

  /** The fit test of `allocate`, compared against the stored `end`
      exactly as written. The extra byte in `end` and the strict
      comparison cancel out: a request fits exactly when it ends within
      the block. */
  function Fits(node: Node, bytes: nat): (b: bool)
    ensures b <==> node.cursor + bytes <= node.capacity
  {
    node.cursor + bytes < node.End()
  }

  /** A freshly initialised node of `bytes` bytes: the cursor at `data`,
      no elements handed out. */
  function FreshNode(bytes: nat): Node
  {
    Node(bytes, 0, 0)
  }

  /** `_node::init(size)` for a size that reaches it unchanged: a block of
      `size * sizeof(T)` bytes. The `int` parameter's narrowing is modelled
      separately by `AsWritten.Init`. */
  function Init(cfg: Config, count: nat): (node: Node)
    ensures node.capacity == count * cfg.elemSize
    ensures node.cursor == 0 && node.allocCnt == 0
    ensures node.Valid()
  {
    FreshNode(count * cfg.elemSize)
  }

  /** `alloc_cnt += n`: the `int` counter is converted to `size_t`, the
      sum is taken modulo 2^wordBits, and the result is narrowed back to
      `int`. */
  function AddCount(cfg: Config, c: int, n: nat): (r: int)
    ensures INT_MIN <= r <= INT_MAX
    ensures cfg.wordBits >= 32 && 0 <= c && c + n <= INT_MAX ==> r == c + n
  {
    WordHoldsInt(cfg.wordBits);
    ToInt(ToSize(cfg.wordBits, ToSize(cfg.wordBits, c) + n))
  }

  /** An allocator: its vector of nodes, the last one being the tail. */
  datatype Allocator = Allocator(nodes: seq<Node>)
  {
    predicate Valid()
    {
      forall i :: 0 <= i < |nodes| ==> nodes[i].Valid()
    }

    function Tail(): Node
      requires nodes != []
    {
      nodes[|nodes| - 1]
    }
  }

  /** The byte size of `k` elements. */
  function Bytes(cfg: Config, k: nat): nat
  {
    k * cfg.elemSize
  }

  /** Offset `x` is an element boundary: a whole number of elements from
      the start of the block, so an element stored there is aligned as
      every block returned by `operator new` is. */
  ghost predicate OnBoundary(cfg: Config, x: int)
  {
    exists k: nat :: x == Bytes(cfg, k)
  }

  /** Every cursor of `a` is on an element boundary. */
  ghost predicate Aligned(cfg: Config, a: Allocator)
  {
    forall i :: 0 <= i < |a.nodes| ==> OnBoundary(cfg, a.nodes[i].cursor)
  }

  /** Moving a boundary offset by whole elements lands on a boundary. */
  lemma BoundaryStep(cfg: Config, x: int, n: nat)
    requires OnBoundary(cfg, x)
    ensures OnBoundary(cfg, x + n * cfg.elemSize)
  {
    var k: nat :| x == Bytes(cfg, k);
    assert x + n * cfg.elemSize == Bytes(cfg, k + n);
  }

  /** A returned pointer: a byte offset into one node's block. */
  datatype Addr = Addr(node: nat, offset: int)

  /** The `n`-element region starting at `p` lies inside the block of the
      node `p` points into. */
  predicate InBlock(cfg: Config, a: Allocator, p: Addr, n: nat)
  {
    && p.node < |a.nodes|
    && 0 <= p.offset
    && p.offset + n * cfg.elemSize <= a.nodes[p.node].capacity
  }

  /** `b` keeps every node of `a` with the same block, and no cursor of
      `a` has moved backwards. */
  predicate Extends(a: Allocator, b: Allocator)
  {
    && |a.nodes| <= |b.nodes|
    && forall i :: 0 <= i < |a.nodes| ==>
         b.nodes[i].capacity == a.nodes[i].capacity && b.nodes[i].cursor >= a.nodes[i].cursor
  }

  /** Every node of `a` other than its tail is left exactly as it was. */
  predicate OnlyTailChanges(a: Allocator, b: Allocator)
  {
    && |a.nodes| <= |b.nodes|
    && forall i :: 0 <= i < |a.nodes| - 1 ==> b.nodes[i] == a.nodes[i]
  }

  /** The default constructor: one node of `SIZE` elements. */
  function DefaultAllocator(cfg: Config): (a: Allocator)
    ensures |a.nodes| == 1
    ensures a.nodes[0].capacity == cfg.nodeSize * cfg.elemSize
    ensures a.nodes[0].cursor == 0 && a.nodes[0].allocCnt == 0
    ensures a.Valid() && Aligned(cfg, a)
  {
    assert Bytes(cfg, 0) == 0;
    Allocator([Init(cfg, cfg.nodeSize)])
  }

  /** The copy constructor: it copies nothing, so the copy has no node at
      all (and `allocate` on it would call `back()` on an empty vector). */
  function CopyAllocator(other: Allocator): (a: Allocator)
    ensures |a.nodes| == 0
    ensures a.Valid()
  {
    Allocator([])
  }

  /** What the copy constructor evidently should build: a functioning
      allocator. It need not share the other allocator's nodes, so a fresh
      node of `SIZE` elements serves, and every request up to `max_size()`
      is granted a region inside its block, which the node-less copy above
      cannot do. */
  function FunctioningCopy(cfg: Config, other: Allocator): (a: Allocator)
    ensures |a.nodes| == 1 && a.nodes[0].cursor == 0 && a.nodes[0].allocCnt == 0
    ensures a.Valid() && Aligned(cfg, a)
    ensures cfg.Valid() ==>
              forall n: nat :: n <= MaxSize(cfg) ==>
                && Allocate(cfg, a, n).outcome.Granted?
                && InBlock(cfg, Allocate(cfg, a, n).state, Allocate(cfg, a, n).outcome.addr, n)
  {
    DefaultAllocator(cfg)
  }

  /** The rebind constructor from an allocator of another element type with
      the same `SIZE`: one fresh node of `SIZE` elements of the new type per
      node of `src`, each inheriting the matching node's `alloc_cnt`. The
      blocks of `src` are not looked at. */
  method Rebind(cfg: Config, src: Allocator) returns (a: Allocator)
    ensures |a.nodes| == |src.nodes|
    ensures forall i :: 0 <= i < |src.nodes| ==>
              a.nodes[i] == Node(cfg.nodeSize * cfg.elemSize, 0, src.nodes[i].allocCnt)
    ensures a.Valid() && Aligned(cfg, a)
  {
    var nodes: seq<Node> := [];
    var k := 0;
    while k < |src.nodes|
      invariant k <= |src.nodes|
      invariant |nodes| == k
      invariant forall i :: 0 <= i < k ==>
                  nodes[i] == Node(cfg.nodeSize * cfg.elemSize, 0, src.nodes[i].allocCnt)
    {
      var newNode := Init(cfg, cfg.nodeSize);
      nodes := nodes + [newNode.(allocCnt := src.nodes[k].allocCnt)];
      k := k + 1;
    }
    a := Allocator(nodes);
    assert Bytes(cfg, 0) == 0;
  }

  /** `max_size()`: `size_type(-1) / sizeof(T)`, the largest element count
      whose byte size is still a `size_t`. */
  function MaxSize(cfg: Config): (m: nat)
    requires cfg.Valid()
    ensures m * cfg.elemSize <= cfg.SizeMax()
    ensures cfg.SizeMax() < (m + 1) * cfg.elemSize
  {
    var q := cfg.SizeMax() / cfg.elemSize;
    DivBounds(cfg.SizeMax(), cfg.elemSize);
    q
  }

  lemma DivBounds(x: nat, d: nat)
    requires d > 0
    ensures (x / d) * d <= x < (x / d + 1) * d
  {
    var q, r := x / d, x % d;
    assert x == q * d + r;
    assert (q + 1) * d == q * d + d;
  }

  /** What `allocate` reports: the pointer it returns, or the `bad_alloc`
      it throws. */
  datatype Outcome = Granted(addr: Addr) | BadAlloc

  /** The allocator after a call, together with what the call reported. */
  datatype Step = Step(state: Allocator, outcome: Outcome)

  /** The branch structure of `allocate` after the `max_size` check,
      parameterised by the node its growth path initialises: serve from
      the tail if the request fits, else append `newNode` and serve from its
      start; either way the serving node's `alloc_cnt` grows by `n`. */
  function Serve(cfg: Config, a: Allocator, n: nat, newNode: Node): (r: Step)
    requires a.nodes != []
    ensures r.outcome.Granted? && r.state.nodes != []
    ensures Fits(a.Tail(), n * cfg.elemSize) ==>
              && r.state.nodes == a.nodes[|a.nodes| - 1 := r.state.Tail()]
              && r.state.Tail() == Node(a.Tail().capacity, a.Tail().cursor + n * cfg.elemSize,
                                        AddCount(cfg, a.Tail().allocCnt, n))
              && r.outcome.addr == Addr(|a.nodes| - 1, a.Tail().cursor)
    ensures !Fits(a.Tail(), n * cfg.elemSize) ==>
              && r.state.nodes == a.nodes + [r.state.Tail()]
              && r.state.Tail() == Node(newNode.capacity, newNode.cursor + n * cfg.elemSize,
                                        AddCount(cfg, newNode.allocCnt, n))
              && r.outcome.addr == Addr(|a.nodes|, 0)
    // from aligned cursors and an aligned growth node, cursors stay aligned
    // and the returned pointer is aligned
    ensures Aligned(cfg, a) && OnBoundary(cfg, newNode.cursor) ==>
              && Aligned(cfg, r.state)
              && OnBoundary(cfg, r.outcome.addr.offset)
  {
    var bytes := n * cfg.elemSize;
    var tail := a.Tail();
    if Fits(tail, bytes) then
      var served := Node(tail.capacity, tail.cursor + bytes, AddCount(cfg, tail.allocCnt, n));
      var nodes := a.nodes[|a.nodes| - 1 := served];
      assert Aligned(cfg, a) ==> OnBoundary(cfg, tail.cursor);
      TailStepAligned(cfg, a.nodes, nodes, |a.nodes| - 1, tail.cursor, n);
      Step(Allocator(nodes), Granted(Addr(|a.nodes| - 1, tail.cursor)))
    else
      var served := Node(newNode.capacity, newNode.cursor + bytes, AddCount(cfg, newNode.allocCnt, n));
      TailStepAligned(cfg, a.nodes, a.nodes + [served], |a.nodes|, newNode.cursor, n);
      assert OnBoundary(cfg, Bytes(cfg, 0));
      Step(Allocator(a.nodes + [served]), Granted(Addr(|a.nodes|, 0)))
  }

  /** `allocate(n)`. The `max_size` check comes before the tail is looked
      at, so an allocator without nodes (a copy) can still throw
      `bad_alloc`; any other request needs a node. */
  function Allocate(cfg: Config, a: Allocator, n: nat): (r: Step)
    requires cfg.Valid()
    requires n > MaxSize(cfg) || a.nodes != []
    // fails exactly on oversized requests, and then changes nothing
    ensures r.outcome.BadAlloc? <==> n > MaxSize(cfg)
    ensures r.outcome.BadAlloc? ==> r.state == a
    // a granted region comes from the tail and ends at its new cursor ...
    ensures r.outcome.Granted? ==>
              && r.state.nodes != []
              && r.outcome.addr.node == |r.state.nodes| - 1
              && r.state.Tail().cursor == r.outcome.addr.offset + n * cfg.elemSize
    // ... and lies inside the tail's block
    ensures r.outcome.Granted? && a.Valid() ==> InBlock(cfg, r.state, r.outcome.addr, n)
    // fit path: the old cursor is returned and the node count is unchanged
    ensures r.outcome.Granted? && Fits(a.Tail(), n * cfg.elemSize) ==>
              && |r.state.nodes| == |a.nodes|
              && r.outcome.addr.offset == a.Tail().cursor
              && r.state.Tail().allocCnt == AddCount(cfg, a.Tail().allocCnt, n)
    // growth path: exactly one node of max(SIZE, n) elements, served from its start
    ensures r.outcome.Granted? && !Fits(a.Tail(), n * cfg.elemSize) ==>
              && r.state.nodes == a.nodes + [r.state.Tail()]
              && r.state.Tail().capacity == Max(cfg.nodeSize, n) * cfg.elemSize
              && r.outcome.addr.offset == 0
              && r.state.Tail().allocCnt == AddCount(cfg, 0, n)
    // nothing but the tail changes, and no block or cursor is lost
    ensures OnlyTailChanges(a, r.state) && Extends(a, r.state)
    ensures a.Valid() ==> r.state.Valid()
    // every pointer handed out is on an element boundary, and so is every cursor
    ensures Aligned(cfg, a) ==>
              && Aligned(cfg, r.state)
              && (r.outcome.Granted? ==> OnBoundary(cfg, r.outcome.addr.offset))
  {
    if n > MaxSize(cfg) then
      Step(a, BadAlloc)
    else
      var r := Serve(cfg, a, n, Init(cfg, Max(cfg.nodeSize, n)));
      GrowthNodeHolds(cfg, n);
      assert OnBoundary(cfg, Bytes(cfg, 0));
      r
  }

  /** Nodes that agree with `before` below `k`, and whose only other node
      is a last one whose cursor is offset `x` advanced by `n` elements,
      are aligned when `before` and `x` are. */
  lemma TailStepAligned(cfg: Config, before: seq<Node>, after: seq<Node>, k: nat, x: int, n: nat)
    requires k <= |before| && |after| == k + 1
    requires forall i :: 0 <= i < k ==> after[i] == before[i]
    requires after[k].cursor == x + n * cfg.elemSize
    ensures Aligned(cfg, Allocator(before)) && OnBoundary(cfg, x) ==> Aligned(cfg, Allocator(after))
  {
    if Aligned(cfg, Allocator(before)) && OnBoundary(cfg, x) {
      BoundaryStep(cfg, x, n);
    }
  }

  lemma GrowthNodeHolds(cfg: Config, n: nat)
    ensures n * cfg.elemSize <= Max(cfg.nodeSize, n) * cfg.elemSize
  {
    if cfg.nodeSize > n {
      MulMonotone(n, cfg.nodeSize, cfg.elemSize);
    }
  }

  lemma MulMonotone(a: nat, b: nat, c: nat)
    requires a <= b
    ensures a * c <= b * c
  {
    assert b * c == a * c + (b - a) * c;
  }

  /** `deallocate(p, cnt)`: returns before doing anything, so no region
      is ever given back. */
  function Deallocate(a: Allocator, p: Addr, cnt: nat): (r: Allocator)
    ensures r == a
  {
    a
  }

  /** The arena never reuses memory: a region returned, then handed back
      with `deallocate`, is not overlapped by the next allocation, which
      starts at or after its end or in a later node. */
  lemma DeallocatedRegionNotReused(cfg: Config, a: Allocator, n: nat, m: nat)
    requires cfg.Valid() && a.nodes != []
    requires n <= MaxSize(cfg) && m <= MaxSize(cfg)
    ensures var s1 := Allocate(cfg, a, n);
            var s2 := Allocate(cfg, Deallocate(s1.state, s1.outcome.addr, n), m);
            && s1.outcome.Granted? && s2.outcome.Granted?
            && (|| s1.outcome.addr.node < s2.outcome.addr.node
                || (&& s1.outcome.addr.node == s2.outcome.addr.node
                    && s1.outcome.addr.offset + n * cfg.elemSize <= s2.outcome.addr.offset))
  {
    var s1 := Allocate(cfg, a, n);
    var s2 := Allocate(cfg, s1.state, m);
    assert s1.state.Tail().cursor == s1.outcome.addr.offset + n * cfg.elemSize;
  }
}
