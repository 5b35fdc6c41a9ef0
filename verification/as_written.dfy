/** `allocate` with the growth path exactly as the C++ code performs it.

    `_node::init` takes its element count as an `int`, while `allocate`
    passes it `SIZE > n ? SIZE : n`, a `size_t`. The count is narrowed to
    32 bits before `sizeof(T) * size` is computed, so a request of more
    than `INT_MAX` elements gets a block sized for the narrowed count while
    the cursor still advances by the full request. `EffectiveAllocator.Allocate` is
    the corrected definition, whose growth node holds `max(SIZE, n)`
    elements. */
module AsWritten {
  import opened Words
  import opened EffectiveAllocator

  /** `_node::init(int size)`: `size` is converted to `size_t` for the
      multiplication, which wraps modulo 2^wordBits. */
  function Init(cfg: Config, size: int): (node: Node)
    requires INT_MIN <= size <= INT_MAX
    ensures node.cursor == 0 && node.allocCnt == 0
    ensures node.capacity <= cfg.SizeMax()
    // a non-negative count whose byte size is a `size_t` gets exactly that many bytes
    ensures cfg.Valid() && 0 <= size && size * cfg.elemSize <= cfg.SizeMax() ==>
              node.capacity == size * cfg.elemSize
    // a negative count is read as the `size_t` 2^wordBits + size before the multiplication
    ensures cfg.Valid() && size < 0 ==>
              node.capacity == ToSize(cfg.wordBits, cfg.elemSize * (size + Pow2(cfg.wordBits)))
  {
    WordHoldsInt(cfg.wordBits);
    FreshNode(ToSize(cfg.wordBits, cfg.elemSize * ToSize(cfg.wordBits, size)))
  }

  /** The default constructor as written: `init(SIZE)` narrows `SIZE` to
      `int` before `sizeof(T) * size` is computed in `size_t`. While `SIZE`
      is an `int` and its byte size a `size_t`, this is the allocator the
      corrected model builds. */
  function DefaultAllocator(cfg: Config): (a: Allocator)
    ensures |a.nodes| == 1 && a.nodes[0].cursor == 0 && a.nodes[0].allocCnt == 0
    ensures a.nodes[0].capacity <= cfg.SizeMax()
    ensures cfg.Valid() && cfg.nodeSize <= INT_MAX && cfg.nodeSize * cfg.elemSize <= cfg.SizeMax() ==>
              a == EffectiveAllocator.DefaultAllocator(cfg)
  {
    Allocator([Init(cfg, ToInt(cfg.nodeSize))])
  }

  /** With one-byte elements, `SIZE` 2^31 and a 64-bit `size_t`, `SIZE`
      narrows to `INT_MIN`, which `init` reads back as the `size_t`
      2^64 - 2^31: the first block is sized far beyond `SIZE` bytes. */
  lemma NarrowedSizeWraps()
    ensures var cfg := Config(1, 0x8000_0000, 64);
            && cfg.Valid()
            && DefaultAllocator(cfg).nodes[0].capacity == 0xFFFF_FFFF_8000_0000
            && EffectiveAllocator.DefaultAllocator(cfg).nodes[0].capacity == 0x8000_0000
  {
    var cfg := Config(1, 0x8000_0000, 64);
    Pow2Values();
    assert ToInt(cfg.nodeSize) == INT_MIN;
  }

  /** A copy made by the copy constructor cannot serve any request up to
      `max_size()`: it has no node, so `allocate`'s `nodes.back()` reads
      past an empty vector. Here, a single `int` on a 64-bit platform. */
  lemma CopyCannotServe(other: Allocator)
    ensures var cfg := Config(4, 16, 64);
            && cfg.Valid()
            && 1 <= MaxSize(cfg)
            && CopyAllocator(other).nodes == []
            && !(1 > MaxSize(cfg) || CopyAllocator(other).nodes != [])
            && Allocate(cfg, FunctioningCopy(cfg, other), 1).outcome.Granted?
  {
    Pow2Values();
  }

  /** `allocate(n)` as written: the growth node is initialised with
      `max(SIZE, n)` narrowed to `int`. */
  function Allocate(cfg: Config, a: Allocator, n: nat): (r: Step)
    requires cfg.Valid()
    requires n > MaxSize(cfg) || a.nodes != []
    ensures r.outcome.BadAlloc? <==> n > MaxSize(cfg)
    ensures r.outcome.BadAlloc? ==> r.state == a
    ensures r.outcome.Granted? ==> r.state.nodes != []
    ensures r.outcome.Granted? && !Fits(a.Tail(), n * cfg.elemSize) ==>
              && r.state.nodes == a.nodes + [r.state.Tail()]
              && r.state.Tail().capacity == Init(cfg, ToInt(Max(cfg.nodeSize, n))).capacity
              && r.state.Tail().cursor == n * cfg.elemSize
              && r.outcome.addr == Addr(|a.nodes|, 0)
  {
    if n > MaxSize(cfg) then
      Step(a, BadAlloc)
    else
      Serve(cfg, a, n, Init(cfg, ToInt(Max(cfg.nodeSize, n))))
  }

  /** While the growth count fits in an `int` and its byte size in a
      `size_t`, the code as written and the corrected model agree. */
  lemma AgreesWhileCountFitsInt(cfg: Config, a: Allocator, n: nat)
    requires cfg.Valid() && (n > MaxSize(cfg) || a.nodes != [])
    requires Max(cfg.nodeSize, n) <= INT_MAX
    requires Max(cfg.nodeSize, n) * cfg.elemSize <= cfg.SizeMax()
    ensures Allocate(cfg, a, n) == EffectiveAllocator.Allocate(cfg, a, n)
  {
    var m := Max(cfg.nodeSize, n);
    assert ToInt(m) == m;
    Pow2Values();
    Pow2Monotone(32, cfg.wordBits);
    assert ToSize(cfg.wordBits, m) == m;
    assert Init(cfg, ToInt(m)) == EffectiveAllocator.Init(cfg, m);
  }

  /** The overrun: with one-byte elements, `SIZE` 16 and a 64-bit
      `size_t`, `allocate(2^32 + 1)` on a fresh allocator appends a node
      whose block is one byte long (2^32 + 1 narrowed to `int` is 1) and
      returns its start, so the returned region runs 2^32 bytes past the
      block. The corrected model's node holds the whole request. */
  lemma GrowthOverrunsNarrowedBlock()
    ensures var cfg := Config(1, 16, 64);
            var n := 0x1_0000_0001;
            var r := Allocate(cfg, DefaultAllocator(cfg), n);
            && cfg.Valid()
            && r.outcome == Granted(Addr(1, 0))
            && r.state.Tail().capacity == 1
            && r.state.Tail().cursor == n
            && !InBlock(cfg, r.state, r.outcome.addr, n)
            && InBlock(cfg, EffectiveAllocator.Allocate(cfg, DefaultAllocator(cfg), n).state, Addr(1, 0), n)
  {
    var cfg := Config(1, 16, 64);
    var n := 0x1_0000_0001;
    Pow2Values();
    assert MaxSize(cfg) == 0xFFFF_FFFF_FFFF_FFFF;
    assert ToInt(n) == 1;
    assert Init(cfg, 1).capacity == 1;
  }
}
