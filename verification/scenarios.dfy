/** Concrete runs of the allocator on a 64-bit platform with 4-byte
    elements, checking the model against hand-computed outcomes. */
module Scenarios {
  import opened Words
  import opened EffectiveAllocator
  import opened Traces

  /** `effective_allocator<int, SIZE>` on a 64-bit platform. */
  function IntConfig(size: nat): (cfg: Config)
    ensures cfg.Valid()
  {
    Config(4, size, 64)
  }

  /** The largest request on this platform is 2^62 - 1 elements. */
  lemma IntMaxSize(size: nat)
    ensures MaxSize(IntConfig(size)) == 0x3FFF_FFFF_FFFF_FFFF
  {
    Pow2Values();
  }

  /** Three single-element requests on a 4-element node are served from
      node 0 at byte offsets 0, 4 and 8, without growth. */
  lemma SequentialFromOneNode()
    ensures var t := Run(IntConfig(4), DefaultAllocator(IntConfig(4)), [1, 1, 1]);
            && t.regions == [Region(Addr(0, 0), 1), Region(Addr(0, 4), 1), Region(Addr(0, 8), 1)]
            && |t.final.nodes| == 1
            && t.final.nodes[0].cursor == 12
  {
    IntMaxSize(4);
  }

  /** After those three, a 2-element request needs bytes 12..20 of a
      16-byte block, so one node of max(4, 2) = 4 elements is appended and
      the request is served from its start. */
  lemma GrowthOnOverflow()
    ensures var t := Run(IntConfig(4), DefaultAllocator(IntConfig(4)), [1, 1, 1, 2]);
            && |t.regions| == 4
            && t.regions[3] == Region(Addr(1, 0), 2)
            && |t.final.nodes| == 2
            && t.final.nodes[1].capacity == 16
            && t.final.nodes[1].cursor == 8
  {
    IntMaxSize(4);
  }

  /** A request larger than `SIZE` gets a node sized to the request. */
  lemma LargeRequestSizesNode()
    ensures var s := Allocate(IntConfig(16), DefaultAllocator(IntConfig(16)), 10000);
            && s.outcome == Granted(Addr(1, 0))
            && |s.state.nodes| == 2
            && s.state.Tail().capacity == 40000
  {
    IntMaxSize(16);
  }

  /** The extra byte of `end` is not usable: a request that fills the
      block to its last byte is served in place, and the next element
      no longer fits. */
  lemma ExactFillThenGrow()
    ensures var t := Run(IntConfig(4), DefaultAllocator(IntConfig(4)), [4, 1]);
            && t.regions == [Region(Addr(0, 0), 4), Region(Addr(1, 0), 1)]
            && t.final.nodes[0].cursor == t.final.nodes[0].capacity
  {
    IntMaxSize(4);
  }

  /** A request above `max_size()` throws and leaves the allocator as it
      was, even on a copy that has no node. */
  lemma OversizedRequestThrows(a: Allocator)
    ensures MaxSize(IntConfig(4)) < 0x4000_0000_0000_0000
    ensures var cfg := IntConfig(4);
            var s := Allocate(cfg, CopyAllocator(a), 0x4000_0000_0000_0000);
            s.outcome == BadAlloc && s.state.nodes == []
  {
    IntMaxSize(4);
  }
}
