/** Sequences of `allocate` calls on one allocator, and what they promise
    together: every region handed out stays inside its node's block, and
    regions are handed out in address order without overlapping, because
    the cursor of a node only ever moves forward and a node that could not
    serve a request is never used again. */
module Traces {
  import opened EffectiveAllocator

  /** A region handed out: its start and the element count requested. */
  datatype Region = Region(addr: Addr, count: nat)

  /** The allocator after a run of calls, and the regions granted in order. */
  datatype Trace = Trace(final: Allocator, regions: seq<Region>)

  /** The bytes of `r` lie between the start of its node's block and that
      node's cursor: handed out, and never to be handed out again. */
  predicate Used(cfg: Config, a: Allocator, r: Region)
  {
    && r.addr.node < |a.nodes|
    && 0 <= r.addr.offset
    && r.addr.offset + r.count * cfg.elemSize <= a.nodes[r.addr.node].cursor
  }

  /** `r` starts at or after everything `a` has handed out: in a later node
      than the tail, or in the tail at or after its cursor. */
  predicate Beyond(a: Allocator, r: Region)
    requires a.nodes != []
  {
    || r.addr.node >= |a.nodes|
    || (r.addr.node == |a.nodes| - 1 && r.addr.offset >= a.Tail().cursor)
  }

  /** `r1` ends before `r2` starts: in an earlier node, or earlier in the
      same node. Two regions ordered this way share no byte. */
  predicate Precedes(cfg: Config, r1: Region, r2: Region)
  {
    || r1.addr.node < r2.addr.node
    || (r1.addr.node == r2.addr.node && r1.addr.offset + r1.count * cfg.elemSize <= r2.addr.offset)
  }

  /** Every region of `t` starts beyond what `a` had handed out and lies
      below its node's cursor in `t.final`. */
  predicate AllFresh(cfg: Config, a: Allocator, t: Trace)
    requires a.nodes != []
  {
    forall i :: 0 <= i < |t.regions| ==> Beyond(a, t.regions[i]) && Used(cfg, t.final, t.regions[i])
  }

  /** The regions of `t` come in address order. */
  predicate Ordered(cfg: Config, t: Trace)
  {
    forall i, j :: 0 <= i < j < |t.regions| ==> Precedes(cfg, t.regions[i], t.regions[j])
  }

  /** Every region of `t` lies inside the block of the node it points into. */
  predicate Contained(cfg: Config, t: Trace)
  {
    forall i :: 0 <= i < |t.regions| ==> InBlock(cfg, t.final, t.regions[i].addr, t.regions[i].count)
  }

  /** A client calling `allocate(ns[0])`, `allocate(ns[1])`, ... in order.
      A call that throws `bad_alloc` leaves the allocator as it was and
      hands out nothing; the client carries on with the next request. */
  function Run(cfg: Config, a: Allocator, ns: seq<nat>): (t: Trace)
    requires cfg.Valid() && a.nodes != []
    ensures t.final.nodes != []
    ensures Extends(a, t.final)
    ensures a.Valid() ==> t.final.Valid()
    ensures Aligned(cfg, a) ==> Aligned(cfg, t.final)
    ensures |t.regions| <= |ns|
    decreases |ns|
  {
    if ns == [] then
      Trace(a, [])
    else
      var s := Allocate(cfg, a, ns[0]);
      var rest := Run(cfg, s.state, ns[1..]);
      if s.outcome.Granted? then
        Trace(rest.final, [Region(s.outcome.addr, ns[0])] + rest.regions)
      else
        rest
  }

  /** A handed-out region stays handed out while the allocator extends. */
  lemma UsedStaysUsed(cfg: Config, a: Allocator, b: Allocator, r: Region)
    requires Extends(a, b) && Used(cfg, a, r)
    ensures Used(cfg, b, r)
  {
    assert b.nodes[r.addr.node].cursor >= a.nodes[r.addr.node].cursor;
  }

  /** One `allocate` never moves the allocation point backwards: what lies
      beyond the allocator after the call already lay beyond it before. */
  lemma BeyondStep(cfg: Config, a: Allocator, n: nat, r: Region)
    requires cfg.Valid() && a.nodes != []
    requires n <= MaxSize(cfg)
    ensures Beyond(Allocate(cfg, a, n).state, r) ==> Beyond(a, r)
  {
    var s := Allocate(cfg, a, n);
    if Beyond(s.state, r) && |s.state.nodes| == |a.nodes| {
      assert s.state.Tail().cursor >= a.Tail().cursor;
    }
  }

  /** Over any run from a valid allocator, every granted region starts
      beyond what was handed out before the run and lies below its node's
      final cursor. */
  lemma {:induction false} RunRegionsFresh(cfg: Config, a: Allocator, ns: seq<nat>)
    requires cfg.Valid() && a.nodes != [] && a.Valid()
    ensures AllFresh(cfg, a, Run(cfg, a, ns))
    decreases |ns|
  {
    var t := Run(cfg, a, ns);
    if ns != [] {
      var s := Allocate(cfg, a, ns[0]);
      var rest := Run(cfg, s.state, ns[1..]);
      RunRegionsFresh(cfg, s.state, ns[1..]);
      if s.outcome.Granted? {
        var first := Region(s.outcome.addr, ns[0]);
        assert t == Trace(rest.final, [first] + rest.regions);
        UsedStaysUsed(cfg, s.state, rest.final, first);
        forall i | 0 <= i < |t.regions|
          ensures Beyond(a, t.regions[i]) && Used(cfg, t.final, t.regions[i])
        {
          if i > 0 {
            assert t.regions[i] == rest.regions[i - 1];
            BeyondStep(cfg, a, ns[0], rest.regions[i - 1]);
          }
        }
      } else {
        assert t == rest && s.state == a;
      }
    }
  }

  /** Over any run from a valid allocator, the granted regions come in
      address order: each ends before the next one starts. */
  lemma {:induction false} RunRegionsOrdered(cfg: Config, a: Allocator, ns: seq<nat>)
    requires cfg.Valid() && a.nodes != [] && a.Valid()
    ensures Ordered(cfg, Run(cfg, a, ns))
    decreases |ns|
  {
    var t := Run(cfg, a, ns);
    if ns != [] {
      var s := Allocate(cfg, a, ns[0]);
      var rest := Run(cfg, s.state, ns[1..]);
      RunRegionsOrdered(cfg, s.state, ns[1..]);
      RunRegionsFresh(cfg, s.state, ns[1..]);
      if s.outcome.Granted? {
        var first := Region(s.outcome.addr, ns[0]);
        assert t == Trace(rest.final, [first] + rest.regions);
        OrderedCons(cfg, s.state, first, rest);
      } else {
        assert t == rest;
      }
    }
  }

  /** A region ending at the tail's cursor of `b`, followed by an ordered
      rest of the run whose regions all lie beyond `b`, is ordered. */
  lemma OrderedCons(cfg: Config, b: Allocator, first: Region, rest: Trace)
    requires b.nodes != []
    requires first.addr.node == |b.nodes| - 1
    requires b.Tail().cursor == first.addr.offset + first.count * cfg.elemSize
    requires Ordered(cfg, rest) && AllFresh(cfg, b, rest)
    ensures Ordered(cfg, Trace(rest.final, [first] + rest.regions))
  {
    var t := Trace(rest.final, [first] + rest.regions);
    forall i, j | 0 <= i < j < |t.regions|
      ensures Precedes(cfg, t.regions[i], t.regions[j])
    {
      assert t.regions[j] == rest.regions[j - 1];
      if i == 0 {
        assert Beyond(b, rest.regions[j - 1]);
      } else {
        assert t.regions[i] == rest.regions[i - 1];
      }
    }
  }

  /** Every region granted over a run from a valid allocator lies inside
      the block of the node it points into. */
  lemma RunRegionsInBlock(cfg: Config, a: Allocator, ns: seq<nat>)
    requires cfg.Valid() && a.nodes != [] && a.Valid()
    ensures Contained(cfg, Run(cfg, a, ns))
  {
    var t := Run(cfg, a, ns);
    RunRegionsFresh(cfg, a, ns);
    forall i | 0 <= i < |t.regions|
      ensures InBlock(cfg, t.final, t.regions[i].addr, t.regions[i].count)
    {
      assert Used(cfg, t.final, t.regions[i]);
      assert t.final.nodes[t.regions[i].addr.node].Valid();
    }
  }

  /** Every region granted over a run from an aligned allocator starts on
      an element boundary of its node. */
  lemma {:induction false} RunRegionsAligned(cfg: Config, a: Allocator, ns: seq<nat>)
    requires cfg.Valid() && a.nodes != [] && Aligned(cfg, a)
    ensures forall i :: 0 <= i < |Run(cfg, a, ns).regions| ==>
              OnBoundary(cfg, Run(cfg, a, ns).regions[i].addr.offset)
    decreases |ns|
  {
    var t := Run(cfg, a, ns);
    if ns != [] {
      var s := Allocate(cfg, a, ns[0]);
      var rest := Run(cfg, s.state, ns[1..]);
      RunRegionsAligned(cfg, s.state, ns[1..]);
      if s.outcome.Granted? {
        assert t == Trace(rest.final, [Region(s.outcome.addr, ns[0])] + rest.regions);
        forall i | 0 <= i < |t.regions|
          ensures OnBoundary(cfg, t.regions[i].addr.offset)
        {
          if i > 0 {
            assert t.regions[i] == rest.regions[i - 1];
          }
        }
      } else {
        assert t == rest;
      }
    }
  }

  /** No byte is handed out twice: the byte ranges of two different
      regions of a run do not intersect. */
  lemma RunRegionsDisjoint(cfg: Config, a: Allocator, ns: seq<nat>, i: nat, j: nat, b: int)
    requires cfg.Valid() && a.nodes != [] && a.Valid()
    ensures var t := Run(cfg, a, ns);
            i < j < |t.regions| ==>
              var ri, rj := t.regions[i], t.regions[j];
              !(&& ri.addr.node == rj.addr.node
                && ri.addr.offset <= b < ri.addr.offset + ri.count * cfg.elemSize
                && rj.addr.offset <= b < rj.addr.offset + rj.count * cfg.elemSize)
  {
    RunRegionsOrdered(cfg, a, ns);
  }
}
