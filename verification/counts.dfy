/** The per-node `alloc_cnt` bookkeeping: while no counter leaves the
    range of `int`, each node's counter equals its starting value plus the
    element counts of all regions served from it. */
module Counts {
  import opened Words
  import opened EffectiveAllocator
  import opened Traces

  /** Total number of elements the requests in `ns` that `allocate`
      serves ask for: a request above `max_size()` throws and adds
      nothing to any counter. */
  function GrantedTotal(cfg: Config, ns: seq<nat>): nat
    requires cfg.Valid()
  {
    if ns == [] then 0
    else (if ns[0] <= MaxSize(cfg) then ns[0] else 0) + GrantedTotal(cfg, ns[1..])
  }

  /** Total element count of the regions served from node `k`. */
  function CountIn(regions: seq<Region>, k: nat): nat
  {
    if regions == [] then 0
    else (if regions[0].addr.node == k then regions[0].count else 0) + CountIn(regions[1..], k)
  }

  /** The counter node `k` of `a` starts a run with: its own, or 0 for a
      node the run will append. */
  function StartCount(a: Allocator, k: nat): int
  {
    if k < |a.nodes| then a.nodes[k].allocCnt else 0
  }

  /** Every counter is non-negative and stays an `int` after `extra` more
      elements. */
  predicate CountsFit(a: Allocator, extra: nat)
  {
    forall k :: 0 <= k < |a.nodes| ==> 0 <= a.nodes[k].allocCnt && a.nodes[k].allocCnt + extra <= INT_MAX
  }

  /** One `allocate(n)`: the serving node's counter grows by `n`, every
      other counter is as before, and the bound for the remaining
      requests still holds. */
  lemma {:induction false} AllocateCounts(cfg: Config, a: Allocator, n: nat, extra: nat)
    requires cfg.Valid() && a.nodes != [] && n <= MaxSize(cfg)
    requires CountsFit(a, n + extra) && n + extra <= INT_MAX
    ensures var s := Allocate(cfg, a, n);
            && s.outcome.Granted?
            && CountsFit(s.state, extra)
            && (forall k :: 0 <= k < |s.state.nodes| ==>
                  s.state.nodes[k].allocCnt
                    == StartCount(a, k) + (if k == s.outcome.addr.node then n else 0))
  {
    var s := Allocate(cfg, a, n);
    var p := s.outcome.addr.node;
    assert s.state.nodes[p].allocCnt == StartCount(a, p) + n;
    forall k | 0 <= k < |s.state.nodes| && k != p
      ensures s.state.nodes[k].allocCnt == StartCount(a, k)
    {
      assert s.state.nodes[k] == a.nodes[k];
    }
  }

  /** Every counter of `t.final` is its start in `a` plus what `t` served
      from that node. */
  predicate Tracks(a: Allocator, t: Trace)
  {
    forall k :: 0 <= k < |t.final.nodes| ==>
      t.final.nodes[k].allocCnt == StartCount(a, k) + CountIn(t.regions, k)
  }

  /** Count tracking over a run: while no counter can overflow, that is
      while every counter plus the elements of all served requests stays
      an `int`, every node's final `alloc_cnt` is its starting value plus
      the element counts of the regions the run served from it. */
  lemma {:induction false} RunCounts(cfg: Config, a: Allocator, ns: seq<nat>)
    requires cfg.Valid() && a.nodes != []
    requires CountsFit(a, GrantedTotal(cfg, ns)) && GrantedTotal(cfg, ns) <= INT_MAX
    ensures Tracks(a, Run(cfg, a, ns))
    decreases |ns|
  {
    var t := Run(cfg, a, ns);
    if ns != [] {
      var s := Allocate(cfg, a, ns[0]);
      var rest := Run(cfg, s.state, ns[1..]);
      if ns[0] <= MaxSize(cfg) {
        AllocateCounts(cfg, a, ns[0], GrantedTotal(cfg, ns[1..]));
        RunCounts(cfg, s.state, ns[1..]);
        var first := Region(s.outcome.addr, ns[0]);
        assert t == Trace(rest.final, [first] + rest.regions);
        TracksCons(a, s.state, first, rest);
      } else {
        assert s.state == a && t == rest;
        assert CountsFit(a, GrantedTotal(cfg, ns[1..]));
        RunCounts(cfg, a, ns[1..]);
      }
    }
  }

  /** A served region followed by a tracked rest of the run is tracked
      from the allocator before the call. */
  lemma TracksCons(a: Allocator, b: Allocator, first: Region, rest: Trace)
    requires |a.nodes| <= |b.nodes| <= |rest.final.nodes|
    requires forall k :: 0 <= k < |b.nodes| ==>
               b.nodes[k].allocCnt == StartCount(a, k) + (if k == first.addr.node then first.count else 0)
    requires first.addr.node < |b.nodes|
    requires Tracks(b, rest)
    ensures Tracks(a, Trace(rest.final, [first] + rest.regions))
  {
    var t := Trace(rest.final, [first] + rest.regions);
    forall k | 0 <= k < |t.final.nodes|
      ensures t.final.nodes[k].allocCnt == StartCount(a, k) + CountIn(t.regions, k)
    {
      assert t.regions[1..] == rest.regions;
      if k >= |b.nodes| {
        assert StartCount(b, k) == 0 == StartCount(a, k);
      }
    }
  }
}
