/**
 ipi_bench_mesh and ipi_bench_all up to the point where they start threads
 (microbenchmark/ipi-bench/ipi_bench.c): all CPUs are drawn first, and one failed draw ends it.
 */
module CpuAllocator {
  import opened CpuDraws
  import opened NodePairs

  datatype Outcome<T> = NoMemory | DrawFailed | Started(threads: T)

  /** Draws one CPU and keeps the account of what the stream has handed out. */
  method DrawCpu(rng: Random, mask: array<bool>, node: int, ghost start: nat, ghost plan: Plan, ghost cpus: seq<int>,
                 top: Topology, tries: nat)
    returns (cpu: int)
    requires mask.Length == plan.n > 0 && mask[..] == MaskOf(plan.n, cpus) && top == plan.top && tries == plan.tries
    requires Deals(Picks(rng.draw, plan.n), start, plan, cpus, rng.pos) && node == Wanted(plan.across, top, cpus)
    modifies rng`pos, mask
    ensures cpu < 0 ==>
              && mask[..] == MaskOf(plan.n, cpus) && rng.pos == old(rng.pos) + tries
              && Missed(Picks(rng.draw, plan.n), old(rng.pos), cpus, plan)
    ensures cpu >= 0 ==>
              && mask[..] == MaskOf(plan.n, cpus + [cpu])
              && Deals(Picks(rng.draw, plan.n), start, plan, cpus + [cpu], rng.pos)
  {
    ghost var pick, p := Picks(rng.draw, plan.n), rng.pos;
    cpu := RandomUnusedCpu(rng, mask, top, node, cpus, tries);
    if cpu >= 0 {
      DealNext(pick, start, plan, cpus, p, rng.pos - 1);
    }
  }

  /** One pair: dst is drawn before either is looked at, so a failed src may be followed by any dst. */
  method DrawPair(rng: Random, mask: array<bool>, acrossnuma: bool, ghost start: nat, ghost plan: Plan,
                  ghost cpus: seq<int>, top: Topology, tries: nat)
    returns (src: int, dst: int, ghost cpus': seq<int>, ghost end: nat)
    requires mask.Length == plan.n > 0 && mask[..] == MaskOf(plan.n, cpus) && top == plan.top && tries == plan.tries
    requires Deals(Picks(rng.draw, plan.n), start, plan, cpus, rng.pos) && acrossnuma == plan.across && |cpus| % 2 == 0
    modifies rng`pos, mask
    ensures Deals(Picks(rng.draw, plan.n), start, plan, cpus', end)
    ensures if src >= 0 && dst >= 0 then
              cpus' == cpus + [src] + [dst] && end == rng.pos && mask[..] == MaskOf(plan.n, cpus')
            else
              |cpus'| <= |cpus| + 1 && Missed(Picks(rng.draw, plan.n), end, cpus', plan) && end + tries <= rng.pos
  {
    var node := -1;
    cpus', end := cpus, rng.pos;
    src := DrawCpu(rng, mask, -1, start, plan, cpus, top, tries);
    if !acrossnuma {
      node := top.NodeOf(src);
    }
    if src < 0 {
      dst := RandomUnusedCpu(rng, mask, top, node, cpus, tries);
      return;
    }
    cpus', end := cpus + [src], rng.pos;
    dst := DrawCpu(rng, mask, node, start, plan, cpus', top, tries);
    if dst >= 0 {
      cpus', end := cpus' + [dst], rng.pos;
    }
  }

  /** The pairs one by one, until all are there or a draw has missed. */
  method DrawPairs(rng: Random, mask: array<bool>, pairs: nat, acrossnuma: bool, ghost plan: Plan, top: Topology,
                   tries: nat)
    returns (ps: seq<Pair>, ok: bool, ghost cpus: seq<int>, ghost end: nat)
    requires mask.Length == plan.n > 0 && mask[..] == MaskOf(plan.n, []) && top == plan.top && tries == plan.tries
    requires acrossnuma == plan.across
    modifies rng`pos, mask
    ensures Deals(Picks(rng.draw, plan.n), old(rng.pos), plan, cpus, end)
    ensures if ok then |ps| == pairs && cpus == Flat(ps) && end == rng.pos && mask[..] == MaskOf(plan.n, cpus)
            else |cpus| < 2 * pairs && Missed(Picks(rng.draw, plan.n), end, cpus, plan) && end + tries <= rng.pos
  {
    ghost var start := rng.pos;
    ps, cpus, end := [], [], rng.pos;
    while |ps| < pairs
      invariant |ps| <= pairs && mask[..] == MaskOf(plan.n, cpus) && cpus == Flat(ps)
      invariant end == rng.pos && Deals(Picks(rng.draw, plan.n), start, plan, cpus, end)
    {
      var src, dst;
      src, dst, cpus, end := DrawPair(rng, mask, acrossnuma, start, plan, cpus, top, tries);
      if src < 0 || dst < 0 {
        return ps, false, cpus, end;
      }
      FlatAppend(ps, src, dst);
      ps := ps + [Pair(src, dst)];
    }
    ok := true;
  }

  lemma MeshStarts(pick: nat -> nat, start: nat, plan: Plan, ps: seq<Pair>, end: nat)
    requires Deals(pick, start, plan, Flat(ps), end)
    ensures AreCpus(Flat(ps), plan.n) && 2 * |ps| <= plan.n
    ensures !plan.across ==>
              && AllSameNode(ps, plan.top)
              && (forall m: nat | NodesBelow(plan.top, plan.n, m) :: |ps| <= Capacity(plan.n, plan.top, m))
              && (NodesKnown(plan.top, plan.n) && 2 * |ps| == plan.n ==> EvenNodes(plan.n, plan.top))
  {
    DealsKeep(pick, start, plan, Flat(ps), end);
    FlatOnNodes(ps, plan.top);
    Pigeonhole(Flat(ps), plan.n);
    if !plan.across {
      MeshWithinCapacity(ps, plan.n, plan.top);
    }
  }

  /**
   Draws all pairs before starting any thread; a negative count makes kzalloc fail, like missing
   memory. Threads start exactly if the draws from here on hand out 2 * pairs CPUs, and then on those
   CPUs, src before dst, pair by pair: pairwise distinct, in range, exactly the mask, with
   acrossnuma = 0 each dst on its src's node. Otherwise the draws handed out `cpus` up to `end` and
   missed the next one; within the limit init enforces that draw was unlucky, or with acrossnuma = 0
   the src before it has no free CPU beside it.
   */
  method Mesh(rng: Random, mask: array<bool>, pairs: int, acrossnuma: bool, top: Topology, memory: bool,
              tries: nat := RETRIES)
    returns (r: Outcome<seq<Pair>>, ghost cpus: seq<int>, ghost end: nat)
    requires 0 < mask.Length && forall c | 0 <= c < mask.Length :: !mask[c]
    modifies rng`pos, mask
    ensures r.NoMemory? <==> !memory || pairs < 0
    ensures memory && pairs >= 0 ==>
              var plan, pick := Plan(mask.Length, 2 * pairs, acrossnuma, top, tries), Picks(rng.draw, mask.Length);
              && (r.Started? <==> Enough(pick, old(rng.pos), plan))
              && Deals(pick, old(rng.pos), plan, cpus, end)
              && (r.Started? ==> Flat(r.threads) == cpus && mask[..] == MaskOf(mask.Length, cpus) && rng.pos == end)
              && (r.DrawFailed? ==> |cpus| < 2 * pairs && Missed(pick, end, cpus, plan) && end + tries <= rng.pos)
              && (r.DrawFailed? && 2 * pairs <= mask.Length ==>
                    Unlucky(pick, end, cpus, plan) || LoneSrc(cpus, plan))
    ensures r.Started? ==>
              && |r.threads| == pairs && 2 * pairs <= mask.Length && AreCpus(Flat(r.threads), mask.Length)
              && (!acrossnuma ==> AllSameNode(r.threads, top))
    ensures r.Started? && !acrossnuma ==>
              forall m: nat | NodesBelow(top, mask.Length, m) :: pairs <= Capacity(mask.Length, top, m)
    ensures r.Started? && !acrossnuma && 2 * pairs == mask.Length && NodesKnown(top, mask.Length) ==>
              EvenNodes(mask.Length, top)
  {
    end, cpus := rng.pos, [];
    if !memory || pairs < 0 {
      return NoMemory, cpus, end;
    }
    ghost var plan, pick := Plan(mask.Length, 2 * pairs, acrossnuma, top, tries), Picks(rng.draw, mask.Length);
    ghost var start := rng.pos;
    var ps, ok;
    ps, ok, cpus, end := DrawPairs(rng, mask, pairs, acrossnuma, plan, top, tries);
    if !ok {
      MissedMeans(pick, start, plan, cpus, end);
      return DrawFailed, cpus, end;
    }
    MeshStarts(pick, start, plan, ps, end);
    return Started(ps), cpus, end;
  }

  /**
   The broadcast benchmark draws its workers the same way. Nothing limits `broadcasts`; more than
   there are CPUs always fails before a thread is started, otherwise only an unlucky draw does.
   */
  method All(rng: Random, mask: array<bool>, broadcasts: int, top: Topology, memory: bool, tries: nat := RETRIES)
    returns (r: Outcome<seq<int>>, ghost cpus: seq<int>, ghost end: nat)
    requires 0 < mask.Length && forall c | 0 <= c < mask.Length :: !mask[c]
    modifies rng`pos, mask
    ensures r.NoMemory? <==> !memory || broadcasts < 0
    ensures memory && broadcasts >= 0 ==>
              var plan, pick := Plan(mask.Length, broadcasts, true, top, tries), Picks(rng.draw, mask.Length);
              && (r.Started? <==> Enough(pick, old(rng.pos), plan))
              && Deals(pick, old(rng.pos), plan, cpus, end)
              && (r.Started? ==> r.threads == cpus && mask[..] == MaskOf(mask.Length, cpus) && rng.pos == end)
              && (r.DrawFailed? ==> |cpus| < broadcasts && Missed(pick, end, cpus, plan) && rng.pos == end + tries)
              && (r.DrawFailed? && broadcasts <= mask.Length ==> Unlucky(pick, end, cpus, plan))
    ensures r.Started? ==> |r.threads| == broadcasts && AreCpus(r.threads, mask.Length)
    ensures memory && mask.Length < broadcasts ==> r.DrawFailed?
  {
    end, cpus := rng.pos, [];
    if !memory || broadcasts < 0 {
      return NoMemory, cpus, end;
    }
    ghost var plan, pick := Plan(mask.Length, broadcasts, true, top, tries), Picks(rng.draw, mask.Length);
    ghost var start := rng.pos;
    var srcs: seq<int> := [];
    while |srcs| < broadcasts
      invariant |srcs| <= broadcasts && mask[..] == MaskOf(mask.Length, srcs) && cpus == srcs
      invariant end == rng.pos && Deals(pick, start, plan, srcs, end)
    {
      var src := DrawCpu(rng, mask, -1, start, plan, srcs, top, tries);
      if src < 0 {
        MissedMeans(pick, start, plan, srcs, end);
        return DrawFailed, cpus, end;
      }
      srcs := srcs + [src];
      end, cpus := rng.pos, srcs;
    }
    DealsKeep(pick, start, plan, srcs, end);
    Pigeonhole(srcs, plan.n);
    return Started(srcs), cpus, end;
  }

  // ---------------------------------------------------------------- when threads can start at all

  /** CPUs drawn over all nodes: some random stream hands out all of them exactly if there are as many. */
  lemma AnyNodeFeasibleIff(plan: Plan, p: nat)
    requires 0 < plan.n && 0 < plan.tries && plan.across
    ensures Feasible(plan, p) <==> plan.want <= plan.n
  {
    if draw: nat -> nat :| Enough(Picks(draw, plan.n), p, plan) {
      var cpus: seq<int>, end: nat :| Deals(Picks(draw, plan.n), p, plan, cpus, end) && |cpus| == plan.want;
      DealsKeep(Picks(draw, plan.n), p, plan, cpus, end);
      Pigeonhole(cpus, plan.n);
    }
    if plan.want <= plan.n {
      var cpus := seq(plan.want, i => i);
      AreCpusMeans(cpus, plan.n);
      FitsFeasible(cpus, p, plan);
    }
  }

  /** Some random stream starts an acrossnuma = 0 mesh of k pairs exactly if they fit within the nodes. */
  lemma MeshFeasibleIff(plan: Plan, p: nat, m: nat, k: nat)
    requires 0 < plan.n && 0 < plan.tries && !plan.across && plan.want == 2 * k && NodesBelow(plan.top, plan.n, m)
    ensures Feasible(plan, p) <==> k <= Capacity(plan.n, plan.top, m)
  {
    if draw: nat -> nat :| Enough(Picks(draw, plan.n), p, plan) {
      var cpus: seq<int>, end: nat :| Deals(Picks(draw, plan.n), p, plan, cpus, end) && |cpus| == plan.want;
      DealsKeep(Picks(draw, plan.n), p, plan, cpus, end);
      FlatOnNodes(Paired(cpus), plan.top);
      PairsBound(Paired(cpus), plan.n, plan.top, m);
    }
    if k <= Capacity(plan.n, plan.top, m) {
      var ps := PairsExist(plan.n, plan.top, m, k);
      FlatOnNodes(ps, plan.top);
      FitsFeasible(Flat(ps), p, plan);
    }
  }

  /**
   A mesh over all CPUs, the default on an even CPU count: with acrossnuma = 0 some random stream
   starts it exactly if every node has an even number of CPUs.
   */
  lemma FullMeshIff(plan: Plan, p: nat, m: nat)
    requires 0 < plan.n && plan.n % 2 == 0 && 0 < plan.tries && !plan.across && plan.want == plan.n
    requires NodesBelow(plan.top, plan.n, m)
    ensures Feasible(plan, p) <==> EvenNodes(plan.n, plan.top)
  {
    MeshFeasibleIff(plan, p, m, plan.n / 2);
    FullCapacity(plan.n, plan.top, m);
  }

  /** Two nodes of one CPU each: with acrossnuma = 0 no random stream starts the default mesh of one pair. */
  lemma OneCpuPerNode(p: nat, tries: nat)
    requires 0 < tries
    ensures !Feasible(Plan(2, 2, false, Topology([0, 1], 0), tries), p)
  {
    var top := Topology([0, 1], 0);
    assert NodeSize(2, top, 0) == 1;
    FullMeshIff(Plan(2, 2, false, top, tries), p, 2);
  }
}
