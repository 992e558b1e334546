/**
 The random draws of ipi-bench (microbenchmark/ipi-bench/ipi_bench.c): one CPU drawn into a cpumask
 with bounded retries, and what a stream of draws hands out one CPU after another. The random source
 is an arbitrary stream of numbers; CPUs are numbered 0 .. num_online_cpus-1.
 */
module CpuDraws {
  import opened Sums

  const RETRIES: nat := 100000

  /** The node of each online CPU; what cpu_to_node makes of a failed draw's -1 is anybody's guess. */
  datatype Topology = Topology(nodes: seq<int>, stray: int) {
    function NodeOf(cpu: int): int {
      if 0 <= cpu < |nodes| then nodes[cpu] else stray
    }
  }

  /** An arbitrary stream of random numbers and how much of it has been used. */
  class Random {
    const draw: nat -> nat
    var pos: nat

    constructor (draw: nat -> nat)
      ensures this.draw == draw && pos == 0
    {
      this.draw := draw;
      pos := 0;
    }

    method Next() returns (r: nat)
      modifies this`pos
      ensures r == draw(old(pos)) && pos == old(pos) + 1
    {
      r := draw(pos);
      pos := pos + 1;
    }
  }

  /** The CPUs that the draws name, one after another. */
  function Picks(draw: nat -> nat, n: nat): nat -> nat
    requires 0 < n
  {
    i => draw(i) % n
  }

  /** Not yet used, and on the wanted node unless the node is negative. */
  predicate Acceptable(n: nat, used: seq<int>, top: Topology, node: int, cpu: int) {
    0 <= cpu < n && cpu !in used && (node >= 0 ==> top.NodeOf(cpu) == node)
  }

  /** None of the picks p .. end-1 is an acceptable CPU. */
  ghost predicate AllRejected(pick: nat -> nat, p: nat, end: nat, n: nat, used: seq<int>, top: Topology, node: int) {
    forall i | p <= i < end :: !Acceptable(n, used, top, node, pick(i))
  }

  /** Pick q is the first of `tries` picks from p on that is an acceptable CPU. */
  ghost predicate Hit(pick: nat -> nat, p: nat, q: nat, n: nat, used: seq<int>, top: Topology, node: int, tries: nat) {
    && p <= q < p + tries && Acceptable(n, used, top, node, pick(q))
    && AllRejected(pick, p, q, n, used, top, node)
  }

  /** The mask with these CPUs marked. */
  function MaskOf(n: nat, used: seq<int>): (mask: seq<bool>)
    ensures |mask| == n
  {
    seq(n, c => c in used)
  }

  /**
   Takes the first of at most `tries` draws that names an acceptable CPU, and marks it used;
   fails, leaving the mask alone, exactly if all of them are rejected. The source tries RETRIES times.
   */
  method RandomUnusedCpu(rng: Random, mask: array<bool>, top: Topology, node: int, ghost used: seq<int>,
                         tries: nat := RETRIES)
    returns (cpu: int)
    requires 0 < mask.Length && mask[..] == MaskOf(mask.Length, used)
    modifies rng`pos, mask
    ensures cpu == -1 ==>
              && mask[..] == MaskOf(mask.Length, used) && rng.pos == old(rng.pos) + tries
              && AllRejected(Picks(rng.draw, mask.Length), old(rng.pos), rng.pos, mask.Length, used, top, node)
    ensures cpu != -1 ==>
              && mask[..] == MaskOf(mask.Length, used + [cpu]) && 0 < rng.pos
              && cpu == Picks(rng.draw, mask.Length)(rng.pos - 1)
              && Hit(Picks(rng.draw, mask.Length), old(rng.pos), rng.pos - 1, mask.Length, used, top, node, tries)
  {
    var retry := tries;
    ghost var p, pick := rng.pos, Picks(rng.draw, mask.Length);
    while retry > 0
      invariant 0 <= retry <= tries
      invariant rng.pos == p + (tries - retry) && mask[..] == MaskOf(mask.Length, used)
      invariant AllRejected(pick, p, rng.pos, mask.Length, used, top, node)
    {
      retry := retry - 1;
      var r := rng.Next();
      cpu := r % mask.Length;
      if mask[cpu] {
        continue;
      }
      if node >= 0 && top.NodeOf(cpu) != node {
        continue;
      }
      mask[cpu] := true;
      return;
    }
    cpu := -1;
  }

  /** Some random stream makes a draw succeed exactly if an acceptable CPU exists. */
  lemma DrawFeasibleIff(n: nat, used: seq<int>, top: Topology, node: int, p: nat, tries: nat)
    requires 0 < n && 0 < tries
    ensures (exists draw: nat -> nat, q: nat :: Hit(Picks(draw, n), p, q, n, used, top, node, tries))
       <==> (exists c :: Acceptable(n, used, top, node, c))
  {
    if c :| Acceptable(n, used, top, node, c) {
      var draw: nat -> nat := _ => c;
      assert Picks(draw, n)(p) == c;
      assert Hit(Picks(draw, n), p, p, n, used, top, node, tries);
    }
  }

  // ---------------------------------------------------------------- CPU sets

  /** CPU numbers below n, none twice; AreCpusMeans spells it out. */
  predicate AreCpus(s: seq<int>, n: nat) {
    s == [] || (AreCpus(s[..|s| - 1], n) && 0 <= s[|s| - 1] < n && s[|s| - 1] !in s[..|s| - 1])
  }

  lemma {:induction false} AreCpusMeans(s: seq<int>, n: nat)
    ensures AreCpus(s, n) <==> (forall i | 0 <= i < |s| :: 0 <= s[i] < n)
                               && (forall i, j | 0 <= i < j < |s| :: s[i] != s[j])
  {
    if s != [] {
      var init := s[..|s| - 1];
      AreCpusMeans(init, n);
      assert forall i | 0 <= i < |init| :: init[i] == s[i] && s[i] in init;
    }
  }

  function Elements(s: seq<int>): set<int> {
    set c | c in s
  }

  function Range(n: nat): (r: set<int>)
    ensures |r| == n && forall c :: c in r <==> 0 <= c < n
  {
    if n == 0 then {} else Range(n - 1) + {n - 1}
  }

  lemma {:induction false} CpuSet(s: seq<int>, n: nat)
    requires AreCpus(s, n)
    ensures |Elements(s)| == |s| && Elements(s) <= Range(n)
  {
    if s != [] {
      var init, last := s[..|s| - 1], s[|s| - 1];
      CpuSet(init, n);
      assert s == init + [last];
      assert Elements(s) == Elements(init) + {last};
    }
  }

  /** Distinct CPU numbers below n are at most n many, and if fewer, one number is missing. */
  lemma Pigeonhole(cpus: seq<int>, n: nat)
    requires AreCpus(cpus, n)
    ensures |cpus| <= n
    ensures |cpus| < n ==> exists c :: 0 <= c < n && c !in cpus
    ensures |cpus| == n ==> Elements(cpus) == Range(n)
  {
    CpuSet(cpus, n);
    SubsetSize(Elements(cpus), Range(n));
    if forall c | 0 <= c < n :: c in cpus {
      assert Elements(cpus) == Range(n);
    }
  }

  // ---------------------------------------------------------------- dealing out CPUs

  lemma AreCpusAdd(n: nat, cpus: seq<int>, c: int)
    requires AreCpus(cpus, n) && 0 <= c < n && c !in cpus
    ensures AreCpus(cpus + [c], n)
  {
    assert (cpus + [c])[..|cpus|] == cpus;
  }

  /** The node the next draw must hit: with acrossnuma = 0 every second CPU is tied to the one before it. */
  function Wanted(across: bool, top: Topology, cpus: seq<int>): int {
    if !across && |cpus| % 2 == 1 then top.NodeOf(cpus[|cpus| - 1]) else -1
  }

  /** `want` CPUs of 0 .. n-1, `tries` draws for each; with acrossnuma = 0, two by two on one node. */
  datatype Plan = Plan(n: nat, want: nat, across: bool, top: Topology, tries: nat)

  /** Pick q gives the CPU after these, when its draws start at p. */
  ghost predicate NextHit(pick: nat -> nat, p: nat, q: nat, cpus: seq<int>, plan: Plan) {
    Hit(pick, p, q, plan.n, cpus, plan.top, Wanted(plan.across, plan.top, cpus), plan.tries)
  }

  /** All draws for the CPU after these, from p on, miss. */
  ghost predicate Missed(pick: nat -> nat, p: nat, cpus: seq<int>, plan: Plan) {
    AllRejected(pick, p, p + plan.tries, plan.n, cpus, plan.top, Wanted(plan.across, plan.top, cpus))
  }

  /** The picks start .. end-1 hand out exactly these CPUs, in this order. */
  ghost predicate Deals(pick: nat -> nat, start: nat, plan: Plan, cpus: seq<int>, end: nat)
    decreases |cpus|
  {
    if cpus == [] then end == start
    else
      var init := cpus[..|cpus| - 1];
      0 < end && cpus[|cpus| - 1] == pick(end - 1)
      && exists p: nat :: Deals(pick, start, plan, init, p) && NextHit(pick, p, end - 1, init, plan)
  }

  lemma DealNext(pick: nat -> nat, start: nat, plan: Plan, cpus: seq<int>, p: nat, q: nat)
    requires Deals(pick, start, plan, cpus, p) && NextHit(pick, p, q, cpus, plan)
    ensures Deals(pick, start, plan, cpus + [pick(q)], q + 1)
  {
    assert (cpus + [pick(q)])[..|cpus|] == cpus;
  }

  /** A stream has one way of handing out CPUs: with fewer of them it hands out the same ones. */
  lemma {:induction false} DealsUnique(pick: nat -> nat, start: nat, plan: Plan, cpus: seq<int>, end: nat,
                                       more: seq<int>, end': nat)
    requires Deals(pick, start, plan, cpus, end) && Deals(pick, start, plan, more, end') && |cpus| <= |more|
    ensures cpus == more[..|cpus|] && (|cpus| == |more| ==> end == end')
    decreases |more|
  {
    if more != [] {
      var init' := more[..|more| - 1];
      var p': nat :| Deals(pick, start, plan, init', p') && NextHit(pick, p', end' - 1, init', plan);
      if |cpus| < |more| {
        DealsUnique(pick, start, plan, cpus, end, init', p');
        assert init'[..|cpus|] == more[..|cpus|];
      } else {
        var init := cpus[..|cpus| - 1];
        var p: nat :| Deals(pick, start, plan, init, p) && NextHit(pick, p, end - 1, init, plan);
        DealsUnique(pick, start, plan, init, p, init', p');
        assert init == init' && cpus == init + [pick(end - 1)] && more == init + [pick(end' - 1)];
      }
    }
  }

  lemma {:induction false} DealsPrefix(pick: nat -> nat, start: nat, plan: Plan, cpus: seq<int>, end: nat, k: nat)
    returns (p: nat)
    requires Deals(pick, start, plan, cpus, end) && k <= |cpus|
    ensures Deals(pick, start, plan, cpus[..k], p)
    decreases |cpus|
  {
    if k == |cpus| {
      p := end;
      assert cpus[..k] == cpus;
    } else {
      var init := cpus[..|cpus| - 1];
      var m: nat :| Deals(pick, start, plan, init, m) && NextHit(pick, m, end - 1, init, plan);
      p := DealsPrefix(pick, start, plan, init, m, k);
      assert init[..k] == cpus[..k];
    }
  }

  /** Once all draws for a CPU have missed, the stream hands out no more than the CPUs before it. */
  lemma MissedStops(pick: nat -> nat, start: nat, plan: Plan, cpus: seq<int>, end: nat, more: seq<int>, end': nat)
    requires Deals(pick, start, plan, cpus, end) && Missed(pick, end, cpus, plan)
    requires Deals(pick, start, plan, more, end')
    ensures |more| <= |cpus|
  {
    if |cpus| < |more| {
      var k := |cpus| + 1;
      var e := DealsPrefix(pick, start, plan, more, end', k);
      assert more[..k][..|cpus|] == more[..|cpus|];
      var p: nat :| Deals(pick, start, plan, more[..|cpus|], p) && NextHit(pick, p, e - 1, more[..|cpus|], plan);
      DealsUnique(pick, start, plan, cpus, end, more[..|cpus|], p);
    }
  }

  /** The stream hands out everything the plan asks for. */
  ghost predicate Enough(pick: nat -> nat, start: nat, plan: Plan) {
    exists cpus: seq<int>, end: nat :: Deals(pick, start, plan, cpus, end) && |cpus| == plan.want
  }

  predicate Mates(top: Topology, src: int, dst: int) {
    top.NodeOf(src) >= 0 ==> top.NodeOf(dst) == top.NodeOf(src)
  }

  /** Taken two by two, the second is on the first one's node. */
  predicate OnNodes(cpus: seq<int>, top: Topology) {
    cpus == []
    || (OnNodes(cpus[..|cpus| - 1], top) && (|cpus| % 2 == 0 ==> Mates(top, cpus[|cpus| - 2], cpus[|cpus| - 1])))
  }

  lemma {:induction false} OnNodesMeans(cpus: seq<int>, top: Topology, k: nat)
    requires OnNodes(cpus, top) && k < |cpus| && k % 2 == 1
    ensures Mates(top, cpus[k - 1], cpus[k])
  {
    if k < |cpus| - 1 {
      OnNodesMeans(cpus[..|cpus| - 1], top, k);
    }
  }

  /** Whatever the draws, the CPUs handed out are distinct, in range and, if asked for, paired by node. */
  lemma {:induction false} DealsKeep(pick: nat -> nat, start: nat, plan: Plan, cpus: seq<int>, end: nat)
    requires Deals(pick, start, plan, cpus, end)
    ensures AreCpus(cpus, plan.n) && start <= end && (!plan.across ==> OnNodes(cpus, plan.top))
    decreases |cpus|
  {
    if cpus != [] {
      var init := cpus[..|cpus| - 1];
      var p: nat :| Deals(pick, start, plan, init, p) && NextHit(pick, p, end - 1, init, plan);
      DealsKeep(pick, start, plan, init, p);
    }
  }

  predicate HasAcceptable(n: nat, cpus: seq<int>, top: Topology, node: int) {
    exists c | 0 <= c < n :: Acceptable(n, cpus, top, node, c)
  }

  /** All draws for the next CPU, from p on, miss although an acceptable one is there. */
  ghost predicate Unlucky(pick: nat -> nat, p: nat, cpus: seq<int>, plan: Plan) {
    Missed(pick, p, cpus, plan) && HasAcceptable(plan.n, cpus, plan.top, Wanted(plan.across, plan.top, cpus))
  }

  /** A src has been handed out, and its node has no free CPU for the dst. */
  ghost predicate LoneSrc(cpus: seq<int>, plan: Plan) {
    && !plan.across && |cpus| % 2 == 1
    && !HasAcceptable(plan.n, cpus, plan.top, plan.top.NodeOf(cpus[|cpus| - 1]))
  }

  /** A draw over all nodes can succeed as long as some CPU is unused. */
  lemma FreeCpuExists(n: nat, cpus: seq<int>, top: Topology, node: int)
    requires AreCpus(cpus, n) && |cpus| < n && node < 0
    ensures HasAcceptable(n, cpus, top, node)
  {
    Pigeonhole(cpus, n);
    var c :| 0 <= c < n && c !in cpus;
    assert Acceptable(n, cpus, top, node, c);
  }

  /** A stream that from position p on names these CPUs. */
  function StreamOf(cpus: seq<int>, p: nat): nat -> nat {
    i => if p <= i < p + |cpus| && cpus[i - p] >= 0 then cpus[i - p] else 0
  }

  /** The plan is for exactly these CPUs' number, and they are fit for it. */
  predicate Fits(cpus: seq<int>, plan: Plan) {
    && 0 < plan.n && 0 < plan.tries && plan.want == |cpus| && AreCpus(cpus, plan.n)
    && (!plan.across ==> OnNodes(cpus, plan.top))
  }

  lemma FirstTry(cpus: seq<int>, start: nat, j: nat, plan: Plan)
    requires Fits(cpus, plan) && j < |cpus|
    ensures Picks(StreamOf(cpus, start), plan.n)(start + j) == cpus[j]
    ensures NextHit(Picks(StreamOf(cpus, start), plan.n), start + j, start + j, cpus[..j], plan)
  {
    AreCpusMeans(cpus, plan.n);
    if !plan.across && j % 2 == 1 {
      OnNodesMeans(cpus, plan.top, j);
    }
  }

  /** A stream that names exactly these CPUs has them handed out, each at the first try. */
  lemma {:induction false} StreamDeals(cpus: seq<int>, start: nat, j: nat, plan: Plan)
    requires Fits(cpus, plan) && j <= |cpus|
    ensures Deals(Picks(StreamOf(cpus, start), plan.n), start, plan, cpus[..j], start + j)
  {
    if j > 0 {
      StreamDeals(cpus, start, j - 1, plan);
      FirstTry(cpus, start, j - 1, plan);
      DealNext(Picks(StreamOf(cpus, start), plan.n), start, plan, cpus[..j - 1], start + j - 1, start + j - 1);
      assert cpus[..j - 1] + [cpus[j - 1]] == cpus[..j];
    }
  }

  /** Some random stream, read from position p on, has the whole plan handed out. */
  ghost predicate Feasible(plan: Plan, p: nat)
    requires 0 < plan.n
  {
    exists draw: nat -> nat :: Enough(Picks(draw, plan.n), p, plan)
  }

  lemma FitsFeasible(cpus: seq<int>, p: nat, plan: Plan)
    requires Fits(cpus, plan)
    ensures Feasible(plan, p)
  {
    StreamDeals(cpus, p, |cpus|, plan);
    assert cpus[..|cpus|] == cpus;
    assert Enough(Picks(StreamOf(cpus, p), plan.n), p, plan);
  }

  /** A draw that missed ends the matter: the stream does not hand out enough, and this is why. */
  lemma MissedMeans(pick: nat -> nat, start: nat, plan: Plan, cpus: seq<int>, end: nat)
    requires Deals(pick, start, plan, cpus, end) && Missed(pick, end, cpus, plan) && |cpus| < plan.want
    ensures !Enough(pick, start, plan)
    ensures |cpus| < plan.n ==> Unlucky(pick, end, cpus, plan) || LoneSrc(cpus, plan)
  {
    if more: seq<int>, end': nat :| Deals(pick, start, plan, more, end') && |more| == plan.want {
      MissedStops(pick, start, plan, cpus, end, more, end');
    }
    DealsKeep(pick, start, plan, cpus, end);
    if |cpus| < plan.n && Wanted(plan.across, plan.top, cpus) < 0 {
      FreeCpuExists(plan.n, cpus, plan.top, Wanted(plan.across, plan.top, cpus));
    }
  }
}
