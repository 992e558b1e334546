/**
 The target chooser of apic-ipi (microbenchmark/apic-ipi/apic_ipi.c): each round takes the first
 online CPU, other than the current one, on a node no earlier round has taken, and marks its node.
 */
module NodeChooser {
  import opened Sums

  const MAXNUMA: nat := 4

  /** CPUs 0 .. nr_cpu_ids-1: which are online, on which node, and where the module runs. */
  datatype Machine = Machine(online: seq<bool>, node: seq<nat>, current: nat)

  /** Node ids index a MAXNUMA array, so larger ones are out of bounds in the source. */
  predicate Valid(m: Machine) {
    |m.node| == |m.online| && forall c | 0 <= c < |m.online| :: m.node[c] < MAXNUMA
  }

  predicate Candidate(m: Machine, c: int) {
    0 <= c < |m.online| && m.online[c] && c != m.current
  }

  /** The nodes with an online CPU other than the current one. */
  function TargetNodes(m: Machine): set<nat>
    requires Valid(m)
  {
    set c | 0 <= c < |m.online| && Candidate(m, c) :: m.node[c]
  }

  function NodesOf(m: Machine, targets: seq<nat>): set<nat> {
    set t | t in targets && t < |m.node| :: m.node[t]
  }

  /** c is the lowest-numbered candidate whose node is not in `marked`. */
  predicate Lowest(m: Machine, marked: set<nat>, c: nat)
    requires Valid(m)
  {
    Candidate(m, c) && m.node[c] !in marked
    && forall d | 0 <= d < c :: Candidate(m, d) ==> m.node[d] in marked
  }

  /** Every target is the lowest candidate off the nodes of the targets before it. */
  predicate Chosen(m: Machine, targets: seq<nat>)
    requires Valid(m)
  {
    targets == []
    || (Chosen(m, targets[..|targets| - 1])
        && Lowest(m, NodesOf(m, targets[..|targets| - 1]), targets[|targets| - 1]))
  }

  /** Round k takes the lowest candidate of node x ... */
  predicate HitsAt(m: Machine, targets: seq<nat>, x: nat, k: nat)
    requires Valid(m) && k < |targets|
  {
    && Candidate(m, targets[k]) && m.node[targets[k]] == x
    && forall d | 0 <= d < targets[k] && m.node[d] == x :: !Candidate(m, d)
  }

  /** ... and no other round takes a CPU of that node. */
  predicate HitOnce(m: Machine, targets: seq<nat>, x: nat)
    requires Valid(m)
  {
    exists k | 0 <= k < |targets| ::
      && HitsAt(m, targets, x, k)
      && forall j | 0 <= j < |targets| && targets[j] < |m.node| && m.node[targets[j]] == x :: j == k
  }

  /** The numa array holds exactly the marked nodes. */
  predicate Marks(numa: seq<bool>, marked: set<nat>) {
    |numa| == MAXNUMA && forall x | 0 <= x < MAXNUMA :: numa[x] <==> x in marked
  }

  /**
   for_each_online_cpu with its two continues and the break. The loop variable is left at
   nr_cpu_ids exactly if no unmarked node has a candidate.
   */
  method PickTarget(m: Machine, numa: array<bool>, ghost marked: set<nat>) returns (targetcpu: nat)
    requires Valid(m) && Marks(numa[..], marked)
    ensures targetcpu <= |m.online|
    ensures targetcpu < |m.online| ==> Lowest(m, marked, targetcpu)
    ensures targetcpu == |m.online| <==> TargetNodes(m) <= marked
  {
    targetcpu := 0;
    while targetcpu < |m.online|
      invariant targetcpu <= |m.online|
      invariant forall d | 0 <= d < targetcpu :: Candidate(m, d) ==> m.node[d] in marked
    {
      if m.online[targetcpu] {
        if targetcpu != m.current && !numa[m.node[targetcpu]] {
          assert Candidate(m, targetcpu) && m.node[targetcpu] in TargetNodes(m);
          return;
        }
      }
      targetcpu := targetcpu + 1;
    }
  }

  function Rounds(nodes: nat): nat {
    if nodes < MAXNUMA then nodes else MAXNUMA
  }

  /**
   The rounds of bench. `ok` is false once a round finds no target; the source then goes on with
   nr_cpu_ids as its target, which is not part of this model. All rounds find one exactly if there
   are at least that many nodes with a candidate CPU; with at least as many rounds as such nodes,
   each of them is hit exactly once.
   */
  method Bench(m: Machine, nodes: nat) returns (targets: seq<nat>, ok: bool)
    requires Valid(m)
    ensures Chosen(m, targets)
    ensures |NodesOf(m, targets)| == |targets| <= Rounds(nodes)
    ensures NodesOf(m, targets) <= TargetNodes(m)
    ensures ok <==> Rounds(nodes) <= |TargetNodes(m)|
    ensures if ok then |targets| == Rounds(nodes) else NodesOf(m, targets) == TargetNodes(m)
    ensures |TargetNodes(m)| <= Rounds(nodes) ==> forall x | x in TargetNodes(m) :: HitOnce(m, targets, x)
  {
    var numa := new bool[MAXNUMA](_ => false);
    targets := [];
    var node := 0;
    assert NodesOf(m, []) == {};
    while node < nodes && node < MAXNUMA
      invariant node == |targets| <= Rounds(nodes)
      invariant Chosen(m, targets)
      invariant Marks(numa[..], NodesOf(m, targets))
      invariant |NodesOf(m, targets)| == |targets|
      invariant NodesOf(m, targets) <= TargetNodes(m)
    {
      var targetcpu := PickTarget(m, numa, NodesOf(m, targets));
      if targetcpu == |m.online| {
        SubsetSize(NodesOf(m, targets), TargetNodes(m));
        Coverage(m, targets);
        return targets, false;
      }
      MarkNode(m, targets, targetcpu, numa[..]);
      numa[m.node[targetcpu]] := true;
      targets := targets + [targetcpu];
      node := node + 1;
    }
    Coverage(m, targets);
    ok := true;
  }

  lemma MarkNode(m: Machine, targets: seq<nat>, c: nat, numa: seq<bool>)
    requires Valid(m) && Chosen(m, targets) && Lowest(m, NodesOf(m, targets), c)
    requires Marks(numa, NodesOf(m, targets)) && NodesOf(m, targets) <= TargetNodes(m)
    ensures Chosen(m, targets + [c])
    ensures Marks(numa[m.node[c] := true], NodesOf(m, targets + [c]))
    ensures |NodesOf(m, targets + [c])| == |NodesOf(m, targets)| + 1
    ensures NodesOf(m, targets + [c]) <= TargetNodes(m)
  {
    assert (targets + [c])[..|targets|] == targets;
    NodesAdd(m, targets, c);
    MarksAdd(numa, NodesOf(m, targets), m.node[c]);
  }

  lemma NodesAdd(m: Machine, targets: seq<nat>, c: nat)
    requires Valid(m) && Candidate(m, c)
    ensures NodesOf(m, targets + [c]) == NodesOf(m, targets) + {m.node[c]}
    ensures m.node[c] in TargetNodes(m)
  {
  }

  lemma MarksAdd(numa: seq<bool>, marked: set<nat>, x: nat)
    requires Marks(numa, marked) && x < MAXNUMA
    ensures Marks(numa[x := true], marked + {x})
  {
  }

  /** Chosen targets are on pairwise distinct nodes, each the lowest candidate of its node. */
  lemma {:induction false} ChosenMeans(m: Machine, targets: seq<nat>, k: nat)
    requires Valid(m) && Chosen(m, targets) && k < |targets|
    ensures Candidate(m, targets[k])
    ensures forall d | 0 <= d < targets[k] && m.node[d] == m.node[targets[k]] :: !Candidate(m, d)
    ensures forall j | 0 <= j < k && targets[j] < |m.node| :: m.node[targets[j]] != m.node[targets[k]]
  {
    var init := targets[..|targets| - 1];
    if k < |init| {
      ChosenMeans(m, init, k);
      assert forall j | 0 <= j < k :: init[j] == targets[j];
    } else {
      LastIsLowest(m, init, targets[k]);
      assert forall j | 0 <= j < k :: init[j] == targets[j] && init[j] in init;
    }
  }

  lemma {:induction false} LastIsLowest(m: Machine, init: seq<nat>, c: nat)
    requires Valid(m) && Chosen(m, init) && Lowest(m, NodesOf(m, init), c)
    ensures forall d | 0 <= d < c && m.node[d] == m.node[c] :: !Candidate(m, d)
    ensures forall t | t in init && t < |m.node| :: m.node[t] != m.node[c]
  {
    forall t | t in init && t < |m.node| ensures m.node[t] != m.node[c] {
      assert m.node[t] in NodesOf(m, init);
    }
  }

  lemma {:induction false} ChosenNodes(m: Machine, targets: seq<nat>)
    requires Valid(m) && Chosen(m, targets)
    ensures NodesOf(m, targets) <= TargetNodes(m) && |NodesOf(m, targets)| == |targets|
  {
    if targets == [] {
      assert NodesOf(m, targets) == {};
    } else {
      var init, last := targets[..|targets| - 1], targets[|targets| - 1];
      ChosenNodes(m, init);
      assert targets == init + [last];
      NodesAdd(m, init, last);
    }
  }

  /**
   Coverage: no choice is longer than the number of nodes with a candidate, and one of that length
   hits every such node exactly once, at its lowest candidate.
   */
  lemma Coverage(m: Machine, targets: seq<nat>)
    requires Valid(m) && Chosen(m, targets)
    ensures |targets| <= |TargetNodes(m)|
    ensures |targets| == |TargetNodes(m)| ==> forall x | x in TargetNodes(m) :: HitOnce(m, targets, x)
  {
    ChosenNodes(m, targets);
    SubsetSize(NodesOf(m, targets), TargetNodes(m));
    if |targets| == |TargetNodes(m)| {
      forall x | x in TargetNodes(m) ensures HitOnce(m, targets, x) {
        assert x in NodesOf(m, targets);
        var k :| 0 <= k < |targets| && targets[k] < |m.node| && m.node[targets[k]] == x;
        ChosenMeans(m, targets, k);
        forall j | 0 <= j < |targets| && targets[j] < |m.node| && m.node[targets[j]] == x ensures j == k {
          ChosenMeans(m, targets, j);
        }
        assert HitsAt(m, targets, x, k);
      }
    }
  }
}
