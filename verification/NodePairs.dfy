/**
 Pairs of CPUs that share a node, as ipi_bench_mesh builds them with acrossnuma = 0: how many of them
 a machine has room for.
 */
module NodePairs {
  import opened Sums
  import opened CpuDraws

  datatype Pair = Pair(src: int, dst: int)

  function Flat(ps: seq<Pair>): (cpus: seq<int>)
    ensures |cpus| == 2 * |ps|
  {
    if ps == [] then [] else Flat(ps[..|ps| - 1]) + [ps[|ps| - 1].src, ps[|ps| - 1].dst]
  }

  function Paired(cpus: seq<int>): (ps: seq<Pair>)
    requires |cpus| % 2 == 0
    ensures Flat(ps) == cpus
  {
    if cpus == [] then []
    else
      var n := |cpus|;
      assert cpus == cpus[..n - 2] + [cpus[n - 2], cpus[n - 1]];
      var init := Paired(cpus[..n - 2]);
      assert (init + [Pair(cpus[n - 2], cpus[n - 1])])[..|init|] == init;
      init + [Pair(cpus[n - 2], cpus[n - 1])]
  }

  predicate AllSameNode(ps: seq<Pair>, top: Topology) {
    ps == [] || (AllSameNode(ps[..|ps| - 1], top) && Mates(top, ps[|ps| - 1].src, ps[|ps| - 1].dst))
  }

  lemma {:induction false} AllSameNodeMeans(ps: seq<Pair>, top: Topology)
    ensures AllSameNode(ps, top) <==> forall i | 0 <= i < |ps| :: Mates(top, ps[i].src, ps[i].dst)
  {
    if ps != [] {
      var init := ps[..|ps| - 1];
      AllSameNodeMeans(init, top);
      assert forall i | 0 <= i < |init| :: init[i] == ps[i];
    }
  }

  lemma FlatAppend(ps: seq<Pair>, src: int, dst: int)
    ensures Flat(ps + [Pair(src, dst)]) == Flat(ps) + [src] + [dst]
  {
    assert (ps + [Pair(src, dst)])[..|ps|] == ps;
  }

  lemma {:induction false} FlatOnNodes(ps: seq<Pair>, top: Topology)
    ensures OnNodes(Flat(ps), top) <==> AllSameNode(ps, top)
  {
    if ps != [] {
      var init, last := ps[..|ps| - 1], ps[|ps| - 1];
      FlatOnNodes(init, top);
      var cpus := Flat(ps);
      assert cpus[..|cpus| - 1] == Flat(init) + [last.src] && cpus[..|cpus| - 1][..|cpus| - 2] == Flat(init);
    }
  }

  // ---------------------------------------------------------------- pairs within nodes

  function OnNode(top: Topology, x: int): int -> bool {
    c => top.NodeOf(c) == x
  }

  function SrcOnNode(top: Topology, x: int): Pair -> bool {
    (p: Pair) => top.NodeOf(p.src) == x
  }

  function Where(s: seq<int>, p: int -> bool): set<int> {
    set c | c in s && p(c)
  }

  lemma WhereStep(s: seq<int>, c: int, p: int -> bool)
    ensures Where(s + [c], p) == if p(c) then Where(s, p) + {c} else Where(s, p)
  {
  }

  lemma {:induction false} WhereSize(s: seq<int>, n: nat, p: int -> bool)
    requires AreCpus(s, n)
    ensures |Where(s, p)| == Count(s, p)
  {
    if s != [] {
      var init, last := s[..|s| - 1], s[|s| - 1];
      assert s == init + [last];
      WhereSize(init, n, p);
      SumAppend(init, last, Indicator(p));
      WhereStep(init, last, p);
    }
  }

  /** With both ends of every pair on one node, a node carries two CPUs for each of its pairs. */
  lemma {:induction false} FlatCount(ps: seq<Pair>, n: nat, top: Topology, x: int)
    requires AreCpus(Flat(ps), n) && AllSameNode(ps, top) && forall c | 0 <= c < n :: top.NodeOf(c) >= 0
    ensures Count(Flat(ps), OnNode(top, x)) == 2 * Count(ps, SrcOnNode(top, x))
  {
    if ps != [] {
      var init, last := ps[..|ps| - 1], ps[|ps| - 1];
      assert Flat(ps) == (Flat(init) + [last.src]) + [last.dst];
      assert (Flat(init) + [last.src] + [last.dst])[..|Flat(init)| + 1] == Flat(init) + [last.src];
      assert (Flat(init) + [last.src])[..|Flat(init)|] == Flat(init);
      FlatCount(init, n, top, x);
      SumAppend(Flat(init), last.src, Indicator(OnNode(top, x)));
      SumAppend(Flat(init) + [last.src], last.dst, Indicator(OnNode(top, x)));
    }
  }

  function CpusOn(n: nat, p: int -> bool): set<int> {
    set c | 0 <= c < n && p(c)
  }

  /** How many of CPUs 0 .. n-1 satisfy p. */
  function HowMany(n: nat, p: int -> bool): nat {
    if n == 0 then 0 else HowMany(n - 1, p) + if p(n - 1) then 1 else 0
  }

  lemma CpusOnStep(n: nat, p: int -> bool)
    ensures n !in CpusOn(n, p) && CpusOn(n + 1, p) == if p(n) then CpusOn(n, p) + {n} else CpusOn(n, p)
  {
  }

  lemma {:induction false} HowManyIsSize(n: nat, p: int -> bool)
    ensures HowMany(n, p) == |CpusOn(n, p)|
  {
    if n == 0 {
      assert CpusOn(n, p) == {};
    } else {
      var m := n - 1;
      HowManyIsSize(m, p);
      CpusOnStep(m, p);
    }
  }

  lemma {:induction false} HowManyAdds(n: nat, p: int -> bool, q: int -> bool, r: int -> bool)
    requires forall c | 0 <= c < n :: (if p(c) then 1 else 0) == (if q(c) then 1 else 0) + (if r(c) then 1 else 0)
    ensures HowMany(n, p) == HowMany(n, q) + HowMany(n, r)
  {
    if n > 0 {
      HowManyAdds(n - 1, p, q, r);
    }
  }

  lemma {:induction false} AllOrNone(n: nat, p: int -> bool)
    ensures (forall c | 0 <= c < n :: p(c)) ==> HowMany(n, p) == n
    ensures (forall c | 0 <= c < n :: !p(c)) ==> HowMany(n, p) == 0
  {
    if n > 0 {
      AllOrNone(n - 1, p);
    }
  }

  /** How many of CPUs 0 .. n-1 are on node x. */
  function NodeSize(n: nat, top: Topology, x: int): nat {
    HowMany(n, OnNode(top, x))
  }

  lemma WhereWithin(s: seq<int>, n: nat, p: int -> bool)
    requires AreCpus(s, n)
    ensures Count(s, p) <= HowMany(n, p)
    ensures |s| == n ==> Count(s, p) == HowMany(n, p)
  {
    HowManyIsSize(n, p);
    WhereSize(s, n, p);
    CpuSet(s, n);
    assert forall c | c in Where(s, p) :: c in Elements(s) && p(c);
    SubsetSize(Where(s, p), CpusOn(n, p));
    Pigeonhole(s, n);
    if |s| == n {
      assert forall c :: c in s <==> c in Elements(s);
      assert Where(s, p) == CpusOn(n, p);
    }
  }

  /** What an acrossnuma = 0 mesh needs of the machine: no node carries more pairs than half its CPUs. */
  lemma WithinNodes(ps: seq<Pair>, n: nat, top: Topology, x: int)
    requires AreCpus(Flat(ps), n) && AllSameNode(ps, top) && forall c | 0 <= c < n :: top.NodeOf(c) >= 0
    ensures 2 * Count(ps, SrcOnNode(top, x)) <= NodeSize(n, top, x)
  {
    FlatCount(ps, n, top, x);
    WhereWithin(Flat(ps), n, OnNode(top, x));
  }

  ghost predicate NodesKnown(top: Topology, n: nat) {
    forall c | 0 <= c < n :: top.NodeOf(c) >= 0
  }

  /** Every CPU's node number is below m. */
  ghost predicate NodesBelow(top: Topology, n: nat, m: nat) {
    forall c | 0 <= c < n :: 0 <= top.NodeOf(c) < m
  }

  function Half(k: nat): (h: nat)
    ensures k - 1 <= 2 * h <= k
  {
    k / 2
  }

  /** Half of each node's CPUs, rounded down, added up over nodes 0 .. m-1. */
  function Capacity(n: nat, top: Topology, m: nat): nat {
    if m == 0 then 0 else Capacity(n, top, m - 1) + Half(NodeSize(n, top, m - 1))
  }

  ghost predicate EvenNodes(n: nat, top: Topology) {
    forall x :: NodeSize(n, top, x) % 2 == 0
  }

  /** k pairs on distinct CPUs, each within one node. */
  ghost predicate Pairing(ps: seq<Pair>, n: nat, top: Topology, k: nat) {
    |ps| == k && AreCpus(Flat(ps), n) && AllSameNode(ps, top)
  }

  function SrcBelow(top: Topology, m: nat): Pair -> bool {
    (p: Pair) => 0 <= top.NodeOf(p.src) < m
  }

  lemma {:induction false} SrcSplit(ps: seq<Pair>, top: Topology, m: nat)
    ensures Count(ps, SrcBelow(top, m + 1)) == Count(ps, SrcBelow(top, m)) + Count(ps, SrcOnNode(top, m))
  {
    if ps != [] {
      SrcSplit(ps[..|ps| - 1], top, m);
    }
  }

  lemma {:induction false} AllBelow(ps: seq<Pair>, n: nat, top: Topology, m: nat)
    requires AreCpus(Flat(ps), n) && NodesBelow(top, n, m)
    ensures Count(ps, SrcBelow(top, m)) == |ps|
  {
    if ps != [] {
      var init, last := ps[..|ps| - 1], ps[|ps| - 1];
      var cpus := Flat(ps);
      assert cpus[..|cpus| - 1] == Flat(init) + [last.src] && cpus[..|cpus| - 1][..|cpus| - 2] == Flat(init);
      AllBelow(init, n, top, m);
    }
  }

  lemma {:induction false} BelowCapacity(ps: seq<Pair>, n: nat, top: Topology, m: nat)
    requires AreCpus(Flat(ps), n) && AllSameNode(ps, top) && NodesKnown(top, n)
    ensures Count(ps, SrcBelow(top, m)) <= Capacity(n, top, m)
  {
    if m == 0 {
      CountExtremes(ps, SrcBelow(top, 0));
    } else {
      SrcSplit(ps, top, m - 1);
      WithinNodes(ps, n, top, m - 1);
      BelowCapacity(ps, n, top, m - 1);
    }
  }

  lemma PairsBound(ps: seq<Pair>, n: nat, top: Topology, m: nat)
    requires Pairing(ps, n, top, |ps|) && NodesBelow(top, n, m)
    ensures |ps| <= Capacity(n, top, m)
  {
    AllBelow(ps, n, top, m);
    BelowCapacity(ps, n, top, m);
  }

  lemma {:induction false} NodeWithRoom(ps: seq<Pair>, n: nat, top: Topology, m: nat) returns (x: nat)
    requires Count(ps, SrcBelow(top, m)) < Capacity(n, top, m)
    ensures x < m && Count(ps, SrcOnNode(top, x)) < Half(NodeSize(n, top, x))
  {
    assert 0 < m;
    var last := m - 1;
    SrcSplit(ps, top, last);
    if Count(ps, SrcOnNode(top, last)) < Half(NodeSize(n, top, last)) {
      x := last;
    } else {
      x := NodeWithRoom(ps, n, top, last);
    }
  }

  /** Where a set has two elements more than its part, two lie outside that part. */
  lemma TwoOutside<T>(all: set<T>, part: set<T>) returns (x: T, y: T)
    requires part <= all && |part| + 2 <= |all|
    ensures x in all - part && y in all - part && x != y
  {
    var rest := all - part;
    assert all == part + rest;
    assert rest != {};
    x :| x in rest;
    assert rest == (rest - {x}) + {x};
    assert rest - {x} != {};
    y :| y in rest - {x};
  }

  /** On a node that carries fewer pairs than half its CPUs, two CPUs are free. */
  lemma TwoFree(ps: seq<Pair>, n: nat, top: Topology, x: nat) returns (src: int, dst: int)
    requires AreCpus(Flat(ps), n) && AllSameNode(ps, top) && NodesKnown(top, n)
    requires Count(ps, SrcOnNode(top, x)) < Half(NodeSize(n, top, x))
    ensures 0 <= src < n && 0 <= dst < n && src != dst && src !in Flat(ps) && dst !in Flat(ps)
    ensures top.NodeOf(src) == top.NodeOf(dst) == x
  {
    var cpus, on := Flat(ps), CpusOn(n, OnNode(top, x));
    HowManyIsSize(n, OnNode(top, x));
    FlatCount(ps, n, top, x);
    WhereSize(cpus, n, OnNode(top, x));
    CpuSet(cpus, n);
    var used := Where(cpus, OnNode(top, x));
    assert forall c | c in used :: c in Elements(cpus);
    src, dst := TwoOutside(on, used);
  }

  lemma AddPair(ps: seq<Pair>, n: nat, top: Topology, x: nat) returns (p: Pair)
    requires AreCpus(Flat(ps), n) && AllSameNode(ps, top) && NodesKnown(top, n)
    requires Count(ps, SrcOnNode(top, x)) < Half(NodeSize(n, top, x))
    ensures AreCpus(Flat(ps + [p]), n) && AllSameNode(ps + [p], top)
  {
    var src, dst := TwoFree(ps, n, top, x);
    p := Pair(src, dst);
    AreCpusAdd(n, Flat(ps), src);
    AreCpusAdd(n, Flat(ps) + [src], dst);
    FlatAppend(ps, src, dst);
    assert (ps + [p])[..|ps|] == ps;
  }

  lemma {:induction false} PairsExist(n: nat, top: Topology, m: nat, k: nat) returns (ps: seq<Pair>)
    requires NodesBelow(top, n, m) && k <= Capacity(n, top, m)
    ensures Pairing(ps, n, top, k)
  {
    ps := [];
    if k > 0 {
      ps := PairsExist(n, top, m, k - 1);
      AllBelow(ps, n, top, m);
      var x := NodeWithRoom(ps, n, top, m);
      var p := AddPair(ps, n, top, x);
      ps := ps + [p];
    }
  }

  /** k pairs fit within the nodes exactly if k is at most half of each node, rounded down, in all. */
  lemma PairsIff(n: nat, top: Topology, m: nat, k: nat)
    requires NodesBelow(top, n, m)
    ensures (exists ps: seq<Pair> :: Pairing(ps, n, top, k)) <==> k <= Capacity(n, top, m)
  {
    if ps: seq<Pair> :| Pairing(ps, n, top, k) {
      PairsBound(ps, n, top, m);
    }
    if k <= Capacity(n, top, m) {
      var ps := PairsExist(n, top, m, k);
    }
  }

  function Below(top: Topology, m: nat): int -> bool {
    c => 0 <= top.NodeOf(c) < m
  }

  ghost predicate EvenBelow(n: nat, top: Topology, m: nat) {
    forall x | 0 <= x < m :: NodeSize(n, top, x) % 2 == 0
  }

  /** Rounding loses nothing exactly if every node has an even number of CPUs. */
  lemma {:induction false} EvenCapacity(n: nat, top: Topology, m: nat)
    ensures 2 * Capacity(n, top, m) <= HowMany(n, Below(top, m))
    ensures 2 * Capacity(n, top, m) == HowMany(n, Below(top, m)) <==> EvenBelow(n, top, m)
  {
    if m == 0 {
      AllOrNone(n, Below(top, 0));
    } else {
      var last := m - 1;
      EvenCapacity(n, top, last);
      HowManyAdds(n, Below(top, m), Below(top, last), OnNode(top, last));
      assert EvenBelow(n, top, m) <==> EvenBelow(n, top, last) && NodeSize(n, top, last) % 2 == 0;
    }
  }

  lemma FullCapacity(n: nat, top: Topology, m: nat)
    requires NodesBelow(top, n, m)
    ensures 2 * Capacity(n, top, m) <= n
    ensures 2 * Capacity(n, top, m) == n <==> EvenNodes(n, top)
  {
    EvenCapacity(n, top, m);
    AllOrNone(n, Below(top, m));
    forall x | x < 0 || m <= x ensures NodeSize(n, top, x) == 0 {
      AllOrNone(n, OnNode(top, x));
    }
  }

  lemma MeshWithinCapacity(ps: seq<Pair>, n: nat, top: Topology)
    requires Pairing(ps, n, top, |ps|)
    ensures forall m: nat | NodesBelow(top, n, m) :: |ps| <= Capacity(n, top, m)
    ensures NodesKnown(top, n) && 2 * |ps| == n ==> EvenNodes(n, top)
  {
    forall m: nat | NodesBelow(top, n, m) ensures |ps| <= Capacity(n, top, m) {
      PairsBound(ps, n, top, m);
    }
    if NodesKnown(top, n) && 2 * |ps| == n {
      forall x ensures NodeSize(n, top, x) % 2 == 0 {
        FlatCount(ps, n, top, x);
        WhereWithin(Flat(ps), n, OnNode(top, x));
      }
    }
  }
}
