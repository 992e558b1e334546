/**
 The benchmarks that an `options` mask selects, what the hand-back and the barrier are worth for each
 mask, and three runs that show what goes wrong.
 */
module IpiOptions {
  import opened Sums
  import opened IpiBarrier
  import opened IpiProgress
  import opened IpiPhases
  import opened IpiModule
  import opened IpiModuleRuns
  import opened IpiModuleFree

  const SELF_IPI: bv32 := 1
  const SINGLE_IPI: bv32 := 2
  const MESH_IPI: bv32 := 4
  const ALL_IPI: bv32 := 8

  /** The options, and which benchmarks get their memory and, where they draw CPUs, those. */
  datatype Options = Options(mask: bv32, pairs: int, broadcasts: int, loops: int, memory: bv32, drawn: bv32)

  function Threads(count: int): nat {
    if count > 0 then count else 0
  }

  /** An option that is not set does as little as one without memory; kzalloc refuses a negative count. */
  function FateOf(o: Options, bit: bv32, count: int): Fate {
    if o.mask & o.memory & bit == 0 || count < 0 then NoMemory
    else if o.drawn & bit == 0 then DrawFailed
    else Starts
  }

  /** What ipi_bench_init runs, in its order; self and single draw nothing. */
  function Selected(o: Options): Module {
    var all := o.(drawn := o.drawn | SELF_IPI | SINGLE_IPI);
    Module([Bench(1, false, FateOf(all, SELF_IPI, 1)), Bench(1, false, FateOf(all, SINGLE_IPI, 1)),
            Bench(Threads(o.pairs), false, FateOf(all, MESH_IPI, o.pairs)),
            Bench(Threads(o.broadcasts), true, FateOf(all, ALL_IPI, o.broadcasts))], o.loops)
  }

  function AsNat(b: bool): nat {
    if b then 1 else 0
  }

  lemma CountFour(a: Bench, b: Bench, c: Bench, d: Bench)
    ensures Count([a, b, c, d], Starter)
         == AsNat(Starter(a)) + AsNat(Starter(b)) + AsNat(Starter(c)) + AsNat(Starter(d))
  {
    var one := [] + [a];
    var two := one + [b];
    var three := two + [c];
    SumAppend([], a, Indicator(Starter));
    SumAppend(one, b, Indicator(Starter));
    SumAppend(two, c, Indicator(Starter));
    SumAppend(three, d, Indicator(Starter));
    assert three + [d] == [a, b, c, d];
  }

  predicate Has(o: Options, bit: bv32) { o.mask & bit != 0 }

  lemma Bits(m: bv32, bit: bv32)
    requires bit == SELF_IPI || bit == SINGLE_IPI || bit == MESH_IPI || bit == ALL_IPI
    ensures m & 0xFFFF_FFFF & bit == m & bit && 0xFFFF_FFFF & bit != 0
    ensures if bit == SELF_IPI || bit == SINGLE_IPI then (m | SELF_IPI | SINGLE_IPI) & bit != 0
            else (m | SELF_IPI | SINGLE_IPI) & bit == m & bit
  {
  }

  /** The benchmark is selected, gets its memory and its CPUs, and has threads to start. */
  predicate HasThreads(o: Options, bit: bv32, count: int) {
    o.mask & o.memory & bit != 0 && (bit == SELF_IPI || bit == SINGLE_IPI || o.drawn & bit != 0) && 0 < count
  }

  predicate Apart(a: Bench, b: Bench) {
    Starter(a) && Stores(b) ==> !Starter(b) && b.n == a.n
  }

  /**
   For every mask, any counts of pairs and broadcasts (the source accepts 0 and negative ones) and any
   benchmarks lost to kzalloc or a failed draw: a wait seen to be met means the hand-back in every run
   exactly if at most one benchmark has threads to start; the barrier holds in every run exactly if
   each of the four keeps apart from those after it.
   */
  lemma OptionsIff(o: Options)
    ensures HandsBack(Selected(o)) <==>
              AsNat(HasThreads(o, SELF_IPI, 1)) + AsNat(HasThreads(o, SINGLE_IPI, 1))
              + AsNat(HasThreads(o, MESH_IPI, o.pairs)) + AsNat(HasThreads(o, ALL_IPI, o.broadcasts)) <= 1
    ensures var b := Selected(o).benches;
            BarrierKept(Selected(o)) <==>
              Apart(b[0], b[1]) && Apart(b[0], b[2]) && Apart(b[0], b[3]) && Apart(b[1], b[2]) && Apart(b[1], b[3])
              && Apart(b[2], b[3])
  {
    Bits(o.drawn, SELF_IPI);
    Bits(o.drawn, SINGLE_IPI);
    Bits(o.drawn, MESH_IPI);
    Bits(o.drawn, ALL_IPI);
    var b := Selected(o).benches;
    CountFour(b[0], b[1], b[2], b[3]);
    ModuleHandBackIff(Selected(o));
    ModuleBarrierIff(Selected(o));
  }

  predicate NothingLost(o: Options) {
    o.memory == o.drawn == 0xFFFF_FFFF && 0 <= o.pairs && 0 <= o.broadcasts
  }

  /**
   If nothing is lost on the way the barrier holds in every run exactly if at most one benchmark is
   selected, or mesh and broadcast are and the mesh has no pairs.
   */
  lemma BarrierOptions(o: Options)
    requires NothingLost(o)
    ensures BarrierKept(Selected(o)) <==>
              || AsNat(Has(o, SELF_IPI)) + AsNat(Has(o, SINGLE_IPI)) + AsNat(Has(o, MESH_IPI))
                 + AsNat(Has(o, ALL_IPI)) <= 1
              || (!Has(o, SELF_IPI) && !Has(o, SINGLE_IPI) && o.pairs == 0)
  {
    Bits(o.mask, SELF_IPI);
    Bits(o.mask, SINGLE_IPI);
    Bits(o.mask, MESH_IPI);
    Bits(o.mask, ALL_IPI);
    OptionsIff(o);
  }

  // ---------------------------------------------------------------- runs

  function OneThread(): Bench { Bench(1, false, Starts) }

  /**
   Self, single and a mesh of one pair, no wait timing out before its threads have returned: the third
   begins with 2 arrivals and 1 completion, so its wait is over before its thread has run, and main
   frees what that thread then writes.
   */
  lemma ThirdBenchmarkFreesEarly(loops: int) returns (p: Module, w: World, w': World)
    ensures p == Module([OneThread(), OneThread(), OneThread()], loops) && Reached(p, w)
    ensures w.next == 3 && w.s.ready == 2 && w.s.complete == 1 && WaitMet(w.s) && |w.s.threads| == 3
    ensures w.s.threads[0].pc.Done? && w.s.threads[1].pc.Bug? && w.s.threads[2] == NEWBORN
    ensures Leads(p, w, w') && |w'.s.threads| == 3 && w'.s.main.Freed? && Touches(w'.s.threads[2].pc)
  {
    p := Module([OneThread(), OneThread(), OneThread()], loops);
    var w0 := FirstBenchmark(p);
    var w1 := SecondBenchmark(p, w0);
    ReachedOn(p, w0, w1);
    var w2 := OpenAt(p, w1, 2);
    ReachedOn(p, w1, w2);
    assert w2.s.threads[0] == w2.s.threads[..|w1.owner|][0] && w2.s.threads[1] == w2.s.threads[..|w1.owner|][1];
    w := SeeMet(p, w2);
    ReachedOn(p, w2, w);
    ThreeThreads(p, w);
    var v := Close(p, w);
    LeadsSelf(p, v);
    assert v.s.threads == v.s.threads[2 := v.s.threads[2]];
    w' := Tick(p, v, v, 2);
    LeadsOn(p, w, v, w');
  }

  lemma ThreeThreads(p: Module, w: World)
    requires OwnerInv(p, w) && p.benches == [OneThread(), OneThread(), OneThread()] && 0 < w.next
    ensures |w.owner| == w.next
  {
    SumAppend([], OneThread(), NewThreads());
    SumAppend([OneThread()], OneThread(), NewThreads());
    SumAppend([OneThread(), OneThread()], OneThread(), NewThreads());
    assert p.benches[..1] == [] + [OneThread()] && p.benches[..2] == [OneThread()] + [OneThread()];
    assert p.benches[..3] == [OneThread(), OneThread()] + [OneThread()];
  }

  lemma FirstBenchmark(p: Module) returns (w: World)
    requires p.benches == [OneThread(), OneThread(), OneThread()]
    ensures Reached(p, w) && OwnerInv(p, w) && w.next == 1 && !w.s.main.Spawning? && |w.owner| == 1
    ensures w.s.threads[0].pc.Done? && w.s.ready == w.s.complete == 1
  {
    var w0 := FirstOpen(p, 0);
    ThreeThreads(p, w0);
    var w1 := SpinMany(p, w0, 0, 1);
    ReachedOn(p, w0, w1);
    w := EndMany(p, w1, 0, 1);
    ReachedOn(p, w1, w);
  }

  lemma SecondBenchmark(p: Module, w: World) returns (w': World)
    requires p.benches == [OneThread(), OneThread(), OneThread()] && OwnerInv(p, w) && w.next == 1
    requires !w.s.main.Spawning? && |w.owner| == 1 && w.s.threads[0].pc.Done? && w.s.ready == w.s.complete == 1
    ensures Leads(p, w, w') && OwnerInv(p, w') && w'.next == 2 && !w'.s.main.Spawning? && |w'.owner| == 2
    ensures w'.s.threads[0].pc.Done? && w'.s.threads[1].pc.Bug? && w'.s.ready == 2 && w'.s.complete == 1
  {
    var w1 := OpenAt(p, w, 1);
    ThreeThreads(p, w1);
    assert w1.s.threads[0] == w1.s.threads[..1][0];
    var w2 := SpinMany(p, w1, 1, 2);
    LeadsOn(p, w, w1, w2);
    var w3 := ToVerdict(p, w2, 1);
    LeadsOn(p, w, w2, w3);
    w' := ToBug(p, w3, 1);
    LeadsOn(p, w, w3, w');
  }

  /**
   A mesh of two pairs whose second thread could not be created, and a broadcast of one worker: no step
   of the mesh alone can still touch its memory, and yet freeing it is wrong, because the broadcast
   stores should_run = 1 and lets the waiting thread go.
   */
  lemma LaterStoreReleases(loops: int) returns (p: Module, w: World)
    ensures p == Module([Bench(2, false, Starts), Bench(1, true, Starts)], loops) && Current(p, w, 0)
    ensures |w.s.threads| == 2 && w.s.threads[0].pc.SpinReady? && w.s.threads[1].pc.NeverCreated?
    ensures SafeToFree(BenchConfig(p, 0), w.s) && !FreeForGood(p, w, 0)
  {
    p := Module([Bench(2, false, Starts), Bench(1, true, Starts)], loops);
    w := HalfCreated(p);
    CurrentMeans(p, w, 0);
    SafeToFreeIff(BenchConfig(p, 0), w.s);
    TwoThreads(p, w);
    ModuleFreeIff(p, w, 0);
  }

  lemma HalfCreated(p: Module) returns (w: World)
    requires p.benches == [Bench(2, false, Starts), Bench(1, true, Starts)]
    ensures Current(p, w, 0)
    ensures |w.s.threads| == 2 && w.s.threads[0].pc.SpinReady? && w.s.threads[1].pc.NeverCreated?
  {
    var w0 := Loaded(0);
    assert p.benches[..0] == [];
    LeadsSelf(p, w0);
    var w1 := After(p, w0, Next);
    ThenStep(p, w0, w0, Next);
    OwnerStep(p, w0, Next);
    var w2 := SpawnOne(p, w0, w1, true);
    var w3 := SpawnOne(p, w0, w2, false);
    w := ToSpin(p, w3, 0);
    LeadsOn(p, w0, w3, w);
    assert Reached(p, w) && NoneBefore(p, 0);
  }

  lemma SpawnOne(p: Module, w0: World, w: World, ok: bool) returns (w': World)
    requires Leads(p, w0, w) && OwnerInv(p, w) && w.s.main.Spawning?
    ensures w' == After(p, w, Do(Spawn(ok))) && Leads(p, w0, w') && OwnerInv(p, w')
  {
    w' := After(p, w, Do(Spawn(ok)));
    ThenStep(p, w0, w, Do(Spawn(ok)));
    OwnerStep(p, w, Do(Spawn(ok)));
  }

  lemma TwoThreads(p: Module, w: World)
    requires p.benches == [Bench(2, false, Starts), Bench(1, true, Starts)] && |w.s.threads| == 2
    requires w.s.threads[0].pc.SpinReady? && w.s.threads[1].pc.NeverCreated? && CountInv(w)
    ensures Opens(p, 0, Count(w.s.threads, Exists), w.s.ready)
  {
    var a, b := w.s.threads[0], w.s.threads[1];
    SumAppend([], a, Indicator(Exists));
    SumAppend([a], b, Indicator(Exists));
    SumAppend([], a, Indicator(Arrived));
    SumAppend([a], b, Indicator(Arrived));
    assert [] + [a] == [a] && w.s.threads == [a] + [b];
    SumAppend([], p.benches[1], NewThreads());
    assert p.benches[1..2] == [] + [p.benches[1]];
  }

  /** Self and a mesh of no pairs: it starts nothing, but stores should_run = 0 under the first thread. */
  lemma EmptyMeshDisturbs(loops: int)
    ensures var p := Selected(Options(SELF_IPI | MESH_IPI, 0, 1, loops, 0xFFFF_FFFF, 0xFFFF_FFFF));
            HandsBack(p) && !BarrierKept(p)
  {
    OptionsIff(Options(SELF_IPI | MESH_IPI, 0, 1, loops, 0xFFFF_FFFF, 0xFFFF_FFFF));
  }
}
