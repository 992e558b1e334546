/**
 A whole run of the module: ipi_bench_init starts one selected benchmark after the other, and the
 threads of a benchmark whose wait has ended live on while later benchmarks overwrite should_run and
 add threads of their own. One benchmark at a time is IpiBarrier; this is all of them together.
 */
module IpiModule {
  import opened Sums
  import opened IpiBarrier
  import opened IpiProgress

  /**
   Without memory a benchmark stores nothing; one that cannot draw its CPUs has stored should_run by
   then, but starts no thread.
   */
  datatype Fate = NoMemory | DrawFailed | Starts
  datatype Bench = Bench(n: nat, broadcast: bool, fate: Fate)

  /** The benchmarks the options select, in the order they run. */
  datatype Module = Module(benches: seq<Bench>, loops: int)

  predicate Starter(b: Bench) { b.fate.Starts? && 0 < b.n }

  predicate Stores(b: Bench) { !b.fate.NoMemory? }

  function NewThreads(): Bench -> nat {
    (b: Bench) => if b.fate.Starts? then b.n else 0
  }

  /**
   All threads ever started, `owner` the benchmark of each; those of the current benchmark, the
   `next - 1`st, begin at `base`. Main counts them from `base` too.
   */
  datatype World = World(s: State, owner: seq<nat>, base: nat, next: nat)

  datatype Step = Do(a: Action) | Next

  predicate WellFormed(p: Module, w: World) {
    && |w.owner| == |w.s.threads| && w.base <= |w.owner| && w.next <= |p.benches|
    && forall i | 0 <= i < |w.owner| :: w.owner[i] < w.next
  }

  /** A thread of benchmark b runs with that benchmark's kind. */
  function ConfigOf(p: Module, w: World, b: nat): Config {
    Config(|w.s.threads|, p.loops, b < |p.benches| && p.benches[b].broadcast)
  }

  function MainConfig(p: Module, w: World): Config {
    ConfigOf(p, w, if w.next == 0 then 0 else w.next - 1)
  }

  predicate CanDo(p: Module, w: World, st: Step) {
    match st
    case Do(a) => Enabled(MainConfig(p, w), w.s, a)
    case Next => w.s.main.Freed? && w.next < |p.benches|
  }

  function Unborns(n: nat): (ths: seq<Thread>)
    ensures |ths| == n
  {
    seq(n, i => Thread(Unborn, ZERO_ARGS))
  }

  function Owned(n: nat, b: nat): (owner: seq<nat>)
    ensures |owner| == n && forall i | 0 <= i < n :: owner[i] == b
  {
    seq(n, i => b)
  }

  function Begin(b: Bench, w: World): World {
    var n, first := NewThreads()(b), |w.s.threads|;
    World(w.s.(should := if Stores(b) then b.n else w.s.should, threads := w.s.threads + Unborns(n),
               main := if 0 < n then Spawning(first) else if b.fate.Starts? then WaitComplete else Freed(false),
               reports := []),
          w.owner + Owned(n, w.next), first, w.next + 1)
  }

  /** The steps of IpiBarrier, except that main's reports begin at `base`. */
  function DoStep(p: Module, w: World, a: Action): State
    requires WellFormed(p, w) && CanDo(p, w, Do(a))
  {
    var cfg := MainConfig(p, w);
    match a
    case Run(i, _, _, _) => Apply(ConfigOf(p, w, w.owner[i]), w.s, a)
    case WaitTest =>
      w.s.(main := if w.s.main.c == w.s.should then AfterReport(cfg, true, w.base) else WaitComplete)
    case GiveUp => w.s.(main := AfterReport(cfg, false, w.base))
    case _ => Apply(cfg, w.s, a)
  }

  function After(p: Module, w: World, st: Step): (w': World)
    requires WellFormed(p, w) && CanDo(p, w, st)
    ensures WellFormed(p, w')
  {
    match st
    case Do(a) => w.(s := DoStep(p, w, a))
    case Next => Begin(p.benches[w.next], w)
  }

  /** Before the first benchmark. */
  function Loaded(clock: nat): World {
    World(State(0, 0, 0, clock, [], Freed(false), []), [], 0, 0)
  }

  ghost predicate Trace(p: Module, w: World, steps: seq<Step>, w': World)
    requires WellFormed(p, w)
    decreases |steps|
  {
    if steps == [] then w == w'
    else CanDo(p, w, steps[0]) && Trace(p, After(p, w, steps[0]), steps[1..], w')
  }

  ghost predicate Leads(p: Module, w: World, w': World) {
    WellFormed(p, w) && exists steps: seq<Step> :: Trace(p, w, steps, w')
  }

  ghost predicate Reached(p: Module, w: World) {
    exists clock: nat :: Leads(p, Loaded(clock), w)
  }

  lemma LeadsSelf(p: Module, w: World)
    requires WellFormed(p, w)
    ensures Leads(p, w, w)
  {
    assert Trace(p, w, [], w);
  }

  lemma {:induction false} TraceWellFormed(p: Module, w: World, steps: seq<Step>, w': World)
    requires WellFormed(p, w) && Trace(p, w, steps, w')
    ensures WellFormed(p, w')
    decreases |steps|
  {
    if steps != [] {
      TraceWellFormed(p, After(p, w, steps[0]), steps[1..], w');
    }
  }

  lemma {:induction false} TraceJoin(p: Module, w: World, steps: seq<Step>, w': World, more: seq<Step>, w'': World)
    requires WellFormed(p, w) && WellFormed(p, w') && Trace(p, w, steps, w') && Trace(p, w', more, w'')
    ensures Trace(p, w, steps + more, w'')
    decreases |steps|
  {
    if steps == [] {
      assert steps + more == more;
    } else {
      TraceJoin(p, After(p, w, steps[0]), steps[1..], w', more, w'');
      assert (steps + more)[1..] == steps[1..] + more;
    }
  }

  lemma LeadsOn(p: Module, w: World, w': World, w'': World)
    requires Leads(p, w, w') && Leads(p, w', w'')
    ensures Leads(p, w, w'')
  {
    var steps: seq<Step> :| Trace(p, w, steps, w');
    var more: seq<Step> :| Trace(p, w', more, w'');
    TraceJoin(p, w, steps, w', more, w'');
  }

  lemma OneStep(p: Module, w: World, st: Step)
    requires WellFormed(p, w) && CanDo(p, w, st)
    ensures Leads(p, w, After(p, w, st))
  {
    assert [st][1..] == [];
    assert Trace(p, w, [st], After(p, w, st));
  }

  lemma ThenStep(p: Module, w: World, w': World, st: Step)
    requires Leads(p, w, w') && WellFormed(p, w') && CanDo(p, w', st)
    ensures Leads(p, w, After(p, w', st))
  {
    OneStep(p, w', st);
    LeadsOn(p, w, w', After(p, w', st));
  }

  lemma ReachedOn(p: Module, w: World, w': World)
    requires Reached(p, w) && Leads(p, w, w')
    ensures Reached(p, w')
  {
    var clock: nat :| Leads(p, Loaded(clock), w);
    LeadsOn(p, Loaded(clock), w, w');
  }

  // ---------------------------------------------------------------- invariants of every run

  ghost predicate OwnerInv(p: Module, w: World) {
    && WellFormed(p, w)
    && |w.s.threads| == Sum(p.benches[..w.next], NewThreads())
    && (w.next == 0 ==> w.s.main == Freed(false))
    && (0 < w.next ==> w.base == Sum(p.benches[..w.next - 1], NewThreads()))
    && (forall i | 0 <= i < |w.owner| :: w.base <= i <==> w.owner[i] == w.next - 1)
    && (forall i | 0 <= i < |w.owner| :: Starter(p.benches[w.owner[i]]))
    && (w.s.main.Spawning? ==> w.base <= w.s.main.k < |w.owner|)
    && (w.s.main.Reporting? ==> w.s.main.k < |w.owner|)
    && (forall i | 0 <= i < |w.owner| :: w.s.threads[i].pc.Unborn? <==> w.s.main.Spawning? && w.s.main.k <= i)
  }

  ghost predicate CountInv(w: World) {
    w.s.ready == Count(w.s.threads, Arrived) && w.s.complete == Count(w.s.threads, Completed)
  }

  lemma DoFrame(p: Module, w: World, a: Action)
    requires WellFormed(p, w) && CanDo(p, w, Do(a))
    ensures var w' := After(p, w, Do(a));
            && w' == w.(s := w'.s) && |w'.s.threads| == |w.s.threads| && w'.s.should == w.s.should
            && (!a.Run? && !a.Spawn? ==>
                  w'.s.threads == w.s.threads && w'.s.ready == w.s.ready && w'.s.complete == w.s.complete
                  && w'.s.clock == w.s.clock && !w'.s.main.Spawning?)
            && (a.Spawn? ==>
                  && w'.s.ready == w.s.ready && w'.s.complete == w.s.complete && w'.s.clock == w.s.clock
                  && w'.s.threads == w.s.threads[w.s.main.k := w.s.threads[w.s.main.k].(
                                                                 pc := if a.ok then ForkClock else NeverCreated)]
                  && w'.s.main == if w.s.main.k + 1 < |w.s.threads| then Spawning(w.s.main.k + 1) else WaitComplete)
            && (a.Run? ==>
                  && w'.s.main == w.s.main
                  && w'.s.threads == w.s.threads[a.i := LocalStep(ConfigOf(p, w, w.owner[a.i]), w.s.threads[a.i],
                                                                  w.s.ready, w.s.should, a.now, a.fail, a.delay)]
                  && w'.s.ready == w.s.ready + (if w.s.threads[a.i].pc.Arrive? then 1 else 0)
                  && w'.s.complete == w.s.complete + (if w.s.threads[a.i].pc.Complete? then 1 else 0))
  {
  }

  lemma BeginFrame(p: Module, w: World)
    requires OwnerInv(p, w) && CanDo(p, w, Next)
    ensures OwnerInv(p, After(p, w, Next))
  {
    var b, w' := p.benches[w.next], After(p, w, Next);
    assert p.benches[..w'.next][..w.next] == p.benches[..w.next];
    forall i | 0 <= i < |w'.owner|
      ensures w'.base <= i <==> w'.owner[i] == w'.next - 1
      ensures Starter(p.benches[w'.owner[i]])
      ensures w'.s.threads[i].pc.Unborn? <==> w'.s.main.Spawning? && w'.s.main.k <= i
    {
    }
  }

  lemma OwnerStep(p: Module, w: World, st: Step)
    requires OwnerInv(p, w) && CanDo(p, w, st)
    ensures OwnerInv(p, After(p, w, st))
  {
    match st
    case Do(a) => DoFrame(p, w, a);
    case Next => BeginFrame(p, w);
  }

  lemma CountDo(p: Module, w: World, a: Action)
    requires OwnerInv(p, w) && CountInv(w) && CanDo(p, w, Do(a))
    ensures CountInv(After(p, w, Do(a)))
  {
    DoFrame(p, w, a);
    if a.Run? || a.Spawn? {
      var w', k := After(p, w, Do(a)), if a.Spawn? then w.s.main.k else a.i;
      CountUpdate(w.s.threads, k, w'.s.threads[k], Arrived);
      CountUpdate(w.s.threads, k, w'.s.threads[k], Completed);
    }
  }

  lemma CountNext(p: Module, w: World)
    requires WellFormed(p, w) && CountInv(w) && CanDo(p, w, Next)
    ensures CountInv(After(p, w, Next))
  {
    var more := Unborns(NewThreads()(p.benches[w.next]));
    SumConcat(w.s.threads, more, Indicator(Arrived));
    SumConcat(w.s.threads, more, Indicator(Completed));
    CountExtremes(more, Arrived);
    CountExtremes(more, Completed);
  }

  ghost predicate Inv(p: Module, w: World) { OwnerInv(p, w) && CountInv(w) }

  lemma InvStep(p: Module, w: World, st: Step)
    requires Inv(p, w) && CanDo(p, w, st)
    ensures Inv(p, After(p, w, st))
  {
    OwnerStep(p, w, st);
    match st
    case Do(a) => CountDo(p, w, a);
    case Next => CountNext(p, w);
  }

  lemma {:induction false} InvTrace(p: Module, w: World, steps: seq<Step>, w': World)
    requires Inv(p, w) && Trace(p, w, steps, w')
    ensures Inv(p, w')
    decreases |steps|
  {
    if steps != [] {
      InvStep(p, w, steps[0]);
      InvTrace(p, After(p, w, steps[0]), steps[1..], w');
    }
  }

  lemma InvReached(p: Module, w: World)
    requires Reached(p, w)
    ensures Inv(p, w)
  {
    var clock: nat :| Leads(p, Loaded(clock), w);
    var steps: seq<Step> :| Trace(p, Loaded(clock), steps, w);
    assert p.benches[..0] == [];
    InvTrace(p, Loaded(clock), steps, w);
  }

  /**
   In every run of the module, whatever still runs when a benchmark begins: completions never exceed
   arrivals, and arrivals never the threads of the benchmarks begun.
   */
  lemma ModuleCounters(p: Module, w: World)
    requires Reached(p, w)
    ensures w.next <= |p.benches| && 0 <= w.s.complete <= w.s.ready <= Sum(p.benches[..w.next], NewThreads())
  {
    InvReached(p, w);
    CountExtremes(w.s.threads, Arrived);
    CountMonotone(w.s.threads, Completed, Arrived);
  }

  // ---------------------------------------------------------------- up to the first benchmark with threads

  ghost predicate NoneBefore(p: Module, k: nat)
    requires k <= |p.benches|
  {
    forall j | 0 <= j < k :: !Starter(p.benches[j])
  }

  lemma {:induction false} NoThreadsBefore(p: Module, k: nat)
    requires k <= |p.benches| && NoneBefore(p, k)
    ensures Sum(p.benches[..k], NewThreads()) == 0
  {
    if k > 0 {
      assert p.benches[..k][..k - 1] == p.benches[..k - 1];
      NoThreadsBefore(p, k - 1);
    }
  }

  function BenchConfig(p: Module, k: nat): Config
    requires k < |p.benches|
  {
    Config(p.benches[k].n, p.loops, p.benches[k].broadcast)
  }

  /** The first benchmark that starts threads runs as IpiBarrier has it, from zeroed counters. */
  ghost predicate FirstInv(p: Module, k: nat, w: World)
    requires k < |p.benches|
  {
    && (w.next <= k ==> w.s.threads == [] && w.s.ready == w.s.complete == 0)
    && (w.next == k + 1 && p.benches[k].fate.Starts? ==> w.base == 0 && Reachable(BenchConfig(p, k), 0, 0, w.s))
  }

  /** While all threads are the current benchmark's, a step of the module is a step of that benchmark. */
  lemma DoIsApply(p: Module, w: World, a: Action)
    requires OwnerInv(p, w) && CanDo(p, w, Do(a)) && 0 < w.next && w.base == 0
    requires |w.s.threads| == p.benches[w.next - 1].n
    ensures Enabled(BenchConfig(p, w.next - 1), w.s, a)
    ensures After(p, w, Do(a)).s == Apply(BenchConfig(p, w.next - 1), w.s, a)
  {
  }

  lemma FirstStep(p: Module, k: nat, w: World, st: Step)
    requires k < |p.benches| && NoneBefore(p, k) && OwnerInv(p, w) && FirstInv(p, k, w) && CanDo(p, w, st)
    ensures FirstInv(p, k, After(p, w, st))
  {
    var w' := After(p, w, st);
    match st
    case Do(a) =>
      DoFrame(p, w, a);
      if w.next == k + 1 && p.benches[k].fate.Starts? {
        NoThreadsBefore(p, k);
        assert p.benches[..k + 1][..k] == p.benches[..k];
        DoIsApply(p, w, a);
        ReachableExtend(BenchConfig(p, k), 0, 0, w.s, a);
      }
    case Next =>
      if w.next == k && p.benches[k].fate.Starts? {
        var cfg := BenchConfig(p, k);
        assert w'.s == Init(cfg, 0, 0, w.s.clock);
        assert Path(cfg, w'.s, [], w'.s);
      }
  }

  lemma {:induction false} FirstTrace(p: Module, k: nat, w: World, steps: seq<Step>, w': World)
    requires k < |p.benches| && NoneBefore(p, k) && OwnerInv(p, w) && FirstInv(p, k, w) && Trace(p, w, steps, w')
    ensures FirstInv(p, k, w')
    decreases |steps|
  {
    if steps != [] {
      OwnerStep(p, w, steps[0]);
      FirstStep(p, k, w, steps[0]);
      FirstTrace(p, k, After(p, w, steps[0]), steps[1..], w');
    }
  }

  lemma FirstReached(p: Module, k: nat, w: World)
    requires k < |p.benches| && NoneBefore(p, k) && Reached(p, w)
    ensures FirstInv(p, k, w)
  {
    var clock: nat :| Leads(p, Loaded(clock), w);
    var steps: seq<Step> :| Trace(p, Loaded(clock), steps, w);
    assert p.benches[..0] == [];
    FirstTrace(p, k, Loaded(clock), steps, w);
  }

  // ---------------------------------------------------------------- the hand-back over the whole run

  /**
   Whenever a wait ends because its condition holds, no thread of that benchmark touches its
   bench_args in any later state, over all later benchmarks.
   */
  ghost predicate HandsBack(p: Module) {
    forall w: World, w': World, i: nat | Reached(p, w) && WaitMet(w.s) && Leads(p, w, w') && i < |w'.s.threads| ::
      Quiet(w, w', i)
  }

  predicate Quiet(w: World, w': World, i: nat)
    requires i < |w'.s.threads|
  {
    i < |w'.owner| && w'.owner[i] == w.next - 1 ==> !Touches(w'.s.threads[i].pc)
  }

  ghost predicate PastOf(w: World, b: nat) {
    |w.owner| == |w.s.threads|
    && forall i | 0 <= i < |w.owner| && w.owner[i] == b :: PastLastAccess(w.s.threads[i].pc)
  }

  lemma {:induction false} PastOfStays(p: Module, w: World, steps: seq<Step>, w': World, b: nat)
    requires OwnerInv(p, w) && b < w.next && PastOf(w, b) && Trace(p, w, steps, w')
    ensures PastOf(w', b)
    decreases |steps|
  {
    if steps != [] {
      var m := After(p, w, steps[0]);
      OwnerStep(p, w, steps[0]);
      if steps[0].Do? {
        DoFrame(p, w, steps[0].a);
      }
      PastOfStays(p, m, steps[1..], w', b);
    }
  }

  /** With at most one benchmark that starts threads, its wait is as good as if it ran alone. */
  lemma OneStarterHandsBack(p: Module, w: World, w': World)
    requires Count(p.benches, Starter) <= 1 && Reached(p, w) && WaitMet(w.s) && Leads(p, w, w')
    ensures forall i: nat | i < |w'.s.threads| :: Quiet(w, w', i)
  {
    InvReached(p, w);
    var k := w.next - 1;
    var steps: seq<Step> :| Trace(p, w, steps, w');
    if Starter(p.benches[k]) {
      forall j | 0 <= j < k ensures !Starter(p.benches[j]) {
        if Starter(p.benches[j]) {
          AtMostOne(p.benches, Starter, j, k);
        }
      }
      FirstReached(p, k, w);
      HandBackReachable(BenchConfig(p, k), w.s);
      AllCompleted(BenchConfig(p, k), w.s);
    }
    assert PastOf(w, k);
    PastOfStays(p, w, steps, w', k);
  }

  // ---------------------------------------------------------------- the barrier over the whole run

  /** Within each benchmark nobody is past the barrier before all have arrived, and nobody took BUG. */
  ghost predicate BenchesOk(w: World) {
    && |w.owner| == |w.s.threads|
    && (forall i, j | 0 <= i < |w.owner| && 0 <= j < |w.owner| && w.owner[i] == w.owner[j] ::
          Released(w.s.threads[i]) ==> Arrived(w.s.threads[j]))
    && (forall i | 0 <= i < |w.owner| :: !w.s.threads[i].pc.Bug?)
  }

  ghost predicate BarrierKept(p: Module) {
    forall w: World | Reached(p, w) :: BenchesOk(w)
  }

  /** No benchmark after one that starts threads starts threads too, or stores another should_run. */
  predicate Undisturbed(p: Module) {
    forall i, j | 0 <= i < j < |p.benches| && Starter(p.benches[i]) && Stores(p.benches[j]) ::
      !Starter(p.benches[j]) && p.benches[j].n == p.benches[i].n
  }

  /** The threads and counters as the benchmark that started the threads would see them, its wait over. */
  function Aftermath(s: State): State {
    s.(main := Freed(false), reports := [])
  }

  ghost predicate LaterInv(p: Module, k: nat, w: World)
    requires k < |p.benches|
  {
    k + 1 < w.next ==>
      && |w.s.threads| == |w.owner| == p.benches[k].n == w.s.should
      && (forall i | 0 <= i < |w.owner| :: w.owner[i] == k)
      && BarrierInv(BenchConfig(p, k), Aftermath(w.s))
  }

  lemma LaterDo(p: Module, k: nat, w: World, a: Action)
    requires k < |p.benches| && OwnerInv(p, w) && LaterInv(p, k, w) && k + 1 < w.next && CanDo(p, w, Do(a))
    ensures LaterInv(p, k, After(p, w, Do(a)))
  {
    DoFrame(p, w, a);
    if a.Run? {
      var cfg := BenchConfig(p, k);
      assert ConfigOf(p, w, w.owner[a.i]) == cfg;
      BarrierStep(cfg, Aftermath(w.s), a);
      assert Aftermath(After(p, w, Do(a)).s) == Apply(cfg, Aftermath(w.s), a);
    } else {
      assert Aftermath(After(p, w, Do(a)).s) == Aftermath(w.s);
    }
  }

  lemma LaterNext(p: Module, k: nat, w: World)
    requires k < |p.benches| && OwnerInv(p, w) && CanDo(p, w, Next) && k < w.next
    requires Starter(p.benches[k]) && NoneBefore(p, k) && Undisturbed(p)
    requires FirstInv(p, k, w) && LaterInv(p, k, w)
    ensures LaterInv(p, k, After(p, w, Next))
  {
    var w' := After(p, w, Next);
    assert NewThreads()(p.benches[w.next]) == 0;
    assert w'.s.threads == w.s.threads && w'.owner == w.owner;
    if w.next == k + 1 {
      BarrierReachable(BenchConfig(p, k), w.s);
    }
    assert Aftermath(w'.s).threads == Aftermath(w.s).threads;
    if w.next == k + 1 {
      AftermathBarrier(BenchConfig(p, k), w.s, w'.s);
    } else {
      AftermathBarrier(BenchConfig(p, k), Aftermath(w.s), w'.s);
    }
  }

  lemma AftermathBarrier(cfg: Config, s: State, s': State)
    requires BarrierInv(cfg, s) && !s.main.Spawning?
    requires s'.ready == s.ready && s'.complete == s.complete && s'.clock == s.clock
    requires s'.should == s.should && s'.threads == s.threads
    ensures BarrierInv(cfg, Aftermath(s'))
  {
  }

  lemma {:induction false} LaterTrace(p: Module, k: nat, w: World, steps: seq<Step>, w': World)
    requires k < |p.benches| && Starter(p.benches[k]) && NoneBefore(p, k) && Undisturbed(p)
    requires OwnerInv(p, w) && FirstInv(p, k, w) && LaterInv(p, k, w) && Trace(p, w, steps, w')
    ensures OwnerInv(p, w') && FirstInv(p, k, w') && LaterInv(p, k, w')
    decreases |steps|
  {
    if steps != [] {
      OwnerStep(p, w, steps[0]);
      FirstStep(p, k, w, steps[0]);
      if k + 1 < w.next && steps[0].Do? {
        LaterDo(p, k, w, steps[0].a);
      } else if k < w.next && steps[0].Next? {
        LaterNext(p, k, w);
      }
      LaterTrace(p, k, After(p, w, steps[0]), steps[1..], w');
    }
  }

  lemma UndisturbedOk(p: Module, k: nat, w: World)
    requires k < |p.benches| && Starter(p.benches[k]) && NoneBefore(p, k) && Undisturbed(p) && Reached(p, w)
    ensures BenchesOk(w)
  {
    var clock: nat :| Leads(p, Loaded(clock), w);
    var steps: seq<Step> :| Trace(p, Loaded(clock), steps, w);
    assert p.benches[..0] == [];
    LaterTrace(p, k, Loaded(clock), steps, w);
    var cfg := BenchConfig(p, k);
    if w.next == k + 1 {
      BarrierReachable(cfg, w.s);
      BarrierInvOk(cfg, w.s);
    } else if k + 1 < w.next {
      BarrierInvOk(cfg, Aftermath(w.s));
    }
  }

  lemma FirstStarter(p: Module, i: nat) returns (k: nat)
    requires i < |p.benches| && Starter(p.benches[i])
    ensures k <= i && Starter(p.benches[k]) && NoneBefore(p, k)
  {
    k := 0;
    while !Starter(p.benches[k])
      invariant k <= i && NoneBefore(p, k)
      decreases i - k
    {
      k := k + 1;
    }
  }

  lemma UndisturbedKept(p: Module)
    requires Undisturbed(p)
    ensures BarrierKept(p)
  {
    forall w: World | Reached(p, w) ensures BenchesOk(w) {
      InvReached(p, w);
      if |w.owner| > 0 {
        var k := FirstStarter(p, w.owner[0]);
        UndisturbedOk(p, k, w);
      }
    }
  }
}
