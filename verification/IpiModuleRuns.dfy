/**
 What can go wrong in a whole run of the module, shown by runs, and with it the exact conditions for
 the hand-back, the barrier and the free over all selected benchmarks.
 */
module IpiModuleRuns {
  import opened Sums
  import opened IpiBarrier
  import opened IpiProgress
  import opened IpiPhases
  import opened IpiModule

  // ---------------------------------------------------------------- main goes on, the threads stand still

  const NEWBORN := Thread(ForkClock, ZERO_ARGS)

  /** Threads may have been added, none has taken a step. */
  predicate Grown(w: World, w': World) {
    && |w.owner| == |w.s.threads| <= |w'.s.threads| == |w'.owner|
    && w'.s.threads[..|w.owner|] == w.s.threads && w'.owner[..|w.owner|] == w.owner
    && (forall x | |w.owner| <= x < |w'.owner| :: w'.s.threads[x] == NEWBORN)
    && w'.s.ready == w.s.ready && w'.s.complete == w.s.complete && w'.s.clock == w.s.clock
  }

  lemma GrownOn(w: World, w': World, w'': World)
    requires Grown(w, w') && Grown(w', w'')
    ensures Grown(w, w'')
  {
    assert w''.s.threads[..|w.owner|] == w''.s.threads[..|w'.owner|][..|w.owner|];
    assert w''.owner[..|w.owner|] == w''.owner[..|w'.owner|][..|w.owner|];
    forall x | |w.owner| <= x < |w''.owner| ensures w''.s.threads[x] == NEWBORN {
      if x < |w'.owner| {
        assert w''.s.threads[x] == w''.s.threads[..|w'.owner|][x];
      }
    }
  }

  lemma SpawnAll(p: Module, w: World) returns (w': World)
    requires OwnerInv(p, w) && w.s.main == Spawning(w.base)
    requires forall x | w.base <= x < |w.owner| :: w.s.threads[x] == Thread(Unborn, ZERO_ARGS)
    ensures Leads(p, w, w') && OwnerInv(p, w')
    ensures w' == w.(s := w.s.(threads := w'.s.threads, main := WaitComplete)) && |w'.s.threads| == |w.s.threads|
    ensures forall x | 0 <= x < |w.owner| :: w'.s.threads[x] == if x < w.base then w.s.threads[x] else NEWBORN
  {
    w' := w;
    LeadsSelf(p, w);
    for k := w.base to |w.owner|
      invariant Leads(p, w, w') && OwnerInv(p, w') && |w'.s.threads| == |w.s.threads|
      invariant w' == w.(s := w.s.(threads := w'.s.threads,
                                   main := if k < |w.owner| then Spawning(k) else WaitComplete))
      invariant forall x | 0 <= x < |w.owner| ::
                  w'.s.threads[x] == if w.base <= x < k then NEWBORN else w.s.threads[x]
    {
      var st := Do(Spawn(true));
      DoFrame(p, w', Spawn(true));
      ThenStep(p, w, w', st);
      OwnerStep(p, w', st);
      w' := After(p, w', st);
    }
  }

  /** The next benchmark begins and creates all its threads; main waits, or is done with it already. */
  lemma Open(p: Module, w: World) returns (w': World)
    requires OwnerInv(p, w) && w.s.main.Freed? && w.next < |p.benches|
    ensures Leads(p, w, w') && OwnerInv(p, w') && Grown(w, w')
    ensures var b := p.benches[w.next];
            && w'.next == w.next + 1 && w'.base == |w.owner|
            && w'.owner == w.owner + Owned(NewThreads()(b), w.next)
            && w'.s.should == (if Stores(b) then b.n else w.s.should)
            && w'.s.main == (if b.fate.Starts? then WaitComplete else Freed(false))
  {
    OneStep(p, w, Next);
    OwnerStep(p, w, Next);
    w' := After(p, w, Next);
    if w'.s.main.Spawning? {
      var m := w';
      w' := SpawnAll(p, m);
      LeadsOn(p, w, m, w');
    }
    assert w'.s.threads[..|w.owner|] == w.s.threads;
  }

  predicate AtReports(m: MainPC) { m.Reporting? || m.Freeing? || m.Freed? }

  lemma ReportAll(p: Module, w: World) returns (w': World)
    requires OwnerInv(p, w) && AtReports(w.s.main)
    ensures Leads(p, w, w') && OwnerInv(p, w') && (w'.s.main.Freeing? || w'.s.main.Freed?)
    ensures w' == w.(s := w.s.(main := w'.s.main, reports := w'.s.reports))
  {
    w' := w;
    LeadsSelf(p, w);
    while w'.s.main.Reporting?
      invariant Leads(p, w, w') && OwnerInv(p, w') && AtReports(w'.s.main)
      invariant w' == w.(s := w.s.(main := w'.s.main, reports := w'.s.reports))
      decreases if w'.s.main.Reporting? then |w.owner| - w'.s.main.k else 0,
                if w'.s.main.Reporting? && w'.s.main.got < 4 then 4 - w'.s.main.got else 0
    {
      w' := MainStep(p, w, w', Report);
    }
  }

  /** The wait ends, met or not; main reports and frees. */
  lemma Close(p: Module, w: World) returns (w': World)
    requires OwnerInv(p, w) && !w.s.main.Spawning?
    ensures Leads(p, w, w') && OwnerInv(p, w') && w'.s.main.Freed?
    ensures w' == w.(s := w.s.(main := w'.s.main, reports := w'.s.reports))
  {
    LeadsSelf(p, w);
    var v := w;
    if !AtReports(w.s.main) {
      v := MainStep(p, w, w, GiveUp);
    }
    w' := ReportAll(p, v);
    LeadsOn(p, w, v, w');
    if w'.s.main.Freeing? {
      w' := MainStep(p, w, w', Free);
    }
  }

  lemma MainStep(p: Module, w: World, m: World, a: Action) returns (w': World)
    requires Leads(p, w, m) && OwnerInv(p, m) && CanDo(p, m, Do(a)) && !a.Run? && !a.Spawn?
    ensures w' == After(p, m, Do(a)) && Leads(p, w, w') && OwnerInv(p, w')
    ensures w' == m.(s := m.s.(main := w'.s.main, reports := w'.s.reports))
  {
    w' := After(p, m, Do(a));
    ThenStep(p, w, m, Do(a));
    OwnerStep(p, m, Do(a));
  }

  lemma Skip(p: Module, w: World) returns (w': World)
    requires OwnerInv(p, w) && w.s.main.Freed? && w.next < |p.benches|
    ensures Leads(p, w, w') && OwnerInv(p, w') && Grown(w, w') && w'.s.main.Freed? && w'.next == w.next + 1
    ensures w'.owner == w.owner + Owned(NewThreads()(p.benches[w.next]), w.next)
    ensures w'.s.should == if Stores(p.benches[w.next]) then p.benches[w.next].n else w.s.should
  {
    var m := Open(p, w);
    w' := Close(p, m);
    LeadsOn(p, w, m, w');
  }

  /** Main goes through benchmarks whose threads get no further than having been created. */
  lemma {:induction false} SkipTo(p: Module, w: World, b: nat) returns (w': World)
    requires OwnerInv(p, w) && w.s.main.Freed? && w.next <= b <= |p.benches|
    ensures Leads(p, w, w') && OwnerInv(p, w') && Grown(w, w') && w'.s.main.Freed? && w'.next == b
    decreases b - w.next
  {
    if w.next == b {
      w' := w;
      LeadsSelf(p, w);
      assert w.s.threads[..|w.owner|] == w.s.threads && w.owner[..|w.owner|] == w.owner;
    } else {
      var m := Skip(p, w);
      w' := SkipTo(p, m, b);
      LeadsOn(p, w, m, w');
      GrownOn(w, m, w');
    }
  }

  // ---------------------------------------------------------------- one thread goes on, all else stands still

  /** Only thread x and the counters may differ. */
  predicate Only(w: World, w': World, x: nat) {
    && x < |w.s.threads| == |w'.s.threads|
    && w' == w.(s := w.s.(threads := w.s.threads[x := w'.s.threads[x]], ready := w'.s.ready,
                          complete := w'.s.complete))
  }

  lemma Tick(p: Module, w: World, m: World, x: nat) returns (w': World)
    requires Leads(p, w, m) && OwnerInv(p, m) && Only(w, m, x) && Runnable(m.s.threads[x].pc)
    ensures Leads(p, w, w') && OwnerInv(p, w') && Only(w, w', x)
    ensures w'.s.threads[x] == LocalStep(ConfigOf(p, w, w.owner[x]), m.s.threads[x], m.s.ready, m.s.should,
                                         m.s.clock, true, 0)
    ensures w'.s.ready == m.s.ready + if m.s.threads[x].pc.Arrive? then 1 else 0
    ensures w'.s.complete == m.s.complete + if m.s.threads[x].pc.Complete? then 1 else 0
  {
    var a := Run(x, m.s.clock, true, 0);
    DoFrame(p, m, a);
    ThenStep(p, w, m, Do(a));
    OwnerStep(p, m, Do(a));
    w' := After(p, m, Do(a));
  }

  predicate Early(pc: PC) { pc.ForkClock? || pc.Arrive? }

  lemma ToSpin(p: Module, w: World, x: nat) returns (w': World)
    requires OwnerInv(p, w) && x < |w.owner| && Early(w.s.threads[x].pc)
    ensures Leads(p, w, w') && OwnerInv(p, w') && Only(w, w', x) && w'.s.threads[x].pc.SpinReady?
    ensures w'.s.ready == w.s.ready + 1 && w'.s.complete == w.s.complete
  {
    LeadsSelf(p, w);
    assert w.s.threads == w.s.threads[x := w.s.threads[x]];
    w' := w;
    if w.s.threads[x].pc.ForkClock? {
      w' := Tick(p, w, w', x);
      w' := Tick(p, w, w', x);
    }
    w' := Tick(p, w, w', x);
  }

  lemma ToVerdict(p: Module, w: World, x: nat) returns (w': World)
    requires OwnerInv(p, w) && x < |w.owner| && w.s.threads[x].pc.SpinReady? && w.s.should <= w.s.ready
    ensures Leads(p, w, w') && OwnerInv(p, w') && Only(w, w', x) && w'.s.threads[x].pc == CheckShould(w.s.ready)
    ensures w'.s.ready == w.s.ready && w'.s.complete == w.s.complete
  {
    LeadsSelf(p, w);
    assert w.s.threads == w.s.threads[x := w.s.threads[x]];
    w' := Tick(p, w, w, x);
    w' := Tick(p, w, w', x);
    w' := Tick(p, w, w', x);
  }

  lemma ToBug(p: Module, w: World, x: nat) returns (w': World)
    requires OwnerInv(p, w) && x < |w.owner| && w.s.threads[x].pc.CheckShould? && w.s.threads[x].pc.r != w.s.should
    ensures Leads(p, w, w') && OwnerInv(p, w') && Only(w, w', x) && w'.s.threads[x].pc.Bug?
    ensures w'.s.ready == w.s.ready && w'.s.complete == w.s.complete
  {
    LeadsSelf(p, w);
    assert w.s.threads == w.s.threads[x := w.s.threads[x]];
    w' := Tick(p, w, w, x);
  }

  /** TrackStep, whatever number of threads the configuration has. */
  lemma TrackTick(cfg: Config, th: Thread, should: nat, now: nat)
    requires OnTrack(th.pc, should) && Runnable(th.pc)
    ensures var th', cfg' := LocalStep(cfg, th, should, should, now, true, 0), cfg.(n := should);
            OnTrack(th'.pc, should) && Rank(cfg', th'.pc) < Rank(cfg', th.pc)
            && (Completed(th') <==> Completed(th) || th.pc.Complete?) && !th.pc.Arrive?
  {
    TrackStep(cfg.(n := should), th, now);
    assert LocalStep(cfg, th, should, should, now, true, 0)
        == LocalStep(cfg.(n := should), th, should, should, now, true, 0);
  }

  lemma ToEnd(p: Module, w: World, x: nat) returns (w': World)
    requires OwnerInv(p, w) && x < |w.owner| && w.s.threads[x].pc.SpinReady? && 0 <= w.s.should == w.s.ready
    ensures Leads(p, w, w') && OwnerInv(p, w') && Only(w, w', x) && w'.s.threads[x].pc.Done?
    ensures w'.s.ready == w.s.ready && w'.s.complete == w.s.complete + 1
  {
    LeadsSelf(p, w);
    assert w.s.threads == w.s.threads[x := w.s.threads[x]];
    w' := w;
    var cfg := ConfigOf(p, w, w.owner[x]);
    while !w'.s.threads[x].pc.Done?
      invariant Leads(p, w, w') && OwnerInv(p, w') && Only(w, w', x) && OnTrack(w'.s.threads[x].pc, w.s.should)
      invariant w'.s.ready == w.s.ready
      invariant w'.s.complete == w.s.complete + if Completed(w'.s.threads[x]) then 1 else 0
      decreases Rank(cfg.(n := w.s.should), w'.s.threads[x].pc)
    {
      TrackTick(cfg, w'.s.threads[x], w.s.should, w'.s.clock);
      w' := Tick(p, w, w', x);
    }
  }

  /** Threads lo .. hi-1 have gone on to `pc`, all others stand still. */
  predicate Moved(w: World, w': World, lo: nat, hi: nat, pc: PC) {
    && lo <= hi <= |w.s.threads| == |w'.s.threads|
    && w' == w.(s := w.s.(threads := w'.s.threads, ready := w'.s.ready, complete := w'.s.complete))
    && forall x | 0 <= x < |w.s.threads| ::
         if lo <= x < hi then w'.s.threads[x].pc == pc else w'.s.threads[x] == w.s.threads[x]
  }

  lemma SpinMany(p: Module, w: World, lo: nat, hi: nat) returns (w': World)
    requires OwnerInv(p, w) && lo <= hi <= |w.owner| && forall x | lo <= x < hi :: w.s.threads[x] == NEWBORN
    ensures Leads(p, w, w') && OwnerInv(p, w') && Moved(w, w', lo, hi, SpinReady)
    ensures w'.s.ready == w.s.ready + (hi - lo) && w'.s.complete == w.s.complete
  {
    w' := w;
    LeadsSelf(p, w);
    for x := lo to hi
      invariant Leads(p, w, w') && OwnerInv(p, w') && Moved(w, w', lo, x, SpinReady)
      invariant w'.s.ready == w.s.ready + (x - lo) && w'.s.complete == w.s.complete
    {
      var m := w';
      w' := ToSpin(p, m, x);
      LeadsOn(p, w, m, w');
    }
  }

  lemma EndMany(p: Module, w: World, lo: nat, hi: nat) returns (w': World)
    requires OwnerInv(p, w) && lo <= hi <= |w.owner| && forall x | lo <= x < hi :: w.s.threads[x].pc.SpinReady?
    requires lo < hi ==> 0 <= w.s.should == w.s.ready
    ensures Leads(p, w, w') && OwnerInv(p, w') && Moved(w, w', lo, hi, PC.Done)
    ensures w'.s.ready == w.s.ready && w'.s.complete == w.s.complete + (hi - lo)
  {
    w' := w;
    LeadsSelf(p, w);
    for x := lo to hi
      invariant Leads(p, w, w') && OwnerInv(p, w') && Moved(w, w', lo, x, PC.Done)
      invariant w'.s.ready == w.s.ready && w'.s.complete == w.s.complete + (x - lo)
    {
      var m := w';
      w' := ToEnd(p, m, x);
      LeadsOn(p, w, m, w');
    }
  }

  // ---------------------------------------------------------------- two benchmarks that start threads

  /** Benchmark b is current, its wait has begun, and none of its threads has taken a step. */
  ghost predicate Opened(p: Module, w: World, b: nat) {
    && OwnerInv(p, w) && b < |p.benches| && w.next == b + 1 && w.s.main == WaitComplete
    && w.s.should == p.benches[b].n && |w.owner| == w.base + p.benches[b].n
    && forall x | w.base <= x < |w.owner| :: w.s.threads[x] == NEWBORN && w.owner[x] == b
  }

  lemma OpenAt(p: Module, w: World, b: nat) returns (w': World)
    requires OwnerInv(p, w) && !w.s.main.Spawning? && w.next <= b < |p.benches| && p.benches[b].fate.Starts?
    ensures Leads(p, w, w') && Opened(p, w', b) && |w.owner| <= w'.base && w'.s.threads[..|w.owner|] == w.s.threads
    ensures w'.s.ready == w.s.ready && w'.s.complete == w.s.complete
  {
    var m := Close(p, w);
    var m' := SkipTo(p, m, b);
    LeadsOn(p, w, m, m');
    w' := Open(p, m');
    LeadsOn(p, w, m', w');
    GrownOn(m, m', w');
  }

  lemma FirstOpen(p: Module, b: nat) returns (w: World)
    requires b < |p.benches| && p.benches[b].fate.Starts?
    ensures Reached(p, w) && Opened(p, w, b) && w.s.ready == w.s.complete == 0
  {
    var w0 := Loaded(0);
    assert p.benches[..0] == [];
    LeadsSelf(p, w0);
    w := OpenAt(p, w0, b);
  }

  /** `k` threads of the current benchmark come to the spin loop, and the first `done` of them to the end. */
  lemma RunSome(p: Module, w: World, b: nat, k: nat, done: nat) returns (w': World)
    requires Opened(p, w, b) && done <= k <= p.benches[b].n && (0 < done ==> w.s.ready + k == w.s.should)
    ensures Leads(p, w, w') && OwnerInv(p, w') && w' == w.(s := w'.s) && |w'.s.threads| == |w.s.threads|
    ensures w'.s.main == w.s.main && w'.s.should == w.s.should
    ensures w'.s.ready == w.s.ready + k && w'.s.complete == w.s.complete + done
    ensures forall x | w.base + done <= x < w.base + k :: w'.s.threads[x].pc.SpinReady?
    ensures forall x | w.base + k <= x < |w.owner| :: w'.s.threads[x] == NEWBORN
  {
    var m := SpinMany(p, w, w.base, w.base + k);
    w' := EndMany(p, m, w.base, w.base + done);
    LeadsOn(p, w, m, w');
  }

  /** complete_run == should_run is seen. */
  lemma SeeMet(p: Module, w: World) returns (w': World)
    requires OwnerInv(p, w) && w.s.main == WaitComplete && w.s.complete == w.s.should
    ensures Leads(p, w, w') && OwnerInv(p, w') && WaitMet(w'.s) && w' == w.(s := w.s.(main := w'.s.main))
  {
    LeadsSelf(p, w);
    w' := MainStep(p, w, w, WaitRead);
    w' := MainStep(p, w, w', WaitTest);
  }

  /**
   The first of two benchmarks leaves as many completions as the second one's wait needs, or needs
   besides threads of its own; the last thread of the second has not run when the wait is over.
   */
  lemma TwoStartersMet(p: Module, i: nat, j: nat) returns (w: World, x: nat)
    requires i < j < |p.benches| && Starter(p.benches[i]) && Starter(p.benches[j])
    ensures Reached(p, w) && OwnerInv(p, w) && WaitMet(w.s)
    ensures x < |w.owner| && w.owner[x] == j == w.next - 1 && w.s.threads[x] == NEWBORN
  {
    var n, n' := p.benches[i].n, p.benches[j].n;
    var c := if n < n' then n else n';
    var w0 := FirstOpen(p, i);
    var w1 := RunSome(p, w0, i, n, c);
    ReachedOn(p, w0, w1);
    var w2 := OpenAt(p, w1, j);
    ReachedOn(p, w1, w2);
    var w3 := RunSome(p, w2, j, n' - c, n' - c);
    ReachedOn(p, w2, w3);
    w := SeeMet(p, w3);
    ReachedOn(p, w3, w);
    x := |w.owner| - 1;
  }

  lemma TwoStartersLose(p: Module, i: nat, j: nat)
    requires i < j < |p.benches| && Starter(p.benches[i]) && Starter(p.benches[j])
    ensures !HandsBack(p)
  {
    var w, x := TwoStartersMet(p, i, j);
    LeadsSelf(p, w);
    assert w.s.threads == w.s.threads[x := w.s.threads[x]];
    var w' := Tick(p, w, w, x);
    assert !Quiet(w, w', x);
  }

  /**
   In every run of the module the wait condition, once seen, means that the benchmark's memory is its
   own again for good, exactly if at most one benchmark starts threads.
   */
  lemma ModuleHandBackIff(p: Module)
    ensures HandsBack(p) <==> Count(p.benches, Starter) <= 1
  {
    if Count(p.benches, Starter) <= 1 {
      forall w: World, w': World, i: nat | Reached(p, w) && WaitMet(w.s) && Leads(p, w, w') && i < |w'.s.threads|
        ensures Quiet(w, w', i)
      {
        OneStarterHandsBack(p, w, w');
      }
    } else {
      var i, j := TwoCounted(p.benches, Starter);
      TwoStartersLose(p, i, j);
    }
  }

  // ---------------------------------------------------------------- should_run overwritten under a live thread

  /** A thread that has read n for the last time finds another should_run. */
  lemma OverwrittenBug(p: Module, i: nat, j: nat)
    requires i < j < |p.benches| && Starter(p.benches[i]) && Stores(p.benches[j])
    requires p.benches[j].n != p.benches[i].n
    ensures !BarrierKept(p)
  {
    var w0 := FirstOpen(p, i);
    var x := w0.base;
    var w1 := RunSome(p, w0, i, p.benches[i].n, 0);
    ReachedOn(p, w0, w1);
    var w2 := ToVerdict(p, w1, x);
    ReachedOn(p, w1, w2);
    var w3 := Close(p, w2);
    ReachedOn(p, w2, w3);
    var w4 := SkipTo(p, w3, j);
    ReachedOn(p, w3, w4);
    var w5 := Skip(p, w4);
    ReachedOn(p, w4, w5);
    GrownOn(w3, w4, w5);
    assert w5.s.threads[x] == w5.s.threads[..|w3.owner|][x];
    var w6 := ToBug(p, w5, x);
    ReachedOn(p, w5, w6);
    assert !BenchesOk(w6);
  }

  /** A second benchmark of the same size: its first thread reads one arrival too many. */
  lemma SameSizeBug(p: Module, i: nat, j: nat)
    requires i < j < |p.benches| && Starter(p.benches[i]) && Starter(p.benches[j])
    requires p.benches[j].n == p.benches[i].n
    ensures !BarrierKept(p)
  {
    var w0 := FirstOpen(p, i);
    var w1 := RunSome(p, w0, i, p.benches[i].n, 0);
    ReachedOn(p, w0, w1);
    var w2 := OpenAt(p, w1, j);
    ReachedOn(p, w1, w2);
    var w3 := RunSome(p, w2, j, 1, 0);
    ReachedOn(p, w2, w3);
    var w4 := ToVerdict(p, w3, w2.base);
    ReachedOn(p, w3, w4);
    var w5 := ToBug(p, w4, w2.base);
    ReachedOn(p, w4, w5);
    assert !BenchesOk(w5);
  }

  /**
   In every run of the module the barrier of every benchmark holds exactly if no benchmark that
   stores should_run comes after one that starts threads, other than one that starts none and stores
   the same number.
   */
  lemma ModuleBarrierIff(p: Module)
    ensures BarrierKept(p) <==> Undisturbed(p)
  {
    if Undisturbed(p) {
      UndisturbedKept(p);
    } else {
      var i, j :| 0 <= i < j < |p.benches| && Starter(p.benches[i]) && Stores(p.benches[j])
                  && !(!Starter(p.benches[j]) && p.benches[j].n == p.benches[i].n);
      if p.benches[j].n != p.benches[i].n {
        OverwrittenBug(p, i, j);
      } else {
        SameSizeBug(p, i, j);
      }
    }
  }

  // ---------------------------------------------------------------- beginning with n arrivals or more

  ghost predicate LateInv(w: World, b: nat, n: nat) {
    && |w.owner| == |w.s.threads|
    && (w.next <= b + 1 ==> n <= w.s.ready)
    && (w.next <= b ==> forall x | 0 <= x < |w.owner| :: w.owner[x] < b)
    && (w.next == b + 1 ==>
          && w.s.should == n
          && forall x | 0 <= x < |w.owner| && w.owner[x] == b ::
               BugPC(w.s.threads[x].pc, n) && (Arrived(w.s.threads[x]) ==> n < w.s.ready))
  }

  lemma LateStep(p: Module, w: World, st: Step, b: nat)
    requires OwnerInv(p, w) && b < |p.benches| && p.benches[b].fate.Starts? && CanDo(p, w, st)
    requires LateInv(w, b, p.benches[b].n)
    ensures LateInv(After(p, w, st), b, p.benches[b].n)
  {
    var n, w' := p.benches[b].n, After(p, w, st);
    OwnerStep(p, w, st);
    match st
    case Do(a) =>
      DoFrame(p, w, a);
      if a.Run? && w.next == b + 1 && w.owner[a.i] == b {
        BugLocal(ConfigOf(p, w, b).(n := n), w.s.threads[a.i], w.s.ready, a.now, a.fail, a.delay);
        SameLocal(ConfigOf(p, w, b), n, w.s.threads[a.i], w.s.ready, w.s.should, a.now, a.fail, a.delay);
      }
    case Next =>
      forall x | 0 <= x < |w'.owner| && w'.owner[x] == b && w'.next == b + 1
        ensures BugPC(w'.s.threads[x].pc, n) && (Arrived(w'.s.threads[x]) ==> n < w'.s.ready)
      {
        assert |w.owner| <= x;
      }
  }

  /** How many threads a configuration has makes no difference to a thread's step. */
  lemma SameLocal(cfg: Config, n: nat, th: Thread, ready: int, should: int, now: nat, fail: bool, delay: nat)
    requires Runnable(th.pc)
    ensures LocalStep(cfg, th, ready, should, now, fail, delay)
         == LocalStep(cfg.(n := n), th, ready, should, now, fail, delay)
  {
  }

  lemma {:induction false} LateTrace(p: Module, w: World, steps: seq<Step>, w': World, b: nat)
    requires OwnerInv(p, w) && b < |p.benches| && p.benches[b].fate.Starts? && Trace(p, w, steps, w')
    requires LateInv(w, b, p.benches[b].n)
    ensures OwnerInv(p, w') && LateInv(w', b, p.benches[b].n)
    decreases |steps|
  {
    if steps != [] {
      OwnerStep(p, w, steps[0]);
      LateStep(p, w, steps[0], b);
      LateTrace(p, After(p, w, steps[0]), steps[1..], w', b);
    }
  }

  /**
   A benchmark of n threads that begins when n or more have arrived, whatever threads of earlier ones
   still run: as long as it is current none of its threads is released, and those that have stopped
   stopped at BUG.
   */
  lemma LateBenchAllBug(p: Module, w: World, w': World, b: nat)
    requires Reached(p, w) && b < |p.benches| && p.benches[b].fate.Starts? && w.next == b
    requires p.benches[b].n <= w.s.ready && Leads(p, w, w') && w'.next == b + 1
    ensures |w'.owner| == |w'.s.threads|
    ensures forall x | 0 <= x < |w'.owner| && w'.owner[x] == b ::
              && !Released(w'.s.threads[x])
              && (!Runnable(w'.s.threads[x].pc) ==>
                    w'.s.threads[x].pc.Bug? || w'.s.threads[x].pc.NeverCreated? || w'.s.threads[x].pc.Unborn?)
  {
    InvReached(p, w);
    var steps: seq<Step> :| Trace(p, w, steps, w');
    LateTrace(p, w, steps, w', b);
    forall x | 0 <= x < |w'.owner| && w'.owner[x] == b
      ensures !Released(w'.s.threads[x])
      ensures !Runnable(w'.s.threads[x].pc) ==>
                w'.s.threads[x].pc.Bug? || w'.s.threads[x].pc.NeverCreated? || w'.s.threads[x].pc.Unborn?
    {
      assert BugPC(w'.s.threads[x].pc, p.benches[b].n);
    }
  }
}
