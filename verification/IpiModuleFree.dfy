/**
 When main may free a benchmark's memory, over all benchmarks still to come; what a benchmark that
 begins with too many arrivals does; and what it all means for the module's options.
 */
module IpiModuleFree {
  import opened Sums
  import opened IpiBarrier
  import opened IpiProgress
  import opened IpiPhases
  import opened IpiModule
  import opened IpiModuleRuns

  /** No thread of benchmark k touches its bench_args in any later state, over all later benchmarks. */
  ghost predicate FreeForGood(p: Module, w: World, k: nat) {
    forall w': World, x: nat | Leads(p, w, w') && x < |w'.s.threads| :: Untouched(w', x, k)
  }

  predicate Untouched(w: World, x: nat, k: nat)
    requires x < |w.s.threads|
  {
    x < |w.owner| && w.owner[x] == k ==> !Touches(w.s.threads[x].pc)
  }

  /** Benchmark k, the first that starts threads, has tried to create them all and is still current. */
  ghost predicate Current(p: Module, w: World, k: nat) {
    && Reached(p, w) && k < |p.benches| && w.next == k + 1 && p.benches[k].fate.Starts?
    && NoneBefore(p, k) && !w.s.main.Spawning?
  }

  lemma CurrentMeans(p: Module, w: World, k: nat)
    requires Current(p, w, k)
    ensures Inv(p, w) && w.base == 0 && Reachable(BenchConfig(p, k), 0, 0, w.s)
    ensures |w.owner| == p.benches[k].n == w.s.should && forall x | 0 <= x < |w.owner| :: w.owner[x] == k
  {
    InvReached(p, w);
    FirstReached(p, k, w);
    NoThreadsBefore(p, k);
    assert p.benches[..k + 1][..k] == p.benches[..k];
    BarrierReachable(BenchConfig(p, k), w.s);
  }

  /** What the benchmark can do on its own it can do as part of the module. */
  lemma {:induction false} Lift(p: Module, w: World, k: nat, acts: seq<Action>, s': State)
    requires OwnerInv(p, w) && k < |p.benches| && w.next == k + 1 && w.base == 0 && |w.s.threads| == p.benches[k].n
    requires Path(BenchConfig(p, k), w.s, acts, s')
    ensures Leads(p, w, w.(s := s'))
    decreases |acts|
  {
    if acts == [] {
      LeadsSelf(p, w);
    } else {
      var st := Do(acts[0]);
      assert CanDo(p, w, st);
      DoIsApply(p, w, acts[0]);
      OwnerStep(p, w, st);
      DoFrame(p, w, acts[0]);
      OneStep(p, w, st);
      Lift(p, After(p, w, st), k, acts[1..], s');
      LeadsOn(p, w, After(p, w, st), w.(s := s'));
    }
  }

  lemma FreeIfCreated(p: Module, w: World, k: nat)
    requires Current(p, w, k) && Created(w.s)
    ensures FreeForGood(p, w, k) <==> forall x | 0 <= x < |w.s.threads| :: PastLastAccess(w.s.threads[x].pc)
  {
    CurrentMeans(p, w, k);
    if forall x | 0 <= x < |w.s.threads| :: PastLastAccess(w.s.threads[x].pc) {
      forall w': World, x: nat | Leads(p, w, w') && x < |w'.s.threads| ensures Untouched(w', x, k) {
        var steps: seq<Step> :| Trace(p, w, steps, w');
        PastOfStays(p, w, steps, w', k);
      }
    } else {
      var j :| 0 <= j < |w.s.threads| && !PastLastAccess(w.s.threads[j].pc);
      var acts, s' := WillTouch(BenchConfig(p, k), w.s, j);
      Lift(p, w, k, acts, s');
      assert !Untouched(w.(s := s'), j, k);
    }
  }

  lemma ForkingUnsafe(p: Module, w: World, k: nat, j: nat)
    requires Current(p, w, k) && j < |w.s.threads| && Forking(w.s.threads[j].pc)
    ensures !FreeForGood(p, w, k)
  {
    CurrentMeans(p, w, k);
    var acts, s' := ForkTouches(BenchConfig(p, k), w.s, j);
    Lift(p, w, k, acts, s');
    assert !Untouched(w.(s := s'), j, k);
  }

  // ---------------------------------------------------------------- behind a failed creation

  predicate NotThere(th: Thread) { th.pc.NeverCreated? }

  /** How many threads the benchmarks after k start, up to and including the l-th. */
  function Later(p: Module, k: nat, l: nat): nat
    requires k <= l < |p.benches|
  {
    Sum(p.benches[k + 1..l + 1], NewThreads())
  }

  function AtLeastOne(n: int): int { if n < 1 then 1 else n }

  /**
   Some later benchmark stores a should_run that ready_to_run can come to equal: not less than the
   arrivals there are, or than the thread's own, and not more than all threads there can be.
   */
  predicate Opens(p: Module, k: nat, created: nat, ready: int)
    requires k < |p.benches|
  {
    && 0 < created
    && exists l | k < l < |p.benches| ::
         Stores(p.benches[l]) && AtLeastOne(ready) <= p.benches[l].n <= created + Later(p, k, l)
  }

  lemma ThreadsNow(p: Module, k: nat, l: nat)
    requires k <= l < |p.benches| && NoneBefore(p, k)
    ensures Sum(p.benches[..l + 1], NewThreads()) == NewThreads()(p.benches[k]) + Later(p, k, l)
  {
    NoThreadsBefore(p, k);
    assert p.benches[..l + 1] == p.benches[..k + 1] + p.benches[k + 1..l + 1];
    SumConcat(p.benches[..k + 1], p.benches[k + 1..l + 1], NewThreads());
    assert p.benches[..k + 1][..k] == p.benches[..k];
  }

  predicate Held(pc: PC, low: int, ready: int) {
    || pc.NeverCreated? || pc.Arrive? || pc.SpinReady? || pc.SpinShould? || pc.CheckReady? || pc.Bug?
    || (pc.CheckShould? && low <= pc.r <= ready)
  }

  /** should_run lies below every number its threads can still read, or above. */
  ghost predicate ShutInv(p: Module, k: nat, a: nat, low: int, w: World)
    requires k < |p.benches|
  {
    && Inv(p, w) && k < w.next && 1 <= low <= AtLeastOne(w.s.ready)
    && p.benches[k].n - a <= Count(w.s.threads, NotThere)
    && !(low <= w.s.should <= |w.s.threads| - p.benches[k].n + a)
    && forall x | 0 <= x < |w.owner| && w.owner[x] == k :: Held(w.s.threads[x].pc, low, w.s.ready)
  }

  lemma ReadyBound(w: World)
    requires CountInv(w)
    ensures w.s.ready <= |w.s.threads| - Count(w.s.threads, NotThere)
  {
    CountDisjoint(w.s.threads, Arrived, NotThere);
  }

  lemma HeldStep(cfg: Config, th: Thread, ready: int, should: int, low: int, now: nat, fail: bool, delay: nat)
    requires Runnable(th.pc) && Held(th.pc, low, ready) && !(low <= should <= ready)
    requires th.pc.CheckReady? ==> low <= ready
    ensures Held(LocalStep(cfg, th, ready, should, now, fail, delay).pc, low,
                 ready + if th.pc.Arrive? then 1 else 0)
  {
  }

  lemma ShutDo(p: Module, k: nat, a: nat, low: int, w: World, act: Action)
    requires k < |p.benches| && ShutInv(p, k, a, low, w) && CanDo(p, w, Do(act))
    ensures ShutInv(p, k, a, low, After(p, w, Do(act)))
  {
    var w' := After(p, w, Do(act));
    InvStep(p, w, Do(act));
    DoFrame(p, w, act);
    ReadyBound(w);
    CountExtremes(w.s.threads, Arrived);
    if act.Run? || act.Spawn? {
      var i := if act.Spawn? then w.s.main.k else act.i;
      CountUpdate(w.s.threads, i, w'.s.threads[i], NotThere);
    }
    forall x | 0 <= x < |w'.owner| && w'.owner[x] == k ensures Held(w'.s.threads[x].pc, low, w'.s.ready) {
      if act.Run? && act.i == x {
        HeldStep(ConfigOf(p, w, k), w.s.threads[x], w.s.ready, w.s.should, low, act.now, act.fail, act.delay);
      }
    }
  }

  lemma ShutNext(p: Module, k: nat, a: nat, low: int, r0: int, w: World)
    requires k < |p.benches| && ShutInv(p, k, a, low, w) && CanDo(p, w, Next) && NoneBefore(p, k)
    requires p.benches[k].fate.Starts? && low == AtLeastOne(r0) && 0 < a && !Opens(p, k, a, r0)
    ensures ShutInv(p, k, a, low, After(p, w, Next))
  {
    var w', l := After(p, w, Next), w.next;
    InvStep(p, w, Next);
    ThreadsNow(p, k, l);
    var more := Unborns(NewThreads()(p.benches[l]));
    SumConcat(w.s.threads, more, Indicator(NotThere));
    assert !(Stores(p.benches[l]) && AtLeastOne(r0) <= p.benches[l].n <= a + Later(p, k, l));
    forall x | 0 <= x < |w'.owner| && w'.owner[x] == k ensures Held(w'.s.threads[x].pc, low, w'.s.ready) {
      assert x < |w.owner|;
    }
  }

  lemma {:induction false} ShutTrace(p: Module, k: nat, a: nat, low: int, r0: int, w: World, steps: seq<Step>,
                                     w': World)
    requires k < |p.benches| && ShutInv(p, k, a, low, w) && Trace(p, w, steps, w') && NoneBefore(p, k)
    requires p.benches[k].fate.Starts? && low == AtLeastOne(r0) && 0 < a && !Opens(p, k, a, r0)
    ensures ShutInv(p, k, a, low, w')
    decreases |steps|
  {
    if steps != [] {
      match steps[0]
      case Do(act) => ShutDo(p, k, a, low, w, act);
      case Next => ShutNext(p, k, a, low, r0, w);
    }
    if steps != [] {
      ShutTrace(p, k, a, low, r0, After(p, w, steps[0]), steps[1..], w');
    }
  }

  /** At the barrier behind a failed creation: nobody released, nobody in the re-check. */
  lemma Blocked(p: Module, w: World, k: nat)
    requires Current(p, w, k) && !Created(w.s) && forall x | 0 <= x < |w.s.threads| :: !Forking(w.s.threads[x].pc)
    ensures Count(w.s.threads, Exists) + Count(w.s.threads, NotThere) == |w.s.threads|
    ensures Count(w.s.threads, Exists) < |w.s.threads| && 0 <= w.s.ready <= Count(w.s.threads, Exists)
    ensures forall x | 0 <= x < |w.s.threads| ::
              var pc := w.s.threads[x].pc;
              pc.NeverCreated? || pc.Arrive? || pc.SpinReady? || (pc.SpinShould? && pc.r <= w.s.ready)
  {
    CurrentMeans(p, w, k);
    var cfg := BenchConfig(p, k);
    BarrierReachable(cfg, w.s);
    var j :| 0 <= j < |w.s.threads| && w.s.threads[j].pc.NeverCreated?;
    FailedCreationBlocks(cfg, w.s, j);
    CountDisjoint(w.s.threads, Exists, NotThere);
    CountMonotone(w.s.threads, Arrived, Exists);
    CountExtremes(w.s.threads, NotThere);
    CountExtremes(w.s.threads, Arrived);
    forall x | 0 <= x < |w.s.threads|
      ensures var pc := w.s.threads[x].pc;
              pc.NeverCreated? || pc.Arrive? || pc.SpinReady? || (pc.SpinShould? && pc.r <= w.s.ready)
    {
      assert BarrierPC(w.s.threads[x].pc, cfg.n, w.s.ready) && !Released(w.s.threads[x]);
    }
  }

  lemma {:induction false} NotThereStays(p: Module, w: World, steps: seq<Step>, w': World, k: nat)
    requires OwnerInv(p, w) && k < w.next && Trace(p, w, steps, w')
    requires forall x | 0 <= x < |w.owner| && w.owner[x] == k :: NotThere(w.s.threads[x])
    ensures |w'.owner| == |w'.s.threads|
    ensures forall x | 0 <= x < |w'.owner| && w'.owner[x] == k :: NotThere(w'.s.threads[x])
    decreases |steps|
  {
    if steps != [] {
      OwnerStep(p, w, steps[0]);
      if steps[0].Do? {
        DoFrame(p, w, steps[0].a);
      }
      NotThereStays(p, After(p, w, steps[0]), steps[1..], w', k);
    }
  }

  lemma ShutFree(p: Module, w: World, k: nat)
    requires Current(p, w, k) && !Created(w.s) && forall x | 0 <= x < |w.s.threads| :: !Forking(w.s.threads[x].pc)
    requires !Opens(p, k, Count(w.s.threads, Exists), w.s.ready)
    ensures FreeForGood(p, w, k)
  {
    CurrentMeans(p, w, k);
    Blocked(p, w, k);
    var a, low := Count(w.s.threads, Exists), AtLeastOne(w.s.ready);
    forall w': World, x: nat | Leads(p, w, w') && x < |w'.s.threads| ensures Untouched(w', x, k) {
      var steps: seq<Step> :| Trace(p, w, steps, w');
      if a == 0 {
        CountExtremes(w.s.threads, NotThere);
        NotThereStays(p, w, steps, w', k);
      } else {
        assert ShutInv(p, k, a, low, w);
        ShutTrace(p, k, a, low, w.s.ready, w, steps, w');
      }
    }
  }

  // ---------------------------------------------------------------- a later store opens the barrier

  predicate Sorted(th: Thread) { Early(th.pc) || NotThere(th) || Arrived(th) }

  /** Arrivals one by one, thread t standing still, until ready_to_run is m. */
  lemma {:induction false} Raise(p: Module, w: World, t: nat, m: int) returns (w': World)
    requires Inv(p, w) && t < |w.owner| && Arrived(w.s.threads[t]) && w.s.ready <= m
    requires m <= |w.s.threads| - Count(w.s.threads, NotThere)
    requires forall x | 0 <= x < |w.owner| :: Sorted(w.s.threads[x])
    ensures Leads(p, w, w') && OwnerInv(p, w') && w'.s.ready == m && w'.owner == w.owner && w'.s.should == w.s.should
    ensures |w'.s.threads| == |w.s.threads| && w'.s.threads[t] == w.s.threads[t]
    decreases m - w.s.ready
  {
    if w.s.ready == m {
      w' := w;
      LeadsSelf(p, w);
    } else {
      CountDisjoint(w.s.threads, Arrived, NotThere);
      var x :| 0 <= x < |w.owner| && Early(w.s.threads[x].pc);
      var v := ToSpin(p, w, x);
      CountUpdate(w.s.threads, x, v.s.threads[x], NotThere);
      CountsKept(p, w, v);
      w' := Raise(p, v, t, m);
      LeadsOn(p, w, v, w');
    }
  }

  lemma CountsKept(p: Module, w: World, v: World)
    requires Inv(p, w) && Leads(p, w, v)
    ensures Inv(p, v)
  {
    var steps: seq<Step> :| Trace(p, w, steps, v);
    InvTrace(p, w, steps, v);
  }

  predicate AtSpin(pc: PC, m: int) { pc.SpinReady? || (pc.SpinShould? && pc.r <= m) }

  lemma LeaveSpin(p: Module, w: World, t: nat) returns (w': World)
    requires OwnerInv(p, w) && t < |w.owner| && AtSpin(w.s.threads[t].pc, w.s.should) && w.s.ready == w.s.should
    ensures Leads(p, w, w') && OwnerInv(p, w') && Only(w, w', t) && w'.s.threads[t].pc.CheckReady?
    ensures w'.s.ready == w.s.ready
  {
    LeadsSelf(p, w);
    assert w.s.threads == w.s.threads[t := w.s.threads[t]];
    w' := w;
    if w'.s.threads[t].pc.SpinShould? && w'.s.threads[t].pc.r < w.s.should {
      w' := Tick(p, w, w', t);
    }
    if w'.s.threads[t].pc.SpinReady? {
      w' := Tick(p, w, w', t);
    }
    w' := Tick(p, w, w', t);
  }

  /** ready_to_run == should_run while thread t spins: it is let through and stores its start time. */
  lemma LetThrough(p: Module, w: World, t: nat) returns (w': World)
    requires OwnerInv(p, w) && t < |w.owner| && AtSpin(w.s.threads[t].pc, w.s.should) && w.s.ready == w.s.should
    ensures Leads(p, w, w') && w'.owner == w.owner && t < |w'.s.threads| && w'.s.threads[t].pc.StartStore?
  {
    var v := LeaveSpin(p, w, t);
    var u := PassCheck(p, v, t);
    LeadsOn(p, w, v, u);
    LeadsSelf(p, u);
    assert u.s.threads == u.s.threads[t := u.s.threads[t]];
    w' := Tick(p, u, u, t);
    LeadsOn(p, w, u, w');
  }

  lemma PassCheck(p: Module, w: World, t: nat) returns (w': World)
    requires OwnerInv(p, w) && t < |w.owner| && w.s.threads[t].pc.CheckReady? && w.s.ready == w.s.should
    ensures Leads(p, w, w') && OwnerInv(p, w') && Only(w, w', t) && w'.s.threads[t].pc.StartClock?
  {
    LeadsSelf(p, w);
    assert w.s.threads == w.s.threads[t := w.s.threads[t]];
    w' := Tick(p, w, w, t);
    w' := Tick(p, w, w', t);
  }

  /** A spinning thread, or one about to. */
  lemma SomeThread(w: World) returns (t: nat)
    requires CountInv(w) && 0 < Count(w.s.threads, Exists)
    requires forall x | 0 <= x < |w.s.threads| ::
               var pc := w.s.threads[x].pc;
               pc.NeverCreated? || pc.Arrive? || pc.SpinReady? || (pc.SpinShould? && pc.r <= w.s.ready)
    ensures t < |w.s.threads|
    ensures if w.s.ready == 0 then w.s.threads[t].pc.Arrive? else AtSpin(w.s.threads[t].pc, w.s.ready)
  {
    CountExtremes(w.s.threads, Exists);
    CountExtremes(w.s.threads, Arrived);
    if w.s.ready == 0 {
      t :| t < |w.s.threads| && Exists(w.s.threads[t]);
    } else {
      t :| t < |w.s.threads| && Arrived(w.s.threads[t]);
    }
  }

  /** Thread t at least has arrived. */
  lemma FirstArrival(p: Module, w: World, t: nat) returns (w': World)
    requires Inv(p, w) && t < |w.owner| && forall x | 0 <= x < |w.owner| :: Sorted(w.s.threads[x])
    requires if w.s.ready == 0 then w.s.threads[t].pc.Arrive? else AtSpin(w.s.threads[t].pc, w.s.ready)
    ensures Leads(p, w, w') && Inv(p, w') && w'.owner == w.owner && w'.s.should == w.s.should
    ensures |w'.s.threads| == |w.s.threads| && w'.s.ready == AtLeastOne(w.s.ready)
    ensures AtSpin(w'.s.threads[t].pc, w'.s.ready) && forall x | 0 <= x < |w.owner| :: Sorted(w'.s.threads[x])
    ensures Count(w'.s.threads, NotThere) == Count(w.s.threads, NotThere)
  {
    CountExtremes(w.s.threads, Arrived);
    w' := w;
    LeadsSelf(p, w);
    if w.s.ready == 0 {
      w' := ToSpin(p, w, t);
      CountUpdate(w.s.threads, t, w'.s.threads[t], NotThere);
      CountsKept(p, w, w');
    }
  }

  /** Main goes on to the benchmark that stores the fitting number, and stores it. */
  lemma GoToStore(p: Module, w: World, k: nat, l: nat) returns (w': World)
    requires Current(p, w, k) && k < l < |p.benches| && Stores(p.benches[l])
    ensures Leads(p, w, w') && Inv(p, w') && w'.s.should == p.benches[l].n && w'.s.ready == w.s.ready
    ensures |w.owner| <= |w'.owner| && w'.s.threads[..|w.owner|] == w.s.threads && w'.owner[..|w.owner|] == w.owner
    ensures forall x | |w.owner| <= x < |w'.owner| :: w'.s.threads[x] == NEWBORN
    ensures |w'.owner| == p.benches[k].n + Later(p, k, l)
  {
    CurrentMeans(p, w, k);
    var w1 := Close(p, w);
    var w2 := SkipTo(p, w1, l);
    LeadsOn(p, w, w1, w2);
    w' := Skip(p, w2);
    LeadsOn(p, w, w2, w');
    GrownOn(w1, w2, w');
    CountsKept(p, w, w');
    ThreadsNow(p, k, l);
  }

  lemma SameNotThere(w: World, w': World)
    requires |w.s.threads| <= |w'.s.threads| && w'.s.threads[..|w.s.threads|] == w.s.threads
    requires forall x | |w.s.threads| <= x < |w'.s.threads| :: w'.s.threads[x] == NEWBORN
    ensures Count(w'.s.threads, NotThere) == Count(w.s.threads, NotThere)
  {
    var more := w'.s.threads[|w.s.threads|..];
    assert w'.s.threads == w.s.threads + more;
    SumConcat(w.s.threads, more, Indicator(NotThere));
    CountExtremes(more, NotThere);
  }

  lemma OpensUnsafe(p: Module, w: World, k: nat)
    requires Current(p, w, k) && !Created(w.s) && forall x | 0 <= x < |w.s.threads| :: !Forking(w.s.threads[x].pc)
    requires Opens(p, k, Count(w.s.threads, Exists), w.s.ready)
    ensures !FreeForGood(p, w, k)
  {
    CurrentMeans(p, w, k);
    Blocked(p, w, k);
    var a := Count(w.s.threads, Exists);
    var l :| k < l < |p.benches| && Stores(p.benches[l])
             && AtLeastOne(w.s.ready) <= p.benches[l].n <= a + Later(p, k, l);
    var t := SomeThread(w);
    var w1 := GoToStore(p, w, k, l);
    SameNotThere(w, w1);
    assert w1.s.threads[t] == w1.s.threads[..|w.owner|][t] && w1.owner[t] == w1.owner[..|w.owner|][t];
    forall x | 0 <= x < |w1.owner| ensures Sorted(w1.s.threads[x]) {
      if x < |w.owner| {
        assert w1.s.threads[x] == w1.s.threads[..|w.owner|][x];
      }
    }
    var w2 := FirstArrival(p, w1, t);
    LeadsOn(p, w, w1, w2);
    var w3 := Raise(p, w2, t, p.benches[l].n);
    LeadsOn(p, w, w2, w3);
    var w4 := LetThrough(p, w3, t);
    LeadsOn(p, w, w3, w4);
    assert !Untouched(w4, t, k);
  }

  /**
   When the memory of the first benchmark that starts threads may be freed, however its wait ended and
   whatever comes after it: when every thread has made its last access, or, if a creation failed, when
   every created thread has stored its forked time and no later benchmark can open the barrier. The
   wait condition implies it; a timeout does not.
   */
  lemma ModuleFreeIff(p: Module, w: World, k: nat)
    requires Current(p, w, k)
    ensures FreeForGood(p, w, k) <==>
              if Created(w.s) then forall x | 0 <= x < |w.s.threads| :: PastLastAccess(w.s.threads[x].pc)
              else (forall x | 0 <= x < |w.s.threads| :: !Forking(w.s.threads[x].pc))
                   && !Opens(p, k, Count(w.s.threads, Exists), w.s.ready)
    ensures w.s.complete == w.s.should ==> FreeForGood(p, w, k)
  {
    if Created(w.s) {
      FreeIfCreated(p, w, k);
    } else if x :| 0 <= x < |w.s.threads| && Forking(w.s.threads[x].pc) {
      ForkingUnsafe(p, w, k, x);
    } else if Opens(p, k, Count(w.s.threads, Exists), w.s.ready) {
      OpensUnsafe(p, w, k);
    } else {
      ShutFree(p, w, k);
    }
    CurrentMeans(p, w, k);
    CountExtremes(w.s.threads, Completed);
  }
}
