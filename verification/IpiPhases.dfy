/**
 One benchmark that starts with arrivals and completions left over. ready_to_run and complete_run are
 never set back to 0 between benchmarks; here all threads of the earlier ones have returned. IpiModule
 lets them run on.
 */
module IpiPhases {
  import opened Sums
  import opened IpiBarrier
  import opened IpiProgress

  /** The barrier does its job in every run of the phase. */
  ghost predicate BarrierHolds(cfg: Config, r0: int, c0: int) {
    forall s: State :: Reachable(cfg, r0, c0, s) ==> BarrierOk(s)
  }

  // ---------------------------------------------------------------- starting at r0 >= n

  predicate BugPC(pc: PC, n: nat) {
    match pc
    case SpinShould(r) => n < r
    case CheckShould(r) => n < r
    case _ => !Released(Thread(pc, ZERO_ARGS))
  }

  ghost predicate BugThreads(cfg: Config, s: State) {
    forall i | 0 <= i < |s.threads| :: BugPC(s.threads[i].pc, cfg.n)
  }

  ghost predicate BugMain(cfg: Config, c0: int, s: State) {
    && (s.main.WaitShould? ==> s.main.c == c0)
    && (WaitMet(s) ==> c0 == cfg.n)
    && (s.main.Reporting? ==> s.main.part.start == s.main.part.finish == 0)
    && (forall j | 0 <= j < |s.reports| :: s.reports[j].start == s.reports[j].finish == 0)
  }

  ghost predicate BugInv(cfg: Config, r0: int, c0: int, s: State) {
    CounterInv(cfg, r0, c0, s) && TimesInv(s) && WorkInv(s) && BugThreads(cfg, s) && BugMain(cfg, c0, s)
  }

  lemma BugCounts(cfg: Config, r0: int, c0: int, s: State)
    requires CounterInv(cfg, r0, c0, s) && BugThreads(cfg, s) && cfg.n <= r0
    ensures s.complete == c0
    ensures forall i | 0 <= i < |s.threads| :: Arrived(s.threads[i]) ==> cfg.n < s.ready
  {
    CountExtremes(s.threads, Arrived);
    CountExtremes(s.threads, Completed);
  }

  lemma BugLocal(cfg: Config, th: Thread, ready: int, now: nat, fail: bool, delay: nat)
    requires Runnable(th.pc) && BugPC(th.pc, cfg.n) && (Arrived(th) ==> cfg.n < ready)
    ensures BugPC(LocalStep(cfg, th, ready, cfg.n, now, fail, delay).pc, cfg.n)
  {
  }

  lemma BugThreadsStep(cfg: Config, r0: int, c0: int, s: State, a: Action)
    requires CounterInv(cfg, r0, c0, s) && BugThreads(cfg, s) && Enabled(cfg, s, a) && cfg.n <= r0
    ensures BugThreads(cfg, Apply(cfg, s, a))
  {
    BugCounts(cfg, r0, c0, s);
    if a.Run? {
      BugLocal(cfg, s.threads[a.i], s.ready, a.now, a.fail, a.delay);
    }
  }

  lemma BugMainStep(cfg: Config, r0: int, c0: int, s: State, a: Action)
    requires CounterInv(cfg, r0, c0, s) && TimesInv(s) && BugThreads(cfg, s) && cfg.n <= r0
    requires BugMain(cfg, c0, s) && Enabled(cfg, s, a)
    ensures BugMain(cfg, c0, Apply(cfg, s, a))
  {
    BugCounts(cfg, r0, c0, s);
    if a.Report? {
      var th := s.threads[s.main.k];
      assert BugPC(th.pc, cfg.n) && TimeInv(th, s.clock);
    }
  }

  lemma BugStep(cfg: Config, r0: int, c0: int, s: State, a: Action)
    requires BugInv(cfg, r0, c0, s) && Enabled(cfg, s, a) && cfg.n <= r0
    ensures BugInv(cfg, r0, c0, Apply(cfg, s, a))
  {
    CounterStep(cfg, r0, c0, s, a);
    TimesStep(cfg, r0, c0, s, a);
    BugThreadsStep(cfg, r0, c0, s, a);
    BugMainStep(cfg, r0, c0, s, a);
    WorkPath(cfg, s, [a], Apply(cfg, s, a));
  }

  lemma {:induction false} BugPath(cfg: Config, r0: int, c0: int, s: State, acts: seq<Action>, s': State)
    requires BugInv(cfg, r0, c0, s) && Path(cfg, s, acts, s') && cfg.n <= r0
    ensures BugInv(cfg, r0, c0, s')
    decreases |acts|
  {
    if acts != [] {
      BugStep(cfg, r0, c0, s, acts[0]);
      BugPath(cfg, r0, c0, Apply(cfg, s, acts[0]), acts[1..], s');
    }
  }

  lemma BugReachable(cfg: Config, r0: int, c0: int, s: State)
    requires Reachable(cfg, r0, c0, s) && cfg.n <= r0
    ensures BugInv(cfg, r0, c0, s)
  {
    var clock: nat, acts: seq<Action> :| Path(cfg, Init(cfg, r0, c0, clock), acts, s);
    InitPhase(cfg, r0, c0, clock);
    BugPath(cfg, r0, c0, Init(cfg, r0, c0, clock), acts, s);
  }

  /**
   A phase of n threads that starts at r0 >= n: nobody is ever released, complete_run never moves,
   a thread that has stopped stopped at BUG, reports show start = finish = 0, and the wait
   condition holds, from the first moment on, exactly if earlier phases left complete_run == n.
   */
  lemma LatePhaseAllBug(cfg: Config, r0: int, c0: int, s: State)
    requires Reachable(cfg, r0, c0, s) && cfg.n <= r0
    ensures forall j | 0 <= j < |s.threads| ::
              && !Released(s.threads[j])
              && (!Runnable(s.threads[j].pc) ==>
                    s.threads[j].pc.Bug? || s.threads[j].pc.NeverCreated? || s.threads[j].pc.Unborn?)
    ensures s.complete == c0 && (s.complete == s.should <==> c0 == cfg.n)
    ensures WaitMet(s) ==> c0 == cfg.n
    ensures forall j | 0 <= j < |s.reports| :: s.reports[j].start == s.reports[j].finish == 0
  {
    BugReachable(cfg, r0, c0, s);
    BugCounts(cfg, r0, c0, s);
    assert forall j | 0 <= j < |s.threads| :: BugPC(s.threads[j].pc, cfg.n);
  }

  /** ... and every thread gets there: no step of such a phase is a turn of the spin loop. */
  lemma LatePhaseTerminates(cfg: Config, r0: int, c0: int, s: State, a: Action)
    requires Reachable(cfg, r0, c0, s) && cfg.n <= r0 && a.Run? && Enabled(cfg, s, a)
    ensures Measure(cfg, Apply(cfg, s, a)) < Measure(cfg, s)
  {
    BugReachable(cfg, r0, c0, s);
    BugCounts(cfg, r0, c0, s);
    assert BugPC(s.threads[a.i].pc, cfg.n);
    StepDecreases(cfg, r0, c0, s, a);
  }

  // ---------------------------------------------------------------- starting at 0 < r0

  /** The first k threads spin, the others have not been created, and no time has passed. */
  function FirstSpinning(cfg: Config, r0: int, c0: int, k: nat): State
    requires k <= cfg.n
  {
    State(r0 + k, cfg.n, c0, 0,
          seq(cfg.n, i => Thread(if i < k then SpinReady else Unborn, ZERO_ARGS)),
          if k < cfg.n then Spawning(k) else WaitComplete, [])
  }

  lemma SpinOneMore(cfg: Config, r0: int, c0: int, k: nat)
    requires k < cfg.n && Reachable(cfg, r0, c0, FirstSpinning(cfg, r0, c0, k))
    ensures Reachable(cfg, r0, c0, FirstSpinning(cfg, r0, c0, k + 1))
  {
    var s := FirstSpinning(cfg, r0, c0, k);
    var step := Run(k, 0, false, 0);
    ReachableExtend(cfg, r0, c0, s, Spawn(true));
    var s1 := Apply(cfg, s, Spawn(true));
    for n := 0 to 3
      invariant Reachable(cfg, r0, c0, s1) && |s1.threads| == cfg.n
      invariant s1 == FirstSpinning(cfg, r0, c0, k + 1).(
                        ready := r0 + k + (if n < 3 then 0 else 1),
                        threads := s.threads[k := Thread(if n == 0 then ForkClock else if n == 1 then ForkStore(0)
                                                         else if n == 2 then Arrive else SpinReady, ZERO_ARGS)])
    {
      ReachableExtend(cfg, r0, c0, s1, step);
      s1 := Apply(cfg, s1, step);
    }
    assert s1.threads == FirstSpinning(cfg, r0, c0, k + 1).threads;
  }

  lemma {:induction false} SpinReachable(cfg: Config, r0: int, c0: int, k: nat)
    requires k <= cfg.n
    ensures Reachable(cfg, r0, c0, FirstSpinning(cfg, r0, c0, k))
  {
    if k == 0 {
      var s := Init(cfg, r0, c0, 0);
      assert Path(cfg, s, [], s);
      assert s.threads == FirstSpinning(cfg, r0, c0, 0).threads;
    } else {
      SpinReachable(cfg, r0, c0, k - 1);
      SpinOneMore(cfg, r0, c0, k - 1);
    }
  }

  /** Thread 0, spinning, reads the counter twice and gets its verdict. */
  lemma FirstVerdict(cfg: Config, r0: int, c0: int, k: nat) returns (s: State)
    requires 1 <= k <= cfg.n <= r0 + k
    ensures Reachable(cfg, r0, c0, s)
    ensures s.threads == FirstSpinning(cfg, r0, c0, k).threads[
                           0 := Thread(if r0 + k == cfg.n then StartClock else Bug, ZERO_ARGS)]
  {
    SpinReachable(cfg, r0, c0, k);
    s := FirstSpinning(cfg, r0, c0, k);
    var step := Run(0, 0, false, 0);
    ReachableExtend(cfg, r0, c0, s, step);
    s := Apply(cfg, s, step);
    ReachableExtend(cfg, r0, c0, s, step);
    s := Apply(cfg, s, step);
    ReachableExtend(cfg, r0, c0, s, step);
    s := Apply(cfg, s, step);
    ReachableExtend(cfg, r0, c0, s, step);
    s := Apply(cfg, s, step);
  }

  /** 0 < r0 < n permits a run in which a thread starts while another does not even exist yet. */
  lemma EarlyStart(cfg: Config, r0: int, c0: int) returns (s: State)
    requires 0 < r0 < cfg.n
    ensures Reachable(cfg, r0, c0, s) && |s.threads| == cfg.n
    ensures Released(s.threads[0]) && s.threads[cfg.n - 1].pc.Unborn?
  {
    s := FirstVerdict(cfg, r0, c0, cfg.n - r0);
  }

  /** Past the barrier, or certain to get there: the re-check has read exactly n. */
  function Through(n: nat): Thread -> bool {
    (th: Thread) => Released(th) || (th.pc.CheckShould? && th.pc.r == n)
  }

  ghost predicate ThroughInv(cfg: Config, r0: int, s: State) {
    Count(s.threads, Through(cfg.n)) <= cfg.n - r0
  }

  /** Whoever reads n does so while only n - r0 threads have arrived, and those let through are among them. */
  lemma ThroughStep(cfg: Config, r0: int, c0: int, s: State, a: Action)
    requires CounterInv(cfg, r0, c0, s) && ThroughInv(cfg, r0, s) && Enabled(cfg, s, a)
    ensures ThroughInv(cfg, r0, Apply(cfg, s, a))
  {
    var s' := Apply(cfg, s, a);
    if a.Run? && s.threads[a.i].pc.CheckReady? && s.ready == cfg.n {
      CounterStep(cfg, r0, c0, s, a);
      CountMonotone(s'.threads, Through(cfg.n), Arrived);
    } else if a.Run? || a.Spawn? {
      var k := if a.Spawn? then s.main.k else a.i;
      assert s'.threads == s.threads[k := s'.threads[k]];
      CountUpdate(s.threads, k, s'.threads[k], Through(cfg.n));
    }
  }

  lemma {:induction false} ThroughPath(cfg: Config, r0: int, c0: int, s: State, acts: seq<Action>, s': State)
    requires CounterInv(cfg, r0, c0, s) && ThroughInv(cfg, r0, s) && Path(cfg, s, acts, s')
    ensures ThroughInv(cfg, r0, s')
    decreases |acts|
  {
    if acts != [] {
      CounterStep(cfg, r0, c0, s, acts[0]);
      ThroughStep(cfg, r0, c0, s, acts[0]);
      ThroughPath(cfg, r0, c0, Apply(cfg, s, acts[0]), acts[1..], s');
    }
  }

  /**
   In every run of a phase that starts at r0 <= n, at most n - r0 of its n threads ever get past the
   barrier, so at most that many complete.
   */
  lemma FewReleased(cfg: Config, r0: int, c0: int, s: State)
    requires Reachable(cfg, r0, c0, s) && r0 <= cfg.n
    ensures Count(s.threads, Released) <= cfg.n - r0
    ensures s.complete <= c0 + cfg.n - r0
  {
    PhaseReachable(cfg, r0, c0, s);
    var clock: nat, acts: seq<Action> :| Path(cfg, Init(cfg, r0, c0, clock), acts, s);
    InitPhase(cfg, r0, c0, clock);
    CountExtremes(Init(cfg, r0, c0, clock).threads, Through(cfg.n));
    ThroughPath(cfg, r0, c0, Init(cfg, r0, c0, clock), acts, s);
    CountMonotone(s.threads, Released, Through(cfg.n));
    CountMonotone(s.threads, Completed, Released);
  }

  /** The barrier holds in every run of a phase exactly if no earlier phase left arrivals behind. */
  lemma BarrierHoldsIff(cfg: Config, r0: nat, c0: int)
    requires 0 < cfg.n && (r0 == 0 ==> c0 == 0)
    ensures BarrierHolds(cfg, r0, c0) <==> r0 == 0
  {
    if r0 == 0 {
      forall s: State | Reachable(cfg, 0, 0, s) ensures BarrierOk(s) {
        BarrierSafety(cfg, s);
      }
    } else if r0 < cfg.n {
      var s := EarlyStart(cfg, r0, c0);
      assert !BarrierOk(s);
    } else {
      var s := FirstVerdict(cfg, r0, c0, 1);
      assert s.threads[0].pc.Bug? && !BarrierOk(s);
    }
  }

  /** The first k threads have been created but have not run. */
  function FirstCreated(cfg: Config, r0: int, c0: int, k: nat): State
    requires k <= cfg.n
  {
    State(r0, cfg.n, c0, 0, seq(cfg.n, i => Thread(if i < k then ForkClock else Unborn, ZERO_ARGS)),
          if k < cfg.n then Spawning(k) else WaitComplete, [])
  }

  lemma {:induction false} CreateReachable(cfg: Config, r0: int, c0: int, k: nat)
    requires k <= cfg.n
    ensures Reachable(cfg, r0, c0, FirstCreated(cfg, r0, c0, k))
  {
    if k == 0 {
      var s := Init(cfg, r0, c0, 0);
      assert Path(cfg, s, [], s);
      assert s.threads == FirstCreated(cfg, r0, c0, 0).threads;
    } else {
      CreateReachable(cfg, r0, c0, k - 1);
      var s := FirstCreated(cfg, r0, c0, k - 1);
      ReachableExtend(cfg, r0, c0, s, Spawn(true));
      assert Apply(cfg, s, Spawn(true)).threads == FirstCreated(cfg, r0, c0, k).threads;
    }
  }

  // ---------------------------------------------------------------- hand-back after earlier phases

  /** Whenever the wait ends because its condition holds, no later step touches bench_args. */
  ghost predicate HandBackHolds(cfg: Config, r0: int, c0: int) {
    forall s: State :: Reachable(cfg, r0, c0, s) && WaitMet(s) ==> SafeToFree(cfg, s)
  }

  /** At the barrier with nothing but n read, or past it. */
  predicate OnTrack(pc: PC, n: nat) {
    ArrivedPC(pc) && !pc.Bug?
    && (pc.SpinShould? || pc.CheckShould? ==> pc.r == n)
    && (pc.Handle? || pc.Accumulate? ==> 0 < pc.left)
  }

  lemma TrackStep(cfg: Config, th: Thread, now: nat)
    requires OnTrack(th.pc, cfg.n) && Runnable(th.pc)
    ensures var th' := LocalStep(cfg, th, cfg.n, cfg.n, now, true, 0);
            OnTrack(th'.pc, cfg.n) && Rank(cfg, th'.pc) < Rank(cfg, th.pc)
            && (Completed(th') <==> Completed(th) || th.pc.Complete?) && !th.pc.Arrive?
  {
  }

  /** With n arrivals counted, a thread at the barrier can run to its end while all others stand still. */
  lemma RunToEnd(cfg: Config, r0: int, c0: int, s: State, i: nat) returns (s': State)
    requires Reachable(cfg, r0, c0, s) && s.ready == s.should == cfg.n && i < |s.threads|
    requires s.threads[i].pc.SpinReady?
    ensures Reachable(cfg, r0, c0, s') && |s'.threads| == |s.threads|
    ensures s'.threads == s.threads[i := s'.threads[i]] && s'.complete == s.complete + 1
    ensures s'.ready == s'.should == cfg.n && s'.main == s.main
  {
    s' := s;
    while !s'.threads[i].pc.Done?
      invariant Reachable(cfg, r0, c0, s') && |s'.threads| == |s.threads|
      invariant s'.threads == s.threads[i := s'.threads[i]] && OnTrack(s'.threads[i].pc, cfg.n)
      invariant s'.complete == s.complete + if Completed(s'.threads[i]) then 1 else 0
      invariant s'.ready == s'.should == cfg.n && s'.main == s.main
      decreases Rank(cfg, s'.threads[i].pc)
    {
      TrackStep(cfg, s'.threads[i], s'.clock);
      ReachableExtend(cfg, r0, c0, s', Run(i, s'.clock, true, 0));
      s' := Apply(cfg, s', Run(i, s'.clock, true, 0));
    }
  }

  /** One created thread gets to the spin loop. */
  lemma RunToSpin(cfg: Config, r0: int, c0: int, s: State, i: nat) returns (s': State)
    requires Reachable(cfg, r0, c0, s) && i < |s.threads| && s.threads[i].pc.ForkClock?
    ensures Reachable(cfg, r0, c0, s') && |s'.threads| == |s.threads|
    ensures s'.threads == s.threads[i := s'.threads[i]] && s'.threads[i].pc.SpinReady?
    ensures s'.ready == s.ready + 1
    ensures s'.should == s.should && s'.complete == s.complete && s'.main == s.main
  {
    s' := s;
    for n := 0 to 3
      invariant Reachable(cfg, r0, c0, s') && |s'.threads| == |s.threads|
      invariant s'.threads == s.threads[i := s'.threads[i]]
      invariant n == 0 ==> s'.threads[i].pc.ForkClock?
      invariant n == 1 ==> s'.threads[i].pc.ForkStore?
      invariant n == 2 ==> s'.threads[i].pc.Arrive?
      invariant n == 3 ==> s'.threads[i].pc.SpinReady?
      invariant s'.ready == s.ready + if n < 3 then 0 else 1
      invariant s'.should == s.should && s'.complete == s.complete && s'.main == s.main
    {
      ReachableExtend(cfg, r0, c0, s', Run(i, s'.clock, false, 0));
      s' := Apply(cfg, s', Run(i, s'.clock, false, 0));
    }
  }

  /** Counters with which the wait condition can hold before every thread has made its last access. */
  predicate TooEarly(n: nat, r0: int, c0: int) {
    0 < r0 && c0 == if n <= r0 then n else r0
  }

  /**
   c0 = r0 < n: n - r0 threads suffice to open the barrier and to make complete_run == n. c0 = n <= r0:
   it is n from the start. Either way the wait condition holds before the last thread has run at all.
   */
  lemma MetTooEarly(cfg: Config, r0: nat, c0: nat) returns (s: State)
    requires 0 < cfg.n && TooEarly(cfg.n, r0, c0)
    ensures Reachable(cfg, r0, c0, s) && |s.threads| == cfg.n && s.main == WaitComplete
    ensures s.complete == s.should == cfg.n && s.threads[cfg.n - 1].pc == ForkClock
  {
    CreateReachable(cfg, r0, c0, cfg.n);
    s := FirstCreated(cfg, r0, c0, cfg.n);
    var missing := if r0 < cfg.n then cfg.n - r0 else 0;
    for i := 0 to missing
      invariant Reachable(cfg, r0, c0, s) && |s.threads| == cfg.n && s.main == WaitComplete
      invariant s.ready == r0 + i && s.complete == c0 && s.should == cfg.n
      invariant forall j | 0 <= j < cfg.n :: if j < i then s.threads[j].pc.SpinReady? else s.threads[j].pc.ForkClock?
    {
      s := RunToSpin(cfg, r0, c0, s, i);
    }
    for i := 0 to missing
      invariant Reachable(cfg, r0, c0, s) && |s.threads| == cfg.n && s.main == WaitComplete
      invariant s.ready == r0 + missing && s.complete == c0 + i && s.should == cfg.n
      invariant forall j | i <= j < missing :: s.threads[j].pc.SpinReady?
      invariant s.threads[cfg.n - 1].pc.ForkClock?
    {
      s := RunToEnd(cfg, r0, c0, s, i);
    }
  }

  lemma StaleCompletionsBreakHandBack(cfg: Config, r0: nat, c0: nat)
    requires 0 < cfg.n && TooEarly(cfg.n, r0, c0)
    ensures !HandBackHolds(cfg, r0, c0)
  {
    var s := MetTooEarly(cfg, r0, c0);
    ReachableExtend(cfg, r0, c0, s, WaitRead);
    s := Apply(cfg, s, WaitRead);
    ReachableExtend(cfg, r0, c0, s, WaitTest);
    s := Apply(cfg, s, WaitTest);
    assert WaitMet(s);
    var last := Run(cfg.n - 1, s.clock, false, 0);
    assert [last][1..] == [];
    assert Path(cfg, s, [last], Apply(cfg, s, last));
    assert Touches(Apply(cfg, s, last).threads[cfg.n - 1].pc);
  }

  /** complete_run cannot get to n, so main never sees the wait condition. */
  ghost predicate NeverMet(cfg: Config, s: State) {
    !WaitMet(s) && (s.main.WaitShould? ==> s.main.c < cfg.n)
  }

  lemma {:induction false} NeverMetPath(cfg: Config, r0: int, c0: int, s: State, acts: seq<Action>, s': State)
    requires Reachable(cfg, r0, c0, s) && NeverMet(cfg, s) && Path(cfg, s, acts, s') && c0 < r0 < cfg.n
    ensures NeverMet(cfg, s')
    decreases |acts|
  {
    if acts != [] {
      PhaseReachable(cfg, r0, c0, s);
      FewReleased(cfg, r0, c0, s);
      ReachableExtend(cfg, r0, c0, s, acts[0]);
      NeverMetPath(cfg, r0, c0, Apply(cfg, s, acts[0]), acts[1..], s');
    }
  }

  lemma ShortPhaseNeverMet(cfg: Config, r0: int, c0: int, s: State)
    requires Reachable(cfg, r0, c0, s) && c0 < r0 < cfg.n
    ensures !WaitMet(s)
  {
    var clock: nat, acts: seq<Action> :| Path(cfg, Init(cfg, r0, c0, clock), acts, s);
    var s0 := Init(cfg, r0, c0, clock);
    assert Path(cfg, s0, [], s0);
    NeverMetPath(cfg, r0, c0, s0, acts, s);
  }

  /**
   A phase of n threads, starting with any counters that earlier phases can leave when all their
   threads have returned: whenever its wait condition is seen the memory has been handed back, in
   every run, exactly unless c0 = n <= r0 or 0 < r0 = c0 < n. With other counters left over only the
   timeout ends the wait.
   */
  lemma HandBackIff(cfg: Config, r0: nat, c0: nat)
    requires 0 < cfg.n && c0 <= r0
    ensures HandBackHolds(cfg, r0, c0) <==> r0 == 0 || (if cfg.n <= r0 then c0 != cfg.n else c0 != r0)
  {
    if r0 == 0 {
      forall s: State | Reachable(cfg, 0, 0, s) && WaitMet(s) ensures SafeToFree(cfg, s) {
        forall acts: seq<Action>, s': State, j: nat | Path(cfg, s, acts, s') && j < |s'.threads|
          ensures !Touches(s'.threads[j].pc)
        {
          HandBack(cfg, s, acts, s');
        }
      }
    } else if TooEarly(cfg.n, r0, c0) {
      StaleCompletionsBreakHandBack(cfg, r0, c0);
    } else {
      forall s: State | Reachable(cfg, r0, c0, s) ensures !WaitMet(s) {
        if cfg.n <= r0 {
          LatePhaseAllBug(cfg, r0, c0, s);
        } else {
          ShortPhaseNeverMet(cfg, r0, c0, s);
        }
      }
    }
  }

  // ---------------------------------------------------------------- what a phase leaves

  predicate Exists(th: Thread) { !th.pc.Unborn? && !th.pc.NeverCreated? }

  /**
   What a phase leaves once its threads have all returned, at their end or at BUG: one arrival for
   every created thread, and completions only from threads that got past the barrier.
   */
  lemma PhaseLeaves(cfg: Config, r0: int, c0: int, s: State)
    requires Reachable(cfg, r0, c0, s) && RanOut(s)
    ensures s.ready == r0 + Count(s.threads, Exists) && (Created(s) ==> s.ready == r0 + cfg.n)
    ensures 0 <= s.complete - c0 <= s.ready - r0 <= cfg.n
    ensures r0 == c0 == 0 && Created(s) ==> s.complete == cfg.n
    ensures cfg.n <= r0 ==> s.complete == c0
  {
    PhaseReachable(cfg, r0, c0, s);
    CountMonotone(s.threads, Arrived, Exists);
    CountMonotone(s.threads, Exists, Arrived);
    CountMonotone(s.threads, Completed, Arrived);
    CountExtremes(s.threads, Exists);
    if r0 == c0 == 0 && Created(s) {
      RunsOutDone(cfg, s);
    }
    if cfg.n <= r0 {
      LatePhaseAllBug(cfg, r0, c0, s);
    }
  }
}
