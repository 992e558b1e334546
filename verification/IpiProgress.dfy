/**
 Progress of an ipi-bench phase, whatever counters it starts with, and the hand-back of the
 bench_args memory from the threads to the main thread in a phase that starts with both at 0.
 */
module IpiProgress {
  import opened Sums
  import opened IpiBarrier

  // ---------------------------------------------------------------- progress

  /** Steps a thread still has before it, not counting turns of the spin loop. */
  function Rank(cfg: Config, pc: PC): nat {
    var base := 3 * Loops(cfg);
    match pc
    case NeverCreated => 0
    case Bug => 0
    case Done => 0
    case Wake => 1
    case Complete => 2
    case DelayStore => 3
    case FinishStore(_) => 4
    case FinishClock => 5
    case IpiStore(_) => 6
    case Send(left, _) => 9 + 3 * left
    case Handle(left, _, _) => 8 + 3 * left
    case Accumulate(left, _, _) => 7 + 3 * left
    case ReadDst => 10 + base
    case StartStore(_) => 11 + base
    case StartClock => 12 + base
    case CheckShould(_) => 13 + base
    case CheckReady => 14 + base
    case SpinShould(r) => if r < cfg.n then 16 + base else 15 + base
    case SpinReady => 16 + base
    case Arrive => 17 + base
    case ForkStore(_) => 18 + base
    case ForkClock => 19 + base
    case Unborn => 20 + base
  }

  function ThreadRank(cfg: Config): Thread -> nat {
    (th: Thread) => Rank(cfg, th.pc)
  }

  function Measure(cfg: Config, s: State): nat {
    Sum(s.threads, ThreadRank(cfg))
  }

  /** One half-turn of the spin loop: a read below n, or going back because of one. */
  predicate SpinTurn(cfg: Config, s: State, a: Action) {
    a.Run? && a.i < |s.threads|
    && var pc := s.threads[a.i].pc;
       (pc.SpinReady? && s.ready < cfg.n) || (pc.SpinShould? && pc.r < cfg.n)
  }

  /** IPI work loops hold at least one IPI, whatever r0 the phase started with. */
  ghost predicate WorkInv(s: State) {
    forall i | 0 <= i < |s.threads| ::
      (s.threads[i].pc.Handle? ==> 0 < s.threads[i].pc.left)
      && (s.threads[i].pc.Accumulate? ==> 0 < s.threads[i].pc.left)
  }

  lemma {:induction false} WorkPath(cfg: Config, s: State, acts: seq<Action>, s': State)
    requires WorkInv(s) && Path(cfg, s, acts, s')
    ensures WorkInv(s')
    decreases |acts|
  {
    if acts != [] {
      var m := Apply(cfg, s, acts[0]);
      assert WorkInv(m);
      WorkPath(cfg, m, acts[1..], s');
    }
  }

  lemma ReachableWork(cfg: Config, r0: int, c0: int, s: State)
    requires Reachable(cfg, r0, c0, s)
    ensures WorkInv(s)
  {
    var clock: nat, acts: seq<Action> :| Path(cfg, Init(cfg, r0, c0, clock), acts, s);
    WorkPath(cfg, Init(cfg, r0, c0, clock), acts, s);
  }

  lemma RankDecreases(cfg: Config, th: Thread, ready: int, now: nat, fail: bool, delay: nat)
    requires Runnable(th.pc)
    requires (th.pc.Handle? ==> 0 < th.pc.left) && (th.pc.Accumulate? ==> 0 < th.pc.left)
    ensures var pc' := LocalStep(cfg, th, ready, cfg.n, now, fail, delay).pc;
            if (th.pc.SpinReady? && ready < cfg.n) || (th.pc.SpinShould? && th.pc.r < cfg.n)
            then Rank(cfg, pc') == Rank(cfg, th.pc)
            else Rank(cfg, pc') < Rank(cfg, th.pc)
  {
  }

  /** Every step of main or of a thread that is not a turn of the spin loop brings the end nearer. */
  lemma StepDecreases(cfg: Config, r0: int, c0: int, s: State, a: Action)
    requires CounterInv(cfg, r0, c0, s) && WorkInv(s) && Enabled(cfg, s, a)
    ensures a.Run? && !SpinTurn(cfg, s, a) ==> Measure(cfg, Apply(cfg, s, a)) < Measure(cfg, s)
    ensures a.Spawn? ==> Measure(cfg, Apply(cfg, s, a)) < Measure(cfg, s)
    ensures !(a.Run? && !SpinTurn(cfg, s, a)) && !a.Spawn? ==> Measure(cfg, Apply(cfg, s, a)) == Measure(cfg, s)
  {
    var s' := Apply(cfg, s, a);
    match a
    case Spawn(ok) =>
      SumUpdate(s.threads, s.main.k, s'.threads[s.main.k], ThreadRank(cfg));
    case Run(i, now, fail, delay) =>
      RankDecreases(cfg, s.threads[i], s.ready, now, fail, delay);
      SumUpdate(s.threads, i, s'.threads[i], ThreadRank(cfg));
    case _ =>
  }

  predicate Stale(cfg: Config, pc: PC) { pc.SpinShould? && pc.r < cfg.n }

  /** Threads about to turn once more because of a read taken before the last arrival. */
  function StaleFn(cfg: Config): Thread -> bool {
    (th: Thread) => Stale(cfg, th.pc)
  }

  /**
   Once ready_to_run has reached n, every thread step decreases (Measure, stale reads), whatever the
   phase started with: nobody can spin on.
   */
  lemma NoSpinAfterArrival(cfg: Config, r0: int, c0: int, s: State, a: Action)
    requires Reachable(cfg, r0, c0, s) && cfg.n <= s.ready && a.Run? && Enabled(cfg, s, a)
    ensures var s' := Apply(cfg, s, a);
            || Measure(cfg, s') < Measure(cfg, s)
            || (Measure(cfg, s') == Measure(cfg, s)
                && Count(s'.threads, StaleFn(cfg)) < Count(s.threads, StaleFn(cfg)))
  {
    PhaseReachable(cfg, r0, c0, s);
    ReachableWork(cfg, r0, c0, s);
    StepDecreases(cfg, r0, c0, s, a);
    var s' := Apply(cfg, s, a);
    assert s'.threads == s.threads[a.i := s'.threads[a.i]];
    CountUpdate(s.threads, a.i, s'.threads[a.i], StaleFn(cfg));
  }

  predicate Created(s: State) {
    forall i | 0 <= i < |s.threads| :: !s.threads[i].pc.NeverCreated?
  }

  predicate Finished(s: State) {
    forall i | 0 <= i < |s.threads| :: s.threads[i].pc.Done?
  }

  /** Every created thread has returned, at its end or at BUG. What main still does changes no counter. */
  predicate RanOut(s: State) {
    !s.main.Spawning?
    && forall i | 0 <= i < |s.threads| ::
         s.threads[i].pc.Done? || s.threads[i].pc.Bug? || s.threads[i].pc.NeverCreated?
  }

  /** An action that brings the end nearer. */
  ghost predicate Advances(cfg: Config, s: State, a: Action) {
    && Enabled(cfg, s, a) && (a.Spawn? || a.Run?)
    && (Measure(cfg, Apply(cfg, s, a)) < Measure(cfg, s)
        || (Measure(cfg, Apply(cfg, s, a)) == Measure(cfg, s)
            && Count(Apply(cfg, s, a).threads, StaleFn(cfg)) < Count(s.threads, StaleFn(cfg))))
    && Created(Apply(cfg, s, a))
  }

  lemma CreateAdvances(cfg: Config, r0: int, c0: int, s: State)
    requires CounterInv(cfg, r0, c0, s) && WorkInv(s) && Created(s) && s.main.Spawning?
    ensures Advances(cfg, s, Spawn(true))
  {
    StepDecreases(cfg, r0, c0, s, Spawn(true));
  }

  /** While ready_to_run is below n, a created thread that has not arrived can always go on. */
  lemma ArrivalAdvances(cfg: Config, r0: int, c0: int, s: State) returns (a: Action)
    requires CounterInv(cfg, r0, c0, s) && WorkInv(s) && Created(s) && !s.main.Spawning?
    requires 0 <= r0 && s.ready < cfg.n
    ensures Advances(cfg, s, a)
  {
    CountExtremes(s.threads, Arrived);
    var i :| 0 <= i < |s.threads| && !Arrived(s.threads[i]);
    a := Run(i, s.clock, false, 0);
    StepDecreases(cfg, r0, c0, s, a);
  }

  lemma RunKeepsCreated(cfg: Config, s: State, i: nat)
    requires Created(s) && Enabled(cfg, s, Run(i, s.clock, false, 0))
    ensures Created(Apply(cfg, s, Run(i, s.clock, false, 0)))
  {
  }

  /** No reachable state of any phase is stuck: short of the end, main or a thread has a step that advances. */
  lemma NotStuck(cfg: Config, r0: int, c0: int, s: State) returns (a: Action)
    requires Reachable(cfg, r0, c0, s) && 0 <= r0 && Created(s) && !RanOut(s)
    ensures Advances(cfg, s, a)
  {
    PhaseReachable(cfg, r0, c0, s);
    ReachableWork(cfg, r0, c0, s);
    if s.main.Spawning? {
      CreateAdvances(cfg, r0, c0, s);
      a := Spawn(true);
    } else if s.ready < cfg.n {
      a := ArrivalAdvances(cfg, r0, c0, s);
    } else {
      var i :| 0 <= i < |s.threads| && !s.threads[i].pc.Done? && !s.threads[i].pc.Bug?;
      a := Run(i, s.clock, false, 0);
      NoSpinAfterArrival(cfg, r0, c0, s, a);
      RunKeepsCreated(cfg, s, i);
    }
  }

  /** From every reachable state without a failed creation, any phase can still run out. */
  lemma {:induction false} CanRunOut(cfg: Config, r0: int, c0: int, s: State) returns (acts: seq<Action>, s': State)
    requires Reachable(cfg, r0, c0, s) && 0 <= r0 && Created(s)
    ensures Path(cfg, s, acts, s') && Reachable(cfg, r0, c0, s') && RanOut(s') && Created(s')
    decreases Measure(cfg, s), Count(s.threads, StaleFn(cfg))
  {
    if RanOut(s) {
      acts, s' := [], s;
    } else {
      var a := NotStuck(cfg, r0, c0, s);
      ReachableExtend(cfg, r0, c0, s, a);
      var rest;
      rest, s' := CanRunOut(cfg, r0, c0, Apply(cfg, s, a));
      acts := [a] + rest;
      assert acts[1..] == rest;
    }
  }

  /** ... and one that starts at 0 runs out with every thread done and counted. */
  lemma CanFinish(cfg: Config, s: State) returns (acts: seq<Action>, s': State)
    requires Reachable(cfg, 0, 0, s) && Created(s)
    ensures Path(cfg, s, acts, s') && Finished(s') && s'.ready == s'.complete == cfg.n
  {
    acts, s' := CanRunOut(cfg, 0, 0, s);
    RunsOutDone(cfg, s');
  }

  lemma RunsOutDone(cfg: Config, s: State)
    requires Reachable(cfg, 0, 0, s) && RanOut(s) && Created(s)
    ensures Finished(s) && s.ready == s.complete == cfg.n
  {
    BarrierSafety(cfg, s);
    BarrierReachable(cfg, s);
    CountExtremes(s.threads, Arrived);
    CountExtremes(s.threads, Completed);
  }

  /**
   With a failed creation nobody is released while the benchmark runs: its wait can only end by timeout
   or signal. (What a later benchmark can do to the threads left waiting is in IpiModuleFree.)
   */
  lemma FailedCreationBlocks(cfg: Config, s: State, k: nat)
    requires Reachable(cfg, 0, 0, s) && k < |s.threads| && s.threads[k].pc.NeverCreated?
    ensures forall j | 0 <= j < |s.threads| :: !Released(s.threads[j])
    ensures s.complete == 0
  {
    BarrierSafety(cfg, s);
    BarrierReachable(cfg, s);
    CountExtremes(s.threads, Completed);
    assert forall j | 0 <= j < |s.threads| :: Released(s.threads[j]) ==> Arrived(s.threads[k]);
  }

  // ---------------------------------------------------------------- ownership hand-back

  /** The wait is over and it ended because complete_run == should_run was seen. */
  predicate WaitMet(s: State) {
    (s.main.Reporting? || s.main.Freeing? || s.main.Freed?) && s.main.met
  }

  /** The first `got` fields of the report being taken are the thread's. */
  predicate ReadSoFar(part: BenchArgs, got: nat, ba: BenchArgs) {
    && (1 <= got ==> part.forked == ba.forked) && (2 <= got ==> part.start == ba.start)
    && (3 <= got ==> part.finish == ba.finish) && (4 <= got ==> part.ipitime == ba.ipitime)
  }

  ghost predicate ReportInv(cfg: Config, s: State) {
    && (s.main.Reporting? ==> s.main.k < |s.threads|)
    && (s.main.WaitShould? ==> s.main.c <= s.complete)
    && (WaitMet(s) ==> s.complete == cfg.n)
    && |s.reports| == (match s.main case Reporting(_, k, _, _) => k case Freeing(_) => cfg.n
                                    case Freed(_) => cfg.n case _ => 0)
    && |s.reports| <= |s.threads|
    && (s.main.Reporting? ==> s.main.got <= 4)
    && (WaitMet(s) && s.main.Reporting? ==> ReadSoFar(s.main.part, s.main.got, s.threads[s.main.k].args))
    && (WaitMet(s) ==> forall j | 0 <= j < |s.reports| :: s.reports[j] == s.threads[j].args)
  }

  ghost predicate HandBackInv(cfg: Config, s: State) {
    BarrierInv(cfg, s) && ReportInv(cfg, s)
  }

  lemma AllCompleted(cfg: Config, s: State)
    requires CounterInv(cfg, 0, 0, s) && s.complete == cfg.n
    ensures forall j | 0 <= j < cfg.n :: Completed(s.threads[j])
  {
    CountExtremes(s.threads, Completed);
  }

  /** The counters never go down within a phase, and completions never exceed the threads. */
  lemma CompleteGrows(cfg: Config, s: State, a: Action)
    requires CounterInv(cfg, 0, 0, s) && Enabled(cfg, s, a)
    ensures s.complete <= Apply(cfg, s, a).complete <= cfg.n
  {
    CounterStep(cfg, 0, 0, s, a);
    CountExtremes(Apply(cfg, s, a).threads, Completed);
  }

  lemma CompletedKeepArgs(cfg: Config, s: State, a: Action)
    requires |s.threads| == cfg.n && Enabled(cfg, s, a) && a.Run?
    requires forall j | 0 <= j < cfg.n :: Completed(s.threads[j])
    ensures var s' := Apply(cfg, s, a);
            |s'.threads| == cfg.n && forall j | 0 <= j < cfg.n :: s'.threads[j].args == s.threads[j].args
  {
  }

  lemma ReportStep(cfg: Config, s: State, a: Action)
    requires CounterInv(cfg, 0, 0, s) && ReportInv(cfg, s) && Enabled(cfg, s, a)
    ensures ReportInv(cfg, Apply(cfg, s, a))
  {
    var s' := Apply(cfg, s, a);
    CompleteGrows(cfg, s, a);
    match a
    case Run(_, _, _, _) =>
      if WaitMet(s) {
        AllCompleted(cfg, s);
        CompletedKeepArgs(cfg, s, a);
      }
    case _ =>
  }

  lemma HandBackStep(cfg: Config, s: State, a: Action)
    requires HandBackInv(cfg, s) && Enabled(cfg, s, a)
    ensures HandBackInv(cfg, Apply(cfg, s, a))
  {
    BarrierStep(cfg, s, a);
    ReportStep(cfg, s, a);
  }

  lemma MetStays(cfg: Config, s: State, a: Action)
    requires HandBackInv(cfg, s) && WaitMet(s) && Enabled(cfg, s, a)
    ensures var s' := Apply(cfg, s, a);
            WaitMet(s') && |s'.threads| == cfg.n && forall j | 0 <= j < cfg.n :: s'.threads[j].args == s.threads[j].args
  {
    AllCompleted(cfg, s);
    if a.Run? {
      CompletedKeepArgs(cfg, s, a);
    }
  }

  lemma {:induction false} HandBackPath(cfg: Config, s: State, acts: seq<Action>, s': State)
    requires HandBackInv(cfg, s) && Path(cfg, s, acts, s')
    ensures HandBackInv(cfg, s')
    ensures WaitMet(s) ==> WaitMet(s') && forall j | 0 <= j < cfg.n :: s'.threads[j].args == s.threads[j].args
    decreases |acts|
  {
    if acts != [] {
      if WaitMet(s) {
        MetStays(cfg, s, acts[0]);
      }
      HandBackStep(cfg, s, acts[0]);
      HandBackPath(cfg, Apply(cfg, s, acts[0]), acts[1..], s');
    }
  }

  lemma HandBackReachable(cfg: Config, s: State)
    requires Reachable(cfg, 0, 0, s)
    ensures HandBackInv(cfg, s)
  {
    var clock: nat, acts: seq<Action> :| Path(cfg, Init(cfg, 0, 0, clock), acts, s);
    InitPhase(cfg, 0, 0, clock);
    HandBackPath(cfg, Init(cfg, 0, 0, clock), acts, s);
  }

  /** Every report main printed holds the thread's final values, and they are in order. */
  predicate ReportFinal(r: BenchArgs, th: Thread) {
    r == th.args && r.forked <= r.start && r.start + r.ipitime <= r.finish
  }

  lemma FinalReports(cfg: Config, s: State)
    requires HandBackInv(cfg, s) && WaitMet(s)
    ensures forall j | 0 <= j < cfg.n :: Completed(s.threads[j])
    ensures |s.reports| <= cfg.n && forall j | 0 <= j < |s.reports| :: ReportFinal(s.reports[j], s.threads[j])
  {
    AllCompleted(cfg, s);
    forall j | 0 <= j < |s.reports| ensures ReportFinal(s.reports[j], s.threads[j]) {
      assert TimeInv(s.threads[j], s.clock);
    }
  }

  /**
   Hand-back: once the wait ended because its condition held, in this state and in every later
   one no thread's next step touches bench_args, its contents never change, and every report
   holds the final values, with one for every thread by the time of the free. Main frees only after
   the wait, so the free comes after the last access.
   */
  lemma HandBack(cfg: Config, s: State, acts: seq<Action>, s': State)
    requires Reachable(cfg, 0, 0, s) && WaitMet(s) && Path(cfg, s, acts, s')
    ensures |s'.threads| == |s.threads| == cfg.n && |s'.reports| <= cfg.n
    ensures forall j | 0 <= j < cfg.n ::
              && Completed(s'.threads[j]) && !Touches(s'.threads[j].pc)
              && s'.threads[j].args == s.threads[j].args
    ensures forall j | 0 <= j < |s'.reports| :: ReportFinal(s'.reports[j], s.threads[j])
    ensures s'.main.Freeing? || s'.main.Freed? ==> |s'.reports| == cfg.n
  {
    HandBackReachable(cfg, s);
    HandBackPath(cfg, s, acts, s');
    FinalReports(cfg, s');
    assert forall j | 0 <= j < |s'.reports| :: ReportFinal(s'.reports[j], s'.threads[j]);
  }

  /** However the wait ended, main frees after one report for every thread. */
  lemma AllReported(cfg: Config, s: State)
    requires Reachable(cfg, 0, 0, s) && (s.main.Freeing? || s.main.Freed?)
    ensures |s.reports| == cfg.n
  {
    HandBackReachable(cfg, s);
  }

  predicate PastLastAccess(pc: PC) {
    pc.Complete? || pc.Wake? || pc.Done?
  }

  /** No run of this benchmark from here on touches any bench_args. */
  ghost predicate SafeToFree(cfg: Config, s: State) {
    forall acts: seq<Action>, s': State, j: nat ::
      Path(cfg, s, acts, s') && j < |s'.threads| ==> !Touches(s'.threads[j].pc)
  }

  lemma {:induction false} PastStays(cfg: Config, s: State, acts: seq<Action>, s': State)
    requires Path(cfg, s, acts, s') && !s.main.Spawning?
    requires forall j | 0 <= j < |s.threads| :: PastLastAccess(s.threads[j].pc)
    ensures forall j | 0 <= j < |s'.threads| :: PastLastAccess(s'.threads[j].pc)
    decreases |acts|
  {
    if acts != [] {
      PastStays(cfg, Apply(cfg, s, acts[0]), acts[1..], s');
    }
  }

  lemma NotRanOut(cfg: Config, s: State, j: nat)
    requires BarrierInv(cfg, s) && Created(s) && j < |s.threads| && !PastLastAccess(s.threads[j].pc)
    ensures !RanOut(s)
  {
    assert BarrierPC(s.threads[j].pc, cfg.n, s.ready);
  }

  /** Only an access leads past the last access. */
  lemma NotPastYet(cfg: Config, s: State, a: Action, j: nat)
    requires Enabled(cfg, s, a) && j < |s.threads|
    requires !PastLastAccess(s.threads[j].pc) && !Touches(s.threads[j].pc)
    ensures j < |Apply(cfg, s, a).threads| && !PastLastAccess(Apply(cfg, s, a).threads[j].pc)
  {
  }

  /** A thread short of its last access can be run to one. */
  lemma {:induction false} WillTouch(cfg: Config, s: State, j: nat) returns (acts: seq<Action>, s': State)
    requires Reachable(cfg, 0, 0, s) && Created(s) && j < cfg.n
    requires j < |s.threads| && !PastLastAccess(s.threads[j].pc)
    ensures Path(cfg, s, acts, s') && j < |s'.threads| && Touches(s'.threads[j].pc)
    decreases Measure(cfg, s), Count(s.threads, StaleFn(cfg))
  {
    if Touches(s.threads[j].pc) {
      acts, s' := [], s;
    } else {
      BarrierReachable(cfg, s);
      NotRanOut(cfg, s, j);
      var a := NotStuck(cfg, 0, 0, s);
      NotPastYet(cfg, s, a, j);
      ReachableExtend(cfg, 0, 0, s, a);
      var rest;
      rest, s' := WillTouch(cfg, Apply(cfg, s, a), j);
      acts := [a] + rest;
      assert acts[1..] == rest;
    }
  }

  predicate Forking(pc: PC) {
    pc.ForkClock? || pc.ForkStore?
  }

  /** Behind a failed creation everybody is held at the barrier, so only forked can still be written. */
  lemma {:induction false} BlockedStays(cfg: Config, s: State, k: nat, acts: seq<Action>, s': State)
    requires Reachable(cfg, 0, 0, s) && Path(cfg, s, acts, s') && !s.main.Spawning?
    requires k < |s.threads| && s.threads[k].pc.NeverCreated?
    requires forall j | 0 <= j < |s.threads| :: !Forking(s.threads[j].pc)
    ensures forall j | 0 <= j < |s'.threads| :: !Touches(s'.threads[j].pc)
    decreases |acts|
  {
    FailedCreationBlocks(cfg, s, k);
    BarrierReachable(cfg, s);
    if acts != [] {
      ReachableExtend(cfg, 0, 0, s, acts[0]);
      BlockedStays(cfg, Apply(cfg, s, acts[0]), k, acts[1..], s');
    } else {
      assert forall j | 0 <= j < |s.threads| :: !Released(s.threads[j]);
    }
  }

  lemma ForkTouches(cfg: Config, s: State, j: nat) returns (acts: seq<Action>, s': State)
    requires j < |s.threads| && Forking(s.threads[j].pc)
    ensures Path(cfg, s, acts, s') && j < |s'.threads| && Touches(s'.threads[j].pc)
  {
    acts, s' := [], s;
    if s.threads[j].pc.ForkClock? {
      var a := Run(j, s.clock, false, 0);
      acts, s' := [a], Apply(cfg, s, a);
      assert acts[1..] == [];
    }
  }

  /**
   Exactly when no step of this benchmark can touch its memory again: when every thread has made its
   last access, or, if a creation failed, when every created thread has stored its forked time. Once
   later benchmarks store should_run that is no longer enough (ModuleFreeIff).
   */
  lemma SafeToFreeIff(cfg: Config, s: State)
    requires Reachable(cfg, 0, 0, s) && !s.main.Spawning?
    ensures SafeToFree(cfg, s) <==>
              if Created(s) then forall j | 0 <= j < |s.threads| :: PastLastAccess(s.threads[j].pc)
              else forall j | 0 <= j < |s.threads| :: !Forking(s.threads[j].pc)
    ensures s.complete == s.should ==> SafeToFree(cfg, s)
  {
    BarrierReachable(cfg, s);
    if Created(s) {
      SafeIfCreated(cfg, s);
    } else {
      SafeIfNotCreated(cfg, s);
    }
    CountExtremes(s.threads, Completed);
  }

  lemma SafeIfCreated(cfg: Config, s: State)
    requires Reachable(cfg, 0, 0, s) && !s.main.Spawning? && Created(s)
    ensures SafeToFree(cfg, s) <==> forall j | 0 <= j < |s.threads| :: PastLastAccess(s.threads[j].pc)
  {
    BarrierReachable(cfg, s);
    if forall j | 0 <= j < |s.threads| :: PastLastAccess(s.threads[j].pc) {
      forall acts: seq<Action>, s': State, j: nat | Path(cfg, s, acts, s') && j < |s'.threads|
        ensures !Touches(s'.threads[j].pc)
      {
        PastStays(cfg, s, acts, s');
      }
    } else {
      var j :| 0 <= j < |s.threads| && !PastLastAccess(s.threads[j].pc);
      var acts, s' := WillTouch(cfg, s, j);
    }
  }

  lemma SafeIfNotCreated(cfg: Config, s: State)
    requires Reachable(cfg, 0, 0, s) && !s.main.Spawning? && !Created(s)
    ensures SafeToFree(cfg, s) <==> forall j | 0 <= j < |s.threads| :: !Forking(s.threads[j].pc)
  {
    if forall j | 0 <= j < |s.threads| :: !Forking(s.threads[j].pc) {
      var k :| 0 <= k < |s.threads| && s.threads[k].pc.NeverCreated?;
      forall acts: seq<Action>, s': State, j: nat | Path(cfg, s, acts, s') && j < |s'.threads|
        ensures !Touches(s'.threads[j].pc)
      {
        BlockedStays(cfg, s, k, acts, s');
      }
    } else {
      var j :| 0 <= j < |s.threads| && Forking(s.threads[j].pc);
      var acts, s' := ForkTouches(cfg, s, j);
    }
  }

  /** One thread that has not even read the clock when the timeout fires: main frees, then it writes. */
  lemma TimeoutBreaksHandBack() returns (cfg: Config, s: State)
    ensures Reachable(cfg, 0, 0, s) && s.main == Freed(false)
    ensures |s.threads| == 1 && Touches(s.threads[0].pc)
  {
    cfg := Config(1, 1, false);
    s := Init(cfg, 0, 0, 0);
    assert Path(cfg, s, [], s);
    var acts := [Spawn(true), GiveUp, Report, Report, Report, Report, Report, Free, Run(0, 0, false, 0)];
    for k := 0 to 9
      invariant Reachable(cfg, 0, 0, s) && |s.threads| == 1 && s.clock == 0
      invariant k == 0 ==> s == Init(cfg, 0, 0, 0)
      invariant k == 1 ==> s.main.WaitComplete?
      invariant 2 <= k <= 6 ==> s.main.Reporting? && !s.main.met && s.main.k == 0 && s.main.got == k - 2
      invariant k == 7 ==> s.main == Freeing(false)
      invariant 8 <= k ==> s.main == Freed(false)
      invariant s.threads[0].pc == if k == 0 then Unborn else if k < 9 then ForkClock else ForkStore(0)
    {
      ReachableExtend(cfg, 0, 0, s, acts[k]);
      s := Apply(cfg, s, acts[k]);
    }
  }
}
