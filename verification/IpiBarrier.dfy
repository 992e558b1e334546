/**
 The start/finish protocol of one ipi-bench phase (microbenchmark/ipi-bench/ipi_bench.c) as a
 transition system. One program counter per kernel thread; every atomic read, add or store and
 every clock reading is a step of its own, and any thread or the main thread may take the next
 one. Sequentially consistent atomics and one clock that never goes back are assumed.
 */
module IpiBarrier {
  import opened Sums

  datatype BenchArgs = BenchArgs(forked: nat, start: nat, finish: nat, ipitime: nat, runDelay: nat)

  /** What kzalloc hands out. */
  const ZERO_ARGS := BenchArgs(0, 0, 0, 0, 0)

  /** Where a benchmark thread is; the parameters are its local variables. */
  datatype PC =
    | Unborn                                       // main has not tried to create it yet
    | NeverCreated                                 // kthread_create failed
    | ForkClock | ForkStore(t: nat)                // forked timestamp
    | Arrive                                       // ready_to_run += 1
    | SpinReady | SpinShould(r: int)               // spin: read ready_to_run, then compare
    | CheckReady | CheckShould(r: int)             // re-check: read ready_to_run, then compare
    | Bug                                          // the "BUG, exit benchmark" return
    | StartClock | StartStore(t: nat)              // start timestamp
    | ReadDst                                      // ipi_bench_one reads its target CPU
    | Send(left: nat, acc: nat)                    // loop head
    | Handle(left: nat, acc: nat, sent: nat)       // IPI sent at `sent`, handler still to run
    | Accumulate(left: nat, acc: nat, diff: nat)   // ipitime += diff
    | IpiStore(acc: nat)
    | FinishClock | FinishStore(t: nat)            // finish timestamp
    | DelayStore                                   // run_delay
    | Complete                                     // complete_run += 1
    | Wake                                         // wake_up_interruptible
    | Done

  datatype Thread = Thread(pc: PC, args: BenchArgs)

  datatype MainPC =
    | Spawning(k: nat)                         // creating thread k
    | WaitComplete | WaitShould(c: int)        // the two reads of the wait condition
    // met: the wait ended because its condition held; of thread k's fields, `got` are read into `part`
    | Reporting(met: bool, k: nat, got: nat, part: BenchArgs)
    | Freeing(met: bool) | Freed(met: bool)

  /** n threads; `loops` IPIs each; broadcast threads run ipi_bench_many, which never times IPIs. */
  datatype Config = Config(n: nat, loops: int, broadcast: bool)

  datatype State = State(ready: int, should: int, complete: int, clock: nat,
                         threads: seq<Thread>, main: MainPC, reports: seq<BenchArgs>)

  datatype Action =
    | Spawn(ok: bool)
    | Run(i: nat, now: nat, fail: bool, delay: nat)  // thread i; clock reading, IPI failure, run_delay
    | WaitRead | WaitTest | GiveUp | Report | Free

  // ---------------------------------------------------------------- steps

  predicate Runnable(pc: PC) {
    !pc.Unborn? && !pc.NeverCreated? && !pc.Bug? && !pc.Done?
  }

  /** A failed send runs no handler, and the end of the loop sends nothing. */
  predicate ReadsClock(pc: PC, fail: bool) {
    pc.ForkClock? || pc.StartClock? || pc.FinishClock? || (pc.Send? && 0 < pc.left) || (pc.Handle? && !fail)
  }

  function Loops(cfg: Config): nat {
    if cfg.loops > 0 then cfg.loops else 0
  }

  /** What one step of a thread does to its own program counter and arguments. */
  function LocalStep(cfg: Config, th: Thread, ready: int, should: int, now: nat, fail: bool, delay: nat): Thread
    requires Runnable(th.pc)
  {
    var ba := th.args;
    match th.pc
    case ForkClock => th.(pc := ForkStore(now))
    case ForkStore(t) => Thread(Arrive, ba.(forked := t))
    case Arrive => th.(pc := SpinReady)
    case SpinReady => th.(pc := SpinShould(ready))
    case SpinShould(r) => th.(pc := if r < should then SpinReady else CheckReady)
    case CheckReady => th.(pc := CheckShould(ready))
    case CheckShould(r) => th.(pc := if r != should then Bug else StartClock)
    case StartClock => th.(pc := StartStore(now))
    case StartStore(t) => Thread(if cfg.broadcast then FinishClock else ReadDst, ba.(start := t))
    case ReadDst => th.(pc := Send(Loops(cfg), 0))
    case Send(left, acc) =>
      if left == 0 then th.(pc := IpiStore(acc)) else th.(pc := Handle(left, acc, now))
    case Handle(left, acc, sent) =>
      if fail then th.(pc := FinishClock)  // the error return skips the ipitime store
      else th.(pc := Accumulate(left, acc, if now > sent then now - sent else 0))
    case Accumulate(left, acc, diff) =>
      th.(pc := Send(if left == 0 then 0 else left - 1, acc + diff))
    case IpiStore(acc) => Thread(FinishClock, ba.(ipitime := acc))
    case FinishClock => th.(pc := FinishStore(now))
    case FinishStore(t) => Thread(DelayStore, ba.(finish := t))
    case DelayStore => Thread(Complete, ba.(runDelay := delay))
    case Complete => th.(pc := Wake)
    case Wake => th.(pc := Done)
  }

  predicate Enabled(cfg: Config, s: State, a: Action) {
    match a
    case Spawn(_) => s.main.Spawning? && s.main.k < |s.threads|
    case Run(i, now, _, _) => i < |s.threads| && Runnable(s.threads[i].pc) && s.clock <= now
    case WaitRead => s.main.WaitComplete?
    case WaitTest => s.main.WaitShould?
    case GiveUp => s.main.WaitComplete? || s.main.WaitShould?  // timeout or signal
    case Report => s.main.Reporting? && s.main.k < |s.threads|
    case Free => s.main.Freeing?
  }

  function AfterReport(cfg: Config, met: bool, k: nat): MainPC {
    if k < cfg.n then Reporting(met, k, 0, ZERO_ARGS) else Freeing(met)
  }

  /**
   A report reads forked, start, finish, ipitime and run_delay, in this order, one by one. (The
   broadcast report leaves out ipitime, which its threads never set.)
   */
  function ReadField(part: BenchArgs, got: nat, ba: BenchArgs): BenchArgs {
    match got
    case 0 => part.(forked := ba.forked)
    case 1 => part.(start := ba.start)
    case 2 => part.(finish := ba.finish)
    case 3 => part.(ipitime := ba.ipitime)
    case _ => part.(runDelay := ba.runDelay)
  }

  function Apply(cfg: Config, s: State, a: Action): State
    requires Enabled(cfg, s, a)
  {
    match a
    case Spawn(ok) =>
      var k := s.main.k;
      s.(threads := s.threads[k := s.threads[k].(pc := if ok then ForkClock else NeverCreated)],
         main := if k + 1 < cfg.n then Spawning(k + 1) else WaitComplete)
    case Run(i, now, fail, delay) =>
      var th := s.threads[i];
      s.(threads := s.threads[i := LocalStep(cfg, th, s.ready, s.should, now, fail, delay)],
         ready := s.ready + if th.pc.Arrive? then 1 else 0,
         complete := s.complete + if th.pc.Complete? then 1 else 0,
         clock := if ReadsClock(th.pc, fail) then now else s.clock)
    case WaitRead => s.(main := WaitShould(s.complete))
    case WaitTest =>
      s.(main := if s.main.c == s.should then AfterReport(cfg, true, 0) else WaitComplete)
    case GiveUp => s.(main := AfterReport(cfg, false, 0))
    case Report =>
      var m := s.main;
      var part := ReadField(m.part, m.got, s.threads[m.k].args);
      if m.got < 4 then s.(main := Reporting(m.met, m.k, m.got + 1, part))
      else s.(reports := s.reports + [part], main := AfterReport(cfg, m.met, m.k + 1))
    case Free => s.(main := Freed(s.main.met))
  }

  /** A phase begins with whatever the shared counters hold: r0 arrivals and c0 completions. */
  function Init(cfg: Config, r0: int, c0: int, clock: nat): State {
    State(r0, cfg.n, c0, clock, seq(cfg.n, i => Thread(Unborn, ZERO_ARGS)),
          if 0 < cfg.n then Spawning(0) else WaitComplete, [])
  }

  ghost predicate Path(cfg: Config, s: State, acts: seq<Action>, s': State)
    decreases |acts|
  {
    if acts == [] then s == s'
    else Enabled(cfg, s, acts[0]) && Path(cfg, Apply(cfg, s, acts[0]), acts[1..], s')
  }

  ghost predicate Reachable(cfg: Config, r0: int, c0: int, s: State) {
    exists clock: nat, acts: seq<Action> :: Path(cfg, Init(cfg, r0, c0, clock), acts, s)
  }

  lemma {:induction false} PathExtend(cfg: Config, s: State, acts: seq<Action>, s': State, a: Action)
    requires Path(cfg, s, acts, s') && Enabled(cfg, s', a)
    ensures Path(cfg, s, acts + [a], Apply(cfg, s', a))
    decreases |acts|
  {
    if acts == [] {
      assert (acts + [a])[1..] == [];
    } else {
      PathExtend(cfg, Apply(cfg, s, acts[0]), acts[1..], s', a);
      assert (acts + [a])[1..] == acts[1..] + [a];
    }
  }

  lemma ReachableExtend(cfg: Config, r0: int, c0: int, s: State, a: Action)
    requires Reachable(cfg, r0, c0, s) && Enabled(cfg, s, a)
    ensures Reachable(cfg, r0, c0, Apply(cfg, s, a))
  {
    var clock: nat, acts: seq<Action> :| Path(cfg, Init(cfg, r0, c0, clock), acts, s);
    PathExtend(cfg, Init(cfg, r0, c0, clock), acts, s, a);
  }

  // ---------------------------------------------------------------- what a program counter means

  predicate ArrivedPC(pc: PC) {
    !pc.Unborn? && !pc.NeverCreated? && !pc.ForkClock? && !pc.ForkStore? && !pc.Arrive?
  }

  predicate Arrived(th: Thread) { ArrivedPC(th.pc) }

  /** Past the barrier: the re-check let the thread through. */
  predicate Released(th: Thread) {
    ArrivedPC(th.pc) && !th.pc.SpinReady? && !th.pc.SpinShould? && !th.pc.CheckReady?
    && !th.pc.CheckShould? && !th.pc.Bug?
  }

  predicate Completed(th: Thread) { th.pc.Wake? || th.pc.Done? }

  /** The thread's next step reads or writes its bench_args. */
  predicate Touches(pc: PC) {
    pc.ForkStore? || pc.StartStore? || pc.ReadDst? || pc.IpiStore? || pc.FinishStore? || pc.DelayStore?
  }

  predicate HasStart(th: Thread) { Released(th) && !th.pc.StartClock? }

  /** The start reading, from the moment it is taken. */
  function StartTime(th: Thread): nat {
    if th.pc.StartStore? then th.pc.t else th.args.start
  }

  // ---------------------------------------------------------------- invariants of every phase

  /** Counters count: holds for any r0 and c0. */
  ghost predicate CounterInv(cfg: Config, r0: int, c0: int, s: State) {
    && |s.threads| == cfg.n && s.should == cfg.n
    && s.ready == r0 + Count(s.threads, Arrived)
    && s.complete == c0 + Count(s.threads, Completed)
    && (s.main.Spawning? ==> s.main.k < cfg.n)
    && (s.main.Reporting? ==> s.main.k < cfg.n)
    && (forall i | 0 <= i < cfg.n :: s.threads[i].pc.Unborn? <==> s.main.Spawning? && s.main.k <= i)
  }

  /** The thread's own timestamps are ordered, and the IPI time gathered so far fits since start. */
  predicate TimeInv(th: Thread, clock: nat) {
    var ba := th.args;
    match th.pc
    case Unborn => ba == ZERO_ARGS
    case NeverCreated => ba == ZERO_ARGS
    case ForkClock => ba == ZERO_ARGS
    case ForkStore(t) => ba == ZERO_ARGS && t <= clock
    case StartStore(t) => ba == ZERO_ARGS.(forked := ba.forked) && ba.forked <= t <= clock
    case ReadDst => ba == ZERO_ARGS.(forked := ba.forked, start := ba.start) && ba.forked <= ba.start <= clock
    case Send(_, acc) => ba.finish == ba.ipitime == 0 && ba.forked <= ba.start && ba.start + acc <= clock
    case Handle(_, acc, sent) =>
      ba.finish == ba.ipitime == 0 && ba.forked <= ba.start && ba.start + acc <= sent <= clock
    case Accumulate(_, acc, diff) =>
      ba.finish == ba.ipitime == 0 && ba.forked <= ba.start && ba.start + acc + diff <= clock
    case IpiStore(acc) => ba.finish == ba.ipitime == 0 && ba.forked <= ba.start && ba.start + acc <= clock
    case FinishClock => ba.finish == 0 && ba.forked <= ba.start && ba.start + ba.ipitime <= clock
    case FinishStore(t) => ba.finish == 0 && ba.forked <= ba.start && ba.start + ba.ipitime <= t <= clock
    case DelayStore => ba.forked <= ba.start && ba.start + ba.ipitime <= ba.finish <= clock
    case Complete => ba.forked <= ba.start && ba.start + ba.ipitime <= ba.finish <= clock
    case Wake => ba.forked <= ba.start && ba.start + ba.ipitime <= ba.finish <= clock
    case Done => ba.forked <= ba.start && ba.start + ba.ipitime <= ba.finish <= clock
    case _ => ba == ZERO_ARGS.(forked := ba.forked) && ba.forked <= clock
  }

  ghost predicate TimesInv(s: State) {
    forall i | 0 <= i < |s.threads| :: TimeInv(s.threads[i], s.clock)
  }

  predicate InIpiLoop(pc: PC) {
    pc.Send? || pc.Handle? || pc.Accumulate? || pc.IpiStore?
  }

  lemma ArrivalKeepsTimes(cfg: Config, th: Thread, ready: int, should: int, clock: nat,
                          now: nat, fail: bool, delay: nat)
    requires Runnable(th.pc) && !HasStart(th) && TimeInv(th, clock) && clock <= now
    ensures TimeInv(LocalStep(cfg, th, ready, should, now, fail, delay),
                    if ReadsClock(th.pc, fail) then now else clock)
  {
  }

  lemma IpiLoopKeepsTimes(cfg: Config, th: Thread, ready: int, should: int, clock: nat,
                          now: nat, fail: bool, delay: nat)
    requires InIpiLoop(th.pc) && TimeInv(th, clock) && clock <= now
    ensures TimeInv(LocalStep(cfg, th, ready, should, now, fail, delay),
                    if ReadsClock(th.pc, fail) then now else clock)
  {
  }

  lemma FinishKeepsTimes(cfg: Config, th: Thread, ready: int, should: int, clock: nat,
                         now: nat, fail: bool, delay: nat)
    requires Runnable(th.pc) && HasStart(th) && !InIpiLoop(th.pc) && TimeInv(th, clock) && clock <= now
    ensures TimeInv(LocalStep(cfg, th, ready, should, now, fail, delay),
                    if ReadsClock(th.pc, fail) then now else clock)
  {
  }

  lemma LocalStepKeepsTimes(cfg: Config, th: Thread, ready: int, should: int, clock: nat,
                            now: nat, fail: bool, delay: nat)
    requires Runnable(th.pc) && TimeInv(th, clock) && clock <= now
    ensures TimeInv(LocalStep(cfg, th, ready, should, now, fail, delay),
                    if ReadsClock(th.pc, fail) then now else clock)
  {
    if InIpiLoop(th.pc) {
      IpiLoopKeepsTimes(cfg, th, ready, should, clock, now, fail, delay);
    } else if HasStart(th) {
      FinishKeepsTimes(cfg, th, ready, should, clock, now, fail, delay);
    } else {
      ArrivalKeepsTimes(cfg, th, ready, should, clock, now, fail, delay);
    }
  }

  lemma CounterStep(cfg: Config, r0: int, c0: int, s: State, a: Action)
    requires CounterInv(cfg, r0, c0, s) && Enabled(cfg, s, a)
    ensures CounterInv(cfg, r0, c0, Apply(cfg, s, a))
  {
    var s' := Apply(cfg, s, a);
    if a.Spawn? || a.Run? {
      var k := if a.Spawn? then s.main.k else a.i;
      assert s'.threads == s.threads[k := s'.threads[k]];
      CountUpdate(s.threads, k, s'.threads[k], Arrived);
      CountUpdate(s.threads, k, s'.threads[k], Completed);
    }
  }

  lemma TimesStep(cfg: Config, r0: int, c0: int, s: State, a: Action)
    requires CounterInv(cfg, r0, c0, s) && TimesInv(s) && Enabled(cfg, s, a)
    ensures TimesInv(Apply(cfg, s, a))
  {
    var s' := Apply(cfg, s, a);
    if a.Run? {
      LocalStepKeepsTimes(cfg, s.threads[a.i], s.ready, s.should, s.clock, a.now, a.fail, a.delay);
    }
    forall i | 0 <= i < |s'.threads| ensures TimeInv(s'.threads[i], s'.clock) {
      assert TimeInv(s.threads[i], s.clock);
    }
  }

  /** A report's readings, taken while the thread may still be writing. */
  predicate Torn(part: BenchArgs, ba: BenchArgs) {
    part.start <= ba.start && (part.finish != 0 ==> part.finish == ba.finish && part.ipitime <= ba.ipitime)
  }

  predicate ReportOrdered(r: BenchArgs) {
    r.finish != 0 ==> r.start + r.ipitime <= r.finish
  }

  ghost predicate ReportsInv(s: State) {
    && (s.main.Reporting? ==>
          && s.main.got <= 4 && s.main.k < |s.threads| && Torn(s.main.part, s.threads[s.main.k].args)
          && (s.main.got <= 3 ==> s.main.part.ipitime == 0) && (s.main.got <= 2 ==> s.main.part.finish == 0)
          && (s.main.got <= 1 ==> s.main.part.start == 0))
    && (forall j | 0 <= j < |s.reports| :: ReportOrdered(s.reports[j]))
  }

  /** What has been read stays a possible reading: each field is written once, finish after the others. */
  lemma LocalKeepsTorn(cfg: Config, th: Thread, ready: int, should: int, clock: nat,
                       now: nat, fail: bool, delay: nat, part: BenchArgs)
    requires Runnable(th.pc) && TimeInv(th, clock) && Torn(part, th.args)
    ensures Torn(part, LocalStep(cfg, th, ready, should, now, fail, delay).args)
  {
  }

  lemma ReportsStep(cfg: Config, r0: int, c0: int, s: State, a: Action)
    requires CounterInv(cfg, r0, c0, s) && TimesInv(s) && ReportsInv(s) && Enabled(cfg, s, a)
    ensures ReportsInv(Apply(cfg, s, a))
  {
    match a
    case Run(i, now, fail, delay) =>
      if s.main.Reporting? && s.main.k == i {
        LocalKeepsTorn(cfg, s.threads[i], s.ready, s.should, s.clock, now, fail, delay, s.main.part);
      }
    case Report =>
      var th := s.threads[s.main.k];
      assert TimeInv(th, s.clock);
      assert th.args.finish != 0 ==> th.args.start + th.args.ipitime <= th.args.finish;
    case _ =>
  }

  /** What every phase keeps, whatever counters it starts with. */
  ghost predicate PhaseInv(cfg: Config, r0: int, c0: int, s: State) {
    CounterInv(cfg, r0, c0, s) && TimesInv(s) && ReportsInv(s)
  }

  lemma InitPhase(cfg: Config, r0: int, c0: int, clock: nat)
    ensures PhaseInv(cfg, r0, c0, Init(cfg, r0, c0, clock))
  {
    var s := Init(cfg, r0, c0, clock);
    CountExtremes(s.threads, Arrived);
    CountExtremes(s.threads, Completed);
  }

  lemma {:induction false} PhasePath(cfg: Config, r0: int, c0: int, s: State, acts: seq<Action>, s': State)
    requires PhaseInv(cfg, r0, c0, s) && Path(cfg, s, acts, s')
    ensures PhaseInv(cfg, r0, c0, s')
    decreases |acts|
  {
    if acts != [] {
      CounterStep(cfg, r0, c0, s, acts[0]);
      TimesStep(cfg, r0, c0, s, acts[0]);
      ReportsStep(cfg, r0, c0, s, acts[0]);
      PhasePath(cfg, r0, c0, Apply(cfg, s, acts[0]), acts[1..], s');
    }
  }

  lemma PhaseReachable(cfg: Config, r0: int, c0: int, s: State)
    requires Reachable(cfg, r0, c0, s)
    ensures PhaseInv(cfg, r0, c0, s)
  {
    var clock: nat, acts: seq<Action> :| Path(cfg, Init(cfg, r0, c0, clock), acts, s);
    InitPhase(cfg, r0, c0, clock);
    PhasePath(cfg, r0, c0, Init(cfg, r0, c0, clock), acts, s);
  }

  /**
   No subtraction in the reports underflows: in every phase, whatever it started with and however
   its wait ended, a printed report with a finish time has start + ipitime <= finish, although its
   fields are read one by one and a timed-out report is taken while the thread still writes.
   */
  lemma ReportsOrdered(cfg: Config, r0: int, c0: int, s: State, j: nat)
    requires Reachable(cfg, r0, c0, s) && j < |s.reports|
    ensures s.reports[j].finish != 0 ==> s.reports[j].start + s.reports[j].ipitime <= s.reports[j].finish
  {
    PhaseReachable(cfg, r0, c0, s);
    assert ReportOrdered(s.reports[j]);
  }

  // ---------------------------------------------------------------- a phase that starts at 0

  /** What a thread at each point of the barrier knows, when no earlier phase has left arrivals. */
  predicate BarrierPC(pc: PC, n: nat, ready: int) {
    match pc
    case SpinShould(r) => r <= ready
    case CheckReady => ready == n
    case CheckShould(r) => r == n && ready == n
    case Bug => false
    case _ => Released(Thread(pc, ZERO_ARGS)) ==> ready == n
  }

  ghost predicate BarrierInv(cfg: Config, s: State) {
    && CounterInv(cfg, 0, 0, s)
    && TimesInv(s)
    && (forall i | 0 <= i < |s.threads| :: BarrierPC(s.threads[i].pc, cfg.n, s.ready))
    && (forall i, j | 0 <= i < |s.threads| && 0 <= j < |s.threads| && HasStart(s.threads[j]) ::
          s.threads[i].args.forked <= StartTime(s.threads[j]))
  }

  /** A released thread, or one that left the spin, means the whole phase has arrived. */
  lemma AllArrived(cfg: Config, s: State)
    requires CounterInv(cfg, 0, 0, s) && s.ready == cfg.n
    ensures forall i | 0 <= i < cfg.n :: Arrived(s.threads[i])
  {
    CountExtremes(s.threads, Arrived);
  }

  /** The thread that steps: what it learns at the barrier is true of the counter. */
  lemma LocalBarrier(cfg: Config, th: Thread, ready: int, now: nat, fail: bool, delay: nat)
    requires Runnable(th.pc) && BarrierPC(th.pc, cfg.n, ready)
    requires ready + (if th.pc.Arrive? then 1 else 0) <= cfg.n
    ensures BarrierPC(LocalStep(cfg, th, ready, cfg.n, now, fail, delay).pc, cfg.n,
                      ready + if th.pc.Arrive? then 1 else 0)
  {
  }

  lemma BarrierPCsStep(cfg: Config, s: State, a: Action)
    requires BarrierInv(cfg, s) && Enabled(cfg, s, a)
    ensures var s' := Apply(cfg, s, a);
            forall i | 0 <= i < |s'.threads| :: BarrierPC(s'.threads[i].pc, cfg.n, s'.ready)
  {
    var s' := Apply(cfg, s, a);
    CounterStep(cfg, 0, 0, s, a);
    CountExtremes(s.threads, Arrived);
    CountExtremes(s'.threads, Arrived);
    if a.Run? {
      LocalBarrier(cfg, s.threads[a.i], s.ready, a.now, a.fail, a.delay);
    }
    forall i | 0 <= i < |s'.threads| ensures BarrierPC(s'.threads[i].pc, cfg.n, s'.ready) {
      assert BarrierPC(s.threads[i].pc, cfg.n, s.ready);
    }
  }

  lemma BarrierStep(cfg: Config, s: State, a: Action)
    requires BarrierInv(cfg, s) && Enabled(cfg, s, a)
    ensures BarrierInv(cfg, Apply(cfg, s, a))
  {
    var s' := Apply(cfg, s, a);
    CounterStep(cfg, 0, 0, s, a);
    TimesStep(cfg, 0, 0, s, a);
    BarrierPCsStep(cfg, s, a);
    forall i, j | 0 <= i < |s'.threads| && 0 <= j < |s'.threads| && HasStart(s'.threads[j])
      ensures s'.threads[i].args.forked <= StartTime(s'.threads[j])
    {
      ForkedBeforeStart(cfg, s, a, i, j);
    }
  }

  /** A thread's start time is fixed when it reads the clock; an arrived thread's forked is final. */
  lemma LocalStart(cfg: Config, th: Thread, ready: int, should: int, now: nat, fail: bool, delay: nat)
    requires Runnable(th.pc)
    ensures var th' := LocalStep(cfg, th, ready, should, now, fail, delay);
            && (HasStart(th') ==> Released(th) || th.pc.StartClock?)
            && (HasStart(th') && !th.pc.StartClock? ==> HasStart(th) && StartTime(th') == StartTime(th))
            && (th.pc.StartClock? ==> StartTime(th') == now)
            && (Arrived(th) ==> th'.args.forked == th.args.forked)
  {
  }

  lemma ForkedBeforeStart(cfg: Config, s: State, a: Action, i: nat, j: nat)
    requires BarrierInv(cfg, s) && Enabled(cfg, s, a) && i < cfg.n && j < cfg.n
    requires HasStart(Apply(cfg, s, a).threads[j])
    ensures Apply(cfg, s, a).threads[i].args.forked <= StartTime(Apply(cfg, s, a).threads[j])
  {
    if a.Run? {
      LocalStart(cfg, s.threads[a.i], s.ready, s.should, a.now, a.fail, a.delay);
    }
    assert BarrierPC(s.threads[j].pc, cfg.n, s.ready);
    assert Released(s.threads[j]);
    AllArrived(cfg, s);
    assert TimeInv(s.threads[i], s.clock);
    assert Arrived(s.threads[i]) && s.threads[i].args.forked <= s.clock;
  }

  lemma {:induction false} BarrierPath(cfg: Config, s: State, acts: seq<Action>, s': State)
    requires BarrierInv(cfg, s) && Path(cfg, s, acts, s')
    ensures BarrierInv(cfg, s')
    decreases |acts|
  {
    if acts != [] {
      BarrierStep(cfg, s, acts[0]);
      BarrierPath(cfg, Apply(cfg, s, acts[0]), acts[1..], s');
    }
  }

  lemma BarrierReachable(cfg: Config, s: State)
    requires Reachable(cfg, 0, 0, s)
    ensures BarrierInv(cfg, s)
  {
    var clock: nat, acts: seq<Action> :| Path(cfg, Init(cfg, 0, 0, clock), acts, s);
    InitPhase(cfg, 0, 0, clock);
    BarrierPath(cfg, Init(cfg, 0, 0, clock), acts, s);
  }

  /** No thread is past the barrier while another has not arrived, and none took the BUG return. */
  ghost predicate BarrierOk(s: State) {
    && (forall j, i | 0 <= i < |s.threads| && 0 <= j < |s.threads| && Released(s.threads[j]) ::
          Arrived(s.threads[i]))
    && (forall j | 0 <= j < |s.threads| :: !s.threads[j].pc.Bug?)
  }

  lemma BarrierInvOk(cfg: Config, s: State)
    requires BarrierInv(cfg, s)
    ensures BarrierOk(s)
  {
    CountExtremes(s.threads, Arrived);
    forall j | 0 <= j < |s.threads|
      ensures !s.threads[j].pc.Bug?
      ensures Released(s.threads[j]) ==> forall i | 0 <= i < |s.threads| :: Arrived(s.threads[i])
    {
      assert BarrierPC(s.threads[j].pc, cfg.n, s.ready);
    }
  }

  /** Barrier safety, for any number of threads and any interleaving, creation failures included. */
  lemma BarrierSafety(cfg: Config, s: State)
    requires Reachable(cfg, 0, 0, s)
    ensures BarrierOk(s)
    ensures 0 <= s.complete <= s.ready <= s.should == cfg.n
  {
    BarrierReachable(cfg, s);
    BarrierInvOk(cfg, s);
    CountExtremes(s.threads, Arrived);
    CountMonotone(s.threads, Completed, Arrived);
  }

  /**
   Timestamps across threads: every forked <= every start of the phase, and once a thread has
   completed its IPI time fits in [start, finish].
   */
  lemma TimestampOrder(cfg: Config, s: State, i: nat, j: nat)
    requires Reachable(cfg, 0, 0, s) && i < |s.threads| && j < |s.threads|
    ensures HasStart(s.threads[j]) ==> s.threads[i].args.forked <= StartTime(s.threads[j]) <= s.clock
    ensures Completed(s.threads[j]) ==>
              && s.threads[i].args.forked <= s.threads[j].args.start
              && s.threads[j].args.start + s.threads[j].args.ipitime <= s.threads[j].args.finish <= s.clock
  {
    BarrierReachable(cfg, s);
    assert TimeInv(s.threads[j], s.clock);
  }
}
