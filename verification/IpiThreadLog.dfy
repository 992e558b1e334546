/**
 What a benchmark thread has done, read off a run: every clock reading it took, every IPI it sent and
 every handler that ran for it, in order. From this log alone come the values it must have stored.
 */
module IpiThreadLog {
  import opened Sums
  import opened IpiBarrier
  import opened IpiModule

  datatype Event =
    | ForkRead(t: nat) | StartRead(t: nat)
    | Sent(t: nat) | Handled(t: nat) | SendFailed
    | FinishRead(t: nat) | DelayRead(d: nat)

  /** What a thread at `pc` learns from the world in its next step. */
  function EventsOf(pc: PC, now: nat, fail: bool, delay: nat): seq<Event> {
    match pc
    case ForkClock => [ForkRead(now)]
    case StartClock => [StartRead(now)]
    case Send(left, _) => if left == 0 then [] else [Sent(now)]
    case Handle(_, _, _) => if fail then [SendFailed] else [Handled(now)]
    case FinishClock => [FinishRead(now)]
    case DelayStore => [DelayRead(delay)]
    case _ => []
  }

  /** The events of thread i in one step of main or of a thread. */
  function StepEvents(s: State, a: Action, i: nat): seq<Event> {
    if a.Run? && a.i == i && i < |s.threads| then EventsOf(s.threads[i].pc, a.now, a.fail, a.delay) else []
  }

  lemma Assoc(a: seq<Event>, b: seq<Event>, c: seq<Event>)
    ensures a + b + c == a + (b + c)
  {
  }

  /** The events of thread i along a run of one benchmark. */
  ghost function LogOf(cfg: Config, s: State, acts: seq<Action>, s': State, i: nat): seq<Event>
    requires Path(cfg, s, acts, s')
    decreases |acts|
  {
    if acts == [] then []
    else StepEvents(s, acts[0], i) + LogOf(cfg, Apply(cfg, s, acts[0]), acts[1..], s', i)
  }

  /** IPIs one after the other, each sent at one reading and handled at another. */
  function Ipis(ps: seq<(nat, nat)>): seq<Event> {
    if ps == [] then [] else Ipis(ps[..|ps| - 1]) + [Sent(ps[|ps| - 1].0), Handled(ps[|ps| - 1].1)]
  }

  /** How long they took together; the handler counts a clock that has gone back as no time. */
  function Spent(ps: seq<(nat, nat)>): nat {
    if ps == [] then 0
    else
      var (sent, handled) := ps[|ps| - 1];
      Spent(ps[..|ps| - 1]) + if handled > sent then handled - sent else 0
  }

  function Head(ba: BenchArgs): seq<Event> {
    [ForkRead(ba.forked), StartRead(ba.start)]
  }

  /** k IPIs have been handled and took `acc`; `rest` follows them in the log. */
  ghost predicate Past(ba: BenchArgs, log: seq<Event>, k: int, acc: nat, rest: seq<Event>) {
    exists ps: seq<(nat, nat)> :: |ps| == k && Spent(ps) == acc && log == Head(ba) + Ipis(ps) + rest
  }

  /**
   The timed part is over: a broadcast thread sent no timed IPI; another one had all `loops` IPIs
   handled and stored their time, or stored none because a send failed.
   */
  ghost predicate Worked(broadcast: bool, loops: nat, ba: BenchArgs, log: seq<Event>, rest: seq<Event>) {
    if broadcast then ba.ipitime == 0 && log == Head(ba) + rest
    else
      || Past(ba, log, loops, ba.ipitime, rest)
      || (ba.ipitime == 0 && FailedIn(loops, ba, log, rest))
  }

  ghost predicate FailedIn(loops: nat, ba: BenchArgs, log: seq<Event>, rest: seq<Event>) {
    exists k: nat, acc: nat, t: nat :: k < loops && Past(ba, log, k, acc, [Sent(t), SendFailed] + rest)
  }

  /** The log against where the thread is and what it has stored. */
  ghost predicate LogInv(broadcast: bool, loops: nat, th: Thread, log: seq<Event>) {
    var ba := th.args;
    match th.pc
    case Unborn => log == [] && ba == ZERO_ARGS
    case NeverCreated => log == [] && ba == ZERO_ARGS
    case ForkClock => log == [] && ba == ZERO_ARGS
    case ForkStore(t) => log == [ForkRead(t)] && ba == ZERO_ARGS
    case StartStore(t) => log == [ForkRead(ba.forked), StartRead(t)] && ba.ipitime == 0
    case ReadDst => !broadcast && log == Head(ba) && ba.ipitime == 0
    case Send(left, acc) => !broadcast && left <= loops && ba.ipitime == 0 && Past(ba, log, loops - left, acc, [])
    case Handle(left, acc, sent) =>
      !broadcast && 0 < left <= loops && ba.ipitime == 0 && Past(ba, log, loops - left, acc, [Sent(sent)])
    case Accumulate(left, acc, diff) =>
      !broadcast && 0 < left <= loops && ba.ipitime == 0 && Past(ba, log, loops - left + 1, acc + diff, [])
    case IpiStore(acc) => !broadcast && ba.ipitime == 0 && Past(ba, log, loops, acc, [])
    case FinishClock => Worked(broadcast, loops, ba, log, [])
    case FinishStore(t) => Worked(broadcast, loops, ba, log, [FinishRead(t)])
    case DelayStore => Worked(broadcast, loops, ba, log, [FinishRead(ba.finish)])
    case Complete => Worked(broadcast, loops, ba, log, [FinishRead(ba.finish), DelayRead(ba.runDelay)])
    case Wake => Worked(broadcast, loops, ba, log, [FinishRead(ba.finish), DelayRead(ba.runDelay)])
    case Done => Worked(broadcast, loops, ba, log, [FinishRead(ba.finish), DelayRead(ba.runDelay)])
    case _ => log == [ForkRead(ba.forked)] && ba.ipitime == 0
  }

  // ---------------------------------------------------------------- every step keeps the log right

  lemma PastMore(ba: BenchArgs, log: seq<Event>, k: int, acc: nat, rest: seq<Event>, e: Event)
    requires Past(ba, log, k, acc, rest)
    ensures Past(ba, log + [e], k, acc, rest + [e])
  {
    var ps: seq<(nat, nat)> :| |ps| == k && Spent(ps) == acc && log == Head(ba) + Ipis(ps) + rest;
    assert log + [e] == Head(ba) + Ipis(ps) + (rest + [e]);
  }

  lemma PastIpi(ba: BenchArgs, log: seq<Event>, k: int, acc: nat, sent: nat, now: nat)
    requires Past(ba, log, k, acc, [Sent(sent)])
    ensures Past(ba, log + [Handled(now)], k + 1, acc + (if now > sent then now - sent else 0), [])
  {
    var ps: seq<(nat, nat)> :| |ps| == k && Spent(ps) == acc && log == Head(ba) + Ipis(ps) + [Sent(sent)];
    var more := ps + [(sent, now)];
    assert more[..|ps|] == ps;
    assert log + [Handled(now)] == Head(ba) + Ipis(more) + [];
  }

  /** Past depends on the two stored timestamps only. */
  lemma PastSame(ba: BenchArgs, ba': BenchArgs, log: seq<Event>, k: int, acc: nat, rest: seq<Event>)
    requires Past(ba, log, k, acc, rest) && Head(ba) == Head(ba')
    ensures Past(ba', log, k, acc, rest)
  {
  }

  lemma WorkedMore(broadcast: bool, loops: nat, ba: BenchArgs, log: seq<Event>, rest: seq<Event>, e: Event)
    requires Worked(broadcast, loops, ba, log, rest)
    ensures Worked(broadcast, loops, ba, log + [e], rest + [e])
  {
    if broadcast {
      assert log + [e] == Head(ba) + (rest + [e]);
    } else if Past(ba, log, loops, ba.ipitime, rest) {
      PastMore(ba, log, loops, ba.ipitime, rest, e);
    } else {
      var k: nat, acc: nat, t: nat :| k < loops && Past(ba, log, k, acc, [Sent(t), SendFailed] + rest);
      PastMore(ba, log, k, acc, [Sent(t), SendFailed] + rest, e);
      assert [Sent(t), SendFailed] + rest + [e] == [Sent(t), SendFailed] + (rest + [e]);
    }
  }

  lemma WorkedSame(broadcast: bool, loops: nat, ba: BenchArgs, ba': BenchArgs, log: seq<Event>, rest: seq<Event>)
    requires Worked(broadcast, loops, ba, log, rest) && Head(ba) == Head(ba') && ba.ipitime == ba'.ipitime
    ensures Worked(broadcast, loops, ba', log, rest)
  {
    if !broadcast {
      if Past(ba, log, loops, ba.ipitime, rest) {
        PastSame(ba, ba', log, loops, ba.ipitime, rest);
      } else {
        var k: nat, acc: nat, t: nat :| k < loops && Past(ba, log, k, acc, [Sent(t), SendFailed] + rest);
        PastSame(ba, ba', log, k, acc, [Sent(t), SendFailed] + rest);
      }
    }
  }

  lemma StartLog(cfg: Config, th: Thread, ready: int, should: int, now: nat, fail: bool, delay: nat, log: seq<Event>)
    requires Runnable(th.pc) && !HasStart(th) && LogInv(cfg.broadcast, Loops(cfg), th, log)
    ensures LogInv(cfg.broadcast, Loops(cfg), LocalStep(cfg, th, ready, should, now, fail, delay),
                   log + EventsOf(th.pc, now, fail, delay))
  {
  }

  lemma BeginLog(cfg: Config, th: Thread, ready: int, should: int, now: nat, fail: bool, delay: nat, log: seq<Event>)
    requires (th.pc.StartStore? || th.pc.ReadDst?) && LogInv(cfg.broadcast, Loops(cfg), th, log)
    ensures LogInv(cfg.broadcast, Loops(cfg), LocalStep(cfg, th, ready, should, now, fail, delay), log)
  {
    var ba, none: seq<(nat, nat)> := th.args, [];
    if th.pc.StartStore? {
      assert log == Head(ba.(start := th.pc.t)) && log + [] == log;
    } else {
      assert Spent(none) == 0 && log == Head(ba) + Ipis(none) + [];
    }
  }

  lemma SendLog(cfg: Config, th: Thread, ready: int, should: int, now: nat, fail: bool, delay: nat, log: seq<Event>)
    requires th.pc.Send? && LogInv(cfg.broadcast, Loops(cfg), th, log)
    ensures LogInv(cfg.broadcast, Loops(cfg), LocalStep(cfg, th, ready, should, now, fail, delay),
                   log + EventsOf(th.pc, now, fail, delay))
  {
    assert log + [] == log;
    if th.pc.left > 0 {
      PastMore(th.args, log, Loops(cfg) - th.pc.left, th.pc.acc, [], Sent(now));
      assert [] + [Sent(now)] == [Sent(now)];
    }
  }

  lemma HandleLog(cfg: Config, th: Thread, ready: int, should: int, now: nat, fail: bool, delay: nat, log: seq<Event>)
    requires th.pc.Handle? && LogInv(cfg.broadcast, Loops(cfg), th, log)
    ensures LogInv(cfg.broadcast, Loops(cfg), LocalStep(cfg, th, ready, should, now, fail, delay),
                   log + EventsOf(th.pc, now, fail, delay))
  {
    var k, sent := Loops(cfg) - th.pc.left, Sent(th.pc.sent);
    if fail {
      PastMore(th.args, log, k, th.pc.acc, [sent], SendFailed);
      assert [sent] + [SendFailed] == [sent, SendFailed] + [];
      assert FailedIn(Loops(cfg), th.args, log + [SendFailed], []);
    } else {
      PastIpi(th.args, log, k, th.pc.acc, th.pc.sent, now);
    }
  }

  lemma SumLog(cfg: Config, th: Thread, ready: int, should: int, now: nat, fail: bool, delay: nat, log: seq<Event>)
    requires (th.pc.Accumulate? || th.pc.IpiStore?) && LogInv(cfg.broadcast, Loops(cfg), th, log)
    ensures LogInv(cfg.broadcast, Loops(cfg), LocalStep(cfg, th, ready, should, now, fail, delay), log)
  {
    if th.pc.IpiStore? {
      PastSame(th.args, th.args.(ipitime := th.pc.acc), log, Loops(cfg), th.pc.acc, []);
    }
  }

  lemma FinishLog(cfg: Config, th: Thread, ready: int, should: int, now: nat, fail: bool, delay: nat, log: seq<Event>)
    requires Runnable(th.pc) && HasStart(th) && !InIpiLoop(th.pc) && !th.pc.StartStore? && !th.pc.ReadDst?
    requires LogInv(cfg.broadcast, Loops(cfg), th, log)
    ensures LogInv(cfg.broadcast, Loops(cfg), LocalStep(cfg, th, ready, should, now, fail, delay),
                   log + EventsOf(th.pc, now, fail, delay))
  {
    var ba, loops := th.args, Loops(cfg);
    assert log + [] == log;
    match th.pc
    case FinishClock =>
      WorkedMore(cfg.broadcast, loops, ba, log, [], FinishRead(now));
      assert [] + [FinishRead(now)] == [FinishRead(now)];
    case FinishStore(t) =>
      WorkedSame(cfg.broadcast, loops, ba, ba.(finish := t), log, [FinishRead(t)]);
    case DelayStore =>
      WorkedMore(cfg.broadcast, loops, ba, log, [FinishRead(ba.finish)], DelayRead(delay));
      assert [FinishRead(ba.finish)] + [DelayRead(delay)] == [FinishRead(ba.finish), DelayRead(delay)];
      WorkedSame(cfg.broadcast, loops, ba, ba.(runDelay := delay), log + [DelayRead(delay)],
                 [FinishRead(ba.finish), DelayRead(delay)]);
    case _ =>
  }

  lemma LogStep(cfg: Config, th: Thread, ready: int, should: int, now: nat, fail: bool, delay: nat, log: seq<Event>)
    requires Runnable(th.pc) && LogInv(cfg.broadcast, Loops(cfg), th, log)
    ensures LogInv(cfg.broadcast, Loops(cfg), LocalStep(cfg, th, ready, should, now, fail, delay),
                   log + EventsOf(th.pc, now, fail, delay))
  {
    assert log + [] == log;
    if !HasStart(th) {
      StartLog(cfg, th, ready, should, now, fail, delay, log);
    } else if th.pc.StartStore? || th.pc.ReadDst? {
      BeginLog(cfg, th, ready, should, now, fail, delay, log);
    } else if th.pc.Send? {
      SendLog(cfg, th, ready, should, now, fail, delay, log);
    } else if th.pc.Handle? {
      HandleLog(cfg, th, ready, should, now, fail, delay, log);
    } else if th.pc.Accumulate? || th.pc.IpiStore? {
      SumLog(cfg, th, ready, should, now, fail, delay, log);
    } else {
      FinishLog(cfg, th, ready, should, now, fail, delay, log);
    }
  }

  lemma LogAct(cfg: Config, s: State, a: Action, i: nat, log: seq<Event>)
    requires Enabled(cfg, s, a) && i < |s.threads| && LogInv(cfg.broadcast, Loops(cfg), s.threads[i], log)
    requires a.Spawn? ==> s.threads[s.main.k].pc.Unborn?
    ensures i < |Apply(cfg, s, a).threads|
    ensures LogInv(cfg.broadcast, Loops(cfg), Apply(cfg, s, a).threads[i], log + StepEvents(s, a, i))
  {
    if a.Run? && a.i == i {
      LogStep(cfg, s.threads[i], s.ready, s.should, a.now, a.fail, a.delay, log);
    } else {
      assert log + StepEvents(s, a, i) == log;
    }
  }

  lemma {:induction false} LogPath(cfg: Config, s: State, acts: seq<Action>, s': State, i: nat, log: seq<Event>)
    requires Path(cfg, s, acts, s') && i < |s.threads| && LogInv(cfg.broadcast, Loops(cfg), s.threads[i], log)
    requires forall k | 0 <= k < |s.threads| && s.main.Spawning? && s.main.k <= k :: s.threads[k].pc.Unborn?
    ensures i < |s'.threads|
    ensures LogInv(cfg.broadcast, Loops(cfg), s'.threads[i], log + LogOf(cfg, s, acts, s', i))
    decreases |acts|
  {
    if acts == [] {
      assert log + [] == log;
    } else {
      var m := Apply(cfg, s, acts[0]);
      LogAct(cfg, s, acts[0], i, log);
      LogPath(cfg, m, acts[1..], s', i, log + StepEvents(s, acts[0], i));
      Assoc(log, StepEvents(s, acts[0], i), LogOf(cfg, m, acts[1..], s', i));
    }
  }

  predicate Stored(pc: PC) { pc.Complete? || pc.Wake? || pc.Done? }

  /**
   What a thread has stored is what it did, in every run of a benchmark whatever counters it starts
   with: it read the clock when it was forked and when it started, then, unless it is a broadcast
   thread, it sent and handled exactly the asked number of IPIs one after the other and stored the sum
   of their times, or one send failed and it stored none; then it read the finish time and the delay.
   A thread that took the BUG return did nothing after the first reading.
   */
  lemma ThreadDid(cfg: Config, r0: int, c0: int, clock: nat, acts: seq<Action>, s: State, i: nat)
    requires Path(cfg, Init(cfg, r0, c0, clock), acts, s) && i < |s.threads|
    ensures var log, ba := LogOf(cfg, Init(cfg, r0, c0, clock), acts, s, i), s.threads[i].args;
            && (s.threads[i].pc.Bug? ==> log == [ForkRead(ba.forked)])
            && (Stored(s.threads[i].pc) ==> ThreadLog(cfg.broadcast, Loops(cfg), ba, log))
  {
    var s0 := Init(cfg, r0, c0, clock);
    KeepsSize(cfg, s0, acts, s);
    LogPath(cfg, s0, acts, s, i, []);
    var log := LogOf(cfg, s0, acts, s, i);
    assert [] + log == log;
    if Stored(s.threads[i].pc) {
      WorkedMeans(cfg.broadcast, Loops(cfg), s.threads[i].args, log);
    }
  }

  lemma {:induction false} KeepsSize(cfg: Config, s: State, acts: seq<Action>, s': State)
    requires Path(cfg, s, acts, s')
    ensures |s'.threads| == |s.threads|
    decreases |acts|
  {
    if acts != [] {
      KeepsSize(cfg, Apply(cfg, s, acts[0]), acts[1..], s');
    }
  }

  /** The whole log of a thread that has stored everything, spelled out. */
  ghost predicate ThreadLog(broadcast: bool, loops: nat, ba: BenchArgs, log: seq<Event>) {
    exists ps: seq<(nat, nat)>, failed: seq<Event> ::
      log == Head(ba) + Ipis(ps) + (failed + Tail(ba)) && Outcome(broadcast, loops, ba, ps, failed)
  }

  function Tail(ba: BenchArgs): seq<Event> {
    [FinishRead(ba.finish), DelayRead(ba.runDelay)]
  }

  predicate Outcome(broadcast: bool, loops: nat, ba: BenchArgs, ps: seq<(nat, nat)>, failed: seq<Event>) {
    if failed == [] then |ps| == (if broadcast then 0 else loops) && ba.ipitime == Spent(ps)
    else !broadcast && |ps| < loops && ba.ipitime == 0 && |failed| == 2 && failed[0].Sent? && failed[1] == SendFailed
  }

  lemma WorkedMeans(broadcast: bool, loops: nat, ba: BenchArgs, log: seq<Event>)
    requires Worked(broadcast, loops, ba, log, Tail(ba))
    ensures ThreadLog(broadcast, loops, ba, log)
  {
    var none: seq<(nat, nat)> := [];
    assert [] + Tail(ba) == Tail(ba);
    if broadcast {
      assert Head(ba) + Ipis(none) == Head(ba);
      assert Outcome(broadcast, loops, ba, none, []);
    } else if Past(ba, log, loops, ba.ipitime, Tail(ba)) {
      var ps: seq<(nat, nat)> :| |ps| == loops && Spent(ps) == ba.ipitime && log == Head(ba) + Ipis(ps) + Tail(ba);
      assert Outcome(broadcast, loops, ba, ps, []);
    } else {
      FailedMeans(loops, ba, log);
    }
  }

  lemma FailedMeans(loops: nat, ba: BenchArgs, log: seq<Event>)
    requires ba.ipitime == 0 && FailedIn(loops, ba, log, Tail(ba))
    ensures ThreadLog(false, loops, ba, log)
  {
    var k: nat, acc: nat, t: nat :| k < loops && Past(ba, log, k, acc, [Sent(t), SendFailed] + Tail(ba));
    var failed := [Sent(t), SendFailed];
    var ps: seq<(nat, nat)> :| |ps| == k && Spent(ps) == acc && log == Head(ba) + Ipis(ps) + (failed + Tail(ba));
    assert Outcome(false, loops, ba, ps, failed);
  }

  // ---------------------------------------------------------------- in a whole run of the module

  function NewEvents(w: World, st: Step, x: nat): seq<Event> {
    match st
    case Do(a) => StepEvents(w.s, a, x)
    case Next => []
  }

  /** The events of thread x along a run of the module; there are none before it exists. */
  ghost function ModuleLogOf(p: Module, w: World, steps: seq<Step>, w': World, x: nat): seq<Event>
    requires WellFormed(p, w) && Trace(p, w, steps, w')
    decreases |steps|
  {
    if steps == [] then []
    else NewEvents(w, steps[0], x) + ModuleLogOf(p, After(p, w, steps[0]), steps[1..], w', x)
  }

  ghost predicate LogSoFar(p: Module, w: World, x: nat, log: seq<Event>) {
    if x < |w.owner| then
      && x < |w.s.threads| && w.owner[x] < |p.benches|
      && LogInv(p.benches[w.owner[x]].broadcast, Loops(Config(0, p.loops, false)), w.s.threads[x], log)
    else log == []
  }

  lemma LogSoFarRun(p: Module, w: World, a: Action, log: seq<Event>)
    requires OwnerInv(p, w) && CanDo(p, w, Do(a)) && a.Run? && LogSoFar(p, w, a.i, log)
    ensures LogSoFar(p, After(p, w, Do(a)), a.i, log + EventsOf(w.s.threads[a.i].pc, a.now, a.fail, a.delay))
  {
    DoFrame(p, w, a);
    LogStep(ConfigOf(p, w, w.owner[a.i]), w.s.threads[a.i], w.s.ready, w.s.should, a.now, a.fail, a.delay, log);
  }

  lemma LogSoFarElse(p: Module, w: World, a: Action, x: nat, log: seq<Event>)
    requires OwnerInv(p, w) && CanDo(p, w, Do(a)) && !(a.Run? && a.i == x) && LogSoFar(p, w, x, log)
    ensures LogSoFar(p, After(p, w, Do(a)), x, log)
  {
    DoFrame(p, w, a);
  }

  lemma LogSoFarNext(p: Module, w: World, x: nat, log: seq<Event>)
    requires OwnerInv(p, w) && CanDo(p, w, Next) && LogSoFar(p, w, x, log)
    ensures LogSoFar(p, After(p, w, Next), x, log)
  {
  }

  lemma LogSoFarStep(p: Module, w: World, st: Step, x: nat, log: seq<Event>)
    requires OwnerInv(p, w) && CanDo(p, w, st) && LogSoFar(p, w, x, log)
    ensures LogSoFar(p, After(p, w, st), x, log + NewEvents(w, st, x))
  {
    match st
    case Do(a) =>
      if a.Run? && a.i == x {
        LogSoFarRun(p, w, a, log);
      } else {
        LogSoFarElse(p, w, a, x, log);
        assert log + [] == log;
      }
    case Next =>
      LogSoFarNext(p, w, x, log);
      assert log + [] == log;
  }

  lemma {:induction false} ModuleLogTrace(p: Module, w: World, steps: seq<Step>, w': World, x: nat, log: seq<Event>)
    requires OwnerInv(p, w) && Trace(p, w, steps, w') && LogSoFar(p, w, x, log)
    ensures LogSoFar(p, w', x, log + ModuleLogOf(p, w, steps, w', x))
    decreases |steps|
  {
    if steps == [] {
      assert log + [] == log;
    } else {
      var m := After(p, w, steps[0]);
      LogSoFarStep(p, w, steps[0], x, log);
      OwnerStep(p, w, steps[0]);
      ModuleLogTrace(p, m, steps[1..], w', x, log + NewEvents(w, steps[0], x));
      Assoc(log, NewEvents(w, steps[0], x), ModuleLogOf(p, m, steps[1..], w', x));
    }
  }

  lemma Asked(p: Module, w: World, x: nat, log: seq<Event>)
    requires WellFormed(p, w) && x < |w.s.threads| && LogSoFar(p, w, x, log) && Stored(w.s.threads[x].pc)
    ensures ThreadLog(p.benches[w.owner[x]].broadcast, Asks(p), w.s.threads[x].args, log)
  {
    WorkedMeans(p.benches[w.owner[x]].broadcast, Asks(p), w.s.threads[x].args, log);
  }

  function Asks(p: Module): nat { if p.loops > 0 then p.loops else 0 }

  /** The same in every run of the module: each thread did what its own benchmark asked for. */
  lemma ModuleThreadDid(p: Module, clock: nat, steps: seq<Step>, w: World, x: nat)
    requires Trace(p, Loaded(clock), steps, w) && x < |w.s.threads|
    ensures x < |w.owner| && w.owner[x] < |p.benches|
    ensures Stored(w.s.threads[x].pc) ==>
              ThreadLog(p.benches[w.owner[x]].broadcast, Asks(p), w.s.threads[x].args,
                        ModuleLogOf(p, Loaded(clock), steps, w, x))
  {
    var log := ModuleLogOf(p, Loaded(clock), steps, w, x);
    assert p.benches[..0] == [];
    InvTrace(p, Loaded(clock), steps, w);
    ModuleLogTrace(p, Loaded(clock), steps, w, x, []);
    assert [] + log == log;
    if Stored(w.s.threads[x].pc) {
      Asked(p, w, x, log);
    }
  }
}
