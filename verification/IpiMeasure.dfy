/**
 What one single-IPI thread measures: the loop of ipi_bench_one with wait = 1 between the start and
 finish readings, and the averages the report derives. The clock is an arbitrary stream of readings
 that never goes back; the IPI handler runs between the send and its return.
 */
module IpiMeasure {
  import Protocol = IpiBarrier

  const TWO_64: int := 0x1_0000_0000_0000_0000

  ghost predicate Monotone(at: nat -> nat) {
    forall i, j | 0 <= i <= j :: at(i) <= at(j)
  }

  class Clock {
    const at: nat -> nat
    var pos: nat

    constructor (at: nat -> nat)
      ensures this.at == at && pos == 0
    {
      this.at := at;
      pos := 0;
    }

    method GetTime() returns (t: nat)
      modifies this`pos
      ensures t == at(old(pos)) && pos == old(pos) + 1
    {
      t := at(pos);
      pos := pos + 1;
    }
  }

  class BenchArgs {
    var start: nat
    var finish: nat
    var ipitime: nat

    constructor ()
      ensures start == finish == ipitime == 0
    {
      start, finish, ipitime := 0, 0, 0;
    }
  }

  function Diff(sent: nat, now: nat): nat {
    if now > sent then now - sent else 0
  }

  /** Time of the first k IPIs, each sent at one reading and handled at the next. */
  function IpiTime(at: nat -> nat, p: nat, k: nat): nat {
    if k == 0 then 0 else IpiTime(at, p, k - 1) + Diff(at(p + 2 * k - 2), at(p + 2 * k - 1))
  }

  /** The intervals are disjoint and in order, so their lengths add up to no more than the whole. */
  lemma {:induction false} IpiTimeFits(at: nat -> nat, p: nat, k: nat)
    requires Monotone(at) && 0 < k
    ensures at(p) + IpiTime(at, p, k) <= at(p + 2 * k - 1)
  {
    if k > 1 {
      IpiTimeFits(at, p, k - 1);
      assert at(p + 2 * k - 3) <= at(p + 2 * k - 2) <= at(p + 2 * k - 1);
    } else {
      assert at(p) <= at(p + 1);
    }
  }

  /** Reads the clock and sends; if the send succeeds the handler reads the clock again. */
  method SendOne(clock: Clock, ret: int) returns (diff: nat)
    modifies clock`pos
    ensures clock.pos == old(clock.pos) + (if ret < 0 then 1 else 2)
    ensures ret >= 0 ==> diff == Diff(clock.at(old(clock.pos)), clock.at(old(clock.pos) + 1))
  {
    var sent := clock.GetTime();
    if ret < 0 {
      return 0;
    }
    var now := clock.GetTime();
    diff := Diff(sent, now);
  }

  /**
   Sends `loops` IPIs and adds up what the handlers measured; rets(k) is what the k-th send returned.
   The first failed send ends it before anything is stored.
   */
  method IpiBenchOne(ba: BenchArgs, clock: Clock, loops: int, rets: nat -> int)
    returns (ret: int, ghost done: nat)
    modifies ba`ipitime, clock`pos
    ensures clock.pos == old(clock.pos) + 2 * done + (if ret < 0 then 1 else 0)
    ensures forall i: nat | i < done :: rets(i) >= 0
    ensures ret < 0 ==> done < loops && ret == rets(done) && ba.ipitime == old(ba.ipitime)
    ensures ret >= 0 ==>
              ret == 0 && done == (if loops > 0 then loops else 0)
              && ba.ipitime == IpiTime(clock.at, old(clock.pos), done)
  {
    var ipitime: nat := 0;
    var loop := loops;
    done := 0;
    ghost var p := clock.pos;
    while loop > 0
      invariant loop == loops - done && (loops > 0 ==> done <= loops) && (loops <= 0 ==> done == 0)
      invariant clock.pos == p + 2 * done
      invariant ipitime == IpiTime(clock.at, p, done)
      invariant forall i: nat | i < done :: rets(i) >= 0
      invariant ba.ipitime == old(ba.ipitime)
    {
      ret := rets(loops - loop);
      var diff := SendOne(clock, ret);
      if ret < 0 {
        return;
      }
      ipitime := ipitime + diff;
      loop := loop - 1;
      done := done + 1;
    }
    ba.ipitime := ipitime;
    ret := 0;
  }

  // ---------------------------------------------------------------- the measurement as steps of the protocol

  /** State s', reached from s by `acts`, differs from s in thread i and the clock only. */
  ghost predicate Solo(cfg: Protocol.Config, s: Protocol.State, i: nat, acts: seq<Protocol.Action>, s': Protocol.State,
                       th: Protocol.Thread, clock: nat)
  {
    && Protocol.Path(cfg, s, acts, s') && i < |s.threads|
    && s' == s.(threads := s.threads[i := th], clock := clock)
  }

  /** A thread that is past the barrier and has not completed. */
  predicate Measuring(pc: Protocol.PC) {
    pc.StartClock? || pc.StartStore? || pc.ReadDst? || pc.Send? || pc.Handle? || pc.Accumulate? || pc.IpiStore?
    || pc.FinishClock? || pc.FinishStore?
  }

  lemma SoloStep(cfg: Protocol.Config, s: Protocol.State, i: nat, acts: seq<Protocol.Action>, s': Protocol.State,
                 th: Protocol.Thread, clock: nat, now: nat, fail: bool)
    returns (acts': seq<Protocol.Action>, s'': Protocol.State)
    requires Solo(cfg, s, i, acts, s', th, clock) && clock <= now && Measuring(th.pc)
    ensures Solo(cfg, s, i, acts', s'', Protocol.LocalStep(cfg, th, s.ready, s.should, now, fail, 0),
                 if Protocol.ReadsClock(th.pc, fail) then now else clock)
  {
    var a := Protocol.Run(i, now, fail, 0);
    Protocol.PathExtend(cfg, s, acts, s', a);
    acts', s'' := acts + [a], Protocol.Apply(cfg, s', a);
  }

  function At(ba: Protocol.BenchArgs, pc: Protocol.PC): Protocol.Thread { Protocol.Thread(pc, ba) }

  /** One IPI: sent at one clock reading, handled at the next, added up. */
  lemma OneIpi(cfg: Protocol.Config, s: Protocol.State, i: nat, acts: seq<Protocol.Action>, s': Protocol.State,
               ba: Protocol.BenchArgs, left: nat, acc: nat, clock: nat, sent: nat, now: nat)
    returns (acts': seq<Protocol.Action>, s'': Protocol.State)
    requires Solo(cfg, s, i, acts, s', At(ba, Protocol.Send(left, acc)), clock) && 0 < left && clock <= sent <= now
    ensures Solo(cfg, s, i, acts', s'', At(ba, Protocol.Send(left - 1, acc + Diff(sent, now))), now)
  {
    acts', s'' := SoloStep(cfg, s, i, acts, s', At(ba, Protocol.Send(left, acc)), clock, sent, false);
    acts', s'' := SoloStep(cfg, s, i, acts', s'', At(ba, Protocol.Handle(left, acc, sent)), sent, now, false);
    acts', s'' := SoloStep(cfg, s, i, acts', s'', At(ba, Protocol.Accumulate(left, acc, Diff(sent, now))), now, now,
                           false);
  }

  /** From the start reading to the first send. */
  lemma ToLoop(cfg: Protocol.Config, s: Protocol.State, i: nat, start: nat)
    returns (acts: seq<Protocol.Action>, s': Protocol.State)
    requires i < |s.threads| && s.threads[i].pc.StartClock? && !cfg.broadcast && s.clock <= start
    ensures Solo(cfg, s, i, acts, s', At(s.threads[i].args.(start := start), Protocol.Send(Protocol.Loops(cfg), 0)),
                 start)
  {
    var ba := s.threads[i].args;
    assert s.threads == s.threads[i := s.threads[i]];
    acts, s' := SoloStep(cfg, s, i, [], s, At(ba, Protocol.StartClock), s.clock, start, false);
    acts, s' := SoloStep(cfg, s, i, acts, s', At(ba, Protocol.StartStore(start)), start, start, false);
    acts, s' := SoloStep(cfg, s, i, acts, s', At(ba.(start := start), Protocol.ReadDst), start, start, false);
  }

  lemma {:induction false} FirstIpis(cfg: Protocol.Config, s: Protocol.State, i: nat, at: nat -> nat, p: nat, k: nat)
    returns (acts: seq<Protocol.Action>, s': Protocol.State, clock: nat)
    requires i < |s.threads| && s.threads[i].pc.StartClock? && !cfg.broadcast && Monotone(at) && s.clock <= at(p)
    requires k <= Protocol.Loops(cfg)
    ensures Solo(cfg, s, i, acts, s', At(s.threads[i].args.(start := at(p)),
                                         Protocol.Send(Protocol.Loops(cfg) - k, IpiTime(at, p + 1, k))), clock)
    ensures clock <= at(p + 1 + 2 * k)
  {
    var ba := s.threads[i].args.(start := at(p));
    if k == 0 {
      acts, s' := ToLoop(cfg, s, i, at(p));
      clock := at(p);
    } else {
      acts, s', clock := FirstIpis(cfg, s, i, at, p, k - 1);
      var sent, now := at(p + 1 + 2 * k - 2), at(p + 1 + 2 * k - 1);
      assert clock <= sent <= now <= at(p + 1 + 2 * k);
      acts, s' := OneIpi(cfg, s, i, acts, s', ba, Protocol.Loops(cfg) - (k - 1), IpiTime(at, p + 1, k - 1), clock,
                         sent, now);
      clock := now;
    }
  }

  lemma ToFinish(cfg: Protocol.Config, s: Protocol.State, i: nat, acts: seq<Protocol.Action>, s': Protocol.State,
                 ba: Protocol.BenchArgs, clock: nat, finish: nat)
    returns (acts': seq<Protocol.Action>, s'': Protocol.State)
    requires Solo(cfg, s, i, acts, s', At(ba, Protocol.FinishClock), clock) && clock <= finish
    ensures Solo(cfg, s, i, acts', s'', At(ba.(finish := finish), Protocol.DelayStore), finish)
  {
    acts', s'' := SoloStep(cfg, s, i, acts, s', At(ba, Protocol.FinishClock), clock, finish, false);
    acts', s'' := SoloStep(cfg, s, i, acts', s'', At(ba, Protocol.FinishStore(finish)), finish, finish, false);
  }

  lemma LeaveLoop(cfg: Protocol.Config, s: Protocol.State, i: nat, acts: seq<Protocol.Action>, s': Protocol.State,
                  ba: Protocol.BenchArgs, left: nat, acc: nat, clock: nat, sent: nat)
    returns (acts': seq<Protocol.Action>, s'': Protocol.State, clock': nat)
    requires Solo(cfg, s, i, acts, s', At(ba, Protocol.Send(left, acc)), clock) && clock <= sent
    ensures clock' <= sent && Solo(cfg, s, i, acts', s'', At(if left > 0 then ba else ba.(ipitime := acc),
                                                             Protocol.FinishClock), clock')
  {
    acts', s'' := SoloStep(cfg, s, i, acts, s', At(ba, Protocol.Send(left, acc)), clock, sent, false);
    if left > 0 {
      clock' := sent;
      acts', s'' := SoloStep(cfg, s, i, acts', s'', At(ba, Protocol.Handle(left, acc, sent)), sent, sent, true);
    } else {
      clock' := clock;
      acts', s'' := SoloStep(cfg, s, i, acts', s'', At(ba, Protocol.IpiStore(acc)), clock, clock, false);
    }
  }

  /**
   Every outcome of Measure is a run of a protocol thread: let through the barrier, with the same clock
   readings, it stores the same start, does `done` IPIs, stores their sum or, if the next send fails,
   leaves ipitime as it was, and stores the same finish.
   */
  lemma MeasureIsProtocolRun(cfg: Protocol.Config, s: Protocol.State, i: nat, at: nat -> nat, p: nat,
                             done: nat, fails: bool)
    returns (acts: seq<Protocol.Action>, s': Protocol.State)
    requires i < |s.threads| && s.threads[i].pc.StartClock? && !cfg.broadcast && Monotone(at) && s.clock <= at(p)
    requires if fails then done < Protocol.Loops(cfg) else done == Protocol.Loops(cfg)
    ensures var ba, last := s.threads[i].args, p + 1 + 2 * done + if fails then 1 else 0;
            Solo(cfg, s, i, acts, s',
                 At(ba.(start := at(p), ipitime := if fails then ba.ipitime else IpiTime(at, p + 1, done),
                        finish := at(last)), Protocol.DelayStore), at(last))
  {
    var clock;
    acts, s', clock := FirstIpis(cfg, s, i, at, p, done);
    var ba, q := s.threads[i].args.(start := at(p)), p + 1 + 2 * done;
    acts, s', clock := LeaveLoop(cfg, s, i, acts, s', ba, Protocol.Loops(cfg) - done, IpiTime(at, p + 1, done), clock,
                                 at(q));
    assert at(q) <= at(q + 1);
    var ba' := if fails then ba else ba.(ipitime := IpiTime(at, p + 1, done));
    acts, s' := ToFinish(cfg, s, i, acts, s', ba', clock, at(if fails then q + 1 else q));
  }

  /** start, the loop, finish: whatever the loop count and whether or not a send fails. */
  method Measure(ba: BenchArgs, clock: Clock, loops: int, rets: nat -> int)
    requires Monotone(clock.at) && ba.ipitime == 0
    modifies ba, clock`pos
    ensures ba.start == clock.at(old(clock.pos)) && clock.pos > old(clock.pos) + 1
    ensures ba.finish == clock.at(clock.pos - 1)
    ensures ba.start + ba.ipitime <= ba.finish
  {
    ba.start := clock.GetTime();
    ghost var p := clock.pos;
    var ret, done := IpiBenchOne(ba, clock, loops, rets);
    if ret >= 0 && done > 0 {
      IpiTimeFits(clock.at, p, done);
    }
    ba.finish := clock.GetTime();
  }

  type i32 = x: int | -0x8000_0000 <= x < 0x8000_0000
  type u64 = x: int | 0 <= x < TWO_64

  datatype Report = TooManyLoops | DivisionByZero | Averages(elapsed: u64, call: int, ipi: int)

  /** `elapsed / loops` divides an unsigned long by an int: a negative count is taken modulo 2^64. */
  function Divisor(loops: i32): (d: nat)
    ensures d == 0 <==> loops == 0
    ensures d < TWO_64 && (d - loops) % TWO_64 == 0
  {
    if loops >= 0 then loops else TWO_64 + loops
  }

  /** ipi_bench_report_single, for any values the thread may have left, in unsigned arithmetic. */
  function ReportSingle(start: u64, finish: u64, ipitime: u64, runDelay: u64, loops: i32): Report {
    var whole := (finish - start) % TWO_64;
    if finish == 0 then TooManyLoops
    else if loops == 0 then DivisionByZero
    else
      var elapsed := if whole > runDelay then whole - runDelay else whole;
      Averages(elapsed, elapsed / Divisor(loops), ipitime / Divisor(loops))
  }

  /** If q were at least r + 1, then a = d*q + x would not be at most b = d*r + y with y < d. */
  lemma QuotientOrder(d: int, q: int, r: int, x: int, y: int)
    requires 0 < d && 0 <= x && y < d && d * q + x <= d * r + y
    ensures q <= r
  {
    assert r + 1 <= q ==> 0 <= d * (q - r - 1);
  }

  lemma DivMonotone(a: nat, b: nat, d: nat)
    requires a <= b && 0 < d
    ensures a / d <= b / d
  {
    QuotientOrder(d, a / d, b / d, a % d, b % d);
  }

  /** avg times n fits in total, and one more time does not. */
  predicate IsAverage(avg: int, total: int, n: int) {
    avg * n <= total < (avg + 1) * n
  }

  lemma Division(a: nat, d: nat)
    requires 0 < d
    ensures IsAverage(a / d, a, d)
  {
    assert a == d * (a / d) + a % d;
    assert (a / d + 1) * d == d * (a / d) + d;
  }

  /**
   With the thread's ordered values elapsed never leaves [0, finish - start], and the IPI time fits in
   it, so that the average IPI does not exceed the average call, exactly unless subtracting run_delay
   takes it below. The averages are per loop, rounded down; a negative loop count divides by 2^64 more.
   */
  lemma ReportedAverages(start: u64, finish: u64, ipitime: u64, runDelay: u64, loops: i32)
    requires start + ipitime <= finish
    ensures var r, whole := ReportSingle(start, finish, ipitime, runDelay, loops), finish - start;
            && (r.TooManyLoops? <==> finish == 0) && (r.Averages? <==> finish != 0 && loops != 0)
            && (r.Averages? ==>
                  && r.elapsed <= whole && (ipitime <= r.elapsed ==> r.ipi <= r.call)
                  && (ipitime <= r.elapsed <==>
                        runDelay == 0 || whole <= runDelay || ipitime <= whole - runDelay)
                  && (r.elapsed == whole || r.elapsed + runDelay == whole)
                  && (r.elapsed == whole <==> runDelay == 0 || whole <= runDelay)
                  && (loops > 0 ==> IsAverage(r.call, r.elapsed, loops) && IsAverage(r.ipi, ipitime, loops))
                  && (loops < 0 ==> IsAverage(r.call, r.elapsed, TWO_64 + loops)
                                    && IsAverage(r.ipi, ipitime, TWO_64 + loops)))
  {
    var whole := finish - start;
    NoUnderflow(start, finish);
    if loops != 0 {
      var r := ReportSingle(start, finish, ipitime, runDelay, loops);
      assert Divisor(loops) == if loops > 0 then loops else TWO_64 + loops;
      if r.Averages? {
        Division(r.elapsed, Divisor(loops));
        Division(ipitime, Divisor(loops));
      }
      DivMonotone(ipitime, whole, Divisor(loops));
      if whole > runDelay && ipitime <= whole - runDelay {
        DivMonotone(ipitime, whole - runDelay, Divisor(loops));
      }
    }
  }

  lemma NoUnderflow(start: u64, finish: u64)
    requires start <= finish
    ensures (finish - start) % TWO_64 == finish - start
  {
  }

  /** Subtracting run_delay can put the reported call below the reported IPI. */
  lemma RunDelayInverts()
    ensures ReportSingle(10, 20, 10, 5, 1) == Averages(5, 5, 10)
  {
    assert Divisor(1) == 1;
  }
}
