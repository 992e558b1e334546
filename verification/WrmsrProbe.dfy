/**
 The kvmwrmsr probe run by one CPU at a time (debug/kvmwrmsr/kvmwrmsr.c and msr.h), from the end of
 probe_init on. Printing appends to a log. Class counters are 64 bits wide in the kernel; they are
 taken as unbounded here.
 */
module WrmsrProbe {
  import opened Sums
  import opened MsrClass
  import opened OtherTable

  const REPORT_NS: int := 1_000_000_000

  datatype Report = Report(time: int, total: nat, lines: seq<nat>, others: seq<Slot>)

  datatype Engine = Engine(counters: seq<nat>, table: seq<Slot>, total: nat, ktime: int, log: seq<Report>)

  predicate WellFormed(e: Engine) {
    |e.counters| == CLASSES && |e.table| == SLOTS
  }

  function NoCounts(): (c: seq<nat>)
    ensures |c| == CLASSES
  {
    Zeros(CLASSES)
  }

  function Start(ktime: int): (e: Engine)
    ensures WellFormed(e)
  {
    Engine(NoCounts(), Empty(), 0, ktime, [])
  }

  /** atomic_long_inc(&total_wrmsr); record_wrmsr(msr) */
  function Count1(e: Engine, msr: u32): (e': Engine)
    requires WellFormed(e)
    ensures WellFormed(e')
  {
    var k := Ordinal(RecordClass(msr));
    e.(total := e.total + 1,
       counters := e.counters[k := e.counters[k] + 1],
       table := if RecordClass(msr) == Others then Insert(e.table, msr) else e.table)
  }

  /** Print everything, reset everything, remember the time. */
  function ShowAndReset(e: Engine, now: int): (e': Engine)
    requires WellFormed(e)
    ensures WellFormed(e')
  {
    Engine(NoCounts(), Empty(), 0, now, e.log + [Report(now, e.total, Lines(e.counters), Rows(e.table))])
  }

  /** One probe hit with showing_lock free. */
  function Hit(e: Engine, msr: u32, now: int): (e': Engine)
    requires WellFormed(e)
    ensures WellFormed(e')
  {
    var e1 := Count1(e, msr);
    if now - e.ktime > REPORT_NS then ShowAndReset(e1, now) else e1
  }

  // ---------------------------------------------------------------- the module's static variables

  class WrmsrStats {
    const counters: array<nat>
    const other: OtherMsrs
    var total: nat
    var ktime: int
    var held: bool            // showing_lock
    ghost var log: seq<Report>

    ghost predicate Valid()
      reads this
    {
      counters.Length == CLASSES && other.slots.Length == SLOTS
    }

    ghost function State(): Engine
      requires Valid()
      reads this, counters, other.slots
    {
      Engine(counters[..], other.slots[..], total, ktime, log)
    }

    constructor (now: int)
      ensures Valid() && State() == Start(now) && !held
      ensures fresh(counters) && fresh(other) && fresh(other.slots)
    {
      counters := new nat[CLASSES](_ => 0);
      other := new OtherMsrs();
      total, ktime, held, log := 0, now, false, [];
      new;
      assert counters[..] == NoCounts();
    }

    method RecordWrmsr(msr: u32)
      requires Valid()
      modifies counters, other.slots
      ensures State() == Count1(old(State()), msr).(total := old(total))
    {
      var c := RecordClass(msr);
      counters[Ordinal(c)] := counters[Ordinal(c)] + 1;
      if c == Others {
        other.RecordOther(msr);
      }
    }

    method ReportWrmsr(msr: u32) returns (n: nat)
      requires Valid()
      ensures n == counters[Ordinal(ReportClass(msr))]
    {
      n := counters[Ordinal(ReportClass(msr))];
    }

    method ResetWrmsr()
      requires Valid()
      modifies counters, other.slots
      ensures counters[..] == NoCounts() && other.slots[..] == Empty()
    {
      for k := 0 to counters.Length
        invariant forall j | 0 <= j < k :: counters[j] == 0
      {
        counters[k] := 0;
      }
      assert counters[..] == NoCounts();
      other.ResetOther();
    }

    /** The 31 class lines, each through report_wrmsr, then the table. */
    method ShowWrmsr() returns (lines: seq<nat>, others: seq<Slot>)
      requires Valid()
      ensures lines == Lines(counters[..]) && others == Rows(other.slots[..])
    {
      lines := [];
      while |lines| < CLASSES
        invariant |lines| <= CLASSES && lines == Lines(counters[..])[..|lines|]
      {
        var n := ReportWrmsr(Shown(|lines|));
        lines := lines + [n];
      }
      others := other.ShowOthers();
    }

    /** The part of kp_vmx_set_msr that runs under showing_lock. */
    method ShowUnderLock(now: int)
      requires Valid() && held
      modifies this, counters, other.slots
      ensures Valid() && !held && State() == ShowAndReset(old(State()), now)
    {
      ghost var printed := total;
      total := 0;
      var lines, others := ShowWrmsr();
      log := log + [Report(now, printed, lines, others)];
      ResetWrmsr();
      ktime := now;
      held := false;
    }

    /** kp_vmx_set_msr; `held` means another CPU is reporting, and then the report is skipped. */
    method Probe(msr: u32, now: int)
      requires Valid()
      modifies this, counters, other.slots
      ensures Valid() && held == old(held)
      ensures State() == if old(held) then Count1(old(State()), msr) else Hit(old(State()), msr, now)
    {
      ghost var e := State();
      total := total + 1;
      RecordWrmsr(msr);
      assert State() == Count1(e, msr);
      if now - ktime > REPORT_NS {
        if held {
          return;
        }
        held := true;
        ShowUnderLock(now);
      }
    }
  }

  // ---------------------------------------------------------------- whole runs

  datatype Event = Event(msr: u32, now: int)

  function Run(e: Engine, evs: seq<Event>): (e': Engine)
    requires WellFormed(e)
    ensures WellFormed(e')
  {
    if evs == [] then e
    else Hit(Run(e, evs[..|evs| - 1]), evs[|evs| - 1].msr, evs[|evs| - 1].now)
  }

  /** The events cut into report periods, looking at nothing but the times. */
  datatype Period = Period(end: int, msrs: seq<u32>)
  datatype Split = Split(closed: seq<Period>, last: int, open: seq<u32>)

  function SplitOf(t0: int, evs: seq<Event>): Split {
    if evs == [] then Split([], t0, [])
    else
      var s, ev := SplitOf(t0, evs[..|evs| - 1]), evs[|evs| - 1];
      var msrs := s.open + [ev.msr];
      if ev.now - s.last > REPORT_NS then Split(s.closed + [Period(ev.now, msrs)], ev.now, [])
      else Split(s.closed, s.last, msrs)
  }

  /** How many of the MSRs belong to the class with this ordinal. */
  function InClass(k: nat): u32 -> bool {
    (m: u32) => Ordinal(RecordClass(m)) == k
  }

  function Histo(msrs: seq<u32>): (h: seq<nat>)
    ensures |h| == CLASSES
  {
    seq(CLASSES, k requires 0 <= k < CLASSES => Count(msrs, InClass(k)))
  }

  function OthersOf(msrs: seq<u32>): seq<u32> {
    if msrs == [] then []
    else
      var init, m := OthersOf(msrs[..|msrs| - 1]), msrs[|msrs| - 1];
      if RecordClass(m) == Others then init + [m] else init
  }

  function ReportFor(p: Period): Report {
    Report(p.end, |p.msrs|, Lines(Histo(p.msrs)), Rows(TableOf(OthersOf(p.msrs))))
  }

  function Explain(s: Split): (e: Engine)
    ensures WellFormed(e)
  {
    Engine(Histo(s.open), TableOf(OthersOf(s.open)), |s.open|, s.last,
           seq(|s.closed|, i requires 0 <= i < |s.closed| => ReportFor(s.closed[i])))
  }

  lemma HistoStep(msrs: seq<u32>, m: u32)
    ensures Histo(msrs + [m]) == Histo(msrs)[Ordinal(RecordClass(m)) := Histo(msrs)[Ordinal(RecordClass(m))] + 1]
  {
    forall k | 0 <= k < CLASSES
      ensures Histo(msrs + [m])[k] == Histo(msrs)[k] + if k == Ordinal(RecordClass(m)) then 1 else 0
    {
      SumAppend(msrs, m, Indicator(InClass(k)));
    }
  }

  lemma ExplainStep(s: Split, msr: u32)
    ensures Count1(Explain(s), msr) == Explain(s.(open := s.open + [msr]))
  {
    HistoStep(s.open, msr);
    assert (s.open + [msr])[..|s.open|] == s.open;
    assert (OthersOf(s.open) + [msr])[..|OthersOf(s.open)|] == OthersOf(s.open);
  }

  lemma ExplainReport(s: Split, now: int)
    ensures ShowAndReset(Explain(s), now) == Explain(Split(s.closed + [Period(now, s.open)], now, []))
  {
    var e, e' := ShowAndReset(Explain(s), now), Explain(Split(s.closed + [Period(now, s.open)], now, []));
    EmptyHisto();
    assert e.log == e'.log;
  }

  /**
   Every run: the log holds exactly one report per closed period, each showing that period's events
   and no others, and the counters and the table hold the events since the last report.
   */
  lemma {:induction false} RunExplained(t0: int, evs: seq<Event>)
    ensures Run(Start(t0), evs) == Explain(SplitOf(t0, evs))
  {
    if evs == [] {
      ExplainEmpty(t0);
    } else {
      var init, ev := evs[..|evs| - 1], evs[|evs| - 1];
      RunExplained(t0, init);
      var s := SplitOf(t0, init);
      ExplainStep(s, ev.msr);
      ExplainReport(s.(open := s.open + [ev.msr]), ev.now);
    }
  }

  lemma ExplainEmpty(t0: int)
    ensures Start(t0) == Explain(Split([], t0, []))
  {
    EmptyHisto();
  }

  lemma EmptyHisto()
    ensures Histo([]) == NoCounts()
  {
    forall k | 0 <= k < CLASSES ensures NoCounts()[k] == Histo([])[k] {
      CountExtremes<u32>([], InClass(k));
    }
  }

  function Msrs(evs: seq<Event>): seq<u32> {
    if evs == [] then [] else Msrs(evs[..|evs| - 1]) + [evs[|evs| - 1].msr]
  }

  function Joined(ps: seq<Period>): seq<u32> {
    if ps == [] then [] else Joined(ps[..|ps| - 1]) + ps[|ps| - 1].msrs
  }

  /** The periods are a partition: no event is counted twice or left out. */
  lemma {:induction false} SplitPartitions(t0: int, evs: seq<Event>)
    ensures Joined(SplitOf(t0, evs).closed) + SplitOf(t0, evs).open == Msrs(evs)
  {
    if evs != [] {
      SplitPartitions(t0, evs[..|evs| - 1]);
    }
  }

  function PrintedTotal(): Report -> nat { (r: Report) => r.total }

  lemma {:induction false} TotalsAre(s: Split, n: nat)
    requires n <= |s.closed|
    ensures Sum(Explain(s).log[..n], PrintedTotal()) == |Joined(s.closed[..n])|
  {
    if n > 0 {
      TotalsAre(s, n - 1);
      assert Explain(s).log[..n][..n - 1] == Explain(s).log[..n - 1];
      assert s.closed[..n][..n - 1] == s.closed[..n - 1];
    }
  }

  /** Printed totals plus the current one equal the number of hits, whatever the clock does. */
  lemma {:induction false} TotalsConserved(t0: int, evs: seq<Event>)
    ensures Sum(Run(Start(t0), evs).log, PrintedTotal()) + Run(Start(t0), evs).total == |evs|
  {
    RunExplained(t0, evs);
    SplitPartitions(t0, evs);
    MsrsLength(evs);
    var s := SplitOf(t0, evs);
    TotalsAre(s, |s.closed|);
    assert s.closed[..|s.closed|] == s.closed && Explain(s).log[..|s.closed|] == Explain(s).log;
  }

  lemma {:induction false} MsrsLength(evs: seq<Event>)
    ensures |Msrs(evs)| == |evs|
  {
    if evs != [] {
      MsrsLength(evs[..|evs| - 1]);
    }
  }

  lemma {:induction false} HistoSums(msrs: seq<u32>)
    ensures Sum(Histo(msrs), Identity()) == |msrs|
  {
    if msrs == [] {
      EmptyHisto();
      ZeroSum(CLASSES);
    } else {
      var init, m := msrs[..|msrs| - 1], msrs[|msrs| - 1];
      assert msrs == init + [m];
      HistoSums(init);
      HistoStep(init, m);
      SumUpdate(Histo(init), Ordinal(RecordClass(m)), Histo(init)[Ordinal(RecordClass(m))] + 1, Identity());
    }
  }

  /**
   At every probe entry and exit total_wrmsr is the sum of the 31 counters, and the "others" counter
   is accounted for by the table's slots and the events it dropped.
   */
  lemma TotalIsSum(t0: int, evs: seq<Event>)
    ensures var e := Run(Start(t0), evs);
            && e.total == Sum(e.counters, Identity())
            && e.counters[Ordinal(Others)] == |OthersOf(SplitOf(t0, evs).open)|
            && (e.counters[Ordinal(Others)] < WRAP ==>
                  e.counters[Ordinal(Others)]
                  == Sum(e.table, CountOf()) + Dropped(OthersOf(SplitOf(t0, evs).open)))
  {
    RunExplained(t0, evs);
    var open := SplitOf(t0, evs).open;
    HistoSums(open);
    OthersCounted(open);
    if |OthersOf(open)| < WRAP {
      CountsConserved(OthersOf(open));
    }
  }

  lemma {:induction false} OthersCounted(msrs: seq<u32>)
    ensures Count(msrs, InClass(Ordinal(Others))) == |OthersOf(msrs)|
  {
    if msrs != [] {
      var m := msrs[|msrs| - 1];
      OthersCounted(msrs[..|msrs| - 1]);
      if RecordClass(m) != Others && Ordinal(RecordClass(m)) == Ordinal(Others) {
        OrdinalInjective(RecordClass(m), Others);
      }
    }
  }

  lemma CounterIs(t0: int, evs: seq<Event>, c: Class)
    ensures Run(Start(t0), evs).counters[Ordinal(c)] == Count(SplitOf(t0, evs).open, InClass(Ordinal(c)))
  {
    RunExplained(t0, evs);
  }

  /** After any run report_wrmsr(m) is the number of open events in m's class, for every m but one. */
  lemma ReportIsClassCount(t0: int, evs: seq<Event>, m: u32)
    ensures Run(Start(t0), evs).counters[Ordinal(ReportClass(m))]
            == Count(SplitOf(t0, evs).open,
                     InClass(Ordinal(if m == MSR_MISC_FEATURES_ENABLES then MiscEnable else RecordClass(m))))
  {
    ReportReadsOwnCounter(m);
    CounterIs(t0, evs, ReportClass(m));
  }

  /**
   In every run, each report's lines add up to its total plus the period's misc_enable events minus
   its misc_features_enables events, hence to the total exactly if there were equally many.
   */
  lemma ReportLinesSum(t0: int, evs: seq<Event>, i: nat)
    requires i < |Run(Start(t0), evs).log|
    ensures |SplitOf(t0, evs).closed| == |Run(Start(t0), evs).log|
    ensures var report, msrs := Run(Start(t0), evs).log[i], SplitOf(t0, evs).closed[i].msrs;
            var enable := Count(msrs, InClass(Ordinal(MiscEnable)));
            var features := Count(msrs, InClass(Ordinal(MiscFeaturesEnables)));
            && Sum(report.lines, Identity()) + features == report.total + enable
            && (Sum(report.lines, Identity()) == report.total <==> enable == features)
  {
    RunExplained(t0, evs);
    var p := SplitOf(t0, evs).closed[i];
    HistoSums(p.msrs);
    LinesSum(Histo(p.msrs));
  }

  /**
   In every run line k of each report is the number of the period's events in the class of the line's
   MSR, but the misc_features_enables line shows the misc_enable events.
   */
  lemma ReportLineIsCount(t0: int, evs: seq<Event>, i: nat, k: nat)
    requires i < |Run(Start(t0), evs).log| && k < CLASSES
    ensures |SplitOf(t0, evs).closed| == |Run(Start(t0), evs).log|
    ensures var report, p := Run(Start(t0), evs).log[i], SplitOf(t0, evs).closed[i];
            var c := if Shown(k) == 0x140 then MiscEnable else RecordClass(Shown(k));
            && report.time == p.end && report.total == |p.msrs| && |report.lines| == CLASSES
            && report.lines[k] == Count(p.msrs, (m: u32) => RecordClass(m) == c)
  {
    RunExplained(t0, evs);
    var c := if Shown(k) == 0x140 then MiscEnable else RecordClass(Shown(k));
    ReportReadsOwnCounter(Shown(k));
    SameClass(SplitOf(t0, evs).closed[i].msrs, c);
  }

  lemma {:induction false} SameClass(msrs: seq<u32>, c: Class)
    ensures Count(msrs, InClass(Ordinal(c))) == Count(msrs, (m: u32) => RecordClass(m) == c)
  {
    if msrs != [] {
      var m := msrs[|msrs| - 1];
      SameClass(msrs[..|msrs| - 1], c);
      if Ordinal(RecordClass(m)) == Ordinal(c) {
        OrdinalInjective(RecordClass(m), c);
      }
    }
  }

  lemma {:induction false} LastIsEnd(t0: int, evs: seq<Event>)
    ensures var s := SplitOf(t0, evs);
            s.last == if s.closed == [] then t0 else s.closed[|s.closed| - 1].end
  {
    if evs != [] {
      LastIsEnd(t0, evs[..|evs| - 1]);
    }
  }

  predicate Apart(t0: int, ps: seq<Period>, i: nat)
    requires i < |ps|
  {
    ps[i].end - (if i == 0 then t0 else ps[i - 1].end) > REPORT_NS
  }

  lemma {:induction false} PeriodsApart(t0: int, evs: seq<Event>, i: nat)
    requires i < |SplitOf(t0, evs).closed|
    ensures Apart(t0, SplitOf(t0, evs).closed, i)
  {
    var init := evs[..|evs| - 1];
    if i < |SplitOf(t0, init).closed| {
      PeriodsApart(t0, init, i);
    } else {
      LastIsEnd(t0, init);
    }
  }

  /** Reports are strictly more than 10^9 ns apart, the first one from the start; no clock assumption. */
  lemma ReportsApart(t0: int, evs: seq<Event>, i: nat)
    requires i < |Run(Start(t0), evs).log|
    ensures var log := Run(Start(t0), evs).log;
            log[i].time - (if i == 0 then t0 else log[i - 1].time) > REPORT_NS
  {
    var s := SplitOf(t0, evs);
    RunExplained(t0, evs);
    LogTimes(s);
    PeriodsApart(t0, evs, i);
  }

  lemma LogTimes(s: Split)
    ensures |Explain(s).log| == |s.closed|
    ensures forall i | 0 <= i < |s.closed| :: Explain(s).log[i].time == s.closed[i].end
  {
  }
}
