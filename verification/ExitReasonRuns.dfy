/**
 What the kvmexitreason reports print, against what happened in the run (debug/kvmexitreason): every
 report looks at and clears every reason once, a nonzero counter gets its line, and each printed count is
 accounted for. The left sides are read from the actions of the run and the state each was taken in.
 */
module ExitReasonRuns {
  import opened Sums
  import opened ReportTimes
  import opened ExitReasons

  /** What can be added up along a run. */
  datatype What =
    | Hits | HitsOf(r: nat)   // probe hits
    | LateHits                // counted between the print of the total and its reset
    | Dues                    // time checks passed, less those that found another report under way
    | Looks(r: nat)           // tests of reasons_num[r] by a report
    | Found(r: nat)           // ... that saw it nonzero
    | Clears(r: nat)          // resets of reasons_num[r]
    | Landed(r: nat)          // change of reasons_num[r] by increments between a look, or its print, and the reset
    | LateStores(r: nat)      // number of those increments

  predicate Ok(w: What) {
    w.Looks? || w.Found? || w.Clears? || w.Landed? || w.LateStores? || w.HitsOf? ==> w.r < REASON_NUM
  }

  function One(b: bool): int { if b then 1 else 0 }

  function Weight(w: What, s: State, a: Action): int
    requires Ok(w) && WellFormed(s) && Enabled(s, a)
  {
    var pc := s.pcs[a.i];
    match w
    case Hits => One(a.Probe?)
    case HitsOf(r) => One(a.Probe? && a.r == r)
    case LateHits => One(pc.IncTotal? && Pending(s))
    case Dues => One(pc.CheckTime? && pc.now - s.ktime >= REPORT_NS) - One(pc.TryLock? && s.held)
    case Looks(r) => One(pc.TestReason? && pc.k == r)
    case Found(r) => One(pc.TestReason? && pc.k == r && s.counters[r] != 0)
    case Clears(r) => One(pc.ClearReason? && pc.k == r)
    case Landed(r) => if Storing(r)(pc) && Looked(s, r) then pc.v + 1 - s.counters[r] else 0
    case LateStores(r) => One(Storing(r)(pc) && Looked(s, r))
  }

  ghost function Along(w: What, s: State, acts: seq<Action>): int
    requires Ok(w) && WellFormed(s)
    decreases |acts|
  {
    if acts == [] || !Enabled(s, acts[0]) then 0
    else Weight(w, s, acts[0]) + Along(w, Apply(s, acts[0]), acts[1..])
  }

  // ---------------------------------------------------------------- where a CPU is

  /** Its hit is not counted in the total yet. */
  predicate Counting(pc: PC) { pc.LoadCtr? || pc.StoreCtr? || pc.IncTotal? }

  /** Its hit is not stored in counter r yet. */
  function Bumping(r: nat): PC -> bool {
    (pc: PC) => (pc.LoadCtr? || pc.StoreCtr?) && pc.r == r
  }

  predicate AtDoor(pc: PC) { pc.TryLock? || pc.PrintTotal? }

  function BeforeLook(r: nat): PC -> bool {
    (pc: PC) => (pc.TestReason? && pc.k <= r) || (pc.PrintReason? && pc.k < r)
  }

  function Printing(r: nat): PC -> bool {
    (pc: PC) => pc.PrintReason? && pc.k == r
  }

  function BeforeClear(r: nat): PC -> bool {
    (pc: PC) => pc.TestReason? || pc.PrintReason? || pc.ZeroTotal? || (pc.ClearReason? && pc.k <= r)
  }

  /** Past reason r, printed or not, with its counter still to be cleared. */
  function Past(r: nat): PC -> bool {
    (pc: PC) => ((pc.TestReason? || pc.PrintReason?) && r < pc.k) || pc.ZeroTotal? || (pc.ClearReason? && pc.k <= r)
  }

  predicate Looked(s: State, r: nat) { Count(s.pcs, Past(r)) > 0 }

  function LineOf(r: nat): ((nat, nat)) -> bool {
    (line: (nat, nat)) => line.0 == r
  }

  /** What a line prints for r. */
  function CountIn(r: nat): ((nat, nat)) -> nat {
    (line: (nat, nat)) => if line.0 == r then line.1 else 0
  }

  function PrintedOf(s: State, r: nat): nat { Sum(s.lines, CountIn(r)) }

  /** What has been wiped, or is about to be after its line was printed. */
  function Wiped(s: State, r: nat): nat
    requires WellFormed(s) && r < REASON_NUM
  {
    s.cleared[r] + if Looked(s, r) then s.counters[r] else 0
  }

  // ---------------------------------------------------------------- the sums, read from the state

  function Total(w: What, s: State): int
    requires Ok(w) && !w.LateStores? && WellFormed(s)
  {
    match w
    case Hits => s.hits + Count(s.pcs, Counting)
    case HitsOf(r) => s.stores[r] + Count(s.pcs, Bumping(r))
    case LateHits => s.lost
    case Dues => |s.printed| + Count(s.pcs, AtDoor)
    case Looks(r) => |s.printed| - Count(s.pcs, BeforeLook(r))
    case Found(r) => Count(s.lines, LineOf(r)) + Count(s.pcs, Printing(r))
    case Clears(r) => |s.printed| - Count(s.pcs, BeforeClear(r))
    case Landed(r) => Wiped(s, r) - PrintedOf(s, r)
  }

  lemma HitStep(s: State, a: Action)
    requires WellFormed(s) && Enabled(s, a)
    ensures Total(Hits, Apply(s, a)) == Total(Hits, s) + Weight(Hits, s, a)
  {
    CountUpdate(s.pcs, a.i, Apply(s, a).pcs[a.i], Counting);
  }

  lemma HitOfStep(s: State, a: Action, r: nat)
    requires WellFormed(s) && Enabled(s, a) && r < REASON_NUM
    ensures Total(HitsOf(r), Apply(s, a)) == Total(HitsOf(r), s) + Weight(HitsOf(r), s, a)
  {
    CountUpdate(s.pcs, a.i, Apply(s, a).pcs[a.i], Bumping(r));
  }

  lemma DueStep(s: State, a: Action)
    requires WellFormed(s) && Enabled(s, a)
    ensures Total(Dues, Apply(s, a)) == Total(Dues, s) + Weight(Dues, s, a)
  {
    CountUpdate(s.pcs, a.i, Apply(s, a).pcs[a.i], AtDoor);
  }

  lemma PrintFrame(s: State, a: Action)
    requires WellFormed(s) && Enabled(s, a)
    ensures var s' := Apply(s, a);
            && |s'.pcs| == |s.pcs| && s'.pcs == s.pcs[a.i := s'.pcs[a.i]]
            && |s'.printed| == |s.printed| + One(s.pcs[a.i].PrintTotal?)
  {
  }

  /** A CPU comes before its look at r with the print of the total, and leaves with the look. */
  lemma LookMove(s: State, a: Action, r: nat)
    requires WellFormed(s) && Enabled(s, a) && r < REASON_NUM
    ensures var pc, pc' := s.pcs[a.i], Apply(s, a).pcs[a.i];
            && One(BeforeLook(r)(pc'))
               == One(BeforeLook(r)(pc)) + One(pc.PrintTotal?) - One(pc.TestReason? && pc.k == r)
            && One(BeforeClear(r)(pc'))
               == One(BeforeClear(r)(pc)) + One(pc.PrintTotal?) - One(pc.ClearReason? && pc.k == r)
  {
  }

  lemma LookStep(s: State, a: Action, r: nat)
    requires WellFormed(s) && Enabled(s, a) && r < REASON_NUM
    ensures Total(Looks(r), Apply(s, a)) == Total(Looks(r), s) + Weight(Looks(r), s, a)
    ensures Total(Clears(r), Apply(s, a)) == Total(Clears(r), s) + Weight(Clears(r), s, a)
  {
    PrintFrame(s, a);
    LookMove(s, a, r);
    CountUpdate(s.pcs, a.i, Apply(s, a).pcs[a.i], BeforeLook(r));
    CountUpdate(s.pcs, a.i, Apply(s, a).pcs[a.i], BeforeClear(r));
  }

  lemma FoundStep(s: State, a: Action, r: nat)
    requires WellFormed(s) && Enabled(s, a) && r < REASON_NUM
    ensures Total(Found(r), Apply(s, a)) == Total(Found(r), s) + Weight(Found(r), s, a)
  {
    CountUpdate(s.pcs, a.i, Apply(s, a).pcs[a.i], Printing(r));
    if s.pcs[a.i].PrintReason? {
      SumAppend(s.lines, (s.pcs[a.i].k, s.counters[s.pcs[a.i].k]), Indicator(LineOf(r)));
    }
  }

  /** While somebody reports, only that one can be past a reason. */
  lemma ReporterLooked(s: State, i: nat, r: nat)
    requires MutexInv(s) && i < |s.pcs| && Reporting(s.pcs[i])
    ensures Looked(s, r) <==> Past(r)(s.pcs[i])
  {
    CountExtremes(s.pcs, Past(r));
    if Looked(s, r) {
      var j: nat :| j < |s.pcs| && Past(r)(s.pcs[j]);
      AtMostOne(s.pcs, Reporting, i, j);
    }
  }

  lemma LandedFrame(s: State, a: Action, r: nat)
    requires WellFormed(s) && Enabled(s, a) && r < REASON_NUM
    requires !Reporting(s.pcs[a.i])
    ensures var s' := Apply(s, a);
            && s'.pcs == s.pcs[a.i := s'.pcs[a.i]] && !Past(r)(s'.pcs[a.i])
            && s'.lines == s.lines && s'.cleared == s.cleared
            && s'.counters[r] == s.counters[r] + if Storing(r)(s.pcs[a.i]) then s.pcs[a.i].v + 1 - s.counters[r] else 0
  {
  }

  lemma LandedReporter(s: State, a: Action, r: nat)
    requires WellFormed(s) && Enabled(s, a) && r < REASON_NUM && Reporting(s.pcs[a.i])
    ensures var s', pc := Apply(s, a), s.pcs[a.i];
            var pc' := s'.pcs[a.i];
            && (pc.Unlock? || Reporting(pc')) && s'.pcs == s.pcs[a.i := pc']
            && s'.lines == (if pc.PrintReason? then s.lines + [(pc.k, s.counters[pc.k])] else s.lines)
            && (if pc.ClearReason? && pc.k == r then
                  s'.cleared[r] == s.cleared[r] + s.counters[r] && s'.counters[r] == 0 && Past(r)(pc) && !Past(r)(pc')
                else
                  s'.cleared[r] == s.cleared[r] && s'.counters[r] == s.counters[r]
                  && (Past(r)(pc') <==> Past(r)(pc) || (pc.PrintReason? && pc.k == r)
                                        || (pc.TestReason? && pc.k == r && s.counters[r] == 0)))
  {
  }

  lemma LandedStep(s: State, a: Action, r: nat)
    requires WellFormed(s) && MutexInv(s) && Enabled(s, a) && r < REASON_NUM
    ensures Total(Landed(r), Apply(s, a)) == Total(Landed(r), s) + Weight(Landed(r), s, a)
  {
    var s', pc := Apply(s, a), s.pcs[a.i];
    if Reporting(pc) {
      LandedReporter(s, a, r);
      ReporterLooked(s, a.i, r);
      CountUpdate(s.pcs, a.i, s'.pcs[a.i], Past(r));
      CountMonotone(s.pcs, Past(r), Reporting);
      if pc.PrintReason? {
        SumAppend(s.lines, (pc.k, s.counters[pc.k]), CountIn(r));
      }
    } else {
      LandedFrame(s, a, r);
      CountUpdate(s.pcs, a.i, s'.pcs[a.i], Past(r));
    }
  }

  lemma TotalStep(w: What, s: State, a: Action)
    requires Ok(w) && !w.LateStores? && WellFormed(s) && MutexInv(s) && Enabled(s, a)
    ensures Total(w, Apply(s, a)) == Total(w, s) + Weight(w, s, a)
  {
    match w
    case Hits => HitStep(s, a);
    case HitsOf(r) => HitOfStep(s, a, r);
    case LateHits =>
    case Dues => DueStep(s, a);
    case Looks(r) => LookStep(s, a, r);
    case Found(r) => FoundStep(s, a, r);
    case Clears(r) => LookStep(s, a, r);
    case Landed(r) => LandedStep(s, a, r);
  }

  lemma {:induction false} AlongPath(w: What, s: State, acts: seq<Action>, s': State)
    requires Ok(w) && !w.LateStores? && WellFormed(s) && MutexInv(s) && Path(s, acts, s')
    ensures WellFormed(s') && Total(w, s') == Total(w, s) + Along(w, s, acts)
    decreases |acts|
  {
    if acts != [] {
      TotalStep(w, s, acts[0]);
      MutexStep(s, acts[0]);
      AlongPath(w, Apply(s, acts[0]), acts[1..], s');
    }
  }

  lemma NothingYet(w: What, cpus: nat, ktime: int)
    requires Ok(w) && !w.LateStores?
    ensures Total(w, Init(cpus, ktime)) == 0
  {
    var pcs := Init(cpus, ktime).pcs;
    match w
    case Hits => CountExtremes(pcs, Counting);
    case HitsOf(r) => CountExtremes(pcs, Bumping(r));
    case LateHits =>
    case Dues => CountExtremes(pcs, AtDoor);
    case Looks(r) => CountExtremes(pcs, BeforeLook(r));
    case Found(r) => CountExtremes(pcs, Printing(r));
    case Clears(r) => CountExtremes(pcs, BeforeClear(r));
    case Landed(r) => CountExtremes(pcs, Past(r));
  }

  lemma FromLoad(w: What, cpus: nat, ktime: int, acts: seq<Action>, s: State)
    requires Ok(w) && !w.LateStores? && Path(Init(cpus, ktime), acts, s)
    ensures WellFormed(s) && Total(w, s) == Along(w, Init(cpus, ktime), acts)
  {
    InitInv(cpus, ktime);
    NothingYet(w, cpus, ktime);
    AlongPath(w, Init(cpus, ktime), acts, s);
  }

  // ---------------------------------------------------------------- theorems

  /**
   In every run each hit has been counted in the total, each one with a known reason stored to the
   counter of that reason, or its CPU has not come to it yet; and the lost increments are those made
   between the print of the total and its reset.
   */
  lemma HitsCounted(cpus: nat, ktime: int, acts: seq<Action>, s: State, r: nat)
    requires Path(Init(cpus, ktime), acts, s) && r < REASON_NUM
    ensures WellFormed(s)
    ensures Along(Hits, Init(cpus, ktime), acts) == s.hits + Count(s.pcs, Counting)
    ensures Along(HitsOf(r), Init(cpus, ktime), acts) == s.stores[r] + Count(s.pcs, Bumping(r))
    ensures Along(LateHits, Init(cpus, ktime), acts) == s.lost
  {
    FromLoad(Hits, cpus, ktime, acts, s);
    FromLoad(HitsOf(r), cpus, ktime, acts, s);
    FromLoad(LateHits, cpus, ktime, acts, s);
  }

  /**
   In every run: a report is made for every time check that is passed, unless another is being made;
   it looks at every reason once and clears every reason once, or has yet to; and there is one line of
   r for every look that saw its counter nonzero, or it is the next to be printed.
   */
  lemma ReportsLook(cpus: nat, ktime: int, acts: seq<Action>, s: State, r: nat)
    requires Path(Init(cpus, ktime), acts, s) && r < REASON_NUM
    ensures Along(Dues, Init(cpus, ktime), acts) == |s.printed| + Count(s.pcs, AtDoor)
    ensures Along(Looks(r), Init(cpus, ktime), acts) + Count(s.pcs, BeforeLook(r)) == |s.printed|
    ensures Along(Found(r), Init(cpus, ktime), acts) == Count(s.lines, LineOf(r)) + Count(s.pcs, Printing(r))
    ensures Along(Clears(r), Init(cpus, ktime), acts) + Count(s.pcs, BeforeClear(r)) == |s.printed|
  {
    FromLoad(Dues, cpus, ktime, acts, s);
    FromLoad(Looks(r), cpus, ktime, acts, s);
    FromLoad(Found(r), cpus, ktime, acts, s);
    FromLoad(Clears(r), cpus, ktime, acts, s);
  }

  /**
   In every run the printed counts of r, and what increments did to its counter between a report's
   look and its reset, make up what resets wiped from it, and what the next reset is about to.
   */
  lemma LinesAccounted(cpus: nat, ktime: int, acts: seq<Action>, s: State, r: nat)
    requires Path(Init(cpus, ktime), acts, s) && r < REASON_NUM
    ensures WellFormed(s)
    ensures PrintedOf(s, r) + Along(Landed(r), Init(cpus, ktime), acts) == Wiped(s, r)
  {
    FromLoad(Landed(r), cpus, ktime, acts, s);
  }

  /** Without a race on r each such increment adds 1, so their number is what was wiped unprinted. */
  lemma UnprintedIncrements(cpus: nat, ktime: int, acts: seq<Action>, s: State, r: nat)
    requires Path(Init(cpus, ktime), acts, s) && r < REASON_NUM
    ensures WellFormed(s)
    ensures !s.straddled[r] && !s.overlapped[r] ==>
              PrintedOf(s, r) + Along(LateStores(r), Init(cpus, ktime), acts) == Wiped(s, r)
  {
    LinesAccounted(cpus, ktime, acts, s, r);
    if !s.straddled[r] && !s.overlapped[r] {
      InitInv(cpus, ktime);
      NoRacePath(Init(cpus, ktime), acts, s, r);
    }
  }

  lemma NoRaceStore(s: State, a: Action, r: nat)
    requires WellFormed(s) && r < REASON_NUM && ExactInv(s, r) && Enabled(s, a)
    requires !Apply(s, a).straddled[r] && !Apply(s, a).overlapped[r]
    ensures !s.straddled[r] && !s.overlapped[r]
    ensures Weight(Landed(r), s, a) == Weight(LateStores(r), s, a)
  {
    if Storing(r)(s.pcs[a.i]) {
      assert s.counters[r] == s.pcs[a.i].v;
    }
  }

  lemma {:induction false} NoRacePath(s: State, acts: seq<Action>, s': State, r: nat)
    requires Inv(s) && Path(s, acts, s') && r < REASON_NUM && WellFormed(s')
    requires !s'.straddled[r] && !s'.overlapped[r]
    ensures !s.straddled[r] && !s.overlapped[r]
    ensures Along(Landed(r), s, acts) == Along(LateStores(r), s, acts)
    decreases |acts|
  {
    if acts != [] {
      InvPath(s, acts[..1], Apply(s, acts[0]));
      NoRacePath(Apply(s, acts[0]), acts[1..], s', r);
      NoRaceStore(s, acts[0], r);
    }
  }

  /** Its total is printed and its time not stored yet. */
  predicate Unended(pc: PC) { InWindow(pc) || pc.ClearReason? || pc.SetTime? }

  ghost predicate EndInv(ktime: int, s: State) {
    && |s.times| + Count(s.pcs, Unended) == |s.printed|
    && s.ktime == TimeAfter(ktime, s.times, |s.times|)
  }

  lemma EndStep(ktime: int, s: State, a: Action)
    requires WellFormed(s) && Enabled(s, a) && EndInv(ktime, s)
    ensures EndInv(ktime, Apply(s, a))
  {
    CountUpdate(s.pcs, a.i, Apply(s, a).pcs[a.i], Unended);
  }

  lemma {:induction false} EndPath(ktime: int, s: State, acts: seq<Action>, s': State)
    requires WellFormed(s) && Path(s, acts, s') && EndInv(ktime, s)
    ensures EndInv(ktime, s')
    decreases |acts|
  {
    if acts != [] {
      EndStep(ktime, s, acts[0]);
      EndPath(ktime, Apply(s, acts[0]), acts[1..], s');
    }
  }

  /** Every report ends with its time stored, or has yet to, and __ktime is the time of the last one. */
  lemma ReportsEnd(cpus: nat, ktime: int, s: State)
    requires Reachable(cpus, ktime, s)
    ensures |s.times| + Count(s.pcs, Unended) == |s.printed|
    ensures s.ktime == TimeAfter(ktime, s.times, |s.times|)
  {
    var acts: seq<Action> :| Path(Init(cpus, ktime), acts, s);
    CountExtremes(Init(cpus, ktime).pcs, Unended);
    EndPath(ktime, Init(cpus, ktime), acts, s);
  }

  // ---------------------------------------------------------------- one CPU, or more

  /** Every increment of r that a reset wipes has been printed, in every run. */
  ghost predicate AlwaysPrinted(cpus: nat, ktime: int) {
    forall s: State, r: nat :: Reachable(cpus, ktime, s) && r < REASON_NUM ==> AllPrinted(s, r)
  }

  predicate AllPrinted(s: State, r: nat) {
    WellFormed(s) && r < REASON_NUM && PrintedOf(s, r) == Wiped(s, r)
  }

  lemma NotLookedStoring(s: State, i: nat, r: nat)
    requires |s.pcs| <= 1 && i < |s.pcs| && Storing(r)(s.pcs[i])
    ensures !Looked(s, r)
  {
    CountExtremes(s.pcs, Past(r));
  }

  lemma {:induction false} AloneLands(s: State, acts: seq<Action>, r: nat)
    requires WellFormed(s) && |s.pcs| <= 1 && r < REASON_NUM
    ensures Along(Landed(r), s, acts) == 0
    decreases |acts|
  {
    if acts != [] && Enabled(s, acts[0]) {
      var a := acts[0];
      TimeFrame(s, a);
      AloneLands(Apply(s, a), acts[1..], r);
      if Storing(r)(s.pcs[a.i]) {
        NotLookedStoring(s, a.i, r);
      }
    }
  }

  /** A reporter that has not come to clearing r yet. */
  predicate Coming(pc: PC, r: nat, now: int) {
    Cleared(pc) && pc.now == now && (BeforeClear(r)(pc) || AtDoor(pc))
  }

  lemma Comes(s: State, r: nat, now: int)
    requires WellFormed(s) && r < REASON_NUM && 0 < |s.pcs| && Coming(s.pcs[0], r, now)
    requires (s.pcs[0].TryLock? ==> !s.held) && s.pcs[0] != ClearReason(now, r)
    ensures var s' := Apply(s, Step(0, 0));
            && s'.pcs == s.pcs[0 := s'.pcs[0]] && Coming(s'.pcs[0], r, now) && !s'.pcs[0].TryLock?
            && ToGo(s'.pcs[0]) < ToGo(s.pcs[0]) && s'.stores == s.stores
  {
  }

  /** CPU 0 goes through its report up to the reset of r. */
  lemma UpToClear(cpus: nat, ktime: int, s: State, r: nat, now: int) returns (s': State)
    requires Reachable(cpus, ktime, s) && WellFormed(s) && r < REASON_NUM && 2 <= |s.pcs|
    requires s.pcs[0] == TryLock(now) && !s.held
    ensures Reachable(cpus, ktime, s') && WellFormed(s') && s'.stores == s.stores
    ensures s'.pcs == s.pcs[0 := ClearReason(now, r)]
  {
    s' := s;
    while s'.pcs[0] != ClearReason(now, r)
      invariant Reachable(cpus, ktime, s') && WellFormed(s') && s'.stores == s.stores
      invariant |s'.pcs| == |s.pcs| && s'.pcs == s.pcs[0 := s'.pcs[0]]
      invariant Coming(s'.pcs[0], r, now) && (s'.pcs[0].TryLock? ==> !s'.held)
      decreases ToGo(s'.pcs[0])
    {
      Comes(s', r, now);
      Extend(cpus, ktime, s', Step(0, 0));
      s' := Apply(s', Step(0, 0));
    }
  }

  /** Nothing stored, so no line of r printed. */
  lemma {:induction false} NoLines(lines: seq<(nat, nat)>, r: nat)
    requires forall l | 0 <= l < |lines| :: lines[l].0 != r
    ensures Sum(lines, CountIn(r)) == 0
  {
    if lines != [] {
      NoLines(lines[..|lines| - 1], r);
    }
  }

  lemma Loads(cpus: nat, ktime: int, s: State, r: nat) returns (s': State)
    requires Reachable(cpus, ktime, s) && WellFormed(s) && r < REASON_NUM && 1 < |s.pcs| && s.pcs[1].Idle?
    ensures Reachable(cpus, ktime, s') && WellFormed(s') && s'.pcs == s.pcs[1 := StoreCtr(r, s.counters[r])]
    ensures s'.stores == s.stores && s'.held == s.held
  {
    Extend(cpus, ktime, s, Probe(1, r));
    s' := Apply(s, Probe(1, r));
    Extend(cpus, ktime, s', Step(1, 0));
    s' := Apply(s', Step(1, 0));
  }

  /** CPU 1 has loaded counter r, which nobody has stored to, and CPU 0 is about to clear it. */
  lemma AboutToClear(cpus: nat, ktime: int, r: nat) returns (s: State)
    requires 2 <= cpus && r < REASON_NUM
    ensures Reachable(cpus, ktime, s) && WellFormed(s) && s.stores[r] == 0 && |s.pcs| == cpus
    ensures s.pcs == Init(cpus, ktime).pcs[1 := StoreCtr(r, 0)][0 := ClearReason(Due(ktime), r)]
  {
    s := Init(cpus, ktime);
    assert Path(s, [], s);
    s := ToTryLock(cpus, ktime, s, 0, Due(ktime));
    s := Loads(cpus, ktime, s, r);
    s := UpToClear(cpus, ktime, s, r, Due(ktime));
  }

  /** The reporter finds counter r zero, another CPU increments it, and the reset wipes it. */
  lemma WipedUnprinted(cpus: nat, ktime: int, r: nat) returns (s: State)
    requires 2 <= cpus && r < REASON_NUM
    ensures Reachable(cpus, ktime, s) && !AllPrinted(s, r)
  {
    s := AboutToClear(cpus, ktime, r);
    InvReachable(cpus, ktime, s);
    NoLines(s.lines, r);
    Extend(cpus, ktime, s, Step(1, 0));
    s := Apply(s, Step(1, 0));
    CountExtremes(s.pcs, Past(r));
    assert Past(r)(s.pcs[0]);
  }

  /** Whatever a reset wipes has been printed, in every run, exactly if there is no second CPU. */
  lemma AlwaysPrintedIff(cpus: nat, ktime: int)
    ensures AlwaysPrinted(cpus, ktime) <==> cpus <= 1
  {
    if cpus <= 1 {
      forall s: State, r: nat | Reachable(cpus, ktime, s) && r < REASON_NUM ensures AllPrinted(s, r) {
        var acts: seq<Action> :| Path(Init(cpus, ktime), acts, s);
        LinesAccounted(cpus, ktime, acts, s, r);
        AloneLands(Init(cpus, ktime), acts, r);
      }
    } else {
      var s := WipedUnprinted(cpus, ktime, 0);
    }
  }
}
