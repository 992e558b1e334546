/**
 The kvmwrmsr probe on any number of CPUs at once (debug/kvmwrmsr/kvmwrmsr.c). Each step is one
 atomic access or one region under other_msrs_lock; between any two steps any other CPU may run.
 Sequentially consistent accesses are assumed.
 */
module WrmsrConcurrent {
  import opened Sums
  import opened MsrClass
  import opened OtherTable
  import opened ReportTimes
  import WrmsrProbe

  datatype PC =
    | Idle
    | Enter(msr: u32, now: int)        // atomic_long_inc(&total_wrmsr)
    | Record(msr: u32, now: int)       // record_wrmsr; "other" MSRs go into the table under its lock
    | TimeCheck(now: int)              // reads __ktime, outside showing_lock
    | TryLock(now: int)
    | ReadTotal(now: int)              // prints total_wrmsr ...
    | SetTotal(now: int)               // ... and sets it to 0, a separate step
    | FirstLook(now: int)              // report_other_wrmsr(0)
    | Scan(now: int, start: seq<u32>, rows: seq<Slot>)
    | ResetTable(now: int, start: seq<u32>, rows: seq<Slot>)
    | SetTime(now: int)                // __ktime = now
    | Unlock

  /**
   `trace` is the history of inserts since the table was last reset; `hits`, `printed`, `lost` and
   `times` are histories of the probe hits counted, the totals printed, the increments that landed
   between a read of the total and its reset, and the times of the reports. `checked`: how many
   reports had stored their time when a CPU last made its time check; `seen`: the same for each
   report, as its CPU had found it. `reports`: for each finished scan, the inserts before it began, the
   rows it printed, and the inserts by the time its reset wiped the table.
   */
  datatype State = State(pcs: seq<PC>, total: nat, held: bool, ktime: int, table: seq<Slot>,
                         trace: seq<u32>, hits: nat, printed: seq<nat>, lost: nat, times: seq<int>,
                         checked: seq<nat>, seen: seq<nat>, reports: seq<Report>)

  datatype Report = Report(start: seq<u32>, rows: seq<Slot>, trace: seq<u32>)

  datatype Action = Probe(i: nat, msr: u32, now: int) | Step(i: nat)

  predicate Reporting(pc: PC) {
    !pc.Idle? && !pc.Enter? && !pc.Record? && !pc.TimeCheck? && !pc.TryLock?
  }

  predicate AtSetTotal(pc: PC) { pc.SetTotal? }

  predicate Pending(s: State) { Count(s.pcs, AtSetTotal) > 0 }

  predicate WellFormed(s: State) {
    |s.table| == SLOTS && |s.checked| == |s.pcs|
  }

  predicate Enabled(s: State, a: Action) {
    a.i < |s.pcs| && (a.Probe? <==> s.pcs[a.i].Idle?)
  }

  function Apply(s: State, a: Action): State
    requires Enabled(s, a) && WellFormed(s)
  {
    match a
    case Probe(i, msr, now) => s.(pcs := s.pcs[i := Enter(msr, now)])
    case Step(i) =>
      match s.pcs[i]
      case Enter(msr, now) =>
        s.(pcs := s.pcs[i := Record(msr, now)], total := s.total + 1, hits := s.hits + 1,
           lost := s.lost + if Pending(s) then 1 else 0)
      case Record(msr, now) =>
        if RecordClass(msr) == Others then
          s.(pcs := s.pcs[i := TimeCheck(now)], table := Insert(s.table, msr), trace := s.trace + [msr])
        else s.(pcs := s.pcs[i := TimeCheck(now)])
      case TimeCheck(now) =>
        s.(pcs := s.pcs[i := if now - s.ktime > WrmsrProbe.REPORT_NS then TryLock(now) else Idle],
           checked := s.checked[i := |s.times|])
      case TryLock(now) =>
        if s.held then s.(pcs := s.pcs[i := Idle]) else s.(pcs := s.pcs[i := ReadTotal(now)], held := true)
      case ReadTotal(now) => s.(pcs := s.pcs[i := SetTotal(now)], printed := s.printed + [s.total])
      case SetTotal(now) => s.(pcs := s.pcs[i := FirstLook(now)], total := 0)
      case FirstLook(now) =>
        s.(pcs := s.pcs[i := if Reportable(s.table[0]) then Scan(now, s.trace, [])
                             else ResetTable(now, s.trace, [])])
      case Scan(now, start, rows) =>
        s.(pcs := s.pcs[i := if |rows| < SLOTS && Reportable(s.table[|rows|])
                             then Scan(now, start, rows + [s.table[|rows|]])
                             else ResetTable(now, start, rows)])
      case ResetTable(now, start, rows) =>
        s.(pcs := s.pcs[i := SetTime(now)], table := Empty(), trace := [],
           reports := s.reports + [Report(start, rows, s.trace)])
      case SetTime(now) =>
        s.(pcs := s.pcs[i := Unlock], ktime := now, times := s.times + [now], seen := s.seen + [s.checked[i]])
      case Unlock => s.(pcs := s.pcs[i := Idle], held := false)
      case Idle => s
  }

  function Init(cpus: nat, ktime: int): State {
    State(seq(cpus, _ => Idle), 0, false, ktime, Empty(), [], 0, [], 0, [], Zeros(cpus), [], [])
  }

  ghost predicate Path(s: State, acts: seq<Action>, s': State)
    requires WellFormed(s)
    decreases |acts|
  {
    if acts == [] then s == s'
    else Enabled(s, acts[0]) && Path(Apply(s, acts[0]), acts[1..], s')
  }

  ghost predicate Reachable(cpus: nat, ktime: int, s: State) {
    exists acts: seq<Action> :: Path(Init(cpus, ktime), acts, s)
  }

  lemma {:induction false} PathExtend(s: State, acts: seq<Action>, s': State, a: Action)
    requires WellFormed(s) && WellFormed(s') && Path(s, acts, s') && Enabled(s', a)
    ensures Path(s, acts + [a], Apply(s', a))
    decreases |acts|
  {
    if acts == [] {
      assert (acts + [a])[1..] == [];
    } else {
      PathExtend(Apply(s, acts[0]), acts[1..], s', a);
      assert (acts + [a])[1..] == acts[1..] + [a];
    }
  }

  // ---------------------------------------------------------------- invariants

  /** showing_lock is held exactly while one CPU is in the reporting part, and no second one ever is. */
  ghost predicate MutexInv(s: State) {
    Count(s.pcs, Reporting) == if s.held then 1 else 0
  }

  ghost predicate AccountInv(s: State) {
    s.hits == Sum(s.printed, Identity()) + s.lost + if Pending(s) then 0 else s.total
  }

  /** The row was read from slot k at some moment between the scan's start and now. */
  ghost predicate Seen(start: seq<u32>, trace: seq<u32>, k: nat, row: Slot) {
    k < SLOTS && Reportable(row)
    && exists mid: seq<u32> :: start <= mid <= trace && TableOf(mid)[k] == row
  }

  ghost predicate StoppedAt(start: seq<u32>, trace: seq<u32>, k: nat) {
    k == SLOTS
    || (k < SLOTS && exists mid: seq<u32> :: start <= mid <= trace && !Reportable(TableOf(mid)[k]))
  }

  /** A finished scan: each row was read in its slot at some moment, and so was the end. */
  ghost predicate ScanDone(start: seq<u32>, rows: seq<Slot>, trace: seq<u32>) {
    && |rows| <= SLOTS && start <= trace && StoppedAt(start, trace, |rows|)
    && forall k | 0 <= k < |rows| :: Seen(start, trace, k, rows[k])
  }

  ghost predicate ScanPC(pc: PC, trace: seq<u32>) {
    (pc.Scan? || pc.ResetTable? ==>
       && |pc.rows| <= SLOTS && pc.start <= trace
       && forall k | 0 <= k < |pc.rows| :: Seen(pc.start, trace, k, pc.rows[k]))
    && (pc.ResetTable? ==> StoppedAt(pc.start, trace, |pc.rows|))
  }

  ghost predicate ScanInv(s: State) {
    && WellFormed(s) && s.table == TableOf(s.trace)
    && (forall i | 0 <= i < |s.pcs| :: ScanPC(s.pcs[i], s.trace))
    && (forall j | 0 <= j < |s.reports| :: ScanDone(s.reports[j].start, s.reports[j].rows, s.reports[j].trace))
  }

  ghost predicate Inv(s: State) {
    MutexInv(s) && AccountInv(s) && ScanInv(s)
  }

  lemma MutexStep(s: State, a: Action)
    requires MutexInv(s) && WellFormed(s) && Enabled(s, a)
    ensures MutexInv(Apply(s, a))
  {
    var s' := Apply(s, a);
    assert s'.pcs == s.pcs[a.i := s'.pcs[a.i]];
    CountUpdate(s.pcs, a.i, s'.pcs[a.i], Reporting);
    CountExtremes(s.pcs, Reporting);
  }

  /** While one CPU is about to read the total, none is between its read and its reset. */
  lemma NotPending(s: State, i: nat)
    requires MutexInv(s) && i < |s.pcs| && s.pcs[i].ReadTotal?
    ensures Count(s.pcs, AtSetTotal) == 0
  {
    forall j | 0 <= j < |s.pcs| ensures !AtSetTotal(s.pcs[j]) {
      if AtSetTotal(s.pcs[j]) {
        AtMostOne(s.pcs, Reporting, i, j);
      }
    }
    CountExtremes(s.pcs, AtSetTotal);
  }

  lemma ReadTotalStep(s: State, i: nat)
    requires MutexInv(s) && AccountInv(s) && WellFormed(s) && i < |s.pcs| && s.pcs[i].ReadTotal?
    ensures AccountInv(Apply(s, Step(i)))
  {
    NotPending(s, i);
    CountUpdate(s.pcs, i, SetTotal(s.pcs[i].now), AtSetTotal);
    SumAppend(s.printed, s.total, Identity());
  }

  lemma SetTotalStep(s: State, i: nat)
    requires MutexInv(s) && AccountInv(s) && WellFormed(s) && i < |s.pcs| && s.pcs[i].SetTotal?
    ensures AccountInv(Apply(s, Step(i)))
  {
    CountMonotone(s.pcs, AtSetTotal, Reporting);
    CountExtremes(s.pcs, AtSetTotal);
    CountUpdate(s.pcs, i, FirstLook(s.pcs[i].now), AtSetTotal);
  }

  /** Every other step leaves the printed totals alone, and nobody enters or leaves SetTotal. */
  lemma AccountFrame(s: State, a: Action)
    requires WellFormed(s) && Enabled(s, a) && !s.pcs[a.i].ReadTotal? && !s.pcs[a.i].SetTotal?
    ensures var s' := Apply(s, a);
            && |s'.pcs| == |s.pcs| && s'.pcs == s.pcs[a.i := s'.pcs[a.i]]
            && !AtSetTotal(s'.pcs[a.i])
            && s'.printed == s.printed
            && (if s.pcs[a.i].Enter?
                then s'.total == s.total + 1 && s'.hits == s.hits + 1
                     && s'.lost == s.lost + if Pending(s) then 1 else 0
                else s'.total == s.total && s'.hits == s.hits && s'.lost == s.lost)
  {
  }

  lemma AccountStep(s: State, a: Action)
    requires MutexInv(s) && AccountInv(s) && WellFormed(s) && Enabled(s, a)
    ensures AccountInv(Apply(s, a))
  {
    if s.pcs[a.i].ReadTotal? {
      ReadTotalStep(s, a.i);
    } else if s.pcs[a.i].SetTotal? {
      SetTotalStep(s, a.i);
    } else {
      AccountFrame(s, a);
      CountUpdate(s.pcs, a.i, Apply(s, a).pcs[a.i], AtSetTotal);
    }
  }

  lemma ScanStays(pc: PC, trace: seq<u32>, msr: u32)
    requires ScanPC(pc, trace)
    ensures ScanPC(pc, trace + [msr])
  {
    if pc.Scan? || pc.ResetTable? {
      forall k | 0 <= k < |pc.rows| ensures Seen(pc.start, trace + [msr], k, pc.rows[k]) {
        assert Seen(pc.start, trace, k, pc.rows[k]);
        var mid: seq<u32> :| pc.start <= mid <= trace && TableOf(mid)[k] == pc.rows[k];
        assert mid <= trace + [msr];
      }
    }
    if pc.ResetTable? && |pc.rows| < SLOTS {
      var mid: seq<u32> :| pc.start <= mid <= trace && !Reportable(TableOf(mid)[|pc.rows|]);
      assert mid <= trace + [msr];
    }
  }

  lemma InsertStep(s: State, i: nat)
    requires ScanInv(s) && i < |s.pcs| && s.pcs[i].Record? && RecordClass(s.pcs[i].msr) == Others
    ensures ScanInv(Apply(s, Step(i)))
  {
    var s', msr := Apply(s, Step(i)), s.pcs[i].msr;
    assert s'.trace[..|s'.trace| - 1] == s.trace;
    forall j | 0 <= j < |s'.pcs| ensures ScanPC(s'.pcs[j], s'.trace) {
      ScanStays(s.pcs[j], s.trace, msr);
    }
  }

  lemma ResetStep(s: State, i: nat)
    requires MutexInv(s) && ScanInv(s) && i < |s.pcs| && s.pcs[i].ResetTable?
    ensures ScanInv(Apply(s, Step(i)))
  {
    var s' := Apply(s, Step(i));
    forall j | 0 <= j < |s'.pcs| ensures ScanPC(s'.pcs[j], s'.trace) {
      if j != i && Reporting(s.pcs[j]) {
        AtMostOne(s.pcs, Reporting, i, j);
      }
    }
  }

  lemma ScanStep(s: State, a: Action)
    requires MutexInv(s) && ScanInv(s) && Enabled(s, a)
    ensures ScanInv(Apply(s, a))
  {
    var s', pc := Apply(s, a), s.pcs[a.i];
    if pc.Record? && RecordClass(pc.msr) == Others {
      InsertStep(s, a.i);
    } else if pc.ResetTable? {
      ResetStep(s, a.i);
    } else {
      ScanFrame(s, a);
      if pc.Scan? {
        ScanAdvances(s, a.i);
      } else if pc.FirstLook? {
        ScanBegins(s, a.i);
      }
    }
  }

  /** Every other step leaves the table and its histories alone, and only two of them go to a scan. */
  lemma ScanFrame(s: State, a: Action)
    requires WellFormed(s) && Enabled(s, a) && !s.pcs[a.i].ResetTable?
    requires s.pcs[a.i].Record? ==> RecordClass(s.pcs[a.i].msr) != Others
    ensures var s', pc := Apply(s, a), s.pcs[a.i];
            && WellFormed(s') && s'.pcs == s.pcs[a.i := s'.pcs[a.i]]
            && s'.trace == s.trace && s'.table == s.table && s'.reports == s.reports
            && (pc.Scan? || pc.FirstLook? || (!s'.pcs[a.i].Scan? && !s'.pcs[a.i].ResetTable?))
  {
  }

  lemma ScanBegins(s: State, i: nat)
    requires ScanInv(s) && i < |s.pcs| && s.pcs[i].FirstLook?
    ensures ScanPC(Apply(s, Step(i)).pcs[i], s.trace)
  {
    assert s.table[0] == TableOf(s.trace)[0];
    assert s.trace <= s.trace <= s.trace;
  }

  lemma ScanAdvances(s: State, i: nat)
    requires ScanInv(s) && i < |s.pcs| && s.pcs[i].Scan?
    ensures ScanPC(Apply(s, Step(i)).pcs[i], s.trace)
  {
    var pc, pc' := s.pcs[i], Apply(s, Step(i)).pcs[i];
    assert ScanPC(pc, s.trace);
    var k := |pc.rows|;
    if k < SLOTS {
      assert TableOf(s.trace)[k] == s.table[k];
      assert pc.start <= s.trace <= s.trace;
      if Reportable(s.table[k]) {
        assert Seen(pc.start, s.trace, k, s.table[k]);
      }
    }
  }

  lemma {:induction false} InvPath(s: State, acts: seq<Action>, s': State)
    requires Inv(s) && Path(s, acts, s')
    ensures Inv(s')
    decreases |acts|
  {
    if acts != [] {
      MutexStep(s, acts[0]);
      AccountStep(s, acts[0]);
      ScanStep(s, acts[0]);
      InvPath(Apply(s, acts[0]), acts[1..], s');
    }
  }

  lemma InvReachable(cpus: nat, ktime: int, s: State)
    requires Reachable(cpus, ktime, s)
    ensures Inv(s)
  {
    var acts: seq<Action> :| Path(Init(cpus, ktime), acts, s);
    CountExtremes(Init(cpus, ktime).pcs, Reporting);
    CountExtremes(Init(cpus, ktime).pcs, AtSetTotal);
    InvPath(Init(cpus, ktime), acts, s);
  }

  // ---------------------------------------------------------------- theorems

  /** At most one CPU is reporting at any time, and showing_lock is held exactly then. */
  lemma OneReporter(cpus: nat, ktime: int, s: State)
    requires Reachable(cpus, ktime, s)
    ensures forall i, j | 0 <= i < |s.pcs| && 0 <= j < |s.pcs| && Reporting(s.pcs[i]) && Reporting(s.pcs[j]) :: i == j
    ensures s.held <==> exists i :: 0 <= i < |s.pcs| && Reporting(s.pcs[i])
  {
    InvReachable(cpus, ktime, s);
    CountExtremes(s.pcs, Reporting);
    forall i, j | 0 <= i < |s.pcs| && 0 <= j < |s.pcs| && Reporting(s.pcs[i]) && Reporting(s.pcs[j])
      ensures i == j
    {
      AtMostOne(s.pcs, Reporting, i, j);
    }
  }

  /** Printed totals, the increments lost between read and reset, and the current total make up all hits. */
  lemma HitsAccounted(cpus: nat, ktime: int, s: State)
    requires Reachable(cpus, ktime, s)
    ensures s.hits == Sum(s.printed, Identity()) + s.lost + if Pending(s) then 0 else s.total
  {
    InvReachable(cpus, ktime, s);
  }

  /** One printed row against the table at the start and at the end of the scan. */
  ghost predicate RowOk(before: Slot, row: Slot, after: Slot) {
    && row.index != 0
    && (before.index != 0 ==> before.index == row.index && before.count <= row.count)
    && after.index == row.index && row.count <= after.count
  }

  lemma RowBetween(start: seq<u32>, trace: seq<u32>, k: nat, row: Slot)
    requires Seen(start, trace, k, row) && |trace| < WRAP
    ensures RowOk(TableOf(start)[k], row, TableOf(trace)[k])
  {
    var mid: seq<u32> :| start <= mid <= trace && TableOf(mid)[k] == row;
    if TableOf(start)[k].index != 0 {
      SlotGrows(start, mid, k);
    }
    SlotGrows(mid, trace, k);
  }

  /** The scan does not stop before the last slot that had a key when it began. */
  lemma NotStoppedEarly(start: seq<u32>, trace: seq<u32>, stop: nat, k: nat)
    requires StoppedAt(start, trace, stop) && |trace| < WRAP
    requires k < SLOTS && TableOf(start)[k].index != 0
    ensures k < stop
  {
    if stop < SLOTS {
      var mid: seq<u32> :| start <= mid <= trace && !Reportable(TableOf(mid)[stop]);
      OccupiedIff(start, k);
      OccupiedIff(start, stop);
      if TableOf(start)[stop].index != 0 {
        SlotGrows(start, mid, stop);
        OccupiedReportable(mid, stop);
      }
    }
  }

  /** Distinct keys, all that were there at the start with at least their counts, nothing not there at the end. */
  ghost predicate ScanOk(start: seq<u32>, rows: seq<Slot>, trace: seq<u32>) {
    && |rows| <= SLOTS && start <= trace
    && (forall k | 0 <= k < |rows| :: RowOk(TableOf(start)[k], rows[k], TableOf(trace)[k]))
    && (forall k | 0 <= k < SLOTS && TableOf(start)[k].index != 0 :: k < |rows|)
    && (forall j, k | 0 <= j < k < |rows| :: rows[j].index != rows[k].index)
  }

  lemma ScanDoneOk(start: seq<u32>, rows: seq<Slot>, trace: seq<u32>)
    requires ScanDone(start, rows, trace) && |trace| < WRAP
    ensures ScanOk(start, rows, trace)
  {
    forall k | 0 <= k < |rows| ensures RowOk(TableOf(start)[k], rows[k], TableOf(trace)[k]) {
      RowBetween(start, trace, k, rows[k]);
    }
    forall k | 0 <= k < SLOTS && TableOf(start)[k].index != 0 ensures k < |rows| {
      NotStoppedEarly(start, trace, |rows|, k);
    }
    forall j, k | 0 <= j < k < |rows| ensures rows[j].index != rows[k].index {
      NonzeroPrefix(trace, j, k);
    }
  }

  /**
   A finished scan, with other CPUs inserting all the while and fewer than 2^32 inserts since the
   last reset: it printed pairwise distinct keys; every nonzero key the table held when the scan
   began, with at least its count then; and no key or count that the table does not hold by its end.
   */
  lemma ScanCorrect(cpus: nat, ktime: int, s: State, i: nat)
    requires Reachable(cpus, ktime, s) && i < |s.pcs| && s.pcs[i].ResetTable? && |s.trace| < WRAP
    ensures s.table == TableOf(s.trace) && ScanOk(s.pcs[i].start, s.pcs[i].rows, s.trace)
  {
    InvReachable(cpus, ktime, s);
    assert ScanPC(s.pcs[i], s.trace);
    ScanDoneOk(s.pcs[i].start, s.pcs[i].rows, s.trace);
  }

  /** What a reset wipes from each slot beyond what its report has printed of it. */
  function Unprinted(rows: seq<Slot>, table: seq<Slot>): (u: seq<nat>)
    requires |rows| <= |table| && forall k | 0 <= k < |rows| :: rows[k].count <= table[k].count
    ensures |u| == |table|
  {
    seq(|table|, k requires 0 <= k < |table| => table[k].count - if k < |rows| then rows[k].count else 0)
  }

  lemma UnprintedLast(rows: seq<Slot>, table: seq<Slot>)
    requires table != [] && |rows| <= |table| && forall k | 0 <= k < |rows| :: rows[k].count <= table[k].count
    ensures var n := |table| - 1;
            var init := if |rows| <= n then rows else rows[..n];
            Unprinted(rows, table)[..n] == Unprinted(init, table[..n])
  {
  }

  lemma {:induction false} UnprintedSum(rows: seq<Slot>, table: seq<Slot>)
    requires |rows| <= |table| && forall k | 0 <= k < |rows| :: rows[k].count <= table[k].count
    ensures Sum(rows, CountOf()) + Sum(Unprinted(rows, table), Identity()) == Sum(table, CountOf())
  {
    if table != [] {
      var n := |table| - 1;
      UnprintedLast(rows, table);
      UnprintedSum(if |rows| <= n then rows else rows[..n], table[..n]);
    }
  }

  /**
   For every report ever finished, with other CPUs inserting up to its reset: its scan was right, and
   the printed counts, the counts wiped unprinted because they landed after their slot was read, and
   the events the full table dropped make up all inserts of its period.
   */
  lemma InsertsAccounted(cpus: nat, ktime: int, s: State, j: nat)
    requires Reachable(cpus, ktime, s) && j < |s.reports| && |s.reports[j].trace| < WRAP
    ensures var r, t := s.reports[j], TableOf(s.reports[j].trace);
            && ScanOk(r.start, r.rows, r.trace)
            && (forall k | 0 <= k < |r.rows| :: r.rows[k].count <= t[k].count)
            && Sum(r.rows, CountOf()) + Sum(Unprinted(r.rows, t), Identity()) + Dropped(r.trace) == |r.trace|
  {
    InvReachable(cpus, ktime, s);
    var r := s.reports[j];
    ScanDoneOk(r.start, r.rows, r.trace);
    UnprintedSum(r.rows, TableOf(r.trace));
    CountsConserved(r.trace);
  }

  // ---------------------------------------------------------------- nothing but the probe hits

  function IsProbe(): Action -> bool { (a: Action) => a.Probe? }

  function ProbeOf(m: u32): Action -> bool { (a: Action) => a.Probe? && a.msr == m }

  function IsMsr(m: u32): u32 -> bool { (x: u32) => x == m }

  function Wiped(m: u32): Report -> nat { (r: Report) => Count(r.trace, IsMsr(m)) }

  predicate AtEnter(pc: PC) { pc.Enter? }

  predicate AtSetTime(pc: PC) { pc.SetTime? }

  /** The hit of this MSR is still on its way to the table. */
  function OnTheWay(m: u32): PC -> bool { (pc: PC) => (pc.Enter? || pc.Record?) && pc.msr == m }

  /** Inserts of m into the table, now or before a reset. */
  function Inserted(s: State, m: u32): nat {
    Count(s.trace, IsMsr(m)) + Sum(s.reports, Wiped(m))
  }

  lemma RecordInserts(s: State, i: nat, m: u32)
    requires WellFormed(s) && i < |s.pcs| && s.pcs[i].Record?
    ensures Inserted(Apply(s, Step(i)), m)
         == Inserted(s, m) + if s.pcs[i].msr == m && RecordClass(m) == Others then 1 else 0
  {
    if RecordClass(s.pcs[i].msr) == Others {
      SumAppend(s.trace, s.pcs[i].msr, Indicator(IsMsr(m)));
    }
  }

  lemma ResetMoves(s: State, i: nat, m: u32)
    requires WellFormed(s) && i < |s.pcs| && s.pcs[i].ResetTable?
    ensures Inserted(Apply(s, Step(i)), m) == Inserted(s, m)
  {
    SumAppend(s.reports, Report(s.pcs[i].start, s.pcs[i].rows, s.trace), Wiped(m));
  }

  lemma InsertFrame(s: State, a: Action)
    requires WellFormed(s) && Enabled(s, a) && !s.pcs[a.i].Record? && !s.pcs[a.i].ResetTable?
    ensures Apply(s, a).trace == s.trace && Apply(s, a).reports == s.reports
  {
  }

  lemma OneMoreInsert(s: State, a: Action, m: u32)
    requires WellFormed(s) && Enabled(s, a)
    ensures Inserted(Apply(s, a), m)
         == Inserted(s, m) + if s.pcs[a.i].Record? && s.pcs[a.i].msr == m && RecordClass(m) == Others then 1 else 0
  {
    if s.pcs[a.i].Record? {
      RecordInserts(s, a.i, m);
    } else if s.pcs[a.i].ResetTable? {
      ResetMoves(s, a.i, m);
    } else {
      InsertFrame(s, a);
    }
  }

  lemma WayStep(s: State, a: Action, m: u32)
    requires WellFormed(s) && Enabled(s, a)
    ensures Count(Apply(s, a).pcs, OnTheWay(m)) + (if s.pcs[a.i].Record? && s.pcs[a.i].msr == m then 1 else 0)
         == Count(s.pcs, OnTheWay(m)) + if ProbeOf(m)(a) then 1 else 0
  {
    CountUpdate(s.pcs, a.i, Apply(s, a).pcs[a.i], OnTheWay(m));
  }

  /** Hits of m in a table, or, for those that go there, on their way to it. */
  function Known(s: State, m: u32, other: bool): nat {
    Inserted(s, m) + if other then Count(s.pcs, OnTheWay(m)) else 0
  }

  lemma KnownStep(s: State, a: Action, m: u32, other: bool)
    requires WellFormed(s) && Enabled(s, a) && (other <==> RecordClass(m) == Others)
    ensures Known(Apply(s, a), m, other) == Known(s, m, other) + if other && ProbeOf(m)(a) then 1 else 0
  {
    OneMoreInsert(s, a, m);
    WayStep(s, a, m);
  }

  lemma {:induction false} KnownPath(s: State, acts: seq<Action>, s': State, m: u32, other: bool)
    requires WellFormed(s) && Path(s, acts, s') && (other <==> RecordClass(m) == Others)
    ensures Known(s', m, other) == Known(s, m, other) + if other then Count(acts, ProbeOf(m)) else 0
    decreases |acts|
  {
    if acts != [] {
      var t := Apply(s, acts[0]);
      KnownPath(t, acts[1..], s', m, other);
      assert Known(t, m, other) == Known(s, m, other) + if other && ProbeOf(m)(acts[0]) then 1 else 0 by {
        KnownStep(s, acts[0], m, other);
      }
      SumFirst(acts, Indicator(ProbeOf(m)));
    }
  }

  lemma HitStep(s: State, a: Action)
    requires WellFormed(s) && Enabled(s, a)
    ensures Apply(s, a).hits + Count(Apply(s, a).pcs, AtEnter)
         == s.hits + Count(s.pcs, AtEnter) + if a.Probe? then 1 else 0
  {
    CountUpdate(s.pcs, a.i, Apply(s, a).pcs[a.i], AtEnter);
  }

  lemma {:induction false} HitPath(s: State, acts: seq<Action>, s': State)
    requires WellFormed(s) && Path(s, acts, s')
    ensures s'.hits + Count(s'.pcs, AtEnter) == s.hits + Count(s.pcs, AtEnter) + Count(acts, IsProbe())
    decreases |acts|
  {
    if acts != [] {
      HitStep(s, acts[0]);
      SumFirst(acts, Indicator(IsProbe()));
      HitPath(Apply(s, acts[0]), acts[1..], s');
    }
  }

  lemma WipeStep(s: State, a: Action)
    requires WellFormed(s) && Enabled(s, a) && |s.reports| == |s.times| + Count(s.pcs, AtSetTime)
    ensures |Apply(s, a).reports| == |Apply(s, a).times| + Count(Apply(s, a).pcs, AtSetTime)
  {
    CountUpdate(s.pcs, a.i, Apply(s, a).pcs[a.i], AtSetTime);
  }

  lemma {:induction false} WipePath(s: State, acts: seq<Action>, s': State)
    requires WellFormed(s) && Path(s, acts, s') && |s.reports| == |s.times| + Count(s.pcs, AtSetTime)
    ensures |s'.reports| == |s'.times| + Count(s'.pcs, AtSetTime)
    decreases |acts|
  {
    if acts != [] {
      WipeStep(s, acts[0]);
      WipePath(Apply(s, acts[0]), acts[1..], s');
    }
  }

  /** Read off the run: the "other" MSRs recorded since the table's last reset, `tr` before the run. */
  ghost function SinceReset(s: State, acts: seq<Action>, tr: seq<u32>): seq<u32>
    requires WellFormed(s)
    decreases |acts|
  {
    if acts == [] || !Enabled(s, acts[0]) then tr
    else
      var pc := s.pcs[acts[0].i];
      SinceReset(Apply(s, acts[0]), acts[1..],
                 if pc.Record? && RecordClass(pc.msr) == Others then tr + [pc.msr]
                 else if pc.ResetTable? then [] else tr)
  }

  /** Read off the run: the hits counted while a reporter was between its read of the total and its reset. */
  ghost function LateHits(s: State, acts: seq<Action>): nat
    requires WellFormed(s)
    decreases |acts|
  {
    if acts == [] || !Enabled(s, acts[0]) then 0
    else LateHits(Apply(s, acts[0]), acts[1..]) + if s.pcs[acts[0].i].Enter? && Pending(s) then 1 else 0
  }

  lemma {:induction false} HistoryPath(s: State, acts: seq<Action>, s': State)
    requires WellFormed(s) && Path(s, acts, s')
    ensures s'.trace == SinceReset(s, acts, s.trace) && s'.lost == s.lost + LateHits(s, acts)
    decreases |acts|
  {
    if acts != [] {
      HistoryPath(Apply(s, acts[0]), acts[1..], s');
    }
  }

  /**
   Counted from what happened, not from what was stored: in every run each hit of an "other" MSR is
   exactly once in the table's history, or in that of one report, which the reset has taken out of the
   table, or its CPU has not come to the table yet; hits of other MSRs never are.
   Likewise every hit has been counted or its CPU is about to count it, the lost increments are those
   made in the window, and every report has wiped the table once.
   */
  lemma ProbesRecorded(cpus: nat, ktime: int, acts: seq<Action>, s: State, m: u32)
    requires Path(Init(cpus, ktime), acts, s)
    ensures s.table == TableOf(s.trace) && s.trace == SinceReset(Init(cpus, ktime), acts, [])
    ensures if RecordClass(m) == Others then
              Count(acts, ProbeOf(m))
              == Count(s.trace, IsMsr(m)) + Sum(s.reports, Wiped(m)) + Count(s.pcs, OnTheWay(m))
            else Count(s.trace, IsMsr(m)) == Sum(s.reports, Wiped(m)) == 0
    ensures Count(acts, IsProbe()) == s.hits + Count(s.pcs, AtEnter)
    ensures s.lost == LateHits(Init(cpus, ktime), acts)
    ensures |s.reports| == |s.times| + Count(s.pcs, AtSetTime)
  {
    var s0 := Init(cpus, ktime);
    CountExtremes(s0.pcs, OnTheWay(m));
    CountExtremes(s0.pcs, AtEnter);
    CountExtremes(s0.pcs, AtSetTime);
    InvReachable(cpus, ktime, s);
    KnownPath(s0, acts, s, m, RecordClass(m) == Others);
    HitPath(s0, acts, s);
    WipePath(s0, acts, s);
    HistoryPath(s0, acts, s);
  }

  /** A slot that has a key keeps it, and its count only grows. */
  lemma SlotGrows(tr: seq<u32>, tr': seq<u32>, k: nat)
    requires tr <= tr' && |tr'| < WRAP && k < SLOTS && TableOf(tr)[k].index != 0
    ensures TableOf(tr')[k].index == TableOf(tr)[k].index && TableOf(tr)[k].count <= TableOf(tr')[k].count
  {
    var more := tr'[|tr|..];
    assert tr' == tr + more;
    TableExact(tr);
    TableExact(tr');
    KeysGrow(tr, more);
    SharesGrow(tr, more, k);
    CountIsShare(tr, k);
    CountIsShare(tr', k);
  }

  lemma OccupiedReportable(tr: seq<u32>, k: nat)
    requires |tr| < WRAP && k < SLOTS && TableOf(tr)[k].index != 0
    ensures Reportable(TableOf(tr)[k])
  {
    OccupiedIff(tr, k);
    NoWrap(tr, k);
    FilledSlots(tr, k);
  }

  lemma Extend(cpus: nat, ktime: int, s: State, a: Action)
    requires Reachable(cpus, ktime, s) && WellFormed(s) && Enabled(s, a)
    ensures Reachable(cpus, ktime, Apply(s, a))
  {
    var acts: seq<Action> :| Path(Init(cpus, ktime), acts, s);
    PathExtend(Init(cpus, ktime), acts, s, a);
  }

  // ---------------------------------------------------------------- spacing of the reports

  /** Past the time check, with its own report's time not stored yet. */
  predicate Cleared(pc: PC) {
    pc.TryLock? || pc.ReadTotal? || pc.SetTotal? || pc.FirstLook? || pc.Scan? || pc.ResetTable? || pc.SetTime?
  }

  predicate Late(ktime: int, times: seq<int>, j: nat, now: int) {
    j <= |times| && now - TimeAfter(ktime, times, j) > WrmsrProbe.REPORT_NS
  }

  ghost predicate SpacingInv(ktime: int, s: State) {
    && |s.checked| == |s.pcs| && |s.seen| == |s.times| && s.ktime == TimeAfter(ktime, s.times, |s.times|)
    && (forall i | 0 <= i < |s.pcs| && Cleared(s.pcs[i]) :: Late(ktime, s.times, s.checked[i], s.pcs[i].now))
    && (forall j | 0 <= j < |s.times| :: s.seen[j] <= j && Late(ktime, s.times, s.seen[j], s.times[j]))
  }

  /** The steps that touch the spacing are the time check and the store of the time. */
  lemma SpacingFrame(s: State, a: Action)
    requires WellFormed(s) && Enabled(s, a)
    ensures var s', pc := Apply(s, a), s.pcs[a.i];
            && WellFormed(s') && |s'.pcs| == |s.pcs|
            && (forall i | 0 <= i < |s.pcs| && i != a.i :: s'.pcs[i] == s.pcs[i] && s'.checked[i] == s.checked[i])
            && (Cleared(s'.pcs[a.i]) && !pc.TimeCheck? ==>
                  Cleared(pc) && s'.pcs[a.i].now == pc.now && s'.checked == s.checked)
            && (pc.TimeCheck? ==> s'.checked[a.i] == |s.times|)
            && (pc.TimeCheck? && Cleared(s'.pcs[a.i]) ==> s'.pcs[a.i].now - s.ktime > WrmsrProbe.REPORT_NS)
            && (if pc.SetTime? then
                  s'.times == s.times + [pc.now] && s'.seen == s.seen + [s.checked[a.i]] && s'.ktime == pc.now
                else s'.times == s.times && s'.seen == s.seen && s'.ktime == s.ktime)
  {
  }

  lemma LateStays(ktime: int, times: seq<int>, j: nat, now: int, t: int)
    requires Late(ktime, times, j, now)
    ensures Late(ktime, times + [t], j, now)
  {
  }

  lemma SpacingStep(ktime: int, s: State, a: Action)
    requires SpacingInv(ktime, s) && WellFormed(s) && Enabled(s, a)
    ensures SpacingInv(ktime, Apply(s, a))
  {
    SpacingFrame(s, a);
    var s' := Apply(s, a);
    forall i | 0 <= i < |s'.pcs| && Cleared(s'.pcs[i])
      ensures Late(ktime, s'.times, s'.checked[i], s'.pcs[i].now)
    {
      if s.pcs[a.i].SetTime? {
        LateStays(ktime, s.times, s.checked[i], s.pcs[i].now, s.pcs[a.i].now);
      }
    }
    forall j | 0 <= j < |s'.times| ensures s'.seen[j] <= j && Late(ktime, s'.times, s'.seen[j], s'.times[j]) {
      if s.pcs[a.i].SetTime? {
        if j < |s.times| {
          LateStays(ktime, s.times, s.seen[j], s.times[j], s.pcs[a.i].now);
        } else {
          LateStays(ktime, s.times, s.checked[a.i], s.pcs[a.i].now, s.pcs[a.i].now);
        }
      }
    }
  }

  lemma {:induction false} SpacingPath(ktime: int, s: State, acts: seq<Action>, s': State)
    requires SpacingInv(ktime, s) && WellFormed(s) && Path(s, acts, s')
    ensures SpacingInv(ktime, s')
    decreases |acts|
  {
    if acts != [] {
      SpacingStep(ktime, s, acts[0]);
      SpacingPath(ktime, Apply(s, acts[0]), acts[1..], s');
    }
  }

  /**
   On any number of CPUs every report is more than 10^9 ns after the last report whose time its CPU
   had seen at its time check; so a report checked after its predecessor's time was stored is more
   than 10^9 ns after it.
   */
  lemma ReportsSpaced(cpus: nat, ktime: int, s: State, j: nat)
    requires Reachable(cpus, ktime, s) && j < |s.times|
    ensures |s.seen| == |s.times| && s.seen[j] <= j
    ensures s.times[j] - TimeAfter(ktime, s.times, s.seen[j]) > WrmsrProbe.REPORT_NS
    ensures s.seen[j] == j ==> s.times[j] - TimeAfter(ktime, s.times, j) > WrmsrProbe.REPORT_NS
  {
    var acts: seq<Action> :| Path(Init(cpus, ktime), acts, s);
    SpacingPath(ktime, Init(cpus, ktime), acts, s);
    assert Late(ktime, s.times, s.seen[j], s.times[j]);
  }

  /** Every report is more than 10^9 ns after the one before it, in every run. */
  ghost predicate AlwaysApart(cpus: nat, ktime: int) {
    forall s: State, j: nat :: Reachable(cpus, ktime, s) && j < |s.times| ==> Late(ktime, s.times, j, s.times[j])
  }

  /** One CPU alone has seen every report when it makes its next one. */
  ghost predicate AloneInv(s: State) {
    && |s.pcs| == |s.checked| <= 1 && |s.seen| == |s.times|
    && (forall i | 0 <= i < |s.pcs| && Cleared(s.pcs[i]) :: s.checked[i] == |s.times|)
    && (forall j | 0 <= j < |s.seen| :: s.seen[j] == j)
  }

  lemma {:induction false} AlonePath(s: State, acts: seq<Action>, s': State)
    requires AloneInv(s) && WellFormed(s) && Path(s, acts, s')
    ensures AloneInv(s')
    decreases |acts|
  {
    if acts != [] {
      SpacingFrame(s, acts[0]);
      AlonePath(Apply(s, acts[0]), acts[1..], s');
    }
  }

  // ---------------------------------------------------------------- what concurrency does not keep

  /** An idle CPU's probe hit of a class counter MSR, up to the trylock. */
  lemma ToTryLock(cpus: nat, ktime: int, s: State, i: nat, now: int) returns (s': State)
    requires Reachable(cpus, ktime, s) && WellFormed(s) && i < |s.pcs| && s.pcs[i].Idle?
    requires now - s.ktime > WrmsrProbe.REPORT_NS
    ensures Reachable(cpus, ktime, s') && WellFormed(s')
    ensures s'.pcs == s.pcs[i := TryLock(now)] && s'.held == s.held
    ensures s'.table == s.table && s'.times == s.times && s'.ktime == s.ktime
  {
    Extend(cpus, ktime, s, Probe(i, MSR_IA32_APICBASE, now));
    s' := Apply(s, Probe(i, MSR_IA32_APICBASE, now));
    for n := 0 to 3
      invariant Reachable(cpus, ktime, s') && |s'.pcs| == |s.pcs| && WellFormed(s')
      invariant s'.pcs == s.pcs[i := if n == 0 then Enter(MSR_IA32_APICBASE, now)
                                     else if n == 1 then Record(MSR_IA32_APICBASE, now)
                                     else if n == 2 then TimeCheck(now) else TryLock(now)]
      invariant s'.held == s.held && s'.table == s.table && s'.times == s.times && s'.ktime == s.ktime
    {
      Extend(cpus, ktime, s', Step(i));
      s' := Apply(s', Step(i));
    }
  }

  /** A CPU at the trylock with the lock free and the table empty reports and is done. */
  lemma ReportAlone(cpus: nat, ktime: int, s: State, i: nat) returns (s': State)
    requires Reachable(cpus, ktime, s) && WellFormed(s) && i < |s.pcs| && s.pcs[i].TryLock?
    requires !s.held && s.table == Empty()
    ensures Reachable(cpus, ktime, s') && WellFormed(s')
    ensures s'.pcs == s.pcs[i := Idle] && !s'.held && s'.table == Empty()
    ensures s'.times == s.times + [s.pcs[i].now]
  {
    var now := s.pcs[i].now;
    s' := s;
    for n := 0 to 7
      invariant Reachable(cpus, ktime, s') && |s'.pcs| == |s.pcs| && WellFormed(s') && s'.table == Empty()
      invariant s'.pcs == s.pcs[i := s'.pcs[i]]
      invariant n == 0 ==> s' == s
      invariant n == 1 ==> s'.pcs[i] == ReadTotal(now)
      invariant n == 2 ==> s'.pcs[i] == SetTotal(now)
      invariant n == 3 ==> s'.pcs[i] == FirstLook(now)
      invariant n == 4 ==> s'.pcs[i].ResetTable? && s'.pcs[i].now == now
      invariant n == 5 ==> s'.pcs[i] == SetTime(now)
      invariant n == 6 ==> s'.pcs[i] == Unlock
      invariant n == 7 ==> s'.pcs[i] == Idle && !s'.held
      invariant s'.times == s.times + if n < 6 then [] else [now]
    {
      Extend(cpus, ktime, s', Step(i));
      s' := Apply(s', Step(i));
    }
  }

  /**
   The time check is made outside showing_lock, so two CPUs that pass it together report one after
   the other with no time between them.
   */
  lemma ReportsCanCoincide(cpus: nat, ktime: int, now: int) returns (s: State)
    requires 2 <= cpus && now - ktime > WrmsrProbe.REPORT_NS
    ensures Reachable(cpus, ktime, s) && s.times == [now, now]
  {
    s := Init(cpus, ktime);
    assert Path(s, [], s);
    s := ToTryLock(cpus, ktime, s, 0, now);
    s := ToTryLock(cpus, ktime, s, 1, now);
    s := ReportAlone(cpus, ktime, s, 0);
    s := ReportAlone(cpus, ktime, s, 1);
  }

  /** Reports stay more than 10^9 ns apart in every run exactly if there is no second CPU. */
  lemma AlwaysApartIff(cpus: nat, ktime: int)
    ensures AlwaysApart(cpus, ktime) <==> cpus <= 1
  {
    if cpus <= 1 {
      forall s: State, j: nat | Reachable(cpus, ktime, s) && j < |s.times|
        ensures Late(ktime, s.times, j, s.times[j])
      {
        var acts: seq<Action> :| Path(Init(cpus, ktime), acts, s);
        AlonePath(Init(cpus, ktime), acts, s);
        ReportsSpaced(cpus, ktime, s, j);
      }
    } else {
      var s := ReportsCanCoincide(cpus, ktime, ktime + WrmsrProbe.REPORT_NS + 1);
      assert !Late(ktime, s.times, 1, s.times[1]);
    }
  }
}
