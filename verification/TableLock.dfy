/**
 Why the table operations may be taken as single steps: record, report and reset at the granularity
 of one slot access each, under other_msrs_lock, on any number of CPUs (debug/kvmwrmsr/msr.h).
 Every completed operation acts as if it had happened at once when it released the lock.
 */
module TableLock {
  import opened Sums
  import opened MsrClass
  import opened OtherTable

  /** Operations, with what they returned. */
  datatype Op = RecordOp(msr: u32) | ReportOp(idx: nat, ret: int, row: Slot) | ResetOp

  datatype PC =
    | Idle
    | WantRecord(msr: u32) | WantReport(idx: nat) | WantReset        // at spin_lock
    | CompareAt(msr: u32, idx: nat)                                 // loop head: read slot idx, compare
    | WriteIndex(msr: u32, idx: nat)
    | LoadCount(msr: u32, idx: nat) | StoreCount(msr: u32, idx: nat, c: u32)
    | TestIndex(idx: nat) | TestCount(idx: nat)
    | ReadIndex(idx: nat) | ReadCount(idx: nat, m: u32)
    | ClearAt(idx: nat)                                             // memset, slot by slot
    | Release(op: Op)                                               // at spin_unlock

  /** `done` is the history of completed operations in the order of their unlocks, `whose` they were. */
  datatype State = State(table: seq<Slot>, held: bool, pcs: seq<PC>, done: seq<Op>, whose: seq<nat>)

  datatype Action = Begin(i: nat, want: PC) | Step(i: nat)

  predicate Inside(pc: PC) {
    !pc.Idle? && !pc.WantRecord? && !pc.WantReport? && !pc.WantReset?
  }

  /** Report indices are below OTHER_MSRS, as in show_wrmsr. */
  predicate Request(pc: PC) {
    pc.WantRecord? || (pc.WantReport? && pc.idx < SLOTS) || pc.WantReset?
  }

  predicate SlotOk(pc: PC) {
    match pc
    case CompareAt(_, idx) => idx <= SLOTS
    case WriteIndex(_, idx) => idx < SLOTS
    case LoadCount(_, idx) => idx < SLOTS
    case StoreCount(_, idx, _) => idx < SLOTS
    case WantReport(idx) => idx < SLOTS
    case TestIndex(idx) => idx < SLOTS
    case TestCount(idx) => idx < SLOTS
    case ReadIndex(idx) => idx < SLOTS
    case ReadCount(idx, _) => idx < SLOTS
    case ClearAt(idx) => idx <= SLOTS
    case _ => true
  }

  predicate WellFormed(s: State) {
    |s.table| == SLOTS && forall i | 0 <= i < |s.pcs| :: SlotOk(s.pcs[i])
  }

  /** A CPU waiting for the lock takes no step while it is held. */
  predicate Enabled(s: State, a: Action) {
    a.i < |s.pcs|
    && match a
       case Begin(i, want) => s.pcs[i].Idle? && Request(want)
       case Step(i) => !s.pcs[i].Idle? && (s.held ==> Inside(s.pcs[i]))
  }

  /** The step's next program counter and its effect on the table. */
  function LocalStep(pc: PC, t: seq<Slot>): (r: (PC, seq<Slot>))
    requires |t| == SLOTS && SlotOk(pc)
    ensures |r.1| == SLOTS && SlotOk(r.0)
  {
    match pc
    case WantRecord(msr) => (CompareAt(msr, 0), t)
    case WantReport(idx) => (TestIndex(idx), t)
    case WantReset => (ClearAt(0), t)
    case CompareAt(msr, idx) =>
      if idx == SLOTS then (Release(RecordOp(msr)), t)
      else if msr == t[idx].index || t[idx].index == 0 then (WriteIndex(msr, idx), t)
      else (CompareAt(msr, idx + 1), t)
    case WriteIndex(msr, idx) => (LoadCount(msr, idx), t[idx := t[idx].(index := msr)])
    case LoadCount(msr, idx) => (StoreCount(msr, idx, t[idx].count), t)
    case StoreCount(msr, idx, c) => (Release(RecordOp(msr)), t[idx := t[idx].(count := (c + 1) % WRAP)])
    case TestIndex(idx) => (if t[idx].index != 0 then TestCount(idx) else Release(ReportOp(idx, -1, Slot(0, 0))), t)
    case TestCount(idx) => (if t[idx].count != 0 then ReadIndex(idx) else Release(ReportOp(idx, -1, Slot(0, 0))), t)
    case ReadIndex(idx) => (ReadCount(idx, t[idx].index), t)
    case ReadCount(idx, m) => (Release(ReportOp(idx, 0, Slot(m, t[idx].count))), t)
    case ClearAt(idx) => if idx == SLOTS then (Release(ResetOp), t) else (ClearAt(idx + 1), t[idx := Slot(0, 0)])
    case Release(_) => (Idle, t)
    case Idle => (Idle, t)
  }

  function Apply(s: State, a: Action): (s': State)
    requires WellFormed(s) && Enabled(s, a)
    ensures WellFormed(s')
  {
    match a
    case Begin(i, want) => s.(pcs := s.pcs[i := want])
    case Step(i) =>
      var pc := s.pcs[i];
      var (pc', t') := LocalStep(pc, s.table);
      State(t', !pc.Release?, s.pcs[i := pc'],
            if pc.Release? then s.done + [pc.op] else s.done, if pc.Release? then s.whose + [i] else s.whose)
  }

  // ---------------------------------------------------------------- the simple form

  /** The operation as one step on a table. */
  function Effect(t: seq<Slot>, op: Op): (t': seq<Slot>)
    requires |t| == SLOTS
    ensures |t'| == SLOTS
  {
    match op
    case RecordOp(msr) => Insert(t, msr)
    case ReportOp(_, _, _) => t
    case ResetOp => Empty()
  }

  /** The result is the one report_other_wrmsr gives on this table. */
  predicate ResultOk(t: seq<Slot>, op: Op)
    requires |t| == SLOTS
  {
    op.ReportOp? ==>
      op.idx < SLOTS && if Reportable(t[op.idx]) then op.ret == 0 && op.row == t[op.idx] else op.ret == -1
  }

  function Replay(ops: seq<Op>): (t: seq<Slot>)
    ensures |t| == SLOTS
  {
    if ops == [] then Empty() else Effect(Replay(ops[..|ops| - 1]), ops[|ops| - 1])
  }

  /** The MSRs recorded since the last reset. */
  function Recorded(ops: seq<Op>): seq<u32> {
    if ops == [] then []
    else
      var init := Recorded(ops[..|ops| - 1]);
      match ops[|ops| - 1]
      case RecordOp(msr) => init + [msr]
      case ReportOp(_, _, _) => init
      case ResetOp => []
  }

  /** So a replay is the table of the records since the last reset. */
  lemma {:induction false} ReplayIsTable(ops: seq<Op>)
    ensures Replay(ops) == TableOf(Recorded(ops))
  {
    if ops != [] {
      var init := ops[..|ops| - 1];
      ReplayIsTable(init);
      if ops[|ops| - 1].RecordOp? {
        assert (Recorded(init) + [ops[|ops| - 1].msr])[..|Recorded(init)|] == Recorded(init);
      }
    }
  }

  // ---------------------------------------------------------------- refinement

  /** The real table against the replayed one, from inside the lock. */
  ghost predicate Rel(pc: PC, a: seq<Slot>, t: seq<Slot>) {
    |a| == |t| == SLOTS && SlotOk(pc)
    && match pc
       case CompareAt(msr, idx) => t == a && forall j | 0 <= j < idx :: !Fits(a[j], msr)
       case WriteIndex(msr, idx) => t == a && FirstFit(a, msr) == idx
       case LoadCount(msr, idx) => t == a[idx := Slot(msr, a[idx].count)] && FirstFit(a, msr) == idx
       case StoreCount(msr, idx, c) =>
         t == a[idx := Slot(msr, a[idx].count)] && c == a[idx].count && FirstFit(a, msr) == idx
       case TestCount(idx) => t == a && a[idx].index != 0
       case ReadIndex(idx) => t == a && Reportable(a[idx])
       case ReadCount(idx, m) => t == a && Reportable(a[idx]) && m == a[idx].index
       case ClearAt(idx) => forall j | 0 <= j < idx :: t[j] == Slot(0, 0)
       case Release(op) => t == Effect(a, op) && ResultOk(a, op)
       case _ => t == a
  }

  lemma LocalRel(pc: PC, a: seq<Slot>, t: seq<Slot>)
    requires Rel(pc, a, t) && !pc.Release? && !pc.Idle?
    ensures Rel(LocalStep(pc, t).0, a, LocalStep(pc, t).1)
    ensures Inside(LocalStep(pc, t).0)
  {
    if pc.CompareAt? && pc.idx < SLOTS && Fits(t[pc.idx], pc.msr) {
      assert FirstFit(a, pc.msr) == pc.idx;
    }
    if pc.ClearAt? && pc.idx == SLOTS {
      assert t == Empty();
    }
  }

  ghost predicate Inv(s: State) {
    && WellFormed(s)
    && Count(s.pcs, Inside) == (if s.held then 1 else 0)
    && (!s.held ==> s.table == Replay(s.done))
    && (forall i | 0 <= i < |s.pcs| && Inside(s.pcs[i]) :: Rel(s.pcs[i], Replay(s.done), s.table))
    && (forall k | 0 <= k < |s.done| :: ResultOk(Replay(s.done[..k]), s.done[k]))
  }

  lemma OneInside(s: State, i: nat, j: nat)
    requires Count(s.pcs, Inside) <= 1 && i < |s.pcs| && j < |s.pcs| && Inside(s.pcs[i]) && Inside(s.pcs[j])
    ensures i == j
  {
    AtMostOne(s.pcs, Inside, i, j);
  }

  /** Taking the lock, or a step inside it short of the unlock. */
  lemma InnerStep(s: State, i: nat)
    requires Inv(s) && Enabled(s, Step(i)) && !s.pcs[i].Release?
    ensures Inv(Apply(s, Step(i)))
  {
    var s', a := Apply(s, Step(i)), Replay(s.done);
    CountUpdate(s.pcs, i, s'.pcs[i], Inside);
    CountExtremes(s.pcs, Inside);
    LocalRel(s.pcs[i], a, s.table);
    forall j | 0 <= j < |s'.pcs| && Inside(s'.pcs[j]) ensures Rel(s'.pcs[j], a, s'.table) {
      if j != i && s.held {
        OneInside(s, i, j);
      }
    }
  }

  lemma ReleaseStep(s: State, i: nat)
    requires Inv(s) && i < |s.pcs| && s.pcs[i].Release? && Enabled(s, Step(i))
    ensures Inv(Apply(s, Step(i)))
  {
    var s', op := Apply(s, Step(i)), s.pcs[i].op;
    CountUpdate(s.pcs, i, Idle, Inside);
    CountExtremes(s.pcs, Inside);
    CountExtremes(s'.pcs, Inside);
    assert s'.done[..|s.done|] == s.done;
    assert Rel(s.pcs[i], Replay(s.done), s.table);
    forall k | 0 <= k < |s'.done| ensures ResultOk(Replay(s'.done[..k]), s'.done[k]) {
      if k < |s.done| {
        assert s'.done[..k] == s.done[..k];
      }
    }
  }

  lemma InvStep(s: State, a: Action)
    requires Inv(s) && Enabled(s, a)
    ensures Inv(Apply(s, a))
  {
    match a
    case Begin(i, want) =>
      CountUpdate(s.pcs, i, want, Inside);
    case Step(i) =>
      if s.pcs[i].Release? {
        ReleaseStep(s, i);
      } else {
        InnerStep(s, i);
      }
  }

  function Init(cpus: nat): State {
    State(Empty(), false, seq(cpus, _ => Idle), [], [])
  }

  ghost predicate Path(s: State, acts: seq<Action>, s': State)
    requires WellFormed(s)
    decreases |acts|
  {
    if acts == [] then s == s'
    else Enabled(s, acts[0]) && Path(Apply(s, acts[0]), acts[1..], s')
  }

  lemma {:induction false} InvPath(s: State, acts: seq<Action>, s': State)
    requires Inv(s) && Path(s, acts, s')
    ensures Inv(s')
    decreases |acts|
  {
    if acts != [] {
      InvStep(s, acts[0]);
      InvPath(Apply(s, acts[0]), acts[1..], s');
    }
  }

  /**
   In every interleaving: whenever the lock is free the table is the one the completed operations
   give when replayed one after the other, and each report returned what the replay shows at its turn.
   */
  lemma OperationsAreAtomic(cpus: nat, acts: seq<Action>, s: State)
    requires Path(Init(cpus), acts, s)
    ensures !s.held ==> s.table == TableOf(Recorded(s.done))
    ensures forall k | 0 <= k < |s.done| :: ResultOk(TableOf(Recorded(s.done[..k])), s.done[k])
  {
    CountExtremes(Init(cpus).pcs, Inside);
    InvPath(Init(cpus), acts, s);
    ReplayIsTable(s.done);
    forall k | 0 <= k < |s.done| ensures ResultOk(TableOf(Recorded(s.done[..k])), s.done[k]) {
      ReplayIsTable(s.done[..k]);
    }
  }

  // ---------------------------------------------------------------- each CPU gets what it asked for

  /** What CPU i asked for, in order. */
  function Requests(acts: seq<Action>, i: nat): seq<PC> {
    if acts == [] then [] else Asked(acts[0], i) + Requests(acts[1..], i)
  }

  function Asked(a: Action, i: nat): seq<PC> {
    if a.Begin? && a.i == i then [a.want] else []
  }

  function RequestOf(op: Op): PC {
    match op
    case RecordOp(msr) => WantRecord(msr)
    case ReportOp(idx, _, _) => WantReport(idx)
    case ResetOp => WantReset
  }

  /** What CPU i has been given, in order. */
  function Served(done: seq<Op>, whose: seq<nat>, i: nat): seq<PC>
    requires |whose| == |done|
  {
    if done == [] then []
    else
      var n := |done| - 1;
      Served(done[..n], whose[..n], i) + if whose[n] == i then [RequestOf(done[n])] else []
  }

  /** The request a CPU is at, wherever in the operation it is. */
  function AtWork(pc: PC): seq<PC> {
    match pc
    case Idle => []
    case WantRecord(msr) => [WantRecord(msr)]
    case WantReport(idx) => [WantReport(idx)]
    case WantReset => [WantReset]
    case CompareAt(msr, _) => [WantRecord(msr)]
    case WriteIndex(msr, _) => [WantRecord(msr)]
    case LoadCount(msr, _) => [WantRecord(msr)]
    case StoreCount(msr, _, _) => [WantRecord(msr)]
    case TestIndex(idx) => [WantReport(idx)]
    case TestCount(idx) => [WantReport(idx)]
    case ReadIndex(idx) => [WantReport(idx)]
    case ReadCount(idx, _) => [WantReport(idx)]
    case ClearAt(_) => [WantReset]
    case Release(op) => [RequestOf(op)]
  }

  /** Inside an operation the request does not change. */
  lemma SameRequest(pc: PC, t: seq<Slot>)
    requires |t| == SLOTS && SlotOk(pc) && !pc.Release?
    ensures AtWork(LocalStep(pc, t).0) == AtWork(pc)
  {
  }

  function Mine(s: State, i: nat): seq<PC>
    requires |s.whose| == |s.done| && i < |s.pcs|
  {
    Served(s.done, s.whose, i) + AtWork(s.pcs[i])
  }

  lemma MineStep(s: State, a: Action, i: nat)
    requires WellFormed(s) && |s.whose| == |s.done| && Enabled(s, a) && i < |s.pcs|
    ensures var s' := Apply(s, a);
            && |s'.whose| == |s'.done| && |s'.pcs| == |s.pcs|
            && Mine(s', i) == Mine(s, i) + Asked(a, i)
  {
    match a
    case Begin(j, want) =>
    case Step(j) =>
      var s' := Apply(s, a);
      if s.pcs[j].Release? {
        var n := |s.done|;
        assert s'.done[..n] == s.done && s'.whose[..n] == s.whose;
      } else {
        SameRequest(s.pcs[j], s.table);
      }
  }

  lemma PlusAssociates(a: seq<PC>, b: seq<PC>, c: seq<PC>)
    ensures (a + b) + c == a + (b + c)
  {
  }

  lemma {:induction false} MinePath(s: State, acts: seq<Action>, s': State, i: nat)
    requires WellFormed(s) && |s.whose| == |s.done| && Path(s, acts, s') && i < |s.pcs|
    ensures |s'.whose| == |s'.done| && |s'.pcs| == |s.pcs| && Mine(s', i) == Mine(s, i) + Requests(acts, i)
    decreases |acts|
  {
    if acts != [] {
      var next, mine := Apply(s, acts[0]), Mine(s, i);
      MineStep(s, acts[0], i);
      MinePath(next, acts[1..], s', i);
      PlusAssociates(mine, Asked(acts[0], i), Requests(acts[1..], i));
    }
  }

  /**
   In every run each CPU is given exactly what it asked for, in that order: the operations it has
   completed, and then the one it is at, are its requests, with the MSR or the index of each.
   */
  lemma RequestsServed(cpus: nat, acts: seq<Action>, s: State, i: nat)
    requires Path(Init(cpus), acts, s) && i < cpus
    ensures |s.whose| == |s.done| && |s.pcs| == cpus
    ensures Requests(acts, i) == Served(s.done, s.whose, i) + AtWork(s.pcs[i])
  {
    MinePath(Init(cpus), acts, s, i);
  }

  // ---------------------------------------------------------------- every operation ends

  /** How many steps a CPU is from the end of its operation, at most. */
  function StepsLeft(pc: PC): nat {
    match pc
    case Idle => 0
    case WantRecord(_) => SLOTS + 6
    case WantReport(_) => 6
    case WantReset => SLOTS + 3
    case CompareAt(_, idx) => if idx <= SLOTS then SLOTS - idx + 5 else 0
    case WriteIndex(_, _) => 4
    case LoadCount(_, _) => 3
    case StoreCount(_, _, _) => 2
    case TestIndex(_) => 5
    case TestCount(_) => 4
    case ReadIndex(_) => 3
    case ReadCount(_, _) => 2
    case ClearAt(idx) => if idx <= SLOTS then SLOTS - idx + 2 else 0
    case Release(_) => 1
  }

  lemma StepEnds(s: State, a: Action)
    requires WellFormed(s) && Enabled(s, a)
    ensures var s' := Apply(s, a);
            && |s'.pcs| == |s.pcs| && s'.pcs == s.pcs[a.i := s'.pcs[a.i]]
            && if a.Step? then StepsLeft(s'.pcs[a.i]) < StepsLeft(s.pcs[a.i])
               else StepsLeft(s.pcs[a.i]) == 0 && StepsLeft(s'.pcs[a.i]) <= SLOTS + 6
  {
  }

  lemma {:induction false} StepsPath(s: State, acts: seq<Action>, s': State)
    requires WellFormed(s) && Path(s, acts, s')
    ensures Count(acts, (a: Action) => a.Step?) + Sum(s'.pcs, StepsLeft)
         <= Count(acts, (a: Action) => a.Begin?) * (SLOTS + 6) + Sum(s.pcs, StepsLeft)
    decreases |acts|
  {
    if acts != [] {
      var a, next := acts[0], Apply(s, acts[0]);
      StepEnds(s, a);
      SumUpdate(s.pcs, a.i, next.pcs[a.i], StepsLeft);
      StepsPath(next, acts[1..], s');
      SumFirst(acts, Indicator((a: Action) => a.Step?));
      SumFirst(acts, Indicator((a: Action) => a.Begin?));
    }
  }

  /** While somebody is in an operation, somebody can step. */
  lemma Quiet(s: State, i: nat)
    requires Inv(s) && i < |s.pcs| && forall j: nat | j < |s.pcs| :: !Enabled(s, Step(j))
    ensures s.pcs[i].Idle?
  {
    CountExtremes(s.pcs, Inside);
    forall j: nat | j < |s.pcs| ensures !Inside(s.pcs[j]) {
      assert !Enabled(s, Step(j));
    }
    assert !Enabled(s, Step(i));
  }

  /** A run takes at most SLOTS + 6 steps per request, and where it can go no further all are served. */
  lemma EveryRequestServed(cpus: nat, acts: seq<Action>, s: State, i: nat)
    requires Path(Init(cpus), acts, s) && i < cpus
    ensures Count(acts, (a: Action) => a.Step?) <= Count(acts, (a: Action) => a.Begin?) * (SLOTS + 6)
    ensures |s.whose| == |s.done|
    ensures (forall j: nat | j < |s.pcs| :: !Enabled(s, Step(j))) ==> Requests(acts, i) == Served(s.done, s.whose, i)
  {
    StepsPath(Init(cpus), acts, s);
    NoneLeft(cpus);
    RequestsServed(cpus, acts, s, i);
    if forall j: nat | j < |s.pcs| :: !Enabled(s, Step(j)) {
      CountExtremes(Init(cpus).pcs, Inside);
      InvPath(Init(cpus), acts, s);
      Quiet(s, i);
    }
  }

  lemma {:induction false} NoneLeft(cpus: nat)
    ensures Sum(Init(cpus).pcs, StepsLeft) == 0
  {
    if cpus > 0 {
      assert Init(cpus).pcs[..cpus - 1] == Init(cpus - 1).pcs;
      NoneLeft(cpus - 1);
    }
  }
}
