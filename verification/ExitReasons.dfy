/**
 The kvmexitreason probes on any number of CPUs at once (debug/kvmexitreason). reasons_num[r]++ is a
 plain load and a plain store; the report reads a nonzero counter twice; the reset clears one counter
 after another. Sequentially consistent accesses are assumed.
 */
module ExitReasons {
  import opened ReportTimes
  import opened Sums

  const REASON_NUM: nat := 66
  const REPORT_NS: int := 1_000_000_000

  datatype PC =
    | Idle
    | LoadCtr(r: nat) | StoreCtr(r: nat, v: nat)   // record_reason
    | IncTotal                                     // atomic_long_inc(&total_exit)
    | ReadClock | CheckTime(now: int)              // show_exitreason, outside the lock
    | TryLock(now: int)
    | PrintTotal(now: int)
    | TestReason(now: int, k: nat) | PrintReason(now: int, k: nat)
    | ZeroTotal(now: int)
    | ClearReason(now: int, k: nat)
    | SetTime(now: int)
    | Unlock

  /**
   Histories: `hits` counted probe hits, `printed` totals and `lines` (reason, count) printed, `lost`
   increments of the total between its print and its reset, `stores` increments stored to each
   counter since load, `cleared` what resets wiped from it; `straddled` a reset hit between some
   CPU's load and store of it; `overlapped` a CPU loaded it while another had yet to store; `drift`
   how far stores of values loaded earlier have put it above (below, if negative) a plain increment;
   `times` of the reports.
   */
  datatype State = State(pcs: seq<PC>, counters: seq<nat>, total: nat, held: bool, ktime: int,
                         hits: nat, printed: seq<nat>, lines: seq<(nat, nat)>, lost: nat,
                         stores: seq<nat>, cleared: seq<nat>, straddled: seq<bool>, overlapped: seq<bool>,
                         drift: seq<int>, times: seq<int>)

  datatype Action = Probe(i: nat, r: nat) | Step(i: nat, now: int)

  predicate Reporting(pc: PC) {
    pc.PrintTotal? || pc.TestReason? || pc.PrintReason? || pc.ZeroTotal? || pc.ClearReason?
    || pc.SetTime? || pc.Unlock?
  }

  /** Between printing the total and setting it to 0. */
  predicate InWindow(pc: PC) {
    pc.TestReason? || pc.PrintReason? || pc.ZeroTotal?
  }

  predicate Pending(s: State) { Count(s.pcs, InWindow) > 0 }

  function Storing(r: nat): PC -> bool {
    (pc: PC) => pc.StoreCtr? && pc.r == r
  }

  predicate PcOk(pc: PC) {
    match pc
    case LoadCtr(r) => r < REASON_NUM
    case StoreCtr(r, _) => r < REASON_NUM
    case TestReason(_, k) => k <= REASON_NUM
    case PrintReason(_, k) => k < REASON_NUM
    case ClearReason(_, k) => k <= REASON_NUM
    case _ => true
  }

  predicate WellFormed(s: State) {
    && |s.counters| == |s.stores| == |s.cleared| == |s.straddled| == |s.overlapped| == |s.drift| == REASON_NUM
    && forall i | 0 <= i < |s.pcs| :: PcOk(s.pcs[i])
  }

  predicate Enabled(s: State, a: Action) {
    a.i < |s.pcs| && (a.Probe? <==> s.pcs[a.i].Idle?)
  }

  /** Where the CPU goes next. */
  function NextPC(s: State, pc: PC, now: int): (pc': PC)
    requires WellFormed(s) && PcOk(pc)
    ensures PcOk(pc')
  {
    match pc
    case Idle => Idle
    case LoadCtr(r) => StoreCtr(r, s.counters[r])
    case StoreCtr(_, _) => IncTotal
    case IncTotal => ReadClock
    case ReadClock => CheckTime(now)
    case CheckTime(t) => if t - s.ktime < REPORT_NS then Idle else TryLock(t)
    case TryLock(t) => if s.held then Idle else PrintTotal(t)
    case PrintTotal(t) => TestReason(t, 0)
    case TestReason(t, k) =>
      if k == REASON_NUM then ZeroTotal(t)
      else if s.counters[k] != 0 then PrintReason(t, k) else TestReason(t, k + 1)
    case PrintReason(t, k) => TestReason(t, k + 1)
    case ZeroTotal(t) => ClearReason(t, 0)
    case ClearReason(t, k) => if k == REASON_NUM then SetTime(t) else ClearReason(t, k + 1)
    case SetTime(_) => Unlock
    case Unlock => Idle
  }

  function Apply(s: State, a: Action): (s': State)
    requires WellFormed(s) && Enabled(s, a)
    ensures WellFormed(s')
  {
    match a
    case Probe(i, r) =>
      // an out-of-range reason is not recorded but still counted in the total
      s.(pcs := s.pcs[i := if r >= REASON_NUM then IncTotal else LoadCtr(r)])
    case Step(i, now) =>
      var pc := s.pcs[i];
      var s1 := s.(pcs := s.pcs[i := NextPC(s, pc, now)]);
      match pc
      case LoadCtr(r) =>
        s1.(overlapped := s.overlapped[r := s.overlapped[r] || Count(s.pcs, Storing(r)) > 0])
      case StoreCtr(r, v) =>
        s1.(counters := s.counters[r := v + 1], stores := s.stores[r := s.stores[r] + 1],
            drift := s.drift[r := s.drift[r] + (v - s.counters[r])])
      case IncTotal => s1.(total := s.total + 1, hits := s.hits + 1, lost := s.lost + if Pending(s) then 1 else 0)
      case TryLock(_) => s1.(held := true)
      case PrintTotal(_) => s1.(printed := s.printed + [s.total])
      case PrintReason(_, k) => s1.(lines := s.lines + [(k, s.counters[k])])
      case ZeroTotal(_) => s1.(total := 0)
      case ClearReason(_, k) =>
        if k == REASON_NUM then s1
        else s1.(counters := s.counters[k := 0], cleared := s.cleared[k := s.cleared[k] + s.counters[k]],
                 straddled := s.straddled[k := s.straddled[k] || Count(s.pcs, Storing(k)) > 0])
      case SetTime(t) => s1.(ktime := t, times := s.times + [t])
      case Unlock => s1.(held := false)
      case _ => s1
  }

  function Falses(n: nat): (z: seq<bool>)
    ensures |z| == n && forall i | 0 <= i < n :: !z[i]
  {
    seq(n, _ => false)
  }

  function Init(cpus: nat, ktime: int): (s: State)
    ensures WellFormed(s)
  {
    State(seq(cpus, _ => Idle), Zeros(REASON_NUM), 0, false, ktime, 0, [], [], 0,
          Zeros(REASON_NUM), Zeros(REASON_NUM), Falses(REASON_NUM), Falses(REASON_NUM), Zeros(REASON_NUM),
          [])
  }

  ghost predicate Path(s: State, acts: seq<Action>, s': State)
    requires WellFormed(s)
    decreases |acts|
  {
    if acts == [] then s == s'
    else Enabled(s, acts[0]) && Path(Apply(s, acts[0]), acts[1..], s')
  }

  ghost predicate Reachable(cpus: nat, ktime: int, s: State) {
    exists acts: seq<Action> :: Path(Init(cpus, ktime), acts, s)
  }

  // ---------------------------------------------------------------- invariants

  ghost predicate MutexInv(s: State) {
    Count(s.pcs, Reporting) == if s.held then 1 else 0
  }

  ghost predicate AccountInv(s: State) {
    s.hits == Sum(s.printed, Identity()) + s.lost + if Pending(s) then 0 else s.total
  }

  /** No counter, and no loaded copy of one, exceeds the stores made to it since load. */
  ghost predicate BoundInv(s: State) {
    && WellFormed(s)
    && (forall r | 0 <= r < REASON_NUM :: s.counters[r] <= s.stores[r])
    && (forall i | 0 <= i < |s.pcs| && s.pcs[i].StoreCtr? :: s.pcs[i].v <= s.stores[s.pcs[i].r])
    && (forall l | 0 <= l < |s.lines| :: s.lines[l].0 < REASON_NUM && s.lines[l].1 <= s.stores[s.lines[l].0])
  }

  /**
   Counter r against its stores: always, and as long as no reset, or no other increment, fell between
   a load and its store.
   */
  ghost predicate ExactInv(s: State, r: nat)
    requires WellFormed(s) && r < REASON_NUM
  {
    && s.cleared[r] + s.counters[r] == s.stores[r] + s.drift[r]
    && (!s.straddled[r] ==>
          && s.drift[r] <= 0
          && forall i | 0 <= i < |s.pcs| && Storing(r)(s.pcs[i]) :: s.cleared[r] + s.pcs[i].v <= s.stores[r])
    && (!s.overlapped[r] ==>
          && 0 <= s.drift[r] && Count(s.pcs, Storing(r)) <= 1
          && forall i | 0 <= i < |s.pcs| && Storing(r)(s.pcs[i]) :: s.counters[r] <= s.pcs[i].v)
  }

  /** Nobody but the reporter clears, so a counter it found nonzero is still nonzero when it prints it. */
  ghost predicate LineInv(s: State)
    requires WellFormed(s)
  {
    && (forall i | 0 <= i < |s.pcs| && s.pcs[i].PrintReason? :: 0 < s.counters[s.pcs[i].k])
    && (forall l | 0 <= l < |s.lines| :: 0 < s.lines[l].1)
  }

  lemma MutexStep(s: State, a: Action)
    requires WellFormed(s) && MutexInv(s) && Enabled(s, a)
    ensures MutexInv(Apply(s, a))
  {
    var s' := Apply(s, a);
    CountUpdate(s.pcs, a.i, s'.pcs[a.i], Reporting);
    CountExtremes(s.pcs, Reporting);
  }

  lemma NotPending(s: State, i: nat)
    requires MutexInv(s) && i < |s.pcs| && s.pcs[i].PrintTotal?
    ensures Count(s.pcs, InWindow) == 0
  {
    forall j | 0 <= j < |s.pcs| ensures !InWindow(s.pcs[j]) {
      if InWindow(s.pcs[j]) {
        AtMostOne(s.pcs, Reporting, i, j);
      }
    }
    CountExtremes(s.pcs, InWindow);
  }

  lemma PrintTotalStep(s: State, i: nat, now: int)
    requires WellFormed(s) && MutexInv(s) && AccountInv(s) && i < |s.pcs| && s.pcs[i].PrintTotal?
    ensures AccountInv(Apply(s, Step(i, now)))
  {
    NotPending(s, i);
    CountUpdate(s.pcs, i, TestReason(s.pcs[i].now, 0), InWindow);
    SumAppend(s.printed, s.total, Identity());
  }

  lemma ZeroTotalStep(s: State, i: nat, now: int)
    requires WellFormed(s) && MutexInv(s) && AccountInv(s) && i < |s.pcs| && s.pcs[i].ZeroTotal?
    ensures AccountInv(Apply(s, Step(i, now)))
  {
    CountMonotone(s.pcs, InWindow, Reporting);
    CountExtremes(s.pcs, InWindow);
    CountUpdate(s.pcs, i, ClearReason(s.pcs[i].now, 0), InWindow);
  }

  /** Every other step leaves the printed totals alone and nobody enters or leaves the window. */
  lemma AccountFrame(s: State, a: Action)
    requires WellFormed(s) && Enabled(s, a) && !s.pcs[a.i].PrintTotal? && !s.pcs[a.i].ZeroTotal?
    ensures var s' := Apply(s, a);
            && |s'.pcs| == |s.pcs| && s'.pcs == s.pcs[a.i := s'.pcs[a.i]]
            && InWindow(s'.pcs[a.i]) == InWindow(s.pcs[a.i])
            && s'.printed == s.printed
            && (if s.pcs[a.i].IncTotal?
                then s'.total == s.total + 1 && s'.hits == s.hits + 1
                     && s'.lost == s.lost + if Pending(s) then 1 else 0
                else s'.total == s.total && s'.hits == s.hits && s'.lost == s.lost)
  {
  }

  lemma AccountStep(s: State, a: Action)
    requires WellFormed(s) && MutexInv(s) && AccountInv(s) && Enabled(s, a)
    ensures AccountInv(Apply(s, a))
  {
    if s.pcs[a.i].PrintTotal? {
      PrintTotalStep(s, a.i, a.now);
    } else if s.pcs[a.i].ZeroTotal? {
      ZeroTotalStep(s, a.i, a.now);
    } else {
      AccountFrame(s, a);
      CountUpdate(s.pcs, a.i, Apply(s, a).pcs[a.i], InWindow);
    }
  }

  lemma BoundStep(s: State, a: Action)
    requires BoundInv(s) && Enabled(s, a)
    ensures BoundInv(Apply(s, a))
  {
    var s' := Apply(s, a);
    if s.pcs[a.i].LoadCtr? || s.pcs[a.i].StoreCtr? || s.pcs[a.i].ClearReason? {
    } else {
      CounterFrame(s, a);
    }
    assert forall l | 0 <= l < |s.lines| :: s'.lines[l] == s.lines[l];
  }

  lemma LineStep(s: State, a: Action)
    requires WellFormed(s) && MutexInv(s) && LineInv(s) && Enabled(s, a)
    ensures LineInv(Apply(s, a))
  {
    var s' := Apply(s, a);
    if s.pcs[a.i].ClearReason? {
      forall j | 0 <= j < |s'.pcs| ensures !s'.pcs[j].PrintReason? {
        if j != a.i && s.pcs[j].PrintReason? {
          AtMostOne(s.pcs, Reporting, a.i, j);
        }
      }
    } else if !s.pcs[a.i].LoadCtr? && !s.pcs[a.i].StoreCtr? {
      CounterFrame(s, a);
    }
    assert forall l | 0 <= l < |s.lines| :: s'.lines[l] == s.lines[l];
  }

  /** Every step but load, store and clear leaves the counters and their histories alone. */
  lemma CounterFrame(s: State, a: Action)
    requires WellFormed(s) && Enabled(s, a)
    requires !s.pcs[a.i].LoadCtr? && !s.pcs[a.i].StoreCtr? && !s.pcs[a.i].ClearReason?
    ensures var s' := Apply(s, a);
            && |s'.pcs| == |s.pcs| && s'.pcs == s.pcs[a.i := s'.pcs[a.i]] && !s'.pcs[a.i].StoreCtr?
            && s'.counters == s.counters && s'.stores == s.stores && s'.cleared == s.cleared
            && s'.straddled == s.straddled && s'.overlapped == s.overlapped && s'.drift == s.drift
  {
  }

  lemma ExactLoad(s: State, i: nat, now: int, r: nat)
    requires WellFormed(s) && i < |s.pcs| && s.pcs[i].LoadCtr? && r < REASON_NUM && ExactInv(s, r)
    ensures ExactInv(Apply(s, Step(i, now)), r)
  {
    CountUpdate(s.pcs, i, StoreCtr(s.pcs[i].r, s.counters[s.pcs[i].r]), Storing(r));
  }

  lemma ExactStore(s: State, i: nat, now: int, r: nat)
    requires WellFormed(s) && i < |s.pcs| && s.pcs[i].StoreCtr? && r < REASON_NUM && ExactInv(s, r)
    ensures ExactInv(Apply(s, Step(i, now)), r)
  {
    var s' := Apply(s, Step(i, now));
    CountUpdate(s.pcs, i, IncTotal, Storing(r));
    if s.pcs[i].r == r && Count(s.pcs, Storing(r)) <= 1 {
      CountExtremes(s'.pcs, Storing(r));
    }
  }

  lemma ExactClear(s: State, i: nat, now: int, r: nat)
    requires WellFormed(s) && i < |s.pcs| && s.pcs[i].ClearReason? && r < REASON_NUM && ExactInv(s, r)
    ensures ExactInv(Apply(s, Step(i, now)), r)
  {
    var s' := Apply(s, Step(i, now));
    CountUpdate(s.pcs, i, s'.pcs[i], Storing(r));
    CountExtremes(s'.pcs, Storing(r));
  }

  lemma ExactStep(s: State, a: Action, r: nat)
    requires WellFormed(s) && Enabled(s, a) && r < REASON_NUM && ExactInv(s, r)
    ensures ExactInv(Apply(s, a), r)
  {
    var pc := s.pcs[a.i];
    if pc.LoadCtr? {
      ExactLoad(s, a.i, a.now, r);
    } else if pc.StoreCtr? {
      ExactStore(s, a.i, a.now, r);
    } else if pc.ClearReason? {
      ExactClear(s, a.i, a.now, r);
    } else {
      CounterFrame(s, a);
      CountUpdate(s.pcs, a.i, Apply(s, a).pcs[a.i], Storing(r));
    }
  }

  ghost predicate Inv(s: State) {
    MutexInv(s) && AccountInv(s) && BoundInv(s) && LineInv(s) && forall r | 0 <= r < REASON_NUM :: ExactInv(s, r)
  }

  lemma {:induction false} InvPath(s: State, acts: seq<Action>, s': State)
    requires Inv(s) && Path(s, acts, s')
    ensures Inv(s')
    decreases |acts|
  {
    if acts != [] {
      MutexStep(s, acts[0]);
      AccountStep(s, acts[0]);
      BoundStep(s, acts[0]);
      LineStep(s, acts[0]);
      forall r | 0 <= r < REASON_NUM ensures ExactInv(Apply(s, acts[0]), r) {
        ExactStep(s, acts[0], r);
      }
      InvPath(Apply(s, acts[0]), acts[1..], s');
    }
  }

  lemma InitInv(cpus: nat, ktime: int)
    ensures Inv(Init(cpus, ktime))
  {
    var s := Init(cpus, ktime);
    CountExtremes(s.pcs, Reporting);
    CountExtremes(s.pcs, InWindow);
    forall r | 0 <= r < REASON_NUM ensures ExactInv(s, r) {
      CountExtremes(s.pcs, Storing(r));
    }
  }

  lemma InvReachable(cpus: nat, ktime: int, s: State)
    requires Reachable(cpus, ktime, s)
    ensures Inv(s)
  {
    var acts: seq<Action> :| Path(Init(cpus, ktime), acts, s);
    InitInv(cpus, ktime);
    InvPath(Init(cpus, ktime), acts, s);
  }

  // ---------------------------------------------------------------- theorems

  /** One reporter at a time; printed totals, lost increments and the current total make up all hits. */
  lemma TotalsAccounted(cpus: nat, ktime: int, s: State, i: nat, j: nat)
    requires Reachable(cpus, ktime, s) && i < |s.pcs| && j < |s.pcs|
    ensures Reporting(s.pcs[i]) && Reporting(s.pcs[j]) ==> i == j
    ensures s.hits == Sum(s.printed, Identity()) + s.lost + if Pending(s) then 0 else s.total
  {
    InvReachable(cpus, ktime, s);
    if Reporting(s.pcs[i]) && Reporting(s.pcs[j]) {
      AtMostOne(s.pcs, Reporting, i, j);
    }
  }

  /**
   Races and resets included: a counter stays within the stores made to it since load, and so does
   every printed line, which is never 0 although the reporter reads the counter twice.
   */
  lemma CountersBounded(cpus: nat, ktime: int, s: State)
    requires Reachable(cpus, ktime, s)
    ensures WellFormed(s)
    ensures forall r | 0 <= r < REASON_NUM :: s.counters[r] <= s.stores[r]
    ensures forall l | 0 <= l < |s.lines| :: s.lines[l].0 < REASON_NUM && 0 < s.lines[l].1 <= s.stores[s.lines[l].0]
  {
    InvReachable(cpus, ktime, s);
  }

  /**
   What a counter holds and what resets wiped from it are the increments stored plus the drift, so
   counts are conserved exactly if the drift is 0. None is lost unless two increments overlapped,
   none repeated unless a reset fell between a load and its store.
   */
  lemma CounterConserved(cpus: nat, ktime: int, s: State, r: nat)
    requires Reachable(cpus, ktime, s) && r < REASON_NUM
    ensures WellFormed(s)
    ensures s.cleared[r] + s.counters[r] == s.stores[r] + s.drift[r]
    ensures s.cleared[r] + s.counters[r] == s.stores[r] <==> s.drift[r] == 0
    ensures !s.straddled[r] ==> s.cleared[r] + s.counters[r] <= s.stores[r]
    ensures !s.overlapped[r] ==> s.stores[r] <= s.cleared[r] + s.counters[r]
    ensures !s.straddled[r] && !s.overlapped[r] ==> s.cleared[r] + s.counters[r] == s.stores[r]
  {
    InvReachable(cpus, ktime, s);
    assert ExactInv(s, r);
  }

  // ---------------------------------------------------------------- both conditions are needed

  lemma {:induction false} PathExtend(s: State, acts: seq<Action>, s': State, a: Action)
    requires WellFormed(s) && WellFormed(s') && Path(s, acts, s') && Enabled(s', a)
    ensures Path(s, acts + [a], Apply(s', a))
    decreases |acts|
  {
    if acts == [] {
      assert (acts + [a])[1..] == [];
    } else {
      PathExtend(Apply(s, acts[0]), acts[1..], s', a);
      assert (acts + [a])[1..] == acts[1..] + [a];
    }
  }

  lemma Extend(cpus: nat, ktime: int, s: State, a: Action)
    requires Reachable(cpus, ktime, s) && WellFormed(s) && Enabled(s, a)
    ensures Reachable(cpus, ktime, Apply(s, a))
  {
    var acts: seq<Action> :| Path(Init(cpus, ktime), acts, s);
    PathExtend(Init(cpus, ktime), acts, s, a);
  }

  /** The earliest clock reading at which a first report is due. */
  function Due(ktime: int): int { ktime + REPORT_NS }

  /** What a run of two CPUs, the others idle, looks like from counter r; the rest is of no interest here. */
  datatype View = View(pcs: seq<PC>, held: bool, counter: nat, stored: nat, wiped: nat,
                       straddled: bool, overlapped: bool)

  ghost predicate Sees(cpus: nat, ktime: int, s: State, r: nat, v: View) {
    && Reachable(cpus, ktime, s) && WellFormed(s) && r < REASON_NUM && |s.pcs| == cpus && s.ktime == ktime
    && 2 <= cpus && (forall i | 2 <= i < cpus :: s.pcs[i].Idle?)
    && v == View(s.pcs[..2], s.held, s.counters[r], s.stores[r], s.cleared[r], s.straddled[r], s.overlapped[r])
  }

  lemma Hit(cpus: nat, ktime: int, s: State, r: nat, v: View, i: nat) returns (s': State)
    requires Sees(cpus, ktime, s, r, v) && i < 2 && v.pcs[i].Idle?
    ensures Sees(cpus, ktime, s', r, v.(pcs := v.pcs[i := LoadCtr(r)]))
  {
    Extend(cpus, ktime, s, Probe(i, r));
    s' := Apply(s, Probe(i, r));
  }

  lemma OtherStoring(pcs: seq<PC>, i: nat, r: nat)
    requires 2 <= |pcs| && i < 2 && !pcs[i].StoreCtr? && forall j | 2 <= j < |pcs| :: pcs[j].Idle?
    ensures Count(pcs, Storing(r)) > 0 <==> Storing(r)(pcs[1 - i])
  {
    CountExtremes(pcs, Storing(r));
  }

  lemma Load(cpus: nat, ktime: int, s: State, r: nat, v: View, i: nat) returns (s': State)
    requires Sees(cpus, ktime, s, r, v) && i < 2 && v.pcs[i] == LoadCtr(r)
    ensures Sees(cpus, ktime, s', r, v.(pcs := v.pcs[i := StoreCtr(r, v.counter)],
                                            overlapped := v.overlapped || Storing(r)(v.pcs[1 - i])))
  {
    OtherStoring(s.pcs, i, r);
    Extend(cpus, ktime, s, Step(i, 0));
    s' := Apply(s, Step(i, 0));
  }

  lemma Store(cpus: nat, ktime: int, s: State, r: nat, v: View, i: nat) returns (s': State)
    requires Sees(cpus, ktime, s, r, v) && i < 2 && v.pcs[i].StoreCtr? && v.pcs[i].r == r
    ensures Sees(cpus, ktime, s', r, v.(pcs := v.pcs[i := IncTotal], counter := v.pcs[i].v + 1, stored := v.stored + 1))
  {
    Extend(cpus, ktime, s, Step(i, 0));
    s' := Apply(s, Step(i, 0));
  }

  lemma Clear(cpus: nat, ktime: int, s: State, r: nat, v: View, i: nat) returns (s': State)
    requires Sees(cpus, ktime, s, r, v) && i < 2 && v.pcs[i].ClearReason? && v.pcs[i].k < REASON_NUM
    ensures var v' := v.(pcs := v.pcs[i := ClearReason(v.pcs[i].now, v.pcs[i].k + 1)]);
            Sees(cpus, ktime, s', r,
                 if v.pcs[i].k != r then v'
                 else v'.(counter := 0, wiped := v.wiped + v.counter,
                          straddled := v.straddled || Storing(r)(v.pcs[1 - i])))
  {
    OtherStoring(s.pcs, i, v.pcs[i].k);
    Extend(cpus, ktime, s, Step(i, 0));
    s' := Apply(s, Step(i, 0));
  }

  /** A step that touches no counter. */
  lemma Other(cpus: nat, ktime: int, s: State, r: nat, v: View, i: nat, now: int) returns (s': State)
    requires Sees(cpus, ktime, s, r, v) && i < 2 && !v.pcs[i].Idle? && !v.pcs[i].LoadCtr? && !v.pcs[i].StoreCtr?
    requires !v.pcs[i].ClearReason? && !v.pcs[i].SetTime? && !v.pcs[i].Unlock?
    ensures Sees(cpus, ktime, s', r, v.(pcs := v.pcs[i := NextPC(s, v.pcs[i], now)],
                                        held := v.held || v.pcs[i].TryLock?))
  {
    CounterFrame(s, Step(i, now));
    Extend(cpus, ktime, s, Step(i, now));
    s' := Apply(s, Step(i, now));
  }

  lemma First(cpus: nat, ktime: int, r: nat) returns (s: State, v: View)
    requires 2 <= cpus && r < REASON_NUM
    ensures Sees(cpus, ktime, s, r, v) && v == View([Idle, Idle], false, 0, 0, 0, false, false)
  {
    s := Init(cpus, ktime);
    assert Path(s, [], s);
    v := View([Idle, Idle], false, 0, 0, 0, false, false);
  }

  lemma BothLoaded(cpus: nat, ktime: int, r: nat) returns (s: State)
    requires 2 <= cpus && r < REASON_NUM
    ensures Sees(cpus, ktime, s, r, View([StoreCtr(r, 0), StoreCtr(r, 0)], false, 0, 0, 0, false, true))
  {
    var v;
    s, v := First(cpus, ktime, r);
    s := Hit(cpus, ktime, s, r, v, 0);
    s := Hit(cpus, ktime, s, r, View([LoadCtr(r), Idle], false, 0, 0, 0, false, false), 1);
    s := Load(cpus, ktime, s, r, View([LoadCtr(r), LoadCtr(r)], false, 0, 0, 0, false, false), 0);
    s := Load(cpus, ktime, s, r, View([StoreCtr(r, 0), LoadCtr(r)], false, 0, 0, 0, false, false), 1);
  }

  /** Two overlapping increments leave a counter one short of its stores. */
  lemma OverlapLosesOne(cpus: nat, ktime: int, r: nat) returns (s: State)
    requires 2 <= cpus && r < REASON_NUM
    ensures Reachable(cpus, ktime, s) && WellFormed(s)
    ensures s.overlapped[r] && !s.straddled[r] && s.cleared[r] + s.counters[r] == 1 && s.stores[r] == 2
  {
    s := BothLoaded(cpus, ktime, r);
    s := Store(cpus, ktime, s, r, View([StoreCtr(r, 0), StoreCtr(r, 0)], false, 0, 0, 0, false, true), 0);
    s := Store(cpus, ktime, s, r, View([IncTotal, StoreCtr(r, 0)], false, 1, 1, 0, false, true), 1);
  }

  lemma OneHit(cpus: nat, ktime: int, r: nat) returns (s: State)
    requires 2 <= cpus && r < REASON_NUM
    ensures Sees(cpus, ktime, s, r, View([ReadClock, Idle], false, 1, 1, 0, false, false))
  {
    var v;
    s, v := First(cpus, ktime, r);
    s := Hit(cpus, ktime, s, r, v, 0);
    s := Load(cpus, ktime, s, r, View([LoadCtr(r), Idle], false, 0, 0, 0, false, false), 0);
    s := Store(cpus, ktime, s, r, View([StoreCtr(r, 0), Idle], false, 0, 0, 0, false, false), 0);
    s := Other(cpus, ktime, s, r, View([IncTotal, Idle], false, 1, 1, 0, false, false), 0, 0);
  }

  /** CPU 0 counts one hit of r and gets to the first line of its report. */
  lemma FirstReport(cpus: nat, ktime: int, r: nat) returns (s: State)
    requires 2 <= cpus && r < REASON_NUM
    ensures Sees(cpus, ktime, s, r, View([TestReason(Due(ktime), 0), Idle], true, 1, 1, 0, false, false))
  {
    s := OneHit(cpus, ktime, r);
    s := Other(cpus, ktime, s, r, View([ReadClock, Idle], false, 1, 1, 0, false, false), 0, Due(ktime));
    s := Other(cpus, ktime, s, r, View([CheckTime(Due(ktime)), Idle], false, 1, 1, 0, false, false), 0, 0);
    s := Other(cpus, ktime, s, r, View([TryLock(Due(ktime)), Idle], false, 1, 1, 0, false, false), 0, 0);
    s := Other(cpus, ktime, s, r, View([PrintTotal(Due(ktime)), Idle], true, 1, 1, 0, false, false), 0, 0);
  }

  /** CPU 1 has loaded 1 and not stored 2 yet; CPU 0 is somewhere in its report. */
  function Before(pc: PC, r: nat): View {
    View([pc, StoreCtr(r, 1)], true, 1, 1, 0, false, false)
  }

  /** CPU 0 goes through one reason of its report while CPU 1 is about to store. */
  lemma ReportOne(cpus: nat, ktime: int, s: State, r: nat, k: nat) returns (s': State)
    requires Sees(cpus, ktime, s, r, Before(TestReason(Due(ktime), k), r)) && k < REASON_NUM
    ensures Sees(cpus, ktime, s', r, Before(TestReason(Due(ktime), k + 1), r))
  {
    s' := Other(cpus, ktime, s, r, Before(TestReason(Due(ktime), k), r), 0, 0);
    if s.counters[k] != 0 {
      s' := Other(cpus, ktime, s', r, Before(PrintReason(Due(ktime), k), r), 0, 0);
    }
  }

  lemma WholeReport(cpus: nat, ktime: int, r: nat) returns (s: State)
    requires 2 <= cpus && r < REASON_NUM
    ensures Sees(cpus, ktime, s, r, Before(TestReason(Due(ktime), REASON_NUM), r))
  {
    s := FirstReport(cpus, ktime, r);
    s := Hit(cpus, ktime, s, r, View([TestReason(Due(ktime), 0), Idle], true, 1, 1, 0, false, false), 1);
    s := Load(cpus, ktime, s, r, View([TestReason(Due(ktime), 0), LoadCtr(r)], true, 1, 1, 0, false, false), 1);
    for k := 0 to REASON_NUM
      invariant Sees(cpus, ktime, s, r, Before(TestReason(Due(ktime), k), r))
    {
      s := ReportOne(cpus, ktime, s, r, k);
    }
  }

  lemma ResetBegins(cpus: nat, ktime: int, r: nat) returns (s: State)
    requires 2 <= cpus && r < REASON_NUM
    ensures Sees(cpus, ktime, s, r, Before(ClearReason(Due(ktime), 0), r))
  {
    s := WholeReport(cpus, ktime, r);
    s := Other(cpus, ktime, s, r, Before(TestReason(Due(ktime), REASON_NUM), r), 0, 0);
    s := Other(cpus, ktime, s, r, Before(ZeroTotal(Due(ktime)), r), 0, 0);
  }

  lemma ClearsBefore(cpus: nat, ktime: int, r: nat) returns (s: State)
    requires 2 <= cpus && r < REASON_NUM
    ensures Sees(cpus, ktime, s, r, Before(ClearReason(Due(ktime), r), r))
  {
    s := ResetBegins(cpus, ktime, r);
    for k := 0 to r
      invariant Sees(cpus, ktime, s, r, Before(ClearReason(Due(ktime), k), r))
    {
      s := Clear(cpus, ktime, s, r, Before(ClearReason(Due(ktime), k), r), 0);
    }
  }

  /** A reset between a load and its store brings wiped increments back: 3 accounted for, 2 stored. */
  lemma StraddleRepeats(cpus: nat, ktime: int, r: nat) returns (s: State)
    requires 2 <= cpus && r < REASON_NUM
    ensures Reachable(cpus, ktime, s) && WellFormed(s)
    ensures s.straddled[r] && s.cleared[r] + s.counters[r] == 3 && s.stores[r] == 2
  {
    s := ClearsBefore(cpus, ktime, r);
    s := Clear(cpus, ktime, s, r, Before(ClearReason(Due(ktime), r), r), 0);
    var pc := ClearReason(Due(ktime), r + 1);
    s := Store(cpus, ktime, s, r, View([pc, StoreCtr(r, 1)], true, 0, 1, 1, true, false), 1);
  }

  // ---------------------------------------------------------------- one CPU, or more

  /** What the counter holds and what was wiped from it are the increments stored, in every run. */
  ghost predicate AlwaysConserved(cpus: nat, ktime: int) {
    forall s: State, r: nat :: Reachable(cpus, ktime, s) && r < REASON_NUM ==> Conserved(s, r)
  }

  predicate Conserved(s: State, r: nat) {
    WellFormed(s) && r < REASON_NUM && s.cleared[r] + s.counters[r] == s.stores[r]
  }

  /** Past the time check, with its own report's time not stored yet. */
  predicate Cleared(pc: PC) {
    pc.TryLock? || pc.PrintTotal? || pc.TestReason? || pc.PrintReason? || pc.ZeroTotal? || pc.ClearReason?
    || pc.SetTime?
  }

  predicate Late(ktime: int, times: seq<int>, j: nat, now: int) {
    j <= |times| && now - TimeAfter(ktime, times, j) >= REPORT_NS
  }

  /** The steps that touch the spacing are the time check and the store of the time. */
  lemma TimeFrame(s: State, a: Action)
    requires WellFormed(s) && Enabled(s, a)
    ensures var s', pc := Apply(s, a), s.pcs[a.i];
            && |s'.pcs| == |s.pcs| && s'.pcs == s.pcs[a.i := s'.pcs[a.i]]
            && (Cleared(s'.pcs[a.i]) ==>
                  if pc.CheckTime? then s'.pcs[a.i].now - s.ktime >= REPORT_NS
                  else Cleared(pc) && s'.pcs[a.i].now == pc.now)
            && (if pc.SetTime? then s'.times == s.times + [pc.now] && s'.ktime == pc.now && !Cleared(s'.pcs[a.i])
                else s'.times == s.times && s'.ktime == s.ktime)
  {
  }

  lemma LateStays(ktime: int, times: seq<int>, j: nat, now: int, t: int)
    requires Late(ktime, times, j, now)
    ensures Late(ktime, times + [t], j, now)
  {
  }

  /** One CPU alone overlaps with nobody, and nobody reports between its time check and its report. */
  ghost predicate AloneInv(ktime: int, s: State) {
    WellFormed(s) && |s.pcs| <= 1 && NoRace(s) && TimesApart(ktime, s)
  }

  predicate NoRace(s: State)
    requires WellFormed(s)
  {
    forall r | 0 <= r < REASON_NUM :: !s.straddled[r] && !s.overlapped[r]
  }

  ghost predicate TimesApart(ktime: int, s: State) {
    && s.ktime == TimeAfter(ktime, s.times, |s.times|)
    && (forall i | 0 <= i < |s.pcs| && Cleared(s.pcs[i]) :: s.pcs[i].now - s.ktime >= REPORT_NS)
    && (forall j | 0 <= j < |s.times| :: Late(ktime, s.times, j, s.times[j]))
  }

  lemma NoOtherStoring(s: State, i: nat, r: nat)
    requires |s.pcs| <= 1 && i < |s.pcs| && !s.pcs[i].StoreCtr?
    ensures Count(s.pcs, Storing(r)) == 0
  {
    CountExtremes(s.pcs, Storing(r));
  }

  lemma NoRaceStep(s: State, a: Action)
    requires WellFormed(s) && |s.pcs| <= 1 && NoRace(s) && Enabled(s, a)
    ensures NoRace(Apply(s, a))
  {
    var pc := s.pcs[a.i];
    if a.Step? && pc.LoadCtr? {
      NoOtherStoring(s, a.i, pc.r);
    } else if a.Step? && pc.ClearReason? {
      NoOtherStoring(s, a.i, pc.k);
    } else if !pc.StoreCtr? {
      CounterFrame(s, a);
    }
  }

  lemma TimesApartStep(ktime: int, s: State, a: Action)
    requires WellFormed(s) && |s.pcs| <= 1 && TimesApart(ktime, s) && Enabled(s, a)
    ensures TimesApart(ktime, Apply(s, a))
  {
    TimeFrame(s, a);
    var pc := s.pcs[a.i];
    if pc.SetTime? {
      forall j | 0 <= j < |s.times| ensures Late(ktime, s.times + [pc.now], j, s.times[j]) {
        LateStays(ktime, s.times, j, s.times[j], pc.now);
      }
    }
  }

  lemma {:induction false} AlonePath(ktime: int, s: State, acts: seq<Action>, s': State)
    requires AloneInv(ktime, s) && Path(s, acts, s')
    ensures AloneInv(ktime, s')
    decreases |acts|
  {
    if acts != [] {
      TimeFrame(s, acts[0]);
      NoRaceStep(s, acts[0]);
      TimesApartStep(ktime, s, acts[0]);
      AlonePath(ktime, Apply(s, acts[0]), acts[1..], s');
    }
  }

  lemma Alone(cpus: nat, ktime: int, s: State)
    requires Reachable(cpus, ktime, s) && cpus <= 1
    ensures AloneInv(ktime, s)
  {
    var acts: seq<Action> :| Path(Init(cpus, ktime), acts, s);
    AlonePath(ktime, Init(cpus, ktime), acts, s);
  }

  /** Counts are conserved in every run exactly if there is no second CPU. */
  lemma AlwaysConservedIff(cpus: nat, ktime: int)
    ensures AlwaysConserved(cpus, ktime) <==> cpus <= 1
  {
    if cpus <= 1 {
      forall s: State, r: nat | Reachable(cpus, ktime, s) && r < REASON_NUM ensures Conserved(s, r) {
        Alone(cpus, ktime, s);
        CounterConserved(cpus, ktime, s, r);
      }
    } else {
      var s := OverlapLosesOne(cpus, ktime, 0);
      assert !Conserved(s, 0);
    }
  }

  // ---------------------------------------------------------------- spacing of the reports

  lemma Approach(cpus: nat, ktime: int, s: State, i: nat, now: int) returns (s': State)
    requires Reachable(cpus, ktime, s) && WellFormed(s) && i < |s.pcs| && now - s.ktime >= REPORT_NS
    requires s.pcs[i] == IncTotal || s.pcs[i] == ReadClock || s.pcs[i] == CheckTime(now)
    ensures Reachable(cpus, ktime, s') && WellFormed(s')
    ensures s'.pcs == s.pcs[i := if s.pcs[i].IncTotal? then ReadClock
                                 else if s.pcs[i].ReadClock? then CheckTime(now) else TryLock(now)]
    ensures s'.held == s.held && s'.times == s.times && s'.ktime == s.ktime
    ensures s'.counters == s.counters && s'.stores == s.stores
  {
    Extend(cpus, ktime, s, Step(i, now));
    s' := Apply(s, Step(i, now));
  }

  /** CPU i goes through a hit of an unknown reason up to the trylock. */
  lemma ToTryLock(cpus: nat, ktime: int, s: State, i: nat, now: int) returns (s': State)
    requires Reachable(cpus, ktime, s) && WellFormed(s) && i < |s.pcs| && s.pcs[i].Idle?
    requires now - s.ktime >= REPORT_NS
    ensures Reachable(cpus, ktime, s') && WellFormed(s')
    ensures s'.pcs == s.pcs[i := TryLock(now)] && s'.held == s.held && s'.times == s.times && s'.ktime == s.ktime
    ensures s'.counters == s.counters && s'.stores == s.stores
  {
    s' := Begin(cpus, ktime, s, i);
    s' := Approach(cpus, ktime, s', i, now);
    s' := Approach(cpus, ktime, s', i, now);
    s' := Approach(cpus, ktime, s', i, now);
  }

  lemma Begin(cpus: nat, ktime: int, s: State, i: nat) returns (s': State)
    requires Reachable(cpus, ktime, s) && WellFormed(s) && i < |s.pcs| && s.pcs[i].Idle?
    ensures Reachable(cpus, ktime, s') && WellFormed(s')
    ensures s'.pcs == s.pcs[i := IncTotal] && s'.held == s.held && s'.times == s.times && s'.ktime == s.ktime
    ensures s'.counters == s.counters && s'.stores == s.stores
  {
    Extend(cpus, ktime, s, Probe(i, REASON_NUM));
    s' := Apply(s, Probe(i, REASON_NUM));
  }

  /** How far CPU i still is from the end of its report. */
  function ToGo(pc: PC): nat {
    match pc
    case TryLock(_) => 4 * REASON_NUM + 10
    case PrintTotal(_) => 4 * REASON_NUM + 9
    case TestReason(_, k) => if k <= REASON_NUM then 2 * REASON_NUM + 8 + 2 * (REASON_NUM - k) else 0
    case PrintReason(_, k) => if k < REASON_NUM then 2 * REASON_NUM + 7 + 2 * (REASON_NUM - k) else 0
    case ZeroTotal(_) => REASON_NUM + 5
    case ClearReason(_, k) => if k <= REASON_NUM then 4 + (REASON_NUM - k) else 0
    case SetTime(_) => 2
    case Unlock => 1
    case _ => 0
  }

  predicate InReport(pc: PC, now: int) {
    (Cleared(pc) && !pc.TryLock? && pc.now == now) || pc.Unlock? || pc.Idle?
  }

  lemma ReportStep(s: State, i: nat, now: int)
    requires WellFormed(s) && i < |s.pcs| && InReport(s.pcs[i], now) && !s.pcs[i].Idle?
    ensures var s' := Apply(s, Step(i, 0));
            && |s'.pcs| == |s.pcs| && s'.pcs == s.pcs[i := s'.pcs[i]] && InReport(s'.pcs[i], now)
            && ToGo(s'.pcs[i]) < ToGo(s.pcs[i])
            && s'.held == (s.held && !s.pcs[i].Unlock?)
            && s'.times == (if s.pcs[i].SetTime? then s.times + [now] else s.times)
            && (s.pcs[i].SetTime? <==> s'.pcs[i].Unlock?)
            && (s.pcs[i].Unlock? <==> s'.pcs[i].Idle?)
  {
  }

  /** A CPU at the trylock with the lock free reports and is done. */
  lemma ReportAlone(cpus: nat, ktime: int, s: State, i: nat) returns (s': State)
    requires Reachable(cpus, ktime, s) && WellFormed(s) && i < |s.pcs| && s.pcs[i].TryLock? && !s.held
    ensures Reachable(cpus, ktime, s') && WellFormed(s')
    ensures s'.pcs == s.pcs[i := Idle] && !s'.held && s'.times == s.times + [s.pcs[i].now]
  {
    var now := s.pcs[i].now;
    Extend(cpus, ktime, s, Step(i, 0));
    s' := Apply(s, Step(i, 0));
    while !s'.pcs[i].Idle?
      invariant Reachable(cpus, ktime, s') && WellFormed(s') && |s'.pcs| == |s.pcs|
      invariant s'.pcs == s.pcs[i := s'.pcs[i]] && InReport(s'.pcs[i], now)
      invariant s'.held <==> !s'.pcs[i].Idle?
      invariant s'.times == if s'.pcs[i].Unlock? || s'.pcs[i].Idle? then s.times + [now] else s.times
      decreases ToGo(s'.pcs[i])
    {
      ReportStep(s', i, now);
      Extend(cpus, ktime, s', Step(i, 0));
      s' := Apply(s', Step(i, 0));
    }
  }

  /** Every report is at least 10^9 ns after the one before it, in every run. */
  ghost predicate AlwaysApart(cpus: nat, ktime: int) {
    forall s: State, j: nat :: Reachable(cpus, ktime, s) && j < |s.times| ==> Late(ktime, s.times, j, s.times[j])
  }

  /** Reports stay 10^9 ns apart in every run exactly if there is no second CPU. */
  lemma AlwaysApartIff(cpus: nat, ktime: int)
    ensures AlwaysApart(cpus, ktime) <==> cpus <= 1
  {
    if cpus <= 1 {
      forall s: State, j: nat | Reachable(cpus, ktime, s) && j < |s.times|
        ensures Late(ktime, s.times, j, s.times[j])
      {
        Alone(cpus, ktime, s);
      }
    } else {
      var now, s := Due(ktime), Init(cpus, ktime);
      assert Path(s, [], s);
      s := ToTryLock(cpus, ktime, s, 0, now);
      s := ToTryLock(cpus, ktime, s, 1, now);
      s := ReportAlone(cpus, ktime, s, 0);
      s := ReportAlone(cpus, ktime, s, 1);
      assert !Late(ktime, s.times, 1, s.times[1]);
    }
  }
}
