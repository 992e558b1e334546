/**
 The 128-slot first-fit table of "other" MSRs (debug/kvmwrmsr/msr.h): index 0 marks a free slot,
 counts are 32 bits wide and wrap. The reference is the trace of recorded MSRs itself: its distinct
 nonzero keys in order of first occurrence, and how often each occurs.
 */
module OtherTable {
  import opened Sums
  import opened MsrClass

  const SLOTS: nat := 128
  const WRAP: nat := 0x1_0000_0000

  datatype Slot = Slot(index: u32, count: u32)

  predicate Fits(slot: Slot, msr: u32) {
    msr == slot.index || slot.index == 0
  }

  /** The first slot that takes the MSR, or |t| if the loop runs off the end. */
  function FirstFit(t: seq<Slot>, msr: u32, from: nat := 0): (k: nat)
    requires from <= |t|
    ensures from <= k <= |t| && (k < |t| ==> Fits(t[k], msr))
    ensures forall j | from <= j < k :: !Fits(t[j], msr)
    decreases |t| - from
  {
    if from == |t| || Fits(t[from], msr) then from else FirstFit(t, msr, from + 1)
  }

  function Bump(slot: Slot, msr: u32): Slot {
    Slot(msr, (slot.count + 1) % WRAP)
  }

  /** record_other_wrmsr under the lock. */
  function Insert(t: seq<Slot>, msr: u32): (t': seq<Slot>)
    ensures |t'| == |t|
  {
    var k := FirstFit(t, msr);
    if k == |t| then t else t[k := Bump(t[k], msr)]
  }

  function Empty(): seq<Slot> {
    seq(SLOTS, _ => Slot(0, 0))
  }

  /** The table after a trace of records, starting from a reset. */
  function TableOf(tr: seq<u32>): (t: seq<Slot>)
    ensures |t| == SLOTS
  {
    if tr == [] then Empty() else Insert(TableOf(tr[..|tr| - 1]), tr[|tr| - 1])
  }

  /** report_other_wrmsr has something to report for this slot. */
  predicate Reportable(slot: Slot) {
    slot.index != 0 && slot.count != 0
  }

  /** What a scan of an unchanging table prints: it breaks at the first slot with nothing to report. */
  function Rows(t: seq<Slot>): (rows: seq<Slot>)
    ensures rows <= t
    ensures forall k | 0 <= k < |rows| :: Reportable(rows[k])
    ensures |rows| < |t| ==> !Reportable(t[|rows|])
  {
    if t == [] || !Reportable(t[0]) then [] else [t[0]] + Rows(t[1..])
  }

  // ---------------------------------------------------------------- the class that is updated in place

  class OtherMsrs {
    const slots: array<Slot>

    constructor ()
      ensures fresh(slots) && slots.Length == SLOTS && slots[..] == Empty()
    {
      slots := new Slot[SLOTS](_ => Slot(0, 0));
      new;
      assert slots[..] == Empty();
    }

    method RecordOther(msr: u32)
      modifies slots
      ensures slots[..] == Insert(old(slots[..]), msr)
    {
      var idx := 0;
      while idx < slots.Length
        invariant 0 <= idx <= slots.Length && slots[..] == old(slots[..])
        invariant FirstFit(slots[..], msr) == FirstFit(slots[..], msr, idx)
      {
        if msr == slots[idx].index || slots[idx].index == 0 {
          slots[idx] := Slot(msr, (slots[idx].count + 1) % WRAP);
          break;
        }
        idx := idx + 1;
      }
    }

    method ReportOther(idx: nat) returns (ret: int, row: Slot)
      requires idx < slots.Length
      ensures ret == 0 <==> Reportable(slots[idx])
      ensures ret == 0 ==> row == slots[idx]
    {
      row := slots[idx];
      ret := if row.index != 0 && row.count != 0 then 0 else -1;
    }

    method ResetOther()
      requires slots.Length == SLOTS
      modifies slots
      ensures slots[..] == Empty()
    {
      for i := 0 to slots.Length
        invariant forall j | 0 <= j < i :: slots[j] == Slot(0, 0)
      {
        slots[i] := Slot(0, 0);
      }
      assert slots[..] == Empty();
    }

    /** The last part of show_wrmsr: a first look at slot 0, then the loop with its early break. */
    method ShowOthers() returns (rows: seq<Slot>)
      requires slots.Length == SLOTS
      ensures rows == Rows(slots[..])
    {
      rows := [];
      var ret, row := ReportOther(0);
      if ret == 0 {
        var idx := 0;
        while idx < slots.Length
          invariant 0 <= idx <= slots.Length && rows == slots[..idx]
          invariant forall k | 0 <= k < |rows| :: Reportable(rows[k])
        {
          ret, row := ReportOther(idx);
          if ret != 0 {
            break;
          }
          rows := rows + [row];
          idx := idx + 1;
        }
      }
      RowsUnique(slots[..], rows);
    }
  }

  lemma {:induction false} RowsUnique(t: seq<Slot>, rows: seq<Slot>)
    requires rows <= t && (forall k | 0 <= k < |rows| :: Reportable(rows[k]))
    requires |rows| < |t| ==> !Reportable(t[|rows|])
    ensures rows == Rows(t)
    decreases |rows|
  {
    if rows != [] {
      assert Reportable(rows[0]) && t[0] == rows[0];
      forall k | 0 <= k < |rows[1..]| ensures Reportable(rows[1..][k]) {
        assert rows[1..][k] == rows[k + 1];
      }
      RowsUnique(t[1..], rows[1..]);
    }
  }

  // ---------------------------------------------------------------- the reference

  /** How often m occurs. */
  function Occ(tr: seq<u32>, m: u32): nat {
    if tr == [] then 0 else Occ(tr[..|tr| - 1], m) + if tr[|tr| - 1] == m then 1 else 0
  }

  /** The distinct nonzero MSRs in order of first occurrence. */
  function Keys(tr: seq<u32>): seq<u32> {
    if tr == [] then []
    else
      var keys, m := Keys(tr[..|tr| - 1]), tr[|tr| - 1];
      if m == 0 || m in keys then keys else keys + [m]
  }

  /** Zeros recorded while exactly k distinct keys had been seen, that is, while slot k was first free. */
  function ZerosAt(tr: seq<u32>, k: nat): nat {
    if tr == [] then 0
    else
      var init := tr[..|tr| - 1];
      ZerosAt(init, k) + if tr[|tr| - 1] == 0 && |Keys(init)| == k then 1 else 0
  }

  /** Slot k's share of the trace: its key's occurrences and the zeros that landed on it. */
  function Share(tr: seq<u32>, k: nat): nat {
    ZerosAt(tr, k) + if k < |Keys(tr)| then Occ(tr, Keys(tr)[k]) else 0
  }

  function IndexOf(keys: seq<u32>, m: u32): (k: nat)
    ensures k <= |keys| && (k < |keys| <==> m in keys) && (k < |keys| ==> keys[k] == m)
  {
    if keys == [] then 0 else if keys[0] == m then 0 else 1 + IndexOf(keys[1..], m)
  }

  /** The slot the next event belongs to: its key's, or the first free one. */
  function Target(tr: seq<u32>, m: u32): nat {
    if m == 0 then |Keys(tr)| else IndexOf(Keys(tr), m)
  }

  /** Events that found neither their key nor a free slot among the 128. */
  function Dropped(tr: seq<u32>): nat {
    if tr == [] then 0
    else
      var init := tr[..|tr| - 1];
      Dropped(init) + if Target(init, tr[|tr| - 1]) >= SLOTS then 1 else 0
  }

  lemma {:induction false} KeyFacts(tr: seq<u32>, m: u32)
    ensures m in Keys(tr) <==> m != 0 && Occ(tr, m) > 0
  {
    if tr != [] {
      KeyFacts(tr[..|tr| - 1], m);
    }
  }

  lemma {:induction false} KeysDistinct(tr: seq<u32>, i: nat, j: nat)
    requires i < j < |Keys(tr)|
    ensures Keys(tr)[i] != Keys(tr)[j]
  {
    var init := tr[..|tr| - 1];
    if j < |Keys(init)| {
      KeysDistinct(init, i, j);
    }
  }

  lemma KeyNonzero(tr: seq<u32>, k: nat)
    requires k < |Keys(tr)|
    ensures Keys(tr)[k] != 0
  {
    KeyFacts(tr, Keys(tr)[k]);
  }

  /** The trace's next event adds one to exactly its target's share. */
  lemma ShareStep(tr: seq<u32>, m: u32, k: nat)
    ensures Share(tr + [m], k) == Share(tr, k) + if k == Target(tr, m) then 1 else 0
  {
    var tr' := tr + [m];
    assert tr'[..|tr|] == tr;
    KeyFacts(tr, m);
    if k < |Keys(tr)| {
      KeyNonzero(tr, k);
      if m in Keys(tr) && IndexOf(Keys(tr), m) < k {
        KeysDistinct(tr, IndexOf(Keys(tr), m), k);
      } else if m in Keys(tr) && k < IndexOf(Keys(tr), m) {
        KeysDistinct(tr, k, IndexOf(Keys(tr), m));
      }
    }
  }

  /** What slot k holds after the trace. */
  function SlotOf(tr: seq<u32>, k: nat): Slot {
    Slot(if k < |Keys(tr)| then Keys(tr)[k] else 0, Share(tr, k) % WRAP)
  }

  /** First fit finds the target. */
  lemma FirstFitIsTarget(tr: seq<u32>, m: u32, t: seq<Slot>)
    requires |t| == SLOTS && forall k | 0 <= k < SLOTS :: t[k] == SlotOf(tr, k)
    ensures FirstFit(t, m) == if Target(tr, m) < SLOTS then Target(tr, m) else SLOTS
  {
    var target, fit := Target(tr, m), FirstFit(t, m);
    if fit < SLOTS && fit < |Keys(tr)| {
      KeyNonzero(tr, fit);
      if fit < target < |Keys(tr)| {
        KeysDistinct(tr, fit, target);
      }
    }
    if target < SLOTS {
      assert Fits(t[target], m);
    }
  }

  lemma CountUp(a: nat)
    ensures (a % WRAP + 1) % WRAP == (a + 1) % WRAP
  {
  }

  lemma KeyAt(tr: seq<u32>, m: u32)
    requires Target(tr, m) < |Keys(tr)| || m == 0 || m !in Keys(tr)
    ensures SlotOf(tr + [m], Target(tr, m)).index == m
    ensures forall k | k != Target(tr, m) && 0 <= k :: SlotOf(tr + [m], k).index == SlotOf(tr, k).index
  {
    assert (tr + [m])[..|tr|] == tr;
  }

  lemma SlotStep(tr: seq<u32>, m: u32, k: nat)
    ensures SlotOf(tr + [m], k) == if k == Target(tr, m) then Bump(SlotOf(tr, k), m) else SlotOf(tr, k)
  {
    ShareStep(tr, m, k);
    KeyAt(tr, m);
    CountUp(Share(tr, k));
  }

  /**
   Every trace, zeros and wrapping included: slot k holds the k-th distinct nonzero key and, modulo
   2^32, that key's occurrences plus the zeros recorded while slot k was first free.
   */
  lemma {:induction false} TableExact(tr: seq<u32>)
    ensures forall k | 0 <= k < SLOTS :: TableOf(tr)[k] == SlotOf(tr, k)
  {
    if tr != [] {
      var init, m := tr[..|tr| - 1], tr[|tr| - 1];
      assert tr == init + [m];
      TableExact(init);
      FirstFitIsTarget(init, m, TableOf(init));
      forall k | 0 <= k < SLOTS ensures TableOf(tr)[k] == SlotOf(tr, k) {
        SlotStep(init, m, k);
      }
    }
  }

  // ---------------------------------------------------------------- consequences

  function ShareOf(tr: seq<u32>): nat -> nat {
    k => Share(tr, k)
  }

  function Indices(n: nat): (s: seq<nat>)
    ensures |s| == n && forall i | 0 <= i < n :: s[i] == i
  {
    seq(n, i => i)
  }

  lemma {:induction false} ShareSumStep(tr: seq<u32>, m: u32, n: nat)
    ensures Sum(Indices(n), ShareOf(tr + [m])) == Sum(Indices(n), ShareOf(tr)) + if Target(tr, m) < n then 1 else 0
  {
    if n > 0 {
      assert Indices(n)[..n - 1] == Indices(n - 1);
      ShareStep(tr, m, n - 1);
      ShareSumStep(tr, m, n - 1);
    }
  }

  /** Conservation: the shares of the 128 slots and the dropped events account for the whole trace. */
  lemma {:induction false} SharesAddUp(tr: seq<u32>)
    ensures Sum(Indices(SLOTS), ShareOf(tr)) + Dropped(tr) == |tr|
  {
    if tr == [] {
      NoShares(SLOTS);
    } else {
      var init, m := tr[..|tr| - 1], tr[|tr| - 1];
      assert tr == init + [m];
      SharesAddUp(init);
      ShareSumStep(init, m, SLOTS);
    }
  }

  lemma {:induction false} NoShares(n: nat)
    ensures Sum(Indices(n), ShareOf([])) == 0
  {
    if n > 0 {
      assert Indices(n)[..n - 1] == Indices(n - 1);
      NoShares(n - 1);
    }
  }

  lemma ShareBound(tr: seq<u32>, k: nat)
    requires k < SLOTS
    ensures Share(tr, k) <= |tr|
  {
    SharesAddUp(tr);
    SumElement(Indices(SLOTS), k, ShareOf(tr));
  }

  function CountOf(): Slot -> nat { (slot: Slot) => slot.count }

  lemma SmallCount(a: nat)
    requires a < WRAP
    ensures a % WRAP == a
  {
  }

  lemma CountAt(tr: seq<u32>, k: nat)
    requires k < SLOTS
    ensures TableOf(tr)[k].count == Share(tr, k) % WRAP
  {
    TableExact(tr);
  }

  lemma CountIsShare(tr: seq<u32>, k: nat)
    requires k < SLOTS && |tr| < WRAP
    ensures TableOf(tr)[k].count == Share(tr, k)
  {
    CountAt(tr, k);
    ShareBound(tr, k);
    SmallCount(Share(tr, k));
  }

  lemma {:induction false} CountsAreShares(tr: seq<u32>, n: nat)
    requires n <= SLOTS && |tr| < WRAP
    ensures Sum(TableOf(tr)[..n], CountOf()) == Sum(Indices(n), ShareOf(tr))
  {
    if n > 0 {
      CountIsShare(tr, n - 1);
      assert TableOf(tr)[..n][..n - 1] == TableOf(tr)[..n - 1];
      assert Indices(n)[..n - 1] == Indices(n - 1);
      CountsAreShares(tr, n - 1);
    }
  }

  /** With fewer than 2^32 records the slot counts and the dropped events add up to all of them. */
  lemma CountsConserved(tr: seq<u32>)
    requires |tr| < WRAP
    ensures Sum(TableOf(tr), CountOf()) + Dropped(tr) == |tr|
  {
    CountsAreShares(tr, SLOTS);
    assert TableOf(tr)[..SLOTS] == TableOf(tr);
    SharesAddUp(tr);
  }

  lemma {:induction false} NoZeros(tr: seq<u32>, k: nat)
    requires 0 !in tr
    ensures ZerosAt(tr, k) == 0
  {
    if tr != [] {
      NoZeros(tr[..|tr| - 1], k);
    }
  }

  /** Without MSR 0 and without wrapping the table is the histogram of the first 128 distinct keys. */
  lemma Histogram(tr: seq<u32>, k: nat)
    requires 0 !in tr && |tr| < WRAP && k < SLOTS
    ensures k < |Keys(tr)| ==> TableOf(tr)[k].index == Keys(tr)[k] && TableOf(tr)[k].count == Occ(tr, Keys(tr)[k])
    ensures |Keys(tr)| <= k ==> TableOf(tr)[k] == Slot(0, 0)
  {
    TableExact(tr);
    NoZeros(tr, k);
    CountIsShare(tr, k);
  }

  /** The nonzero slots are a prefix, and no key sits in two of them. */
  lemma {:induction false} NonzeroPrefix(tr: seq<u32>, i: nat, j: nat)
    requires i < j < SLOTS
    ensures TableOf(tr)[j].index != 0 ==> TableOf(tr)[i].index != 0 && TableOf(tr)[i].index != TableOf(tr)[j].index
  {
    TableExact(tr);
    if j < |Keys(tr)| {
      KeyNonzero(tr, i);
      KeysDistinct(tr, i, j);
    }
  }

  function Filled(tr: seq<u32>): nat {
    if |Keys(tr)| < SLOTS then |Keys(tr)| else SLOTS
  }

  lemma KeyShare(tr: seq<u32>, k: nat)
    requires k < |Keys(tr)|
    ensures 0 < Share(tr, k)
  {
    KeyFacts(tr, Keys(tr)[k]);
  }

  lemma FilledSlots(tr: seq<u32>, k: nat)
    requires k < SLOTS
    ensures Reportable(TableOf(tr)[k]) <==> k < Filled(tr) && Share(tr, k) % WRAP != 0
  {
    TableExact(tr);
    if k < Filled(tr) {
      KeyNonzero(tr, k);
    }
  }

  lemma OccupiedIff(tr: seq<u32>, k: nat)
    requires k < SLOTS
    ensures TableOf(tr)[k].index != 0 <==> k < Filled(tr)
  {
    TableExact(tr);
    if k < Filled(tr) {
      KeyNonzero(tr, k);
    }
  }

  lemma NoWrap(tr: seq<u32>, k: nat)
    requires k < Filled(tr) && |tr| < WRAP
    ensures Share(tr, k) % WRAP != 0
  {
    KeyShare(tr, k);
    ShareBound(tr, k);
  }

  /**
   A scan prints the slot of every key in the table exactly if no key's share is a multiple of 2^32
   (a wrapped count of 0 ends the scan early); with fewer than 2^32 records it always does.
   */
  lemma ScanCompleteIff(tr: seq<u32>)
    ensures |Rows(TableOf(tr))| <= Filled(tr)
    ensures |Rows(TableOf(tr))| == Filled(tr) <==> forall k | 0 <= k < Filled(tr) :: Share(tr, k) % WRAP != 0
    ensures |tr| < WRAP ==> Rows(TableOf(tr)) == TableOf(tr)[..Filled(tr)]
  {
    var n := |Rows(TableOf(tr))|;
    if n > 0 {
      FilledSlots(tr, n - 1);
      assert Reportable(Rows(TableOf(tr))[n - 1]);
    }
    if n < SLOTS {
      FilledSlots(tr, n);
    }
    forall k | 0 <= k < n ensures Share(tr, k) % WRAP != 0 {
      assert Reportable(Rows(TableOf(tr))[k]);
      FilledSlots(tr, k);
    }
    if |tr| < WRAP {
      forall k | 0 <= k < Filled(tr) ensures Share(tr, k) % WRAP != 0 {
        NoWrap(tr, k);
      }
    }
  }

  // ---------------------------------------------------------------- what a longer trace keeps

  lemma {:induction false} KeysGrow(tr: seq<u32>, more: seq<u32>)
    ensures Keys(tr) <= Keys(tr + more)
    decreases |more|
  {
    if more == [] {
      assert tr + more == tr;
    } else {
      var init := more[..|more| - 1];
      assert (tr + more)[..|tr + more| - 1] == tr + init;
      KeysGrow(tr, init);
    }
  }

  lemma {:induction false} SharesGrow(tr: seq<u32>, more: seq<u32>, k: nat)
    ensures Share(tr, k) <= Share(tr + more, k)
    decreases |more|
  {
    if more == [] {
      assert tr + more == tr;
    } else {
      var init, m := more[..|more| - 1], more[|more| - 1];
      assert tr + more == (tr + init) + [m];
      SharesGrow(tr, init, k);
      ShareStep(tr + init, m, k);
    }
  }
}
