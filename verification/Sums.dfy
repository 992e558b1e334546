/** Sums and counts over sequences, how they change when one element does, and sizes of subsets. */
module Sums {

  function Sum<T>(s: seq<T>, f: T -> nat): nat {
    if s == [] then 0 else Sum(s[..|s| - 1], f) + f(s[|s| - 1])
  }

  function Identity(): nat -> nat { x => x }

  function Zeros(n: nat): (z: seq<nat>)
    ensures |z| == n && forall k | 0 <= k < n :: z[k] == 0
  {
    seq(n, _ => 0)
  }

  lemma {:induction false} ZeroSum(n: nat)
    ensures Sum(Zeros(n), Identity()) == 0
  {
    if n > 0 {
      assert Zeros(n)[..n - 1] == Zeros(n - 1);
      ZeroSum(n - 1);
    }
  }

  function Indicator<T>(p: T -> bool): T -> nat {
    x => if p(x) then 1 else 0
  }

  /** How many elements of `s` satisfy `p`. */
  function Count<T>(s: seq<T>, p: T -> bool): nat {
    Sum(s, Indicator(p))
  }

  lemma {:induction false} SumUpdate<T>(s: seq<T>, i: nat, x: T, f: T -> nat)
    requires i < |s|
    ensures Sum(s[i := x], f) + f(s[i]) == Sum(s, f) + f(x)
  {
    var n := |s| - 1;
    if i == n {
      assert s[i := x][..n] == s[..n];
    } else {
      assert s[i := x][..n] == s[..n][i := x];
      SumUpdate(s[..n], i, x, f);
    }
  }

  lemma SumAppend<T>(s: seq<T>, x: T, f: T -> nat)
    ensures Sum(s + [x], f) == Sum(s, f) + f(x)
  {
    assert (s + [x])[..|s|] == s;
  }

  lemma {:induction false} SumConcat<T>(a: seq<T>, b: seq<T>, f: T -> nat)
    ensures Sum(a + b, f) == Sum(a, f) + Sum(b, f)
  {
    if b == [] {
      assert a + b == a;
    } else {
      assert (a + b)[..|a + b| - 1] == a + b[..|b| - 1];
      SumConcat(a, b[..|b| - 1], f);
    }
  }

  lemma SumFirst<T>(s: seq<T>, f: T -> nat)
    requires s != []
    ensures Sum(s, f) == f(s[0]) + Sum(s[1..], f)
  {
    assert s == [s[0]] + s[1..];
    SumConcat([s[0]], s[1..], f);
    SumAppend([], s[0], f);
    assert [] + [s[0]] == [s[0]];
  }

  lemma {:induction false} SumElement<T>(s: seq<T>, i: nat, f: T -> nat)
    requires i < |s|
    ensures f(s[i]) <= Sum(s, f)
  {
    if i < |s| - 1 {
      SumElement(s[..|s| - 1], i, f);
    }
  }

  lemma CountUpdate<T>(s: seq<T>, i: nat, x: T, p: T -> bool)
    requires i < |s|
    ensures Count(s[i := x], p)
         == Count(s, p) + (if p(x) then 1 else 0) - (if p(s[i]) then 1 else 0)
  {
    SumUpdate(s, i, x, Indicator(p));
  }

  /** A count is full exactly when every element is counted, and zero exactly when none is. */
  lemma {:induction false} CountExtremes<T>(s: seq<T>, p: T -> bool)
    ensures Count(s, p) <= |s|
    ensures Count(s, p) == |s| <==> forall i | 0 <= i < |s| :: p(s[i])
    ensures Count(s, p) == 0 <==> forall i | 0 <= i < |s| :: !p(s[i])
  {
    if s != [] {
      var n := |s| - 1;
      CountExtremes(s[..n], p);
      assert forall i | 0 <= i < n :: s[..n][i] == s[i];
    }
  }

  /** Whatever satisfies `p` satisfies `q`, so `p` is counted no more often than `q`. */
  lemma {:induction false} CountMonotone<T>(s: seq<T>, p: T -> bool, q: T -> bool)
    requires forall i | 0 <= i < |s| :: p(s[i]) ==> q(s[i])
    ensures Count(s, p) <= Count(s, q)
  {
    if s != [] {
      var n := |s| - 1;
      assert forall i | 0 <= i < n :: s[..n][i] == s[i];
      CountMonotone(s[..n], p, q);
    }
  }

  /** Nothing satisfies both p and q: together they count at most everything, and all if one always holds. */
  lemma {:induction false} CountDisjoint<T>(s: seq<T>, p: T -> bool, q: T -> bool)
    requires forall i | 0 <= i < |s| :: !(p(s[i]) && q(s[i]))
    ensures Count(s, p) + Count(s, q) <= |s|
    ensures (forall i | 0 <= i < |s| :: p(s[i]) || q(s[i])) ==> Count(s, p) + Count(s, q) == |s|
  {
    if s != [] {
      var n := |s| - 1;
      assert forall i | 0 <= i < n :: s[..n][i] == s[i];
      CountDisjoint(s[..n], p, q);
    }
  }

  /** Where more than one element is counted, there are two counted ones. */
  lemma {:induction false} TwoCounted<T>(s: seq<T>, p: T -> bool) returns (i: nat, j: nat)
    requires 1 < Count(s, p)
    ensures i < j < |s| && p(s[i]) && p(s[j])
  {
    var init := s[..|s| - 1];
    if p(s[|s| - 1]) {
      CountExtremes(init, p);
      i :| i < |init| && p(init[i]);
      j := |s| - 1;
    } else {
      i, j := TwoCounted(init, p);
    }
  }

  /** Where at most one element is counted, two counted ones are the same. */
  lemma {:induction false} AtMostOne<T>(s: seq<T>, p: T -> bool, i: nat, j: nat)
    requires i < |s| && j < |s| && p(s[i]) && p(s[j]) && Count(s, p) <= 1
    ensures i == j
  {
    var n := |s| - 1;
    CountExtremes(s[..n], p);
    if i < n && j < n {
      AtMostOne(s[..n], p, i, j);
    }
  }

  lemma SubsetSize<T>(a: set<T>, b: set<T>)
    requires a <= b
    ensures |a| <= |b| && (|a| == |b| ==> a == b)
  {
    assert b == a + (b - a);
  }
}
