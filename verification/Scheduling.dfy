/**
 * Greedy list scheduling in the abstract: jobs with weights go one by one to buckets,
 * each to a bucket that is least by total weight, then by job count.
 */
module Scheduling {

  /** Total weight of the jobs that `a` sends to bucket `b`. */
  function Load(w: seq<real>, a: seq<nat>, b: nat): real
    requires |w| == |a|
  {
    if w == [] then 0.0
    else Load(w[..|w| - 1], a[..|a| - 1], b) + if a[|a| - 1] == b then w[|w| - 1] else 0.0
  }

  /** Number of jobs that `a` sends to bucket `b`. */
  function Count(a: seq<nat>, b: nat): nat {
    if a == [] then 0 else Count(a[..|a| - 1], b) + if a[|a| - 1] == b then 1 else 0
  }

  /** A bucket's place in the order: by weight, then by count. */
  datatype Key = Key(weight: real, count: nat)

  predicate KeyLess(x: Key, y: Key) {
    if x.weight != y.weight then x.weight < y.weight else x.count < y.count
  }

  function KeyOf(w: seq<real>, a: seq<nat>, b: nat): Key
    requires |w| == |a|
  {
    Key(Load(w, a, b), Count(a, b))
  }

  predicate Assigns(a: seq<nat>, m: nat) {
    forall k | 0 <= k < |a| :: a[k] < m
  }

  /** Job `k` went to a bucket that no other bucket was less than at that time. */
  ghost predicate GreedyStep(w: seq<real>, a: seq<nat>, m: nat, k: nat)
    requires |w| == |a| && k < |a|
  {
    && a[k] < m
    && forall b: nat | b < m :: !KeyLess(KeyOf(w[..k], a[..k], b), KeyOf(w[..k], a[..k], a[k]))
  }

  ghost predicate IsGreedy(w: seq<real>, a: seq<nat>, m: nat) {
    |w| == |a| && forall k | 0 <= k < |a| :: GreedyStep(w, a, m, k)
  }

  predicate Descending(w: seq<real>) {
    forall i, j | 0 <= i <= j < |w| :: w[i] >= w[j]
  }

  predicate NonNegative(w: seq<real>) {
    forall i | 0 <= i < |w| :: w[i] >= 0.0
  }

  /** Weight of the heaviest of the first `m` buckets. */
  function Makespan(w: seq<real>, a: seq<nat>, m: nat): real
    requires |w| == |a| && m > 0
  {
    if m == 1 then Load(w, a, 0)
    else
      var rest, last := Makespan(w, a, m - 1), Load(w, a, m - 1);
      if rest >= last then rest else last
  }

  // ----- conservation: the loads add up to the jobs

  function Sum(w: seq<real>): real {
    if w == [] then 0.0 else Sum(w[..|w| - 1]) + w[|w| - 1]
  }

  function SumLoads(w: seq<real>, a: seq<nat>, m: nat): real
    requires |w| == |a|
  {
    if m == 0 then 0.0 else SumLoads(w, a, m - 1) + Load(w, a, m - 1)
  }

  function SumCounts(a: seq<nat>, m: nat): nat {
    if m == 0 then 0 else SumCounts(a, m - 1) + Count(a, m - 1)
  }

  lemma {:induction false} SumLoadsSnoc(w: seq<real>, a: seq<nat>, m: nat)
    requires |w| == |a| && w != []
    ensures SumLoads(w, a, m) == SumLoads(w[..|w| - 1], a[..|a| - 1], m) + if a[|a| - 1] < m then w[|w| - 1] else 0.0
  {
    if m > 0 {
      SumLoadsSnoc(w, a, m - 1);
    }
  }

  lemma {:induction false} SumCountsSnoc(a: seq<nat>, m: nat)
    requires a != []
    ensures SumCounts(a, m) == SumCounts(a[..|a| - 1], m) + if a[|a| - 1] < m then 1 else 0
  {
    if m > 0 {
      SumCountsSnoc(a, m - 1);
    }
  }

  /** No weight is lost or counted twice. */
  lemma {:induction false} LoadsConserved(w: seq<real>, a: seq<nat>, m: nat)
    requires |w| == |a| && Assigns(a, m)
    ensures SumLoads(w, a, m) == Sum(w)
    decreases |w|
  {
    if w == [] {
      EmptyLoads(m);
    } else {
      SumLoadsSnoc(w, a, m);
      LoadsConserved(w[..|w| - 1], a[..|a| - 1], m);
    }
  }

  lemma {:induction m} EmptyLoads(m: nat)
    ensures SumLoads([], [], m) == 0.0 && SumCounts([], m) == 0
  {
  }

  lemma {:induction false} CountsConserved(a: seq<nat>, m: nat)
    requires Assigns(a, m)
    ensures SumCounts(a, m) == |a|
    decreases |a|
  {
    if a == [] {
      EmptyLoads(m);
    } else {
      SumCountsSnoc(a, m);
      CountsConserved(a[..|a| - 1], m);
    }
  }

  // ----- averages

  /** `m` times `x`, by repeated addition. */
  function Times(m: nat, x: real): real {
    if m == 0 then 0.0 else Times(m - 1, x) + x
  }

  lemma {:induction false} TimesIsProduct(m: nat, x: real)
    ensures Times(m, x) == m as real * x
  {
    if m > 0 {
      TimesIsProduct(m - 1, x);
      assert m as real * x == (m - 1) as real * x + x;
    }
  }

  lemma {:induction false} LeastBelowAverage(w: seq<real>, a: seq<nat>, m: nat, least: real)
    requires |w| == |a| && forall b: nat | b < m :: least <= Load(w, a, b)
    ensures Times(m, least) <= SumLoads(w, a, m)
  {
    if m > 0 {
      LeastBelowAverage(w, a, m - 1, least);
    }
  }

  lemma {:induction false} MostAboveAverage(w: seq<real>, a: seq<nat>, m: nat, most: real)
    requires |w| == |a| && forall b: nat | b < m :: Load(w, a, b) <= most
    ensures SumLoads(w, a, m) <= Times(m, most)
  {
    if m > 0 {
      MostAboveAverage(w, a, m - 1, most);
    }
  }

  lemma {:induction false} MakespanBounds(w: seq<real>, a: seq<nat>, m: nat)
    requires |w| == |a| && m > 0
    ensures forall b: nat | b < m :: Load(w, a, b) <= Makespan(w, a, m)
    ensures exists b: nat :: b < m && Load(w, a, b) == Makespan(w, a, m)
  {
    if m == 1 {
      assert Load(w, a, 0) == Makespan(w, a, m);
    } else {
      MakespanBounds(w, a, m - 1);
      if Makespan(w, a, m - 1) >= Load(w, a, m - 1) {
        var b: nat :| b < m - 1 && Load(w, a, b) == Makespan(w, a, m - 1);
        assert Load(w, a, b) == Makespan(w, a, m);
      } else {
        assert Load(w, a, m - 1) == Makespan(w, a, m);
      }
    }
  }

  // ----- prefixes and single buckets

  lemma {:induction false} PrefixLoad(w: seq<real>, a: seq<nat>, b: nat, k: nat)
    requires |w| == |a| && k <= |w| && NonNegative(w)
    ensures 0.0 <= Load(w[..k], a[..k], b) <= Load(w, a, b)
    decreases |w|
  {
    if k < |w| {
      var w', a' := w[..|w| - 1], a[..|a| - 1];
      PrefixLoad(w', a', b, k);
      assert w'[..k] == w[..k] && a'[..k] == a[..k];
    } else {
      assert w[..k] == w && a[..k] == a;
      if w != [] {
        PrefixLoad(w[..|w| - 1], a[..|a| - 1], b, |w| - 1);
        assert w[..|w| - 1][..|w| - 1] == w[..|w| - 1] && a[..|a| - 1][..|w| - 1] == a[..|a| - 1];
      }
    }
  }

  /** A bucket weighs at least its count times the lightest job. */
  lemma {:induction false} LoadAtLeast(w: seq<real>, a: seq<nat>, b: nat, p: real)
    requires |w| == |a| && forall k | 0 <= k < |w| :: w[k] >= p
    ensures Load(w, a, b) >= Times(Count(a, b), p)
    decreases |w|
  {
    if w != [] {
      var a' := a[..|a| - 1];
      LoadAtLeast(w[..|w| - 1], a', b, p);
    }
  }

  /** The same with one known member weighed exactly. */
  lemma {:induction false} LoadWithMember(w: seq<real>, a: seq<nat>, b: nat, p: real, k: nat)
    requires |w| == |a| && k < |w| && a[k] == b && forall i | 0 <= i < |w| :: w[i] >= p
    ensures Count(a, b) >= 1
    ensures Load(w, a, b) >= w[k] + Times(Count(a, b) - 1, p)
    decreases |w|
  {
    var w', a' := w[..|w| - 1], a[..|a| - 1];
    if k == |w| - 1 {
      LoadAtLeast(w', a', b, p);
    } else {
      LoadWithMember(w', a', b, p, k);
    }
  }

  lemma {:induction false} EmptyBucket(w: seq<real>, a: seq<nat>, b: nat)
    requires |w| == |a| && Count(a, b) == 0
    ensures Load(w, a, b) == 0.0
    decreases |w|
  {
    if w != [] {
      EmptyBucket(w[..|w| - 1], a[..|a| - 1], b);
    }
  }

  lemma {:induction false} CountPositive(a: seq<nat>, k: nat)
    requires k < |a|
    ensures Count(a, a[k]) > 0
  {
    if k < |a| - 1 {
      CountPositive(a[..|a| - 1], k);
    }
  }

  /** The only job of a bucket that holds exactly one. */
  lemma {:induction false} SingleJob(w: seq<real>, a: seq<nat>, b: nat) returns (k: nat)
    requires |w| == |a| && Count(a, b) == 1
    ensures k < |a| && a[k] == b && Load(w, a, b) == w[k]
    decreases |w|
  {
    if a[|a| - 1] == b {
      k := |a| - 1;
      EmptyBucket(w[..k], a[..k], b);
    } else {
      k := SingleJob(w[..|w| - 1], a[..|a| - 1], b);
    }
  }

  lemma {:induction false} SingleIsUnique(a: seq<nat>, b: nat, i: nat, j: nat)
    requires i < j < |a| && a[i] == b && a[j] == b
    ensures Count(a, b) >= 2
  {
    var a' := a[..|a| - 1];
    if j == |a| - 1 {
      CountPositive(a', i);
    } else {
      SingleIsUnique(a', b, i, j);
    }
  }
}
