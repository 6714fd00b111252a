/** How far from optimal a greedy run over descending weights can be. */
module GrahamBound {
  import opened Scheduling

  /** The buckets among the first `m` that hold exactly one job. */
  function Singles(a: seq<nat>, m: nat): set<nat> {
    set b: nat | b < m && Count(a, b) == 1
  }

  lemma SinglesSnoc(a: seq<nat>, m: nat)
    requires m > 0
    ensures Count(a, m - 1) == 1 ==> |Singles(a, m)| == |Singles(a, m - 1)| + 1
    ensures Count(a, m - 1) != 1 ==> Singles(a, m) == Singles(a, m - 1)
  {
    if Count(a, m - 1) == 1 {
      assert Singles(a, m) == Singles(a, m - 1) + {m - 1};
    } else {
      assert Singles(a, m) == Singles(a, m - 1);
    }
  }

  lemma {:induction false} CountsAtLeast(a: seq<nat>, m: nat)
    requires forall b: nat | b < m :: Count(a, b) >= 1
    ensures SumCounts(a, m) >= 2 * m - |Singles(a, m)|
  {
    if m > 0 {
      CountsAtLeast(a, m - 1);
      SinglesSnoc(a, m);
    }
  }

  lemma {:induction false} CountsAtMost(a: seq<nat>, m: nat)
    requires forall b: nat | b < m :: Count(a, b) <= 2
    ensures SumCounts(a, m) <= 2 * m - |Singles(a, m)|
  {
    if m > 0 {
      CountsAtMost(a, m - 1);
      SinglesSnoc(a, m);
    }
  }

  /** An injection cannot map into a smaller set. */
  lemma {:induction false} InjectionSize(f: map<nat, nat>, t: set<nat>)
    requires forall x | x in f :: f[x] in t
    requires forall x, y | x in f && y in f && f[x] == f[y] :: x == y
    ensures |f.Keys| <= |t|
    decreases |t|
  {
    if x :| x in f {
      InjectionSize(f - {x}, t - {f[x]});
      assert (f - {x}).Keys == f.Keys - {x};
    }
  }

  /** Two jobs of one bucket weigh at least the first plus the lightest. */
  lemma PairLoad(w: seq<real>, c: seq<nat>, p: real, i: nat, b: nat)
    requires |w| == |c| && i < |c| && c[i] == b && p >= 0.0 && Count(c, b) >= 2
    requires forall k | 0 <= k < |w| :: w[k] >= p
    ensures Load(w, c, b) >= w[i] + p
  {
    LoadWithMember(w, c, b, p, i);
    Multiples(Count(c, b) - 1, p);
  }

  lemma LoadOfMember(w: seq<real>, c: seq<nat>, p: real, k: nat)
    requires |w| == |c| && k < |w| && p >= 0.0 && forall i | 0 <= i < |w| :: w[i] >= p
    ensures Load(w, c, c[k]) >= w[k]
  {
    LoadWithMember(w, c, c[k], p, k);
    Multiples(Count(c, c[k]) - 1, p);
  }

  lemma {:induction false} Multiples(n: nat, p: real)
    requires p >= 0.0
    ensures Times(n, p) >= 0.0
    ensures n >= 1 ==> Times(n, p) >= p
    ensures n >= 2 ==> Times(n, p) >= p + p
    ensures n >= 3 ==> Times(n, p) >= p + p + p
  {
    if n > 0 {
      Multiples(n - 1, p);
    }
  }

  /**
   * The heart of the bound. All jobs weigh at least `p`, more than a third of what `c` ever
   * puts in one bucket, and the greedy run `a` is about to place one more job of weight `p`:
   * then its least bucket still has room, or `c` would have to place more jobs than there are.
   */
  lemma BigJobsFit(w: seq<real>, a: seq<nat>, c: seq<nat>, m: nat, least: real, most: real)
    requires |w| == |c| == |a| + 1 && Assigns(a, m) && Assigns(c, m)
    requires forall k | 0 <= k < |w| :: w[k] >= w[|w| - 1]
    requires w[|w| - 1] >= 0.0 && 3.0 * w[|w| - 1] > most
    requires forall b: nat | b < m :: Load(w, c, b) <= most
    requires forall b: nat | b < m :: least <= Load(w[..|a|], a, b)
    ensures least + w[|w| - 1] <= most
  {
    var p, v := w[|w| - 1], w[..|a|];
    if least + p > most {
      AllSingles(w, a, c, m, least, most);
      CountsConserved(a, m);
      CountsConserved(c, m);
      forall b: nat | b < m ensures Count(a, b) >= 1 {
        LoadOfMember(w, c, p, |a|);
        if Count(a, b) == 0 {
          EmptyBucket(v, a, b);
        }
      }
      forall b: nat | b < m ensures Count(c, b) <= 2 {
        LoadAtLeast(w, c, b, p);
        Multiples(Count(c, b), p);
      }
      CountsAtLeast(a, m);
      CountsAtMost(c, m);
    }
  }

  /** A job alone in a greedy bucket that has no room left must be alone in `c` too. */
  lemma AllSingles(w: seq<real>, a: seq<nat>, c: seq<nat>, m: nat, least: real, most: real)
    requires |w| == |c| == |a| + 1 && Assigns(c, m)
    requires forall k | 0 <= k < |w| :: w[k] >= w[|w| - 1]
    requires w[|w| - 1] >= 0.0
    requires forall b: nat | b < m :: Load(w, c, b) <= most
    requires forall b: nat | b < m :: least <= Load(w[..|a|], a, b)
    requires least + w[|w| - 1] > most
    ensures |Singles(a, m)| <= |Singles(c, m)|
  {
    var v := w[..|a|];
    forall b | b in Singles(a, m) ensures IsMate(a, c, m, b, Mate(a, c, m, b)) {
      var k := SingleJob(v, a, b);
      assert Count(c, c[k]) == 1 by {
        CountPositive(c, k);
        if Count(c, c[k]) >= 2 {
          PairLoad(w, c, w[|w| - 1], k, c[k]);
        }
      }
      assert HasMate(a, c, m, b, k);
    }
    var f := map b | b in Singles(a, m) :: Mate(a, c, m, b);
    forall x, y | x in f && y in f && f[x] == f[y] ensures x == y {
      MateInjective(a, c, m, x, y, f[x]);
    }
    assert f.Keys == Singles(a, m);
    InjectionSize(f, Singles(c, m));
  }

  ghost predicate HasMate(a: seq<nat>, c: seq<nat>, m: nat, b: nat, k: nat) {
    k < |a| && k < |c| && a[k] == b && c[k] in Singles(c, m)
  }

  ghost predicate IsMate(a: seq<nat>, c: seq<nat>, m: nat, b: nat, t: nat) {
    exists k: nat :: HasMate(a, c, m, b, k) && c[k] == t
  }

  ghost function Mate(a: seq<nat>, c: seq<nat>, m: nat, b: nat): nat {
    if k: nat :| HasMate(a, c, m, b, k) then c[k] else 0
  }

  lemma MateInjective(a: seq<nat>, c: seq<nat>, m: nat, x: nat, y: nat, t: nat)
    requires IsMate(a, c, m, x, t) && IsMate(a, c, m, y, t)
    ensures x == y
  {
    var i: nat :| HasMate(a, c, m, x, i) && c[i] == t;
    var j: nat :| HasMate(a, c, m, y, j) && c[j] == t;
    if i < j {
      SingleIsUnique(c, t, i, j);
    } else if j < i {
      SingleIsUnique(c, t, j, i);
    }
  }

  /** The last job that went to bucket `b`, after which `b` did not change. */
  lemma {:induction false} LastJob(w: seq<real>, a: seq<nat>, b: nat) returns (j: nat)
    requires |w| == |a| && Count(a, b) > 0
    ensures j < |a| && a[j] == b && Load(w, a, b) == Load(w[..j], a[..j], b) + w[j]
    decreases |w|
  {
    var n := |a| - 1;
    if a[n] == b {
      j := n;
    } else {
      j := LastJob(w[..n], a[..n], b);
      assert w[..n][..j] == w[..j] && a[..n][..j] == a[..j];
    }
  }

  /** `load` is within 4/3 - 1/(3m) of `best`. */
  predicate WithinRatio(m: nat, load: real, best: real) {
    3.0 * m as real * load <= (4.0 * m as real - 1.0) * best
  }

  lemma {:induction false} TimesPlus(m: nat, x: real, y: real)
    ensures Times(m, x + y) == Times(m, x) + Times(m, y)
  {
    if m > 0 {
      TimesPlus(m - 1, x, y);
    }
  }

  lemma {:induction false} TimesThird(m: nat, x: real, y: real)
    requires 3.0 * x <= y
    ensures 3.0 * Times(m, x) <= Times(m, y)
  {
    if m > 0 {
      TimesThird(m - 1, x, y);
    }
  }

  lemma {:induction false} TimesMonotone(m: nat, x: real, y: real)
    requires x <= y
    ensures Times(m, x) <= Times(m, y)
  {
    if m > 0 {
      TimesMonotone(m - 1, x, y);
    }
  }

  lemma TripleProduct(r: real, x: real)
    ensures 3.0 * r * x == 3.0 * (r * x)
  {
  }

  lemma QuadrupleProduct(r: real, x: real)
    ensures (4.0 * r - 1.0) * x == 4.0 * (r * x) - x
  {
  }

  /** The ratio, from multiples by the number of buckets. */
  lemma RatioFrom(m: nat, load: real, best: real)
    requires 3.0 * Times(m, load) <= 4.0 * Times(m, best) - best
    ensures WithinRatio(m, load, best)
  {
    TimesIsProduct(m, load);
    TimesIsProduct(m, best);
    TripleProduct(m as real, load);
    QuadrupleProduct(m as real, best);
  }

  /** The arithmetic when the last job weighs at most a third of the best. */
  lemma LightRatio(m: nat, before: real, last: real, total: real, best: real)
    requires m > 0 && 3.0 * last <= best
    requires Times(m, before) + last <= total <= Times(m, best)
    ensures WithinRatio(m, before + last, best)
  {
    TimesPlus(m, before, last);
    TimesThird(m - 1, last, best);
    RatioFrom(m, before + last, best);
  }

  lemma OptimalRatio(m: nat, load: real, best: real)
    requires m > 0 && 0.0 <= load <= best
    ensures WithinRatio(m, load, best)
  {
    TimesMonotone(m, load, best);
    TimesMonotone(m - 1, 0.0, best);
    TimesZero(m - 1);
    RatioFrom(m, load, best);
  }

  lemma {:induction false} TimesZero(m: nat)
    ensures Times(m, 0.0) == 0.0
  {
    if m > 0 {
      TimesZero(m - 1);
    }
  }

  /** When job `j` was placed, its bucket was no heavier than the average. */
  lemma PlacedBelowAverage(w: seq<real>, a: seq<nat>, m: nat, j: nat)
    requires IsGreedy(w, a, m) && j < |w|
    ensures forall b: nat | b < m :: Load(w[..j], a[..j], a[j]) <= Load(w[..j], a[..j], b)
    ensures Times(m, Load(w[..j], a[..j], a[j])) <= Sum(w[..j])
  {
    assert GreedyStep(w, a, m, j);
    forall b: nat | b < m ensures Load(w[..j], a[..j], a[j]) <= Load(w[..j], a[..j], b) {
      assert !KeyLess(KeyOf(w[..j], a[..j], b), KeyOf(w[..j], a[..j], a[j]));
    }
    GreedyAssigns(w, a, m);
    LeastBelowAverage(w[..j], a[..j], m, Load(w[..j], a[..j], a[j]));
    LoadsConserved(w[..j], a[..j], m);
  }

  lemma GreedyAssigns(w: seq<real>, a: seq<nat>, m: nat)
    requires IsGreedy(w, a, m)
    ensures Assigns(a, m)
  {
    forall k | 0 <= k < |a| ensures a[k] < m {
      assert GreedyStep(w, a, m, k);
    }
  }

  /** A light last job: the bucket exceeds the average by less than that job. */
  lemma LightLast(w: seq<real>, a: seq<nat>, c: seq<nat>, m: nat, best: real, j: nat, before: real)
    requires |c| == |w| && j < |w| && NonNegative(w) && IsGreedy(w, a, m) && Assigns(c, m)
    requires forall d: nat | d < m :: Load(w, c, d) <= best
    requires before == Load(w[..j], a[..j], a[j])
    requires m > 0 && 3.0 * w[j] <= best
    ensures WithinRatio(m, before + w[j], best)
  {
    var v, d := w[..j + 1], c[..j + 1];
    PlacedBelowAverage(w, a, m, j);
    forall e: nat | e < m ensures Load(v, d, e) <= best {
      PrefixLoad(w, c, e, j + 1);
    }
    MostAboveAverage(v, d, m, best);
    LoadsConserved(v, d, m);
    assert v[..j] == w[..j];
    LightRatio(m, before, w[j], Sum(v), best);
  }

  /** A heavy last job: all jobs so far are heavy, so the bucket is within the best. */
  lemma HeavyLast(w: seq<real>, a: seq<nat>, c: seq<nat>, m: nat, best: real, j: nat, before: real)
    requires |c| == |w| && j < |w| && NonNegative(w) && Descending(w) && IsGreedy(w, a, m) && Assigns(c, m)
    requires forall d: nat | d < m :: Load(w, c, d) <= best
    requires before == Load(w[..j], a[..j], a[j])
    requires 3.0 * w[j] > best
    ensures before + w[j] <= best
  {
    var v, d := w[..j + 1], c[..j + 1];
    GreedyAssigns(w, a, m);
    PlacedBelowAverage(w, a, m, j);
    forall e: nat | e < m ensures Load(v, d, e) <= best {
      PrefixLoad(w, c, e, j + 1);
    }
    assert v[..j] == w[..j];
    BigJobsFit(v, a[..j], d, m, before, best);
  }

  /**
   * Graham's bound for one bucket: over descending nonnegative weights, no bucket of a greedy run
   * is heavier than 4/3 - 1/(3m) of the heaviest bucket of any other assignment of the same jobs.
   */
  lemma BucketBound(w: seq<real>, a: seq<nat>, c: seq<nat>, m: nat, b: nat, load: real, best: real)
    requires m > 0 && b < m && |c| == |w|
    requires NonNegative(w) && Descending(w) && IsGreedy(w, a, m) && Assigns(c, m)
    requires forall d: nat | d < m :: Load(w, c, d) <= best
    requires load == Load(w, a, b)
    ensures WithinRatio(m, load, best)
  {
    PrefixLoad(w, c, 0, 0);
    PrefixLoad(w, a, b, 0);
    if Count(a, b) == 0 {
      EmptyBucket(w, a, b);
      OptimalRatio(m, load, best);
    } else {
      var j := LastJob(w, a, b);
      var before := Load(w[..j], a[..j], b);
      if 3.0 * w[j] <= best {
        LightLast(w, a, c, m, best, j, before);
      } else {
        HeavyLast(w, a, c, m, best, j, before);
        OptimalRatio(m, load, best);
      }
    }
  }

  /** The whole schedule: its makespan against the makespan of any other assignment. */
  lemma MakespanBound(w: seq<real>, a: seq<nat>, c: seq<nat>, m: nat)
    requires m > 0 && |c| == |w|
    requires NonNegative(w) && Descending(w) && IsGreedy(w, a, m) && Assigns(c, m)
    ensures WithinRatio(m, Makespan(w, a, m), Makespan(w, c, m))
  {
    MakespanBounds(w, a, m);
    MakespanBounds(w, c, m);
    var b: nat :| b < m && Load(w, a, b) == Makespan(w, a, m);
    BucketBound(w, a, c, m, b, Makespan(w, a, m), Makespan(w, c, m));
  }
}
