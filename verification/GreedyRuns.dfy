/** What any two greedy runs share, and when a greedy run leaves no bucket empty. */
module GreedyRuns {
  import opened Scheduling
  import opened Sorting
  import opened GrahamBound

  // ----- ties do not matter: all greedy runs end with the same bucket keys

  /** The keys of the first `m` buckets, as a multiset. */
  function Keys(w: seq<real>, a: seq<nat>, m: nat): multiset<Key>
    requires |w| == |a|
  {
    if m == 0 then multiset{} else Keys(w, a, m - 1) + multiset{KeyOf(w, a, m - 1)}
  }

  /** A least key of a multiset of keys. */
  predicate LeastKey(keys: multiset<Key>, x: Key) {
    x in keys && forall y | y in keys :: !KeyLess(y, x)
  }

  lemma {:induction false} KeysMembers(w: seq<real>, a: seq<nat>, m: nat)
    requires |w| == |a|
    ensures forall b: nat | b < m :: KeyOf(w, a, b) in Keys(w, a, m)
    ensures forall x | x in Keys(w, a, m) :: exists b: nat :: b < m && KeyOf(w, a, b) == x
  {
    if m > 0 {
      KeysMembers(w, a, m - 1);
      forall x | x in Keys(w, a, m) ensures exists b: nat :: b < m && KeyOf(w, a, b) == x {
        if x in Keys(w, a, m - 1) {
          var b: nat :| b < m - 1 && KeyOf(w, a, b) == x;
          assert b < m;
        } else {
          assert KeyOf(w, a, m - 1) == x;
        }
      }
    }
  }

  /** A bucket's key after one more job of weight `x`. */
  function Heavier(k: Key, x: real): Key {
    Key(k.weight + x, k.count + 1)
  }

  lemma {:induction false} KeysElsewhere(w: seq<real>, a: seq<nat>, m: nat)
    requires |w| == |a| && a != [] && m <= a[|a| - 1]
    ensures Keys(w, a, m) == Keys(w[..|w| - 1], a[..|a| - 1], m)
  {
    if m > 0 {
      KeysElsewhere(w, a, m - 1);
    }
  }

  /** Placing one job replaces one key. */
  lemma {:induction false} KeysSnoc(w: seq<real>, a: seq<nat>, m: nat, before: Key)
    requires |w| == |a| && a != [] && a[|a| - 1] < m
    requires before == KeyOf(w[..|w| - 1], a[..|a| - 1], a[|a| - 1])
    ensures Keys(w, a, m) + multiset{before} == Keys(w[..|w| - 1], a[..|a| - 1], m)
      + multiset{Heavier(before, w[|w| - 1])}
  {
    var w', a' := w[..|w| - 1], a[..|a| - 1];
    if a[|a| - 1] == m - 1 {
      KeysElsewhere(w, a, m - 1);
      assert KeyOf(w, a, m - 1) == Heavier(before, w[|w| - 1]);
    } else {
      KeysSnoc(w, a, m - 1, before);
      assert KeyOf(w, a, m - 1) == KeyOf(w', a', m - 1);
      AddBoth(Keys(w, a, m - 1), Keys(w', a', m - 1), before, Heavier(before, w[|w| - 1]), KeyOf(w, a, m - 1));
    }
  }

  lemma AddBoth(x: multiset<Key>, y: multiset<Key>, b: Key, c: Key, k: Key)
    requires x + multiset{b} == y + multiset{c}
    ensures x + multiset{k} + multiset{b} == y + multiset{k} + multiset{c}
  {
    assert x + multiset{k} + multiset{b} == (x + multiset{b}) + multiset{k};
    assert y + multiset{k} + multiset{c} == (y + multiset{c}) + multiset{k};
  }

  lemma GreedyInit(w: seq<real>, a: seq<nat>, m: nat)
    requires IsGreedy(w, a, m) && a != []
    ensures IsGreedy(w[..|w| - 1], a[..|a| - 1], m)
    ensures a[|a| - 1] < m
    ensures LeastKey(Keys(w[..|w| - 1], a[..|a| - 1], m), KeyOf(w[..|w| - 1], a[..|a| - 1], a[|a| - 1]))
  {
    var w', a', n := w[..|w| - 1], a[..|a| - 1], |a| - 1;
    forall k | 0 <= k < n ensures GreedyStep(w', a', m, k) {
      assert GreedyStep(w, a, m, k);
      assert w'[..k] == w[..k] && a'[..k] == a[..k];
    }
    assert GreedyStep(w, a, m, n);
    KeysMembers(w', a', m);
  }

  lemma LeastKeyUnique(keys: multiset<Key>, x: Key, y: Key)
    requires LeastKey(keys, x) && LeastKey(keys, y)
    ensures x == y
  {
    assert !KeyLess(x, y) && !KeyLess(y, x);
  }

  /** However ties are broken, a greedy run ends with the same weights and counts. */
  lemma {:induction false} SameKeys(w: seq<real>, a: seq<nat>, c: seq<nat>, m: nat)
    requires IsGreedy(w, a, m) && IsGreedy(w, c, m)
    ensures Keys(w, a, m) == Keys(w, c, m)
    decreases |w|
  {
    if w == [] {
      assert a == [] && c == [];
    } else {
      var w', a', c' := w[..|w| - 1], a[..|a| - 1], c[..|c| - 1];
      GreedyInit(w, a, m);
      GreedyInit(w, c, m);
      SameKeys(w', a', c', m);
      var before := KeyOf(w', a', a[|a| - 1]);
      LeastKeyUnique(Keys(w', a', m), before, KeyOf(w', c', c[|c| - 1]));
      KeysSnoc(w, a, m, before);
      KeysSnoc(w, c, m, before);
      CancelOne(Keys(w, a, m), Keys(w, c, m), before);
    }
  }

  // ----- empty buckets

  predicate NoneEmpty(a: seq<nat>, m: nat) {
    forall b: nat | b < m :: Count(a, b) > 0
  }

  /** Fewer jobs than buckets leave one empty. */
  lemma {:induction false} SumAtLeast(a: seq<nat>, m: nat)
    requires NoneEmpty(a, m)
    ensures SumCounts(a, m) >= m
  {
    if m > 0 {
      SumAtLeast(a, m - 1);
    }
  }

  lemma SomeEmpty(a: seq<nat>, m: nat) returns (b: nat)
    requires Assigns(a, m) && |a| < m
    ensures b < m && Count(a, b) == 0
  {
    CountsConserved(a, m);
    if NoneEmpty(a, m) {
      SumAtLeast(a, m);
    }
    b :| b < m && Count(a, b) == 0;
  }

  lemma {:induction false} CountPrefix(a: seq<nat>, b: nat, k: nat)
    requires k <= |a|
    ensures Count(a[..k], b) <= Count(a, b)
    decreases |a|
  {
    if k < |a| {
      CountPrefix(a[..|a| - 1], b, k);
      assert a[..|a| - 1][..k] == a[..k];
    } else {
      assert a[..k] == a;
    }
  }

  /** While fewer than `m` nonnegative jobs are placed, the next one opens an empty bucket. */
  lemma OpensEmpty(w: seq<real>, a: seq<nat>, m: nat, k: nat)
    requires IsGreedy(w, a, m) && k < |w| && k < m && NonNegative(w[..k])
    ensures Count(a[..k], a[k]) == 0
  {
    GreedyAssigns(w, a, m);
    var b := SomeEmpty(a[..k], m);
    EmptyBucket(w[..k], a[..k], b);
    assert GreedyStep(w, a, m, k);
    assert !KeyLess(KeyOf(w[..k], a[..k], b), KeyOf(w[..k], a[..k], a[k]));
    PrefixLoad(w[..k], a[..k], a[k], k);
    assert w[..k][..k] == w[..k] && a[..k][..k] == a[..k];
  }

  /** The empty buckets among the first `m`. */
  function Empties(a: seq<nat>, m: nat): set<nat> {
    set b: nat | b < m && Count(a, b) == 0
  }

  lemma {:induction m} AllEmpty(m: nat)
    ensures |Empties([], m)| == m
  {
    if m > 0 {
      AllEmpty(m - 1);
      assert Empties([], m) == Empties([], m - 1) + {m - 1};
    } else {
      assert Empties([], 0) == {};
    }
  }

  /** Each of the first `k` jobs filled a bucket of its own. */
  lemma {:induction false} Spread(w: seq<real>, a: seq<nat>, m: nat, k: nat)
    requires IsGreedy(w, a, m) && k <= |w| && k <= m && (k > 0 ==> NonNegative(w[..k - 1]))
    ensures |Empties(a[..k], m)| == m - k
  {
    if k == 0 {
      AllEmpty(m);
      assert a[..0] == [];
    } else {
      assert k > 1 ==> w[..k - 2] == w[..k - 1][..k - 2];
      Spread(w, a, m, k - 1);
      OpensEmpty(w, a, m, k - 1);
      GreedyAssigns(w, a, m);
      assert a[..k] == a[..k - 1] + [a[k - 1]] && a[..k][..k - 1] == a[..k - 1];
      assert Empties(a[..k], m) == Empties(a[..k - 1], m) - {a[k - 1]};
    }
  }

  /** Enough files, all but one of them not negative: every bucket gets one. */
  lemma EnoughFillsAll(w: seq<real>, a: seq<nat>, m: nat)
    requires m > 0 && IsGreedy(w, a, m)
    requires |w| >= m && NonNegative(w[..m - 1])
    ensures NoneEmpty(a, m)
  {
    Spread(w, a, m, m);
    forall b: nat | b < m ensures Count(a, b) > 0 {
      assert b !in Empties(a[..m], m);
      CountPrefix(a, b, m);
    }
  }

  /** From the first negative job on, every job goes to the bucket that one opened. */
  lemma {:induction false} NegativeSink(w: seq<real>, a: seq<nat>, m: nat, q: nat, k: nat)
    requires IsGreedy(w, a, m) && Descending(w) && q < |w| && q < m && q < k <= |w|
    requires NonNegative(w[..q]) && w[q] < 0.0
    ensures Load(w[..k], a[..k], a[q]) < 0.0
    ensures forall b: nat | b != a[q] :: Load(w[..k], a[..k], b) >= 0.0
    ensures forall b: nat | b != a[q] :: Count(a[..k], b) == Count(a[..q], b)
  {
    var w', a' := w[..k - 1], a[..k - 1];
    assert w[..k][..k - 1] == w' && a[..k][..k - 1] == a';
    if k == q + 1 {
      OpensEmpty(w, a, m, q);
      EmptyBucket(w', a', a[q]);
      forall b: nat | b != a[q] ensures Load(w[..k], a[..k], b) >= 0.0 {
        PrefixLoad(w', a', b, q);
        assert w'[..q] == w' && a'[..q] == a';
      }
    } else {
      NegativeSink(w, a, m, q, k - 1);
      assert GreedyStep(w, a, m, k - 1) && GreedyStep(w, a, m, q);
      assert !KeyLess(KeyOf(w', a', a[q]), KeyOf(w', a', a[k - 1]));
      assert a[k - 1] == a[q];
      assert w[k - 1] <= w[q];
    }
  }

  lemma FirstNegative(w: seq<real>, n: nat) returns (q: nat)
    requires n <= |w| && !NonNegative(w[..n])
    ensures q < n && NonNegative(w[..q]) && w[q] < 0.0
  {
    q := 0;
    while w[q] >= 0.0
      invariant q < n && forall i | 0 <= i < q :: w[i] >= 0.0
      invariant exists i | 0 <= i < n :: w[i] < 0.0
      decreases n - q
    {
      q := q + 1;
      if q == n {
        var i :| 0 <= i < n && w[i] < 0.0;
        assert false;
      }
    }
  }

  /**
   * Exactly when a greedy run over descending weights, negative ones included, fills every bucket:
   * there are at least `m` jobs, and the `m - 1` heaviest of them are not negative.
   */
  lemma NoneEmptyIff(w: seq<real>, a: seq<nat>, m: nat)
    requires m > 0 && IsGreedy(w, a, m) && Descending(w)
    ensures NoneEmpty(a, m) <==> |w| >= m && NonNegative(w[..m - 1])
  {
    GreedyAssigns(w, a, m);
    if |w| < m {
      var b := SomeEmpty(a, m);
    } else if NonNegative(w[..m - 1]) {
      EnoughFillsAll(w, a, m);
    } else {
      var q := FirstNegative(w, m - 1);
      var b := SomeEmpty(a[..q + 1], m);
      CountPositive(a[..q + 1], q);
      NegativeSink(w, a, m, q, |w|);
      CountPrefix(a[..q + 1], b, q);
      assert a[..|w|] == a && w[..|w|] == w && a[..q + 1][..q] == a[..q];
    }
  }
}
