/** What the assignment promises about files, weights, balance and empty partitions. */
module PartitionLaws {
  import opened Sorting
  import opened Scheduling
  import opened GrahamBound
  import opened GreedyRuns
  import opened CoveragePartitions

  /** Sum of a partition's file weights: the recorded durations, and 1 for a file without one. */
  function PartitionWeight(files: seq<File>, weights: map<File, real>): real {
    if files == [] then 0.0
    else
      var file := files[|files| - 1];
      PartitionWeight(files[..|files| - 1], weights) + if file in weights then weights[file] else 1.0
  }

  /** All files of all partitions. */
  function Total(parts: seq<seq<File>>): multiset<File> {
    if parts == [] then multiset{} else Total(parts[..|parts| - 1]) + multiset(parts[|parts| - 1])
  }

  predicate Weighed(jobs: seq<Weighted>, weights: map<File, real>) {
    forall i | 0 <= i < |jobs| ::
      if jobs[i].file in weights then jobs[i].weight == weights[jobs[i].file] else jobs[i].weight == 1.0
  }

  function FilesOf(jobs: seq<Weighted>): (r: seq<File>)
    ensures |r| == |jobs| && forall i | 0 <= i < |jobs| :: r[i] == jobs[i].file
  {
    seq(|jobs|, i requires 0 <= i < |jobs| => jobs[i].file)
  }

  // ----- the placing order is a descending permutation of the files

  lemma {:induction false} FilesOfJobs(files: seq<File>, weights: map<File, real>)
    ensures FilesOf(Jobs(files, weights)) == files
  {
  }

  lemma {:induction false} SameFiles(a: seq<Weighted>, b: seq<Weighted>)
    requires multiset(a) == multiset(b)
    ensures multiset(FilesOf(a)) == multiset(FilesOf(b))
    decreases |a|
  {
    if a == [] {
      assert b == [] && FilesOf(a) == FilesOf(b);
    } else {
      var n := |a| - 1;
      var k := TakeLast(a, b);
      SameFiles(a[..n], RemoveAt(b, k));
      assert FilesOf(RemoveAt(b, k)) == RemoveAt(FilesOf(b), k);
      RemoveAtCounts(FilesOf(b), k);
      assert FilesOf(a)[..n] == FilesOf(a[..n]);
      LastCounts(FilesOf(a));
    }
  }

  lemma OrderFacts(files: seq<File>, weights: map<File, real>, locale: (string, string) -> int)
    requires ConsistentLocale(locale)
    ensures var jobs := PlacingOrder(files, weights, locale);
            Weighed(jobs, weights) && multiset(FilesOf(jobs)) == multiset(files) && Descending(Weights(jobs))
            && forall i, j | 0 <= i < j < |jobs| && jobs[i].weight == jobs[j].weight ::
                locale(jobs[i].file, jobs[j].file) <= 0
  {
    var plain := Jobs(files, weights);
    var jobs := PlacingOrder(files, weights, locale);
    WeightedPreorder(locale);
    SortSorted(WeightedLe(locale), plain);
    SameElems(jobs, plain);
    SameFiles(jobs, plain);
    FilesOfJobs(files, weights);
    forall i | 0 <= i < |jobs|
      ensures if jobs[i].file in weights then jobs[i].weight == weights[jobs[i].file] else jobs[i].weight == 1.0
    {
      assert jobs[i] in plain;
    }
    forall i, j | 0 <= i <= j < |jobs| ensures Weights(jobs)[i] >= Weights(jobs)[j] {
      assert i < j ==> WeightedLe(locale)(jobs[i], jobs[j]);
    }
    forall i, j | 0 <= i < j < |jobs| && jobs[i].weight == jobs[j].weight
      ensures locale(jobs[i].file, jobs[j].file) <= 0
    {
      assert WeightedLe(locale)(jobs[i], jobs[j]);
    }
  }

  // ----- conservation

  /** A bucket's running sum is the weight of its files. */
  lemma {:induction false} LoadIsWeight(jobs: seq<Weighted>, choice: seq<nat>, b: nat, weights: map<File, real>)
    requires |jobs| == |choice| && Weighed(jobs, weights)
    ensures Load(Weights(jobs), choice, b) == PartitionWeight(Pick(jobs, choice, b), weights)
    decreases |jobs|
  {
    if jobs != [] {
      var n := |jobs| - 1;
      LoadIsWeight(jobs[..n], choice[..n], b, weights);
      assert Weights(jobs)[..n] == Weights(jobs[..n]);
      var p := Pick(jobs[..n], choice[..n], b);
      assert p + [] == p && (p + [jobs[n].file])[..|p|] == p;
    }
  }

  /** All files of the first `m` bags. */
  function SumBags(bags: nat -> multiset<File>, m: nat): multiset<File> {
    if m == 0 then multiset{} else SumBags(bags, m - 1) + bags(m - 1)
  }

  lemma {:induction false} SumBagsUpdate(f: nat -> multiset<File>, g: nat -> multiset<File>, m: nat, t: nat, x: File)
    requires forall b: nat | b != t :: g(b) == f(b)
    requires g(t) == f(t) + multiset{x}
    ensures SumBags(g, m) == if t < m then SumBags(f, m) + multiset{x} else SumBags(f, m)
  {
    if m > 0 {
      SumBagsUpdate(f, g, m - 1, t, x);
      if t < m - 1 {
        assert g(m - 1) == f(m - 1);
      }
    }
  }

  lemma {:induction m} SumNoBags(f: nat -> multiset<File>, m: nat)
    requires forall b: nat :: f(b) == multiset{}
    ensures SumBags(f, m) == multiset{}
  {
  }

  function Bags(jobs: seq<Weighted>, choice: seq<nat>): nat -> multiset<File>
    requires |jobs| == |choice|
  {
    (b: nat) => multiset(Pick(jobs, choice, b))
  }

  lemma PickLast(jobs: seq<Weighted>, choice: seq<nat>, b: nat, n: nat)
    requires |jobs| == |choice| == n + 1
    ensures
      choice[n] == b ==>
        multiset(Pick(jobs, choice, b)) == multiset(Pick(jobs[..n], choice[..n], b)) + multiset{jobs[n].file}
    ensures choice[n] != b ==> Pick(jobs, choice, b) == Pick(jobs[..n], choice[..n], b)
  {
    var p := Pick(jobs[..n], choice[..n], b);
    assert multiset(p + [jobs[n].file]) == multiset(p) + multiset{jobs[n].file} && p + [] == p;
  }

  lemma {:induction false} PicksConserve(jobs: seq<Weighted>, choice: seq<nat>, m: nat)
    requires |jobs| == |choice| && Assigns(choice, m)
    ensures SumBags(Bags(jobs, choice), m) == multiset(FilesOf(jobs))
    decreases |jobs|
  {
    if jobs == [] {
      NoBags(jobs, choice, m);
    } else {
      var n := |jobs| - 1;
      PicksConserve(jobs[..n], choice[..n], m);
      LastBag(jobs, choice, m, n);
      FilesLast(jobs, n);
    }
  }

  lemma FilesLast(jobs: seq<Weighted>, n: nat)
    requires |jobs| == n + 1
    ensures multiset(FilesOf(jobs)) == multiset(FilesOf(jobs[..n])) + multiset{jobs[n].file}
  {
    assert FilesOf(jobs)[..n] == FilesOf(jobs[..n]);
    LastCounts(FilesOf(jobs));
  }

  lemma NoBags(jobs: seq<Weighted>, choice: seq<nat>, m: nat)
    requires jobs == [] && choice == []
    ensures SumBags(Bags(jobs, choice), m) == multiset(FilesOf(jobs))
  {
    SumNoBags(Bags(jobs, choice), m);
  }

  lemma LastBag(jobs: seq<Weighted>, choice: seq<nat>, m: nat, n: nat)
    requires |jobs| == |choice| == n + 1 && choice[n] < m
    ensures SumBags(Bags(jobs, choice), m) == SumBags(Bags(jobs[..n], choice[..n]), m) + multiset{jobs[n].file}
  {
    var f, g := Bags(jobs[..n], choice[..n]), Bags(jobs, choice);
    forall b: nat ensures g(b) == if b == choice[n] then f(b) + multiset{jobs[n].file} else f(b) {
      PickLast(jobs, choice, b, n);
    }
    SumBagsUpdate(f, g, m, choice[n], jobs[n].file);
  }

  lemma {:induction false} TotalOfPicks(bags: nat -> multiset<File>, r: seq<seq<File>>)
    requires forall b: nat | b < |r| :: multiset(r[b]) == bags(b)
    ensures Total(r) == SumBags(bags, |r|)
  {
    if r != [] {
      TotalOfPicks(bags, r[..|r| - 1]);
    }
  }

  /** Every file is placed exactly as often as it was given. */
  lemma FilesConserved(files: seq<File>, weights: map<File, real>, locale: (string, string) -> int,
                       choice: seq<nat>, r: seq<seq<File>>)
    requires ConsistentLocale(locale) && GreedyPartitions(PlacingOrder(files, weights, locale), choice, r)
    ensures Total(r) == multiset(files)
  {
    var jobs := PlacingOrder(files, weights, locale);
    OrderFacts(files, weights, locale);
    GreedyAssigns(Weights(jobs), choice, |r|);
    PicksConserve(jobs, choice, |r|);
    TotalOfPicks(Bags(jobs, choice), r);
  }

  // ----- balance

  lemma {:induction false} WeightOfRemoval(a: seq<File>, k: nat, weights: map<File, real>)
    requires k < |a|
    ensures PartitionWeight(a, weights) == PartitionWeight(RemoveAt(a, k), weights) + WeightOf(weights, a[k])
  {
    var n := |a| - 1;
    var c := RemoveAt(a, k);
    if k == n {
      assert c == a[..n];
    } else {
      WeightOfRemoval(a[..n], k, weights);
      assert RemoveAt(a[..n], k) == c[..n - 1];
    }
  }

  lemma {:induction false} SameWeight(a: seq<File>, b: seq<File>, weights: map<File, real>)
    requires multiset(a) == multiset(b)
    ensures PartitionWeight(a, weights) == PartitionWeight(b, weights)
    decreases |a|
  {
    if a != [] {
      var k := TakeLast(a, b);
      SameWeight(a[..|a| - 1], RemoveAt(b, k), weights);
      WeightOfRemoval(b, k, weights);
    }
  }

  lemma {:induction false} TotalMember(parts: seq<seq<File>>, f: File) returns (b: nat)
    requires f in Total(parts)
    ensures b < |parts| && f in parts[b]
  {
    var n := |parts| - 1;
    if f in parts[n] {
      b := n;
    } else {
      b := TotalMember(parts[..n], f);
    }
  }

  lemma {:induction false} TotalUpdate(parts: seq<seq<File>>, b: nat, smaller: seq<File>, f: File)
    requires b < |parts| && multiset(parts[b]) == multiset(smaller) + multiset{f}
    ensures Total(parts) == Total(parts[b := smaller]) + multiset{f}
  {
    var n := |parts| - 1;
    var t := parts[b := smaller];
    if b == n {
      assert t[..n] == parts[..n];
    } else {
      TotalUpdate(parts[..n], b, smaller, f);
      assert t[..n] == parts[..n][b := smaller];
    }
  }

  /** `c` sends every job to a partition of `other` that holds its file. */
  ghost predicate Follows(jobs: seq<Weighted>, c: seq<nat>, other: seq<seq<File>>) {
    && |c| == |jobs| && Assigns(c, |other|)
    && forall b | 0 <= b < |other| :: multiset(Pick(jobs, c, b)) == multiset(other[b])
  }

  /** Any other way to split the files is an assignment of the same jobs. */
  lemma {:induction false} AssignmentOf(jobs: seq<Weighted>, other: seq<seq<File>>) returns (c: seq<nat>)
    requires Total(other) == multiset(FilesOf(jobs))
    ensures Follows(jobs, c, other)
    decreases |jobs|
  {
    if jobs == [] {
      c := [];
      forall b | 0 <= b < |other| ensures other[b] == [] {
        EmptyTotal(other, b);
      }
    } else {
      var b0, smaller := PeelLast(jobs, other);
      c := AssignmentOf(jobs[..|jobs| - 1], other[b0 := smaller]);
      FollowsLast(jobs, c, b0, smaller, other);
      c := c + [b0];
    }
  }

  lemma FollowsLast(jobs: seq<Weighted>, c: seq<nat>, b0: nat, smaller: seq<File>, other: seq<seq<File>>)
    requires jobs != [] && b0 < |other| && Follows(jobs[..|jobs| - 1], c, other[b0 := smaller])
    requires multiset(other[b0]) == multiset(smaller) + multiset{jobs[|jobs| - 1].file}
    ensures Follows(jobs, c + [b0], other)
  {
    forall b | 0 <= b < |other| ensures multiset(Pick(jobs, c + [b0], b)) == multiset(other[b]) {
      PickPeeled(jobs, c, b, b0, smaller, other);
    }
  }

  lemma PickPeeled(jobs: seq<Weighted>, c: seq<nat>, b: nat, b0: nat, smaller: seq<File>, other: seq<seq<File>>)
    requires |jobs| == |c| + 1 && b < |other| && b0 < |other|
    requires multiset(other[b0]) == multiset(smaller) + multiset{jobs[|c|].file}
    requires multiset(Pick(jobs[..|c|], c, b)) == multiset(other[b0 := smaller][b])
    ensures multiset(Pick(jobs, c + [b0], b)) == multiset(other[b])
  {
    assert (c + [b0])[..|c|] == c;
    PickLast(jobs, c + [b0], b, |c|);
  }

  /** A partition that holds the last job's file, and what is left of it without that file. */
  lemma PeelLast(jobs: seq<Weighted>, other: seq<seq<File>>) returns (b: nat, smaller: seq<File>)
    requires jobs != [] && Total(other) == multiset(FilesOf(jobs))
    ensures b < |other| && multiset(other[b]) == multiset(smaller) + multiset{jobs[|jobs| - 1].file}
    ensures Total(other[b := smaller]) == multiset(FilesOf(jobs[..|jobs| - 1]))
  {
    var n := |jobs| - 1;
    var f := jobs[n].file;
    FilesLast(jobs, n);
    b := TotalMember(other, f);
    var k :| 0 <= k < |other[b]| && other[b][k] == f;
    smaller := RemoveAt(other[b], k);
    RemoveAtCounts(other[b], k);
    TotalUpdate(other, b, smaller, f);
    CancelOne(Total(other[b := smaller]), multiset(FilesOf(jobs[..n])), f);
  }

  lemma {:induction false} EmptyTotal(parts: seq<seq<File>>, b: nat)
    requires Total(parts) == multiset{} && b < |parts|
    ensures parts[b] == []
  {
    var n := |parts| - 1;
    assert |Total(parts)| == |Total(parts[..n])| + |parts[n]|;
    if b < n {
      EmptyTotal(parts[..n], b);
    }
  }

  lemma NonNegativeOrder(files: seq<File>, weights: map<File, real>, locale: (string, string) -> int)
    requires ConsistentLocale(locale) && forall f | f in files && f in weights :: weights[f] >= 0.0
    ensures forall i | 0 <= i < |PlacingOrder(files, weights, locale)| ::
              Weights(PlacingOrder(files, weights, locale))[i] >= 0.0
  {
    var jobs := PlacingOrder(files, weights, locale);
    OrderFacts(files, weights, locale);
    SameElems(FilesOf(jobs), files);
    forall i | 0 <= i < |jobs| ensures Weights(jobs)[i] >= 0.0 {
      assert FilesOf(jobs)[i] in files;
    }
  }

  lemma BalancedWithin(files: seq<File>, weights: map<File, real>, locale: (string, string) -> int,
                       choice: seq<nat>, r: seq<seq<File>>, other: seq<seq<File>>, b: nat, best: real)
    requires ConsistentLocale(locale) && GreedyPartitions(PlacingOrder(files, weights, locale), choice, r)
    requires forall f | f in files && f in weights :: weights[f] >= 0.0
    requires |other| == |r| && Total(other) == multiset(files)
    requires forall d | 0 <= d < |other| :: PartitionWeight(other[d], weights) <= best
    requires b < |r|
    ensures WithinRatio(|r|, PartitionWeight(r[b], weights), best)
  {
    var jobs := PlacingOrder(files, weights, locale);
    OrderFacts(files, weights, locale);
    var c := AssignmentOf(jobs, other);
    forall d: nat | d < |r| ensures Load(Weights(jobs), c, d) <= best {
      LoadIsWeight(jobs, c, d, weights);
      SameWeight(Pick(jobs, c, d), other[d], weights);
    }
    LoadIsWeight(jobs, choice, b, weights);
    NonNegativeOrder(files, weights, locale);
    BucketBound(Weights(jobs), choice, c, |r|, b, PartitionWeight(r[b], weights), best);
  }

  lemma RatioMeans(m: nat, load: real, best: real)
    requires WithinRatio(m, load, best)
    ensures 3.0 * m as real * load <= (4.0 * m as real - 1.0) * best
  {
  }

  /**
   * No partition is heavier than 4/3 - 1/(3m) of the heaviest partition of any other way to
   * split the same files into as many partitions, when no file has a negative weight.
   */
  lemma WithinRatioOfBest(files: seq<File>, weights: map<File, real>, locale: (string, string) -> int,
                          choice: seq<nat>, r: seq<seq<File>>, other: seq<seq<File>>, load: real, best: real)
    requires ConsistentLocale(locale) && GreedyPartitions(PlacingOrder(files, weights, locale), choice, r)
    requires forall f | f in files && f in weights :: weights[f] >= 0.0
    requires |other| == |r| && Total(other) == multiset(files)
    requires forall d | 0 <= d < |other| :: PartitionWeight(other[d], weights) <= best
    requires exists b :: 0 <= b < |r| && PartitionWeight(r[b], weights) == load
    ensures 3.0 * |r| as real * load <= (4.0 * |r| as real - 1.0) * best
  {
    var b :| 0 <= b < |r| && PartitionWeight(r[b], weights) == load;
    BalancedWithin(files, weights, locale, choice, r, other, b, best);
    RatioMeans(|r|, load, best);
  }

  // ----- empty partitions

  /** How many of the files have no negative duration recorded. */
  function NonNegatives(files: seq<File>, weights: map<File, real>): nat {
    if files == [] then 0
    else
      var file := files[|files| - 1];
      NonNegatives(files[..|files| - 1], weights) + if file in weights && weights[file] < 0.0 then 0 else 1
  }

  lemma {:induction false} NonNegativesRemoval(a: seq<File>, k: nat, weights: map<File, real>)
    requires k < |a|
    ensures NonNegatives(a, weights) == NonNegatives(RemoveAt(a, k), weights)
      + if WeightOf(weights, a[k]) >= 0.0 then 1 else 0
  {
    var n := |a| - 1;
    var c := RemoveAt(a, k);
    if k == n {
      assert c == a[..n];
    } else {
      NonNegativesRemoval(a[..n], k, weights);
      assert RemoveAt(a[..n], k) == c[..n - 1];
    }
  }

  lemma {:induction false} SameNonNegatives(a: seq<File>, b: seq<File>, weights: map<File, real>)
    requires multiset(a) == multiset(b)
    ensures NonNegatives(a, weights) == NonNegatives(b, weights)
    decreases |a|
  {
    if a != [] {
      var k := TakeLast(a, b);
      SameNonNegatives(a[..|a| - 1], RemoveAt(b, k), weights);
      NonNegativesRemoval(b, k, weights);
    }
  }

  /** In descending order the nonnegative weights come first. */
  /** How many of the weights are not negative. */
  function NonNegativeCount(w: seq<real>): nat {
    if w == [] then 0 else NonNegativeCount(w[..|w| - 1]) + if w[|w| - 1] >= 0.0 then 1 else 0
  }

  lemma {:induction false} CountOfJobs(jobs: seq<Weighted>, weights: map<File, real>)
    requires Weighed(jobs, weights)
    ensures NonNegatives(FilesOf(jobs), weights) == NonNegativeCount(Weights(jobs))
    decreases |jobs|
  {
    if jobs != [] {
      var n := |jobs| - 1;
      assert FilesOf(jobs)[..n] == FilesOf(jobs[..n]) && Weights(jobs)[..n] == Weights(jobs[..n]);
      CountOfJobs(jobs[..n], weights);
    }
  }

  /** In descending order a last weight that is not negative makes every prefix so. */
  lemma LastNonNegative(w: seq<real>, q: nat)
    requires Descending(w) && w != [] && q <= |w| && w[|w| - 1] >= 0.0
    ensures NonNegative(w[..q])
  {
    forall i | 0 <= i < q ensures w[..q][i] >= 0.0 {
      assert w[i] >= w[|w| - 1];
    }
  }

  /** In descending order the weights that are not negative come first. */
  lemma {:induction false} CountIsPrefix(w: seq<real>, q: nat)
    requires Descending(w) && q <= |w|
    ensures NonNegative(w[..q]) <==> NonNegativeCount(w) >= q
    ensures NonNegativeCount(w) <= |w|
    decreases |w|
  {
    if w != [] {
      var n := |w| - 1;
      CountIsPrefix(w[..n], if q <= n then q else n);
      if w[n] >= 0.0 {
        LastNonNegative(w, q);
        LastNonNegative(w, n);
        assert w[..n][..n] == w[..n];
      } else if q <= n {
        assert w[..n][..q] == w[..q];
      } else {
        assert w[..q][n] < 0.0;
      }
    }
  }

  lemma NonNegativePrefix(jobs: seq<Weighted>, weights: map<File, real>, q: nat)
    requires Weighed(jobs, weights) && Descending(Weights(jobs)) && q <= |jobs|
    ensures NonNegative(Weights(jobs)[..q]) <==> NonNegatives(FilesOf(jobs), weights) >= q
  {
    CountOfJobs(jobs, weights);
    CountIsPrefix(Weights(jobs), q);
  }

  /**
   * Exactly when no partition is left empty: there are at least as many files as partitions m,
   * and at least m - 1 of them have a weight that is not negative.
   */
  lemma NonEmptyIff(files: seq<File>, weights: map<File, real>, locale: (string, string) -> int,
                    choice: seq<nat>, r: seq<seq<File>>)
    requires ConsistentLocale(locale) && GreedyPartitions(PlacingOrder(files, weights, locale), choice, r) && r != []
    ensures (forall b | 0 <= b < |r| :: r[b] != [])
       <==> |files| >= |r| && NonNegatives(files, weights) >= |r| - 1
  {
    var jobs := PlacingOrder(files, weights, locale);
    OrderFacts(files, weights, locale);
    NoneEmptyJobs(jobs, weights, choice, |r|);
    SameNonNegatives(FilesOf(jobs), files, weights);
    NoneEmptyLists(jobs, choice, r);
  }

  /** One file cannot fill two partitions. */
  lemma FewFilesLeaveEmpty(file: File, weights: map<File, real>, locale: (string, string) -> int,
                           choice: seq<nat>, r: seq<seq<File>>)
    requires ConsistentLocale(locale) && GreedyPartitions(PlacingOrder([file], weights, locale), choice, r) && |r| == 2
    ensures r[0] == [] || r[1] == []
  {
    NonEmptyIff([file], weights, locale, choice, r);
  }

  lemma BothNegative(a: File, b: File, weights: map<File, real>)
    requires WeightOf(weights, a) < 0.0 && WeightOf(weights, b) < 0.0
    ensures NonNegatives([a, b], weights) == 0
  {
    assert [a, b][..1] == [a] && [a][..0] == [];
    assert NonNegatives([a], weights) == 0;
  }

  /** Nor do two files whose recorded durations are negative: both go to the same one. */
  lemma NegativeDurationsLeaveEmpty(a: File, b: File, weights: map<File, real>, locale: (string, string) -> int,
                                    choice: seq<nat>, r: seq<seq<File>>)
    requires a in weights && b in weights && weights[a] == -1.0 && weights[b] == -1.0
    requires ConsistentLocale(locale) && GreedyPartitions(PlacingOrder([a, b], weights, locale), choice, r) && |r| == 2
    ensures r[0] == [] || r[1] == []
  {
    NonEmptyIff([a, b], weights, locale, choice, r);
    BothNegative(a, b, weights);
  }

  lemma NoneEmptyJobs(jobs: seq<Weighted>, weights: map<File, real>, choice: seq<nat>, m: nat)
    requires Weighed(jobs, weights) && Descending(Weights(jobs)) && m > 0 && IsGreedy(Weights(jobs), choice, m)
    ensures NoneEmpty(choice, m) <==> |jobs| >= m && NonNegatives(FilesOf(jobs), weights) >= m - 1
  {
    NoneEmptyIff(Weights(jobs), choice, m);
    if |jobs| >= m {
      NonNegativePrefix(jobs, weights, m - 1);
    }
  }

  lemma NoneEmptyLists(jobs: seq<Weighted>, choice: seq<nat>, r: seq<seq<File>>)
    requires |jobs| == |choice| && forall b | 0 <= b < |r| :: r[b] == Pick(jobs, choice, b)
    ensures NoneEmpty(choice, |r|) <==> forall b | 0 <= b < |r| :: r[b] != []
  {
    assert forall b: nat | b < |r| :: |r[b]| == Count(choice, b);
  }

  // ----- the rule of placing, told by recorded durations alone

  /** The files of the order that `choice` sends to partition `b`, in order. */
  function Sent(order: seq<File>, choice: seq<nat>, b: nat): seq<File>
    requires |order| == |choice|
  {
    if order == [] then []
    else
      var n := |order| - 1;
      Sent(order[..n], choice[..n], b) + if choice[n] == b then [order[n]] else []
  }

  /**
   * `f` may be placed before `g`: its duration is longer, or the same and the names decide. A file without a
   * recorded duration counts 1.
   */
  ghost predicate PlacedBefore(weights: map<File, real>, locale: (string, string) -> int, f: File, g: File) {
    var v := if f in weights then weights[f] else 1.0;
    var w := if g in weights then weights[g] else 1.0;
    v > w || (v == w && locale(f, g) <= 0)
  }

  /** File `k` of the order goes to a partition that is lightest so far, and shortest among the lightest. */
  ghost predicate SentToLightest(order: seq<File>, weights: map<File, real>, choice: seq<nat>, m: nat, k: nat)
    requires |order| == |choice| && k < |order|
  {
    && choice[k] < m
    && forall b: nat | b < m ::
         var chosen, other := Sent(order[..k], choice[..k], choice[k]), Sent(order[..k], choice[..k], b);
         || PartitionWeight(chosen, weights) < PartitionWeight(other, weights)
         || (PartitionWeight(chosen, weights) == PartitionWeight(other, weights) && |chosen| <= |other|)
  }

  lemma {:induction false} SentIsPicked(jobs: seq<Weighted>, choice: seq<nat>, b: nat)
    requires |jobs| == |choice|
    ensures Sent(FilesOf(jobs), choice, b) == Pick(jobs, choice, b)
  {
    if jobs != [] {
      var n := |jobs| - 1;
      SentIsPicked(jobs[..n], choice[..n], b);
      assert FilesOf(jobs)[..n] == FilesOf(jobs[..n]);
    }
  }

  lemma GreedyIsLightest(jobs: seq<Weighted>, weights: map<File, real>, choice: seq<nat>, m: nat, k: nat)
    requires Weighed(jobs, weights) && IsGreedy(Weights(jobs), choice, m) && k < |choice|
    ensures SentToLightest(FilesOf(jobs), weights, choice, m, k)
  {
    var order, w := FilesOf(jobs), Weights(jobs);
    assert GreedyStep(w, choice, m, k);
    assert order[..k] == FilesOf(jobs[..k]) && w[..k] == Weights(jobs[..k]);
    SentKey(jobs[..k], weights, choice[..k], choice[k]);
    forall b: nat | b < m
      ensures !KeyLess(Key.Key(PartitionWeight(Sent(order[..k], choice[..k], b), weights),
                               |Sent(order[..k], choice[..k], b)|),
                       Key.Key(PartitionWeight(Sent(order[..k], choice[..k], choice[k]), weights),
                               |Sent(order[..k], choice[..k], choice[k])|))
    {
      SentKey(jobs[..k], weights, choice[..k], b);
    }
  }

  lemma SentKey(jobs: seq<Weighted>, weights: map<File, real>, choice: seq<nat>, b: nat)
    requires |jobs| == |choice| && Weighed(jobs, weights)
    ensures KeyOf(Weights(jobs), choice, b)
         == Key.Key(PartitionWeight(Sent(FilesOf(jobs), choice, b), weights), |Sent(FilesOf(jobs), choice, b)|)
  {
    SentIsPicked(jobs, choice, b);
    LoadIsWeight(jobs, choice, b, weights);
  }

  /**
   * The whole assignment: the files in an order of falling duration, each in its turn to a partition that is then
   * lightest and among those shortest.
   */
  lemma PlacedInTurn(files: seq<File>, weights: map<File, real>, locale: (string, string) -> int, choice: seq<nat>,
                     r: seq<seq<File>>) returns (order: seq<File>)
    requires ConsistentLocale(locale) && GreedyPartitions(PlacingOrder(files, weights, locale), choice, r)
    ensures multiset(order) == multiset(files) && |order| == |choice|
    ensures forall i, j | 0 <= i < j < |order| :: PlacedBefore(weights, locale, order[i], order[j])
    ensures forall k | 0 <= k < |order| :: SentToLightest(order, weights, choice, |r|, k)
    ensures forall b | 0 <= b < |r| :: r[b] == Sent(order, choice, b)
  {
    var jobs := PlacingOrder(files, weights, locale);
    order := FilesOf(jobs);
    OrderFacts(files, weights, locale);
    forall i, j | 0 <= i < j < |order| ensures PlacedBefore(weights, locale, order[i], order[j]) {
      assert Weights(jobs)[i] >= Weights(jobs)[j];
    }
    forall k | 0 <= k < |order| ensures SentToLightest(order, weights, choice, |r|, k) {
      GreedyIsLightest(jobs, weights, choice, |r|, k);
    }
    forall b | 0 <= b < |r| ensures r[b] == Sent(order, choice, b) {
      SentIsPicked(jobs, choice, b);
    }
  }
}
