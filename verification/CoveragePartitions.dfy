/** Duration-balanced assignment of test files to partitions, over an array min-heap of buckets. */
module CoveragePartitions {
  import opened Sorting
  import opened Scheduling

  type File = string

  /** Weight of a file with no recorded duration. */
  const UNKNOWN_FILE_WEIGHT := 1.0

  datatype Result = Ok(partitions: seq<seq<File>>) | HeapIndexOutOfBounds

  datatype Weighted = Weighted(file: File, weight: real)

  /** One partition under construction. */
  class Bucket {
    var sum: real
    var files: seq<File>

    constructor ()
      ensures sum == 0.0 && files == []
    {
      sum, files := 0.0, [];
    }

    ghost function Order(): Key
      reads this
    {
      Scheduling.Key.Key(sum, |files|)
    }
  }

  function WeightOf(weights: map<File, real>, file: File): real {
    if file in weights then weights[file] else UNKNOWN_FILE_WEIGHT
  }

  /** Heavier first; equal weights by name. */
  function WeightedLe(locale: (string, string) -> int): (Weighted, Weighted) -> bool {
    (a: Weighted, b: Weighted) => b.weight - a.weight < 0.0 || (b.weight == a.weight && locale(a.file, b.file) <= 0)
  }

  ghost predicate ConsistentLocale(locale: (string, string) -> int) {
    && (forall a, b :: locale(a, b) <= 0 <==> locale(b, a) >= 0)
    && (forall a, b, c :: locale(a, b) <= 0 && locale(b, c) <= 0 ==> locale(a, c) <= 0)
  }

  lemma WeightedPreorder(locale: (string, string) -> int)
    requires ConsistentLocale(locale)
    ensures TotalPreorder(WeightedLe(locale))
  {
    var le := WeightedLe(locale);
    forall a, b ensures le(a, b) || le(b, a) {
      assert locale(a.file, b.file) <= 0 <==> locale(b.file, a.file) >= 0;
    }
    forall a, b, c | le(a, b) && le(b, c) ensures le(a, c) {
      assert locale(a.file, b.file) <= 0 && locale(b.file, c.file) <= 0 ==> locale(a.file, c.file) <= 0;
    }
  }

  // ----- the heap

  function Parent(i: nat): nat
    requires i > 0
  {
    (i - 1) / 2
  }

  /** No entry is less than its parent. */
  ghost predicate IsHeap(ks: seq<Key>) {
    forall j | 0 < j < |ks| :: !KeyLess(ks[j], ks[Parent(j)])
  }

  /** A heap but for position `i`, which may be greater than its children. */
  ghost predicate HeapBelow(ks: seq<Key>, i: nat) {
    && (forall j | 0 < j < |ks| && Parent(j) != i :: !KeyLess(ks[j], ks[Parent(j)]))
    && (forall j | 0 < j < |ks| && Parent(j) == i && 0 < i :: !KeyLess(ks[j], ks[Parent(i)]))
  }

  /** The root of a heap is a least entry. */
  lemma {:induction false} RootIsLeast(ks: seq<Key>, j: nat)
    requires IsHeap(ks) && j < |ks|
    ensures !KeyLess(ks[j], ks[0])
  {
    if j > 0 {
      RootIsLeast(ks, Parent(j));
    }
  }

  /** `smallest` is `index` or a lesser child of it, and no child is less than `smallest`. */
  ghost predicate ChosenChild(ks: seq<Key>, index: nat, smallest: nat) {
    && (smallest == index
        || (0 < smallest < |ks| && index < |ks| && Parent(smallest) == index && KeyLess(ks[smallest], ks[index])))
    && forall j | 0 < j < |ks| && Parent(j) == index && smallest < |ks| :: !KeyLess(ks[j], ks[smallest])
  }

  /** Swapping the hole with its least child moves the hole down. */
  lemma SwapDown(ks: seq<Key>, i: nat, s: nat, t: seq<Key>)
    requires HeapBelow(ks, i) && ChosenChild(ks, i, s) && s != i
    requires t == ks[i := ks[s]][s := ks[i]]
    ensures HeapBelow(t, s)
  {
    forall j | 0 < j < |t| && Parent(j) != s ensures !KeyLess(t[j], t[Parent(j)]) {
      if j == i {
        assert !KeyLess(ks[s], ks[Parent(i)]);
      }
    }
    forall j | 0 < j < |t| && Parent(j) == s ensures !KeyLess(t[j], t[Parent(s)]) {
      assert !KeyLess(ks[j], ks[Parent(j)]);
    }
  }

  ghost predicate Indices(buckets: seq<Bucket>, heap: seq<nat>) {
    forall i | 0 <= i < |heap| :: heap[i] < |buckets|
  }

  ghost function HeapKeys(buckets: seq<Bucket>, heap: seq<nat>): (ks: seq<Key>)
    requires Indices(buckets, heap)
    reads buckets
    ensures |ks| == |heap|
    ensures forall i | 0 <= i < |heap| :: ks[i] == buckets[heap[i]].Order()
  {
    if heap == [] then [] else HeapKeys(buckets, heap[..|heap| - 1]) + [buckets[heap[|heap| - 1]].Order()]
  }

  lemma KeysSwapped(buckets: seq<Bucket>, was: seq<nat>, now: seq<nat>, i: nat, s: nat)
    requires Indices(buckets, was) && i < |was| && s < |was| && now == was[i := was[s]][s := was[i]]
    ensures Indices(buckets, now)
    ensures
      var ks := HeapKeys(buckets, was);
      HeapKeys(buckets, now) == ks[i := ks[s]][s := ks[i]]
  {
  }

  lemma Swapped(buckets: seq<Bucket>, was: seq<nat>, now: seq<nat>, ks: seq<Key>, i: nat, s: nat)
    requires Indices(buckets, was) && i < |was| && s < |was| && now == was[i := was[s]][s := was[i]]
    requires ks == HeapKeys(buckets, was) && HeapBelow(ks, i) && ChosenChild(ks, i, s) && s != i
    ensures Indices(buckets, now) && HeapBelow(HeapKeys(buckets, now), s)
  {
    KeysSwapped(buckets, was, now, i, s);
    SwapDown(ks, i, s, HeapKeys(buckets, now));
  }

  /** The bucket at a heap position, or null when there is none. */
  function BucketAt(buckets: seq<Bucket>, heap: array<nat>, index: nat): Bucket?
    reads heap
  {
    if index < heap.Length && heap[index] < |buckets| then buckets[heap[index]] else null
  }

  function BucketLess(left: Bucket?, right: Bucket?): (r: bool)
    reads left, right
    ensures left != null && right != null ==> r == KeyLess(left.Order(), right.Order())
    ensures left == null ==> !r
    ensures left != null && right == null ==> r
  {
    if left == null || right == null then left != null
    else if left.sum != right.sum then left.sum < right.sum
    else |left.files| < |right.files|
  }

  /** The least of a heap position and its children, in the order the code compares them. */
  method Smallest(buckets: seq<Bucket>, heap: array<nat>, index: nat) returns (smallest: nat)
    requires Indices(buckets, heap[..])
    ensures ChosenChild(HeapKeys(buckets, heap[..]), index, smallest)
  {
    var size := heap.Length;
    assert forall i | 0 <= i < size :: heap[..][i] == heap[i];
    var left, right := 2 * index + 1, 2 * index + 2;
    assert forall j | 0 < j < size && Parent(j) == index :: j == left || j == right;
    smallest := index;
    var smallestBucket := BucketAt(buckets, heap, index);
    var leftBucket := if left < size then BucketAt(buckets, heap, left) else null;
    var rightBucket := if right < size then BucketAt(buckets, heap, right) else null;
    if leftBucket != null && smallestBucket != null && BucketLess(leftBucket, smallestBucket) {
      smallest := left;
      smallestBucket := leftBucket;
    }
    if rightBucket != null && smallestBucket != null && BucketLess(rightBucket, smallestBucket) {
      smallest := right;
    }
  }

  method Exchange(heap: array<nat>, i: nat, j: nat)
    requires i < heap.Length && j < heap.Length
    modifies heap
    ensures heap[..] == old(heap[..][i := heap[j]][j := heap[i]])
    ensures multiset(heap[..]) == old(multiset(heap[..]))
  {
    heap[i], heap[j] := heap[j], heap[i];
  }

  lemma NoChildLess(ks: seq<Key>, index: nat)
    requires HeapBelow(ks, index) && ChosenChild(ks, index, index)
    ensures IsHeap(ks)
  {
    forall j | 0 < j < |ks| ensures !KeyLess(ks[j], ks[Parent(j)]) {
      if Parent(j) == index {
        assert index < |ks|;
      }
    }
  }

  /** One turn of the sift: either the order holds everywhere, or its only violation has moved down to `next`. */
  method SiftStep(buckets: seq<Bucket>, heap: array<nat>, index: nat) returns (next: nat)
    requires Indices(buckets, heap[..])
    requires HeapBelow(HeapKeys(buckets, heap[..]), index)
    modifies heap
    ensures Indices(buckets, heap[..]) && multiset(heap[..]) == old(multiset(heap[..]))
    ensures
      if next == index then IsHeap(HeapKeys(buckets, heap[..]))
      else index < next < heap.Length && HeapBelow(HeapKeys(buckets, heap[..]), next)
  {
    next := Smallest(buckets, heap, index);
    if next == index {
      NoChildLess(HeapKeys(buckets, heap[..]), index);
    } else {
      MoveDown(buckets, heap, index, next);
    }
  }

  /** Exchange a too heavy entry with its least child. */
  method MoveDown(buckets: seq<Bucket>, heap: array<nat>, index: nat, child: nat)
    requires Indices(buckets, heap[..]) && index != child
    requires HeapBelow(HeapKeys(buckets, heap[..]), index) && ChosenChild(HeapKeys(buckets, heap[..]), index, child)
    modifies heap
    ensures Indices(buckets, heap[..]) && HeapBelow(HeapKeys(buckets, heap[..]), child)
    ensures multiset(heap[..]) == old(multiset(heap[..]))
  {
    ghost var was, ks := heap[..], HeapKeys(buckets, heap[..]);
    Exchange(heap, index, child);
    Swapped(buckets, was, heap[..], ks, index, child);
  }

  /** Restore the heap after the bucket at `start` grew heavier. */
  method SiftDown(buckets: seq<Bucket>, heap: array<nat>, start: nat)
    requires Indices(buckets, heap[..])
    requires HeapBelow(HeapKeys(buckets, heap[..]), start)
    modifies heap
    ensures Indices(buckets, heap[..]) && IsHeap(HeapKeys(buckets, heap[..]))
    ensures multiset(heap[..]) == old(multiset(heap[..]))
  {
    var index := start;
    while true
      invariant Indices(buckets, heap[..])
      invariant HeapBelow(HeapKeys(buckets, heap[..]), index)
      invariant multiset(heap[..]) == old(multiset(heap[..]))
      decreases heap.Length - index
    {
      var next := SiftStep(buckets, heap, index);
      if next == index {
        return;
      }
      index := next;
    }
  }

  // ----- the assignment

  function Weights(jobs: seq<Weighted>): (r: seq<real>)
    ensures |r| == |jobs| && forall i | 0 <= i < |jobs| :: r[i] == jobs[i].weight
  {
    seq(|jobs|, i requires 0 <= i < |jobs| => jobs[i].weight)
  }

  /** The files of the jobs that went to bucket `b`, in placing order. */
  function Pick(jobs: seq<Weighted>, choice: seq<nat>, b: nat): (r: seq<File>)
    requires |jobs| == |choice|
    ensures |r| == Count(choice, b)
  {
    if jobs == [] then []
    else
      var n := |jobs| - 1;
      Pick(jobs[..n], choice[..n], b) + if choice[n] == b then [jobs[n].file] else []
  }

  /** The buckets hold what `choice` gave them. */
  ghost predicate Holds(buckets: seq<Bucket>, jobs: seq<Weighted>, choice: seq<nat>)
    requires |jobs| == |choice|
    reads buckets
  {
    forall b | 0 <= b < |buckets| ::
      buckets[b].sum == Load(Weights(jobs), choice, b) && buckets[b].files == Pick(jobs, choice, b)
  }

  /** The heap positions are exactly the bucket indices, in heap order. */
  ghost predicate HeapOf(buckets: seq<Bucket>, heap: seq<nat>)
    reads buckets
  {
    && Indices(buckets, heap)
    && |heap| == |buckets| && NoDup(heap) && (forall b: nat | b < |buckets| :: b in heap)
    && IsHeap(HeapKeys(buckets, heap))
  }

  lemma RootIsGreedy(buckets: seq<Bucket>, heap: seq<nat>, jobs: seq<Weighted>, choice: seq<nat>)
    requires |jobs| == |choice| && Holds(buckets, jobs, choice) && HeapOf(buckets, heap) && heap != []
    ensures forall b: nat | b < |buckets| ::
              !KeyLess(KeyOf(Weights(jobs), choice, b), KeyOf(Weights(jobs), choice, heap[0]))
  {
    var ks := HeapKeys(buckets, heap);
    forall b: nat | b < |buckets|
      ensures !KeyLess(KeyOf(Weights(jobs), choice, b), KeyOf(Weights(jobs), choice, heap[0]))
    {
      assert b in heap;
      var j :| 0 <= j < |heap| && heap[j] == b;
      RootIsLeast(ks, j);
      assert ks[j] == KeyOf(Weights(jobs), choice, b) && ks[0] == KeyOf(Weights(jobs), choice, heap[0]);
    }
  }

  lemma GreedySnoc(w: seq<real>, a: seq<nat>, m: nat, x: real, t: nat)
    requires IsGreedy(w, a, m) && t < m
    requires forall b: nat | b < m :: !KeyLess(KeyOf(w, a, b), KeyOf(w, a, t))
    ensures IsGreedy(w + [x], a + [t], m)
  {
    var w', a' := w + [x], a + [t];
    forall k | 0 <= k < |a'| ensures GreedyStep(w', a', m, k) {
      if k < |a| {
        assert GreedyStep(w, a, m, k);
        assert w'[..k] == w[..k] && a'[..k] == a[..k];
      } else {
        assert w'[..k] == w && a'[..k] == a;
      }
    }
  }

  lemma PickSnoc(jobs: seq<Weighted>, choice: seq<nat>, job: Weighted, t: nat, b: nat)
    requires |jobs| == |choice|
    ensures Weights(jobs + [job]) == Weights(jobs) + [job.weight]
    ensures Pick(jobs + [job], choice + [t], b) == Pick(jobs, choice, b) + if t == b then [job.file] else []
    ensures
      Load(Weights(jobs + [job]), choice + [t], b) ==
      Load(Weights(jobs), choice, b) + if t == b then job.weight else 0.0
  {
    var js, cs := jobs + [job], choice + [t];
    assert js[..|jobs|] == jobs && cs[..|jobs|] == choice;
    assert Weights(js) == Weights(jobs) + [job.weight];
    assert (Weights(jobs) + [job.weight])[..|jobs|] == Weights(jobs);
  }

  /** Making the root heavier leaves a heap but for the root. */
  lemma RootGrew(ks: seq<Key>, t: seq<Key>)
    requires IsHeap(ks) && |t| == |ks| && forall j | 0 < j < |ks| :: t[j] == ks[j]
    ensures HeapBelow(t, 0)
  {
  }

  /** Put one job in the bucket at the root, and restore the heap. */
  method PlaceJob(buckets: seq<Bucket>, heap: array<nat>, job: Weighted, ghost jobs: seq<Weighted>,
                  ghost choice: seq<nat>)
    requires NoDup(buckets) && heap.Length > 0
    requires |jobs| == |choice| && Holds(buckets, jobs, choice) && HeapOf(buckets, heap[..])
    modifies heap, buckets
    ensures Holds(buckets, jobs + [job], choice + [old(heap[0])]) && HeapOf(buckets, heap[..])
  {
    var top := heap[0];
    assert top == heap[..][0] && top < |buckets|;
    ghost var was, ks := heap[..], HeapKeys(buckets, heap[..]);
    var bucket := buckets[top];
    bucket.sum := bucket.sum + job.weight;
    bucket.files := bucket.files + [job.file];
    forall b | 0 <= b < |buckets|
      ensures buckets[b].sum == Load(Weights(jobs + [job]), choice + [top], b)
      ensures buckets[b].files == Pick(jobs + [job], choice + [top], b)
    {
      PickSnoc(jobs, choice, job, top, b);
      assert b != top ==> buckets[b] != bucket;
    }
    assert Holds(buckets, jobs + [job], choice + [top]);
    forall j | 0 < j < |was| ensures HeapKeys(buckets, was)[j] == ks[j] {
      assert was[j] != was[0];
      assert buckets[was[j]] != bucket;
    }
    RootGrew(ks, HeapKeys(buckets, was));
    SiftDown(buckets, heap, 0);
    SamePermutation(was, heap[..]);
  }

  lemma SamePermutation(a: seq<nat>, b: seq<nat>)
    requires multiset(a) == multiset(b) && NoDup(a)
    ensures |a| == |b| && NoDup(b) && forall x :: x in a <==> x in b
  {
    SameElems(a, b);
    NoDupCount(a);
    NoDupCount(b);
  }

  method NewBuckets(partitions: nat) returns (buckets: seq<Bucket>)
    ensures |buckets| == partitions && NoDup(buckets) && fresh(buckets)
    ensures forall b | 0 <= b < partitions :: buckets[b].sum == 0.0 && buckets[b].files == []
  {
    buckets := [];
    for i := 0 to partitions
      invariant |buckets| == i && NoDup(buckets) && fresh(buckets)
      invariant forall b | 0 <= b < i :: buckets[b].sum == 0.0 && buckets[b].files == []
    {
      var bucket := new Bucket();
      buckets := buckets + [bucket];
    }
  }

  method NewHeap(size: nat) returns (heap: array<nat>)
    ensures fresh(heap) && heap[..] == seq(size, i => i)
  {
    heap := new nat[size](i => i);
  }

  lemma FreshHeap(buckets: seq<Bucket>, heap: seq<nat>)
    requires heap == seq(|buckets|, i => i)
    requires forall b | 0 <= b < |buckets| :: buckets[b].sum == 0.0 && buckets[b].files == []
    ensures HeapOf(buckets, heap) && Holds(buckets, [], [])
  {
    assert forall b: nat | b < |buckets| :: heap[b] == b;
    forall b: nat | b < |buckets| ensures b in heap {
      assert heap[b] == b;
    }
  }

  function Jobs(files: seq<File>, weights: map<File, real>): (r: seq<Weighted>)
    ensures |r| == |files| && forall i | 0 <= i < |files| :: r[i] == Weighted(files[i], WeightOf(weights, files[i]))
  {
    seq(|files|, i requires 0 <= i < |files| => Weighted(files[i], WeightOf(weights, files[i])))
  }

  /** The files in placing order: heaviest first, equal weights by name. */
  function PlacingOrder(files: seq<File>, weights: map<File, real>, locale: (string, string) -> int): (r: seq<Weighted>)
    ensures |r| == |files|
  {
    var jobs := Sort(WeightedLe(locale), Jobs(files, weights));
    assert |multiset(jobs)| == |multiset(Jobs(files, weights))|;
    jobs
  }

  /** `r` is what a greedy run over the placing order leaves in each partition. */
  ghost predicate GreedyPartitions(jobs: seq<Weighted>, choice: seq<nat>, r: seq<seq<File>>) {
    && |jobs| == |choice|
    && IsGreedy(Weights(jobs), choice, |r|)
    && forall b | 0 <= b < |r| :: r[b] == Pick(jobs, choice, b)
  }

  /** Assign the files to `partitions` lists; the ghost result is where each job went. */
  method AssignWeightedPartitions(files: seq<File>, weights: map<File, real>, partitions: nat,
                                  locale: (string, string) -> int)
    returns (r: Result, ghost choice: seq<nat>)
    ensures r.HeapIndexOutOfBounds? <==> files != [] && partitions == 0
    ensures r.Ok? ==> |r.partitions| == partitions
    ensures r.Ok? ==> GreedyPartitions(PlacingOrder(files, weights, locale), choice, r.partitions)
  {
    choice := [];
    if files == [] {
      return Ok(seq(partitions, _ => [])), choice;
    }
    var weighted := PlacingOrder(files, weights, locale);
    if partitions == 0 {
      return HeapIndexOutOfBounds, choice;
    }
    var buckets := NewBuckets(partitions);
    var heap := NewHeap(partitions);
    FreshHeap(buckets, heap[..]);
    choice := PlaceAll(buckets, heap, weighted);
    var lists := FileLists(buckets);
    r := Ok(lists);
  }

  method PlaceAll(buckets: seq<Bucket>, heap: array<nat>, weighted: seq<Weighted>) returns (ghost choice: seq<nat>)
    requires NoDup(buckets) && heap.Length == |buckets| > 0
    requires Holds(buckets, [], []) && HeapOf(buckets, heap[..])
    modifies heap, buckets
    ensures |choice| == |weighted| && Holds(buckets, weighted, choice)
    ensures IsGreedy(Weights(weighted), choice, |buckets|)
  {
    choice := [];
    for k := 0 to |weighted|
      invariant |choice| == k && Holds(buckets, weighted[..k], choice) && HeapOf(buckets, heap[..])
      invariant IsGreedy(Weights(weighted[..k]), choice, |buckets|)
    {
      ghost var top := heap[..][0];
      NextGreedy(buckets, heap[..], weighted, choice, k);
      PlaceJob(buckets, heap, weighted[k], weighted[..k], choice);
      choice := choice + [top];
    }
    assert weighted[..|weighted|] == weighted;
  }

  lemma NextGreedy(buckets: seq<Bucket>, heap: seq<nat>, weighted: seq<Weighted>, choice: seq<nat>, k: nat)
    requires k < |weighted| && |choice| == k && heap != []
    requires Holds(buckets, weighted[..k], choice) && HeapOf(buckets, heap)
    requires IsGreedy(Weights(weighted[..k]), choice, |buckets|)
    ensures weighted[..k + 1] == weighted[..k] + [weighted[k]]
    ensures IsGreedy(Weights(weighted[..k + 1]), choice + [heap[0]], |buckets|)
  {
    RootIsGreedy(buckets, heap, weighted[..k], choice);
    assert Weights(weighted[..k + 1]) == Weights(weighted[..k]) + [weighted[k].weight];
    GreedySnoc(Weights(weighted[..k]), choice, |buckets|, weighted[k].weight, heap[0]);
  }

  method FileLists(buckets: seq<Bucket>) returns (lists: seq<seq<File>>)
    ensures |lists| == |buckets| && forall b | 0 <= b < |buckets| :: lists[b] == buckets[b].files
  {
    lists := [];
    for b := 0 to |buckets|
      invariant |lists| == b && forall i | 0 <= i < b :: lists[i] == buckets[i].files
    {
      lists := lists + [buckets[b].files];
    }
  }
}
