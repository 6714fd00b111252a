/** The rounds of the package ordering, told by group positions, listings and chains of dependencies alone. */
module PackageRounds {
  import opened Digraph
  import opened Sorting
  import opened SinkCycles
  import opened PackageOrder
  import opened PackageOrderLaws

  /** More entries than an array of the source's language can have. */
  const ARRAY_LIMIT := 0x1_0000_0000

  /**
   * `p` may stand before `q`: its group is listed first, or it alone is listed, or neither is and the names of
   * the groups and then of the packages decide.
   */
  ghost predicate Precedes(r: Ranking, p: Package, q: Package) {
    if p.group == q.group then r.locale(p.short, q.short) <= 0
    else if p.group in r.groupOrder then
      exists k | 0 <= k < |r.groupOrder| :: r.groupOrder[k] == p.group && q.group !in r.groupOrder[..k]
    else
      && q.group !in r.groupOrder && r.locale(p.group, q.group) <= 0
      && (r.locale(p.group, q.group) == 0 ==> r.locale(p.short, q.short) <= 0)
  }

  lemma CompareMeans(r: Ranking, p: Package, q: Package)
    requires r.Consistent() && |r.groupOrder| < ARRAY_LIMIT
    ensures r.Le()(p, q) <==> Precedes(r, p, q)
  {
    assert r.locale(p.group, p.group) <= 0 <==> r.locale(p.group, p.group) >= 0;
    var i, j := IndexOf(r.groupOrder, p.group), IndexOf(r.groupOrder, q.group);
    if p.group != q.group && i >= 0 {
      if j == -1 || i < j {
        assert q.group !in r.groupOrder[..i];
      }
      forall k | 0 <= k < |r.groupOrder| && r.groupOrder[k] == p.group && j >= 0 && q.group !in r.groupOrder[..k]
        ensures i <= k <= j
      {
        FirstBefore(r.groupOrder, p.group, i, k);
        FirstBefore(r.groupOrder, q.group, k, j);
      }
    }
  }

  lemma FirstBefore(s: seq<string>, x: string, i: nat, k: nat)
    requires i <= |s| && k < |s| && s[k] == x
    ensures k < i ==> x in s[..i]
  {
    if k < i {
      assert s[..i][k] == x;
    }
  }

  /** A package of this name stands in one of the rounds. */
  ghost predicate Stands(rounds: seq<seq<Package>>, n: Name) {
    exists i, k | 0 <= i < |rounds| && 0 <= k < |rounds[i]| :: rounds[i][k].short == n
  }

  /** Not out yet, and waiting for nothing. */
  ghost predicate Free(at: map<Name, Package>, before: seq<seq<Package>>, n: Name) {
    n in at && !Stands(before, n) && forall d | d in at[n].deps :: Stands(before, d)
  }

  /** A chain of one dependency or more from `u` to `v` over packages that are not out yet. */
  ghost predicate Chain(at: map<Name, Package>, before: seq<seq<Package>>, p: seq<Name>, u: Name, v: Name) {
    && |p| >= 2 && p[0] == u && p[|p| - 1] == v
    && (forall i | 0 <= i < |p| :: p[i] in at && !Stands(before, p[i]))
    && (forall i | 0 < i < |p| :: p[i] in at[p[i - 1]].deps)
  }

  ghost predicate Linked(at: map<Name, Package>, before: seq<seq<Package>>, u: Name, v: Name) {
    exists p :: Chain(at, before, p, u, v)
  }

  /** Packages that all wait for each other and for nothing else that is not out yet. */
  ghost predicate Knot(at: map<Name, Package>, before: seq<seq<Package>>, c: set<Name>) {
    && c != {} && (forall n | n in c :: n in at)
    && (forall u, v | u in c && v in c :: Linked(at, before, u, v))
    && (forall u, v | u in c && u in at && v in at[u].deps :: v in c || Stands(before, v))
  }

  lemma {:induction false} PlacedStands(rounds: seq<seq<Package>>, n: Name)
    ensures n in Placed(rounds) <==> Stands(rounds, n)
  {
    if rounds != [] {
      var init, last := rounds[..|rounds| - 1], rounds[|rounds| - 1];
      PlacedStands(init, n);
      if n in Elems(Names(last)) {
        var k :| 0 <= k < |last| && Names(last)[k] == n;
        assert rounds[|rounds| - 1][k].short == n;
      }
      if i, k :| 0 <= i < |rounds| && 0 <= k < |rounds[i]| && rounds[i][k].short == n {
        if i < |init| {
          assert init[i][k].short == n;
        } else {
          assert Names(last)[k] == n;
        }
      }
    }
  }

  /** Paths of one edge or more in the graph of the rest are chains of dependencies. */
  lemma ChainIsPath(at: map<Name, Package>, before: seq<seq<Package>>, p: seq<Name>, u: Name, v: Name)
    ensures Chain(at, before, p, u, v) <==> |p| >= 2 && Leads(GraphOf(at, Placed(before)), p, u, v)
  {
    var g := GraphOf(at, Placed(before));
    forall n ensures n in g <==> n in at && !Stands(before, n) {
      PlacedStands(before, n);
    }
    if Chain(at, before, p, u, v) {
      forall i | 0 <= i < |p| - 1 ensures Edge(g, p[i], p[i + 1]) {
        assert p[i + 1] in at[p[i + 1 - 1]].deps;
      }
    }
    if |p| >= 2 && Leads(g, p, u, v) {
      forall i | 0 < i < |p| ensures Edge(g, p[i - 1], p[i]) {
        assert Edge(g, p[i - 1], p[i - 1 + 1]);
      }
      forall i | 0 <= i < |p| ensures p[i] in g {
        if i == 0 {
          assert Edge(g, p[0], p[0 + 1]);
        } else {
          assert Edge(g, p[i - 1], p[i]);
        }
      }
    }
  }

  lemma LinkedReach(at: map<Name, Package>, before: seq<seq<Package>>, u: Name, v: Name)
    ensures Linked(at, before, u, v) ==> Reach(GraphOf(at, Placed(before)), u, v)
    ensures Reach(GraphOf(at, Placed(before)), u, v) && u != v ==> Linked(at, before, u, v)
    ensures Edge(GraphOf(at, Placed(before)), u, v) ==> Linked(at, before, u, v)
  {
    var g := GraphOf(at, Placed(before));
    ReachIsPath(g, u, v);
    if p :| Chain(at, before, p, u, v) {
      ChainIsPath(at, before, p, u, v);
    }
    if Reach(g, u, v) && u != v {
      var p :| Leads(g, p, u, v);
      ChainIsPath(at, before, p, u, v);
    }
    if Edge(g, u, v) {
      assert Leads(g, [u, v], u, v);
      ChainIsPath(at, before, [u, v], u, v);
    }
  }


  lemma KnotIsSinkCycle(at: map<Name, Package>, before: seq<seq<Package>>, c: set<Name>)
    requires Known(at)
    ensures Knot(at, before, c) <==> SinkCycle(GraphOf(at, Placed(before)), c)
  {
    if Knot(at, before, c) {
      KnotCloses(at, before, c);
      KnotIsCyclic(at, before, c);
    }
    if SinkCycle(GraphOf(at, Placed(before)), c) {
      SinkIsKnot(at, before, c);
    }
  }

  lemma KnotMember(at: map<Name, Package>, before: seq<seq<Package>>, c: set<Name>, n: Name)
    requires Knot(at, before, c) && n in c
    ensures n in GraphOf(at, Placed(before))
  {
    assert Linked(at, before, n, n);
    LinkedReach(at, before, n, n);
  }

  lemma KnotCloses(at: map<Name, Package>, before: seq<seq<Package>>, c: set<Name>)
    requires Known(at) && Knot(at, before, c)
    ensures IsScc(GraphOf(at, Placed(before)), c) && Closed(GraphOf(at, Placed(before)), c)
  {
    var g := GraphOf(at, Placed(before));
    forall n | n in c ensures n in g {
      KnotMember(at, before, c, n);
    }
    forall u, v {:trigger Edge(g, u, v)} | u in c && Edge(g, u, v) ensures v in c {
      PlacedStands(before, v);
    }
    forall u, v {:trigger Mutual(g, u, v)} | u in c ensures v in c <==> Mutual(g, u, v) {
      if v in c {
        assert Linked(at, before, u, v) && Linked(at, before, v, u);
        LinkedReach(at, before, u, v);
        LinkedReach(at, before, v, u);
      } else if Mutual(g, u, v) {
        ReachInClosed(g, c, u, v);
      }
    }
  }

  lemma KnotIsCyclic(at: map<Name, Package>, before: seq<seq<Package>>, c: set<Name>)
    requires Knot(at, before, c)
    ensures Cyclic(GraphOf(at, Placed(before)), c)
  {
    var g := GraphOf(at, Placed(before));
    var u :| u in c;
    assert Linked(at, before, u, u);
    var p :| Chain(at, before, p, u, u);
    ChainIsPath(at, before, p, u, u);
    assert Edge(g, p[0], p[0 + 1]);
    if p[1] != u {
      PlacedStands(before, p[1]);
      assert p[1] in at[p[1 - 1]].deps;
      assert {u, p[1]} <= c;
      SubsetSize({u, p[1]}, c);
    }
  }

  lemma ChainsJoin(at: map<Name, Package>, before: seq<seq<Package>>, u: Name, v: Name, w: Name)
    requires Linked(at, before, u, v) && Linked(at, before, v, w)
    ensures Linked(at, before, u, w)
  {
    var p :| Chain(at, before, p, u, v);
    var q :| Chain(at, before, q, v, w);
    var r := p + q[1..];
    forall i | 0 < i < |r| ensures r[i] in at && !Stands(before, r[i]) && r[i] in at[r[i - 1]].deps {
      if i >= |p| {
        assert q[i - |p| + 1] in at[q[i - |p|]].deps;
      }
    }
    assert Chain(at, before, r, u, w);
  }

  /** A member of a cyclic component comes back to itself. */
  lemma CyclicReturn(at: map<Name, Package>, before: seq<seq<Package>>, c: set<Name>, u: Name)
    requires IsScc(GraphOf(at, Placed(before)), c) && Cyclic(GraphOf(at, Placed(before)), c) && u in c
    ensures Linked(at, before, u, u)
  {
    var g := GraphOf(at, Placed(before));
    if v :| v in c && v != u {
      assert Mutual(g, u, v);
      LinkedReach(at, before, u, v);
      LinkedReach(at, before, v, u);
      ChainsJoin(at, before, u, v, u);
    } else {
      assert c == {u};
      LinkedReach(at, before, u, u);
    }
  }

  lemma SinkIsKnot(at: map<Name, Package>, before: seq<seq<Package>>, c: set<Name>)
    requires Known(at) && SinkCycle(GraphOf(at, Placed(before)), c)
    ensures Knot(at, before, c)
  {
    var g := GraphOf(at, Placed(before));
    forall u, v | u in c && v in c ensures Linked(at, before, u, v) {
      assert Mutual(g, u, v);
      LinkedReach(at, before, u, v);
      if u == v {
        CyclicReturn(at, before, c, u);
      }
    }
    forall u, v | u in c && u in at && v in at[u].deps ensures v in c || Stands(before, v) {
      PlacedStands(before, v);
      if !Stands(before, v) {
        assert Edge(g, u, v);
      }
    }
  }

  ghost predicate NoneFree(at: map<Name, Package>, before: seq<seq<Package>>) {
    forall n :: !Free(at, before, n)
  }

  /** The rule for a round: everything that is free, or else the knot with the foremost member of any. */
  ghost predicate Round(r: Ranking, at: map<Name, Package>, before: seq<seq<Package>>, round: seq<Package>) {
    && round != []
    && (forall p | p in round :: p.short in at && at[p.short] == p)
    && (forall a, b | 0 <= a < b < |round| :: round[a].short != round[b].short && Precedes(r, round[a], round[b]))
    && (!NoneFree(at, before) ==> forall n :: n in Elems(Names(round)) <==> Free(at, before, n))
    && (NoneFree(at, before) ==>
          && Knot(at, before, Elems(Names(round)))
          && forall c, n | Knot(at, before, c) && n in c && n in at :: Precedes(r, round[0], at[n]))
  }

  lemma FreeIsReady(at: map<Name, Package>, before: seq<seq<Package>>, n: Name)
    ensures Free(at, before, n) <==> IsReady(at, Placed(before), n)
  {
    PlacedStands(before, n);
    if n in at {
      forall d | d in at[n].deps ensures Stands(before, d) <==> d in Placed(before) {
        PlacedStands(before, d);
      }
    }
  }

  lemma LayerIsRound(r: Ranking, at: map<Name, Package>, before: seq<seq<Package>>, layer: seq<Package>)
    requires r.Consistent() && |r.groupOrder| < ARRAY_LIMIT && Known(at)
    requires IsLayer(r, at, Placed(before), layer)
    ensures Round(r, at, before, layer)
  {
    forall n ensures Free(at, before, n) <==> IsReady(at, Placed(before), n) {
      FreeIsReady(at, before, n);
    }
    LayerIsRanked(r, layer);
    if NoneFree(at, before) {
      assert LeastSinkCycle(r, at, Placed(before), layer);
      LayerIsKnot(r, at, before, layer);
    }
  }

  lemma LayerIsRanked(r: Ranking, layer: seq<Package>)
    requires r.Consistent() && |r.groupOrder| < ARRAY_LIMIT && NoDup(Names(layer)) && Sorted(r.Le(), layer)
    ensures forall a, b | 0 <= a < b < |layer| ::
              layer[a].short != layer[b].short && Precedes(r, layer[a], layer[b])
  {
    forall a, b | 0 <= a < b < |layer| ensures layer[a].short != layer[b].short && Precedes(r, layer[a], layer[b]) {
      assert Names(layer)[a] != Names(layer)[b];
      CompareMeans(r, layer[a], layer[b]);
    }
  }

  lemma LayerIsKnot(r: Ranking, at: map<Name, Package>, before: seq<seq<Package>>, layer: seq<Package>)
    requires r.Consistent() && |r.groupOrder| < ARRAY_LIMIT && Known(at)
    requires LeastSinkCycle(r, at, Placed(before), layer)
    ensures Knot(at, before, Elems(Names(layer)))
    ensures forall c, n | Knot(at, before, c) && n in c && n in at :: Precedes(r, layer[0], at[n])
  {
    KnotIsSinkCycle(at, before, Elems(Names(layer)));
    forall c, n | Knot(at, before, c) && n in c && n in at ensures Precedes(r, layer[0], at[n]) {
      KnotIsSinkCycle(at, before, c);
      CompareMeans(r, layer[0], at[n]);
    }
  }

  /** Every round of a finished ordering keeps the rule. */
  lemma RoundsKeepRule(r: Ranking, at: map<Name, Package>, rounds: seq<seq<Package>>, i: nat)
    requires r.Consistent() && |r.groupOrder| < ARRAY_LIMIT && Known(at)
    requires Ordering(r, at, rounds) && i < |rounds|
    ensures Round(r, at, rounds[..i], rounds[i])
  {
    assert LayerAt(r, at, rounds, i);
    LayerIsRound(r, at, rounds[..i], rounds[i]);
  }

  // ----- the promises of the sorted list

  /** The last package of its name in the list. */
  ghost predicate LastNamed(packages: seq<Package>, p: Package) {
    exists k | 0 <= k < |packages| :: packages[k] == p && forall l | k < l < |packages| :: packages[l].short != p.short
  }

  lemma {:induction false} ByNameIsLast(packages: seq<Package>, p: Package)
    ensures p.short in ByName(packages) && ByName(packages)[p.short] == p <==> LastNamed(packages, p)
  {
    if packages != [] {
      var init, last := packages[..|packages| - 1], packages[|packages| - 1];
      ByNameIsLast(init, p);
      if LastNamed(packages, p) && last != p {
        assert last.short != p.short;
        assert LastNamed(init, p);
      }
      if LastNamed(init, p) && last.short != p.short {
        var k :| 0 <= k < |init| && init[k] == p && forall l | k < l < |init| :: init[l].short != p.short;
        assert packages[k] == p;
      }
      if last == p {
        assert packages[|packages| - 1] == p;
      }
    }
  }

  /** Each package of the list depends on the next one. */
  ghost predicate DependencyChain(c: seq<Package>, out: seq<Package>, p: Package, q: Package) {
    && |c| >= 2 && c[0] == p && c[|c| - 1] == q && (forall k | 0 <= k < |c| :: c[k] in out)
    && forall k | 0 < k < |c| :: c[k].short in c[k - 1].deps
  }

  /** `p` waits for `q`, directly or through others. */
  ghost predicate WaitsFor(out: seq<Package>, p: Package, q: Package) {
    exists c :: DependencyChain(c, out, p, q)
  }

  /**
   * What the sorted list promises: the last package of every name once; dependencies first except within cycles;
   * cycles in one piece.
   */
  ghost predicate KeepsPromises(packages: seq<Package>, out: seq<Package>) {
    && (forall i, j | 0 <= i < j < |out| :: out[i].short != out[j].short)
    && (forall p :: p in out <==> LastNamed(packages, p))
    && (forall i, j | 0 <= i <= j < |out| && out[j].short in out[i].deps :: WaitsFor(out, out[j], out[i]))
    && (forall i, j, k | 0 <= i < j < k < |out| && WaitsFor(out, out[i], out[k]) && WaitsFor(out, out[k], out[i]) ::
          WaitsFor(out, out[i], out[j]) && WaitsFor(out, out[j], out[i]))
  }

  /** Where dependencies leave the order of two packages open, the caller's order decides. */
  ghost predicate KeepsRanking(r: Ranking, out: seq<Package>) {
    forall i, j | 0 <= i < j < |out| && Outwaits(out[i], out[j]) && !WaitsFor(out, out[i], out[i]) ::
      Precedes(r, out[i], out[j])
  }

  /** `p` has every dependency of `q`. */
  predicate Outwaits(p: Package, q: Package) {
    forall d | d in q.deps :: d in p.deps
  }

  /** `out` holds the packages of `at`. */
  ghost predicate Lists(at: map<Name, Package>, out: seq<Package>) {
    forall p :: p in out <==> p.short in at && at[p.short] == p
  }

  lemma WaitsIsLinked(at: map<Name, Package>, out: seq<Package>, p: Package, q: Package)
    requires Keyed(at) && Lists(at, out)
    ensures WaitsFor(out, p, q) ==> Linked(at, [], p.short, q.short)
    ensures p in out && q in out && Linked(at, [], p.short, q.short) ==> WaitsFor(out, p, q)
  {
    if c :| DependencyChain(c, out, p, q) {
      var n := Names(c);
      assert forall k | 0 <= k < |c| :: n[k] in at && at[n[k]] == c[k];
      assert Chain(at, [], n, p.short, q.short);
    }
    if p in out && q in out && Linked(at, [], p.short, q.short) {
      var n :| Chain(at, [], n, p.short, q.short);
      var c := PackagesOf(at, n);
      assert forall k | 0 <= k < |c| :: c[k] == at[n[k]] && c[k] in out;
      assert DependencyChain(c, out, p, q);
    }
  }

  lemma MutualWaits(at: map<Name, Package>, out: seq<Package>, p: Package, q: Package)
    requires Keyed(at) && Lists(at, out) && p in out && q in out
    ensures Mutual(GraphOf(at, {}), p.short, q.short) && p != q ==> WaitsFor(out, p, q) && WaitsFor(out, q, p)
    ensures WaitsFor(out, p, q) && WaitsFor(out, q, p) ==> Mutual(GraphOf(at, {}), p.short, q.short)
  {
    LinkedReach(at, [], p.short, q.short);
    LinkedReach(at, [], q.short, p.short);
    WaitsIsLinked(at, out, p, q);
    WaitsIsLinked(at, out, q, p);
  }

  /** The promises hold for whatever a successful sort returns. */
  lemma SortedOutput(r: Ranking, packages: seq<Package>, rounds: seq<seq<Package>>)
    requires KnownDeps(packages) && Ordering(r, ByName(packages), rounds)
    ensures KeepsPromises(packages, Flatten(rounds)) && Lists(ByName(packages), Flatten(rounds))
  {
    var at, out := ByName(packages), Flatten(rounds);
    KnownByName(packages);
    EachOnce(r, at, rounds);
    ListsAll(at, out);
    forall i, j | 0 <= i < j < |out| ensures out[i].short != out[j].short {
      assert Names(out)[i] != Names(out)[j];
    }
    forall p ensures p in out <==> LastNamed(packages, p) {
      ByNameIsLast(packages, p);
    }
    forall i, j | 0 <= i <= j < |out| && out[j].short in out[i].deps ensures WaitsFor(out, out[j], out[i]) {
      BackwardWaits(r, at, rounds, i, j);
    }
    forall i, j, k | 0 <= i < j < k < |out| && WaitsFor(out, out[i], out[k]) && WaitsFor(out, out[k], out[i])
      ensures WaitsFor(out, out[i], out[j]) && WaitsFor(out, out[j], out[i])
    {
      MutualWaits(at, out, out[i], out[k]);
      CyclesContiguous(r, at, rounds, i, j, k);
      MutualWaits(at, out, out[i], out[j]);
    }
  }

  lemma ListsAll(at: map<Name, Package>, out: seq<Package>)
    requires forall p | p in out :: p.short in at && at[p.short] == p
    requires forall n | n in at :: n in Names(out)
    ensures Lists(at, out)
  {
    forall p: Package | p.short in at && at[p.short] == p ensures p in out {
      assert p.short in Names(out);
      var i :| 0 <= i < |out| && Names(out)[i] == p.short;
      assert out[i] in out;
    }
  }

  lemma BackwardWaits(r: Ranking, at: map<Name, Package>, rounds: seq<seq<Package>>, i: nat, j: nat)
    requires Ordering(r, at, rounds) && Known(at) && Keyed(at) && Lists(at, Flatten(rounds))
    requires i <= j < |Flatten(rounds)| && Flatten(rounds)[j].short in Flatten(rounds)[i].deps
    ensures WaitsFor(Flatten(rounds), Flatten(rounds)[j], Flatten(rounds)[i])
  {
    var out := Flatten(rounds);
    assert out[i] in out && out[j] in out;
    if out[i] == out[j] {
      assert DependencyChain([out[j], out[i]], out, out[j], out[i]);
    } else {
      DependencyFirst(r, at, rounds, i, j);
      MutualWaits(at, out, out[i], out[j]);
    }
  }

  // ----- the caller's order

  /** Position `i` of the list is position `x` of round `a`. */
  ghost predicate At(rounds: seq<seq<Package>>, i: nat, a: nat, x: nat) {
    a < |rounds| && x < |rounds[a]| && i == |Flatten(rounds[..a])| + x
    && i < |Flatten(rounds)| && Flatten(rounds)[i] == rounds[a][x]
  }

  lemma {:induction false} FindAt(rounds: seq<seq<Package>>, i: nat) returns (a: nat, x: nat)
    requires i < |Flatten(rounds)|
    ensures At(rounds, i, a, x)
  {
    var init, last := rounds[..|rounds| - 1], rounds[|rounds| - 1];
    if i < |Flatten(init)| {
      a, x := FindAt(init, i);
      assert init[..a] == rounds[..a];
    } else {
      a, x := |rounds| - 1, i - |Flatten(init)|;
    }
  }

  lemma {:induction false} FlattenGrows(rounds: seq<seq<Package>>, a: nat, b: nat)
    requires a < b <= |rounds|
    ensures |Flatten(rounds[..a])| + |rounds[a]| <= |Flatten(rounds[..b])|
  {
    var pre := rounds[..b];
    assert pre[..b - 1] == rounds[..b - 1];
    if a < b - 1 {
      FlattenGrows(rounds, a, b - 1);
    }
  }

  lemma {:induction false} PositionOf(rounds: seq<seq<Package>>, a: nat, x: nat)
    requires a < |rounds| && x < |rounds[a]|
    ensures At(rounds, |Flatten(rounds[..a])| + x, a, x)
  {
    var init := rounds[..|rounds| - 1];
    if a < |init| {
      PositionOf(init, a, x);
      assert init[..a] == rounds[..a];
    }
  }

  /** A package of round `b` stands in no round before it. */
  lemma StandsLater(rounds: seq<seq<Package>>, a: nat, b: nat, y: nat)
    requires a < b < |rounds| && y < |rounds[b]| && NoDup(Names(Flatten(rounds)))
    ensures !Stands(rounds[..a + 1], rounds[b][y].short) && !Stands(rounds[..a], rounds[b][y].short)
  {
    PositionOf(rounds, b, y);
    var out, n := Flatten(rounds), rounds[b][y].short;
    forall i, k | 0 <= i <= a && 0 <= k < |rounds[i]| ensures rounds[i][k].short != n {
      PositionOf(rounds, i, k);
      FlattenGrows(rounds, i, b);
      var e, l := |Flatten(rounds[..i])| + k, |Flatten(rounds[..b])| + y;
      assert Names(out)[e] != Names(out)[l];
    }
  }

  lemma LinkedFromStart(at: map<Name, Package>, before: seq<seq<Package>>, u: Name, v: Name)
    requires Linked(at, before, u, v)
    ensures Linked(at, [], u, v)
  {
    var c :| Chain(at, before, c, u, v);
    assert Chain(at, [], c, u, v);
  }

  /** A member of a round is free, or waits for itself. */
  lemma RoundMember(r: Ranking, at: map<Name, Package>, before: seq<seq<Package>>, round: seq<Package>, p: Package)
    requires Round(r, at, before, round) && p in round
    ensures if NoneFree(at, before) then Linked(at, before, p.short, p.short) else Free(at, before, p.short)
  {
    var x :| 0 <= x < |round| && round[x] == p;
    assert Names(round)[x] == p.short && p.short in Elems(Names(round));
  }

  /** A package in no cycle stands in a round of free packages. */
  lemma UntangledIsFree(r: Ranking, at: map<Name, Package>, rounds: seq<seq<Package>>, a: nat, p: Package)
    requires Keyed(at) && Lists(at, Flatten(rounds)) && a < |rounds| && Round(r, at, rounds[..a], rounds[a])
    requires p in rounds[a] && !WaitsFor(Flatten(rounds), p, p)
    ensures Free(at, rounds[..a], p.short)
  {
    RoundMember(r, at, rounds[..a], rounds[a], p);
    if NoneFree(at, rounds[..a]) {
      LinkedFromStart(at, rounds[..a], p.short, p.short);
      WaitsIsLinked(at, Flatten(rounds), p, p);
    }
  }

  /** What stands in a later round was not free before. */
  lemma NotFreeEarlier(r: Ranking, at: map<Name, Package>, rounds: seq<seq<Package>>, a: nat, b: nat, y: nat)
    requires a < b < |rounds| && y < |rounds[b]| && NoDup(Names(Flatten(rounds)))
    requires Round(r, at, rounds[..a], rounds[a])
    ensures !Free(at, rounds[..a], rounds[b][y].short)
  {
    MemberStands(rounds, a, rounds[b][y].short);
    StandsLater(rounds, a, b, y);
  }

  lemma MemberStands(rounds: seq<seq<Package>>, a: nat, n: Name)
    requires a < |rounds|
    ensures n in Elems(Names(rounds[a])) ==> Stands(rounds[..a + 1], n)
  {
    if n in Elems(Names(rounds[a])) {
      var z :| 0 <= z < |rounds[a]| && Names(rounds[a])[z] == n;
      assert rounds[..a + 1][a][z].short == n;
    }
  }

  /** Of two packages in one round, or with an open order, the caller's order puts the foremost first. */
  lemma RankedPair(r: Ranking, at: map<Name, Package>, rounds: seq<seq<Package>>, i: nat, j: nat)
    requires r.Consistent() && |r.groupOrder| < ARRAY_LIMIT && Known(at) && Keyed(at)
    requires Ordering(r, at, rounds) && Lists(at, Flatten(rounds)) && i < j < |Flatten(rounds)|
    requires NoDup(Names(Flatten(rounds))) && Outwaits(Flatten(rounds)[i], Flatten(rounds)[j])
    requires !WaitsFor(Flatten(rounds), Flatten(rounds)[i], Flatten(rounds)[i])
    ensures Precedes(r, Flatten(rounds)[i], Flatten(rounds)[j])
  {
    var out := Flatten(rounds);
    var a, x := FindAt(rounds, i);
    var b, y := FindAt(rounds, j);
    RoundsKeepRule(r, at, rounds, a);
    if a < b {
      assert out[i] in rounds[a] && out[j] in out;
      StandsLater(rounds, a, b, y);
      NotFreeEarlier(r, at, rounds, a, b, y);
      UntangledIsFree(r, at, rounds, a, out[i]);
    } else if b < a {
      FlattenGrows(rounds, b, a);
    }
  }

  lemma RankedOutput(r: Ranking, packages: seq<Package>, rounds: seq<seq<Package>>)
    requires r.Consistent() && |r.groupOrder| < ARRAY_LIMIT
    requires KnownDeps(packages) && Ordering(r, ByName(packages), rounds)
    ensures KeepsRanking(r, Flatten(rounds))
  {
    var at, out := ByName(packages), Flatten(rounds);
    KnownByName(packages);
    SortedOutput(r, packages, rounds);
    EachOnce(r, at, rounds);
    forall i, j | 0 <= i < j < |out| && Outwaits(out[i], out[j]) && !WaitsFor(out, out[i], out[i])
      ensures Precedes(r, out[i], out[j])
    {
      RankedPair(r, at, rounds, i, j);
    }
  }

  predicate IsNamed(packages: seq<Package>, d: Name) {
    exists q :: q in packages && q.short == d
  }

  lemma {:induction false} ByNameKeys(packages: seq<Package>, d: Name)
    ensures d in ByName(packages) <==> IsNamed(packages, d)
  {
    ByNameDomain(packages);
    if d in Names(packages) {
      var i :| 0 <= i < |packages| && Names(packages)[i] == d;
      assert packages[i] in packages;
    }
    if q :| q in packages && q.short == d {
      var i :| 0 <= i < |packages| && packages[i] == q;
      assert Names(packages)[i] == d;
    }
  }

  lemma KnownDepsMeans(packages: seq<Package>)
    ensures KnownDeps(packages) <==> forall p, d | p in packages && d in p.deps :: IsNamed(packages, d)
  {
    forall d ensures d in ByName(packages) <==> IsNamed(packages, d) {
      ByNameKeys(packages, d);
    }
  }

  /** The first dependency, in reading order, that names no package of the list. */
  ghost predicate FirstUnknown(packages: seq<Package>, pkg: Package, dependency: Name) {
    exists i, j | 0 <= i < |packages| && 0 <= j < |packages[i].deps| ::
      && pkg == packages[i] && dependency == packages[i].deps[j] && !IsNamed(packages, dependency)
      && (forall d | d in packages[i].deps[..j] :: IsNamed(packages, d))
      && (forall p, d | p in packages[..i] && d in p.deps :: IsNamed(packages, d))
  }

  lemma FirstMissingMeans(packages: seq<Package>, pkg: Package, dependency: Name)
    requires FirstMissing(packages, pkg, dependency)
    ensures FirstUnknown(packages, pkg, dependency)
  {
    forall d ensures d in ByName(packages) <==> IsNamed(packages, d) {
      ByNameKeys(packages, d);
    }
  }

  /**
   * Order the packages: exactly when every dependency names a package of the list there is a result, and it keeps
   * the promises; otherwise the first dependency in reading order that names none is reported.
   */
  method OrderPackages(packages: seq<Package>, ranking: Ranking) returns (r: Result)
    requires ranking.Consistent()
    ensures r.Ok? <==> forall p, d | p in packages && d in p.deps :: IsNamed(packages, d)
    ensures r.Ok? ==> KeepsPromises(packages, r.packages)
    ensures r.Ok? && |ranking.groupOrder| < ARRAY_LIMIT ==> KeepsRanking(ranking, r.packages)
    ensures r.Err? ==> r.error.MissingPeer? && FirstUnknown(packages, r.error.pkg, r.error.dependency)
  {
    ghost var rounds;
    r, rounds := TopoSort(packages, ranking);
    KnownDepsMeans(packages);
    if r.Ok? {
      SortedOutput(ranking, packages, rounds);
      if |ranking.groupOrder| < ARRAY_LIMIT {
        RankedOutput(ranking, packages, rounds);
      }
    } else {
      FirstMissingMeans(packages, r.error.pkg, r.error.dependency);
    }
  }
}
