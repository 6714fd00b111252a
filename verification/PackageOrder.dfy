/** Dependency-safe ordering of the workspace packages. */
module PackageOrder {
  import opened Digraph
  import opened Sorting
  import opened SinkCycles

  const MAX_SAFE_INTEGER := 9007199254740991

  datatype Package = Package(short: Name, name: string, group: string, rel: string, deps: seq<Name>)

  datatype OrderError = MissingPeer(pkg: Package, dependency: Name) | CouldNotOrder
  datatype Result = Ok(packages: seq<Package>) | Err(error: OrderError)

  function IndexOf(s: seq<string>, x: string): (r: int)
    ensures -1 <= r < |s|
    ensures r == -1 ==> x !in s
    ensures r >= 0 ==> s[r] == x && x !in s[..r]
  {
    if s == [] then -1
    else if s[0] == x then 0
    else
      var rest := IndexOf(s[1..], x);
      if rest == -1 then -1 else rest + 1
  }

  /** The caller's tiebreak: a group order, and the string comparison of its locale. */
  datatype Ranking = Ranking(locale: (string, string) -> int, groupOrder: seq<string>) {

    function GroupRank(group: string): int {
      var i := IndexOf(groupOrder, group);
      if i == -1 then MAX_SAFE_INTEGER else i
    }

    function Compare(a: Package, b: Package): int {
      var groups := GroupRank(a.group) - GroupRank(b.group);
      if groups != 0 then groups
      else if locale(a.group, b.group) != 0 then locale(a.group, b.group)
      else locale(a.short, b.short)
    }

    function Le(): (Package, Package) -> bool {
      (a, b) => Compare(a, b) <= 0
    }

    /** The string comparison is consistent, though it may call two different strings equal. */
    ghost predicate Consistent() {
      && (forall a, b :: locale(a, b) <= 0 <==> locale(b, a) >= 0)
      && (forall a, b, c :: locale(a, b) <= 0 && locale(b, c) <= 0 ==> locale(a, c) <= 0)
    }

    /** Different strings never compare equal. */
    ghost predicate Strict() {
      forall a, b :: locale(a, b) == 0 ==> a == b
    }

    lemma CompareTransitive(a: Package, b: Package, c: Package)
      requires Consistent() && Compare(a, b) <= 0 && Compare(b, c) <= 0
      ensures Compare(a, c) <= 0
    {
      assert locale(a.group, b.group) <= 0 && locale(b.group, c.group) <= 0 ==> locale(a.group, c.group) <= 0;
      assert locale(c.group, b.group) <= 0 && locale(b.group, a.group) <= 0 ==> locale(c.group, a.group) <= 0;
      assert locale(a.group, c.group) <= 0 && locale(c.group, b.group) <= 0 ==> locale(a.group, b.group) <= 0;
      assert locale(b.group, a.group) <= 0 && locale(a.group, c.group) <= 0 ==> locale(b.group, c.group) <= 0;
      assert locale(a.short, b.short) <= 0 && locale(b.short, c.short) <= 0 ==> locale(a.short, c.short) <= 0;
    }

    /** A consistent locale makes the package comparison a total preorder. */
    lemma ComparePreorder()
      requires Consistent()
      ensures TotalPreorder(Le())
    {
      forall a, b ensures Le()(a, b) || Le()(b, a) {
        assert locale(a.group, b.group) <= 0 <==> locale(b.group, a.group) >= 0;
      }
      forall a, b, c | Le()(a, b) && Le()(b, c) ensures Le()(a, c) {
        CompareTransitive(a, b, c);
      }
    }

    lemma CompareStrict(a: Package, b: Package)
      requires Consistent() && Strict() && Le()(a, b) && Le()(b, a)
      ensures a.short == b.short
    {
      assert locale(a.group, b.group) <= 0 <==> locale(b.group, a.group) >= 0;
      assert locale(a.short, b.short) <= 0 <==> locale(b.short, a.short) >= 0;
    }
  }

  function Names(ps: seq<Package>): (r: seq<Name>)
    ensures |r| == |ps| && forall i | 0 <= i < |ps| :: r[i] == ps[i].short
  {
    seq(|ps|, i requires 0 <= i < |ps| => ps[i].short)
  }

  /** The entries of the name map: a later package replaces an earlier one of the same name. */
  function ByName(ps: seq<Package>): (r: map<Name, Package>)
    ensures Keyed(r)
  {
    if ps == [] then map[] else ByName(ps[..|ps| - 1])[ps[|ps| - 1].short := ps[|ps| - 1]]
  }

  /** The iteration order of the name map: a key stays where it was first inserted. */
  function KeyOrder(ps: seq<Package>): (r: seq<Name>)
    ensures NoDup(r) && Elems(r) == ByName(ps).Keys
  {
    if ps == [] then []
    else
      var init, last := KeyOrder(ps[..|ps| - 1]), ps[|ps| - 1].short;
      if last in init then init else init + [last]
  }

  predicate Keyed(at: map<Name, Package>) {
    forall n | n in at :: at[n].short == n
  }

  /** Every dependency names a known package. */
  predicate Known(at: map<Name, Package>) {
    forall n, d | n in at && d in at[n].deps :: d in at
  }

  /** The dependency graph of the packages not placed yet. */
  function GraphOf(at: map<Name, Package>, placed: set<Name>): Graph {
    map n | n in at && n !in placed :: at[n].deps
  }

  predicate IsReady(at: map<Name, Package>, placed: set<Name>, n: Name) {
    n in at && n !in placed && forall d | d in at[n].deps :: d in placed
  }

  ghost predicate SomeReady(at: map<Name, Package>, placed: set<Name>) {
    exists n :: IsReady(at, placed, n)
  }

  /** `layer` is a sink cycle of the remaining graph, led by the least package of all sink cycles. */
  ghost predicate LeastSinkCycle(r: Ranking, at: map<Name, Package>, placed: set<Name>, layer: seq<Package>) {
    var g := GraphOf(at, placed);
    && layer != []
    && SinkCycle(g, Elems(Names(layer)))
    && forall c, n | SinkCycle(g, c) && n in c && n in at :: r.Compare(layer[0], at[n]) <= 0
  }

  /** What one round of the ordering loop may append once `placed` is out. */
  ghost predicate IsLayer(r: Ranking, at: map<Name, Package>, placed: set<Name>, layer: seq<Package>) {
    && layer != []
    && (forall p | p in layer :: p.short in at && at[p.short] == p)
    && NoDup(Names(layer))
    && Sorted(r.Le(), layer)
    && (if SomeReady(at, placed)
        then forall n :: n in Names(layer) <==> IsReady(at, placed, n)
        else LeastSinkCycle(r, at, placed, layer))
  }

  function Flatten(layers: seq<seq<Package>>): seq<Package> {
    if layers == [] then [] else Flatten(layers[..|layers| - 1]) + layers[|layers| - 1]
  }

  function Placed(layers: seq<seq<Package>>): set<Name> {
    if layers == [] then {} else Placed(layers[..|layers| - 1]) + Elems(Names(layers[|layers| - 1]))
  }

  ghost predicate LayerAt(r: Ranking, at: map<Name, Package>, layers: seq<seq<Package>>, i: nat)
    requires i < |layers|
  {
    IsLayer(r, at, Placed(layers[..i]), layers[i])
  }

  ghost predicate Layered(r: Ranking, at: map<Name, Package>, layers: seq<seq<Package>>) {
    forall i | 0 <= i < |layers| :: LayerAt(r, at, layers, i)
  }

  /** A finished ordering: layer after layer until every package is placed. */
  ghost predicate Ordering(r: Ranking, at: map<Name, Package>, layers: seq<seq<Package>>) {
    Layered(r, at, layers) && Placed(layers) == at.Keys
  }

  lemma LayeredSnoc(r: Ranking, at: map<Name, Package>, layers: seq<seq<Package>>, layer: seq<Package>)
    requires Layered(r, at, layers) && IsLayer(r, at, Placed(layers), layer)
    ensures Layered(r, at, layers + [layer])
    ensures Placed(layers + [layer]) == Placed(layers) + Elems(Names(layer))
    ensures Flatten(layers + [layer]) == Flatten(layers) + layer
  {
    var all := layers + [layer];
    assert all[..|layers|] == layers;
    forall i | 0 <= i < |all| ensures LayerAt(r, at, all, i) {
      if i < |layers| {
        assert all[..i] == layers[..i] && LayerAt(r, at, layers, i);
      }
    }
  }

  function PackagesOf(at: map<Name, Package>, names: seq<Name>): (r: seq<Package>)
    requires Keyed(at) && Elems(names) <= at.Keys
    ensures Names(r) == names
    ensures forall p | p in r :: p.short in at && at[p.short] == p
  {
    seq(|names|, i requires 0 <= i < |names| => assert names[i] in Elems(names); at[names[i]])
  }

  function ReadyNames(at: map<Name, Package>, remaining: seq<Name>, placed: set<Name>): (r: seq<Name>)
    ensures forall n :: n in r <==> n in remaining && IsReady(at, placed, n)
    ensures NoDup(remaining) ==> NoDup(r)
  {
    if remaining == [] then []
    else
      var init, last := remaining[..|remaining| - 1], remaining[|remaining| - 1];
      assert remaining == init + [last];
      ReadyNames(at, init, placed) + if IsReady(at, placed, last) then [last] else []
  }

  function Without(s: seq<Name>, x: Name): (r: seq<Name>)
    ensures forall n :: n in r <==> n in s && n != x
    ensures NoDup(s) ==> NoDup(r)
    ensures |r| <= |s| && (x in s ==> |r| < |s|)
  {
    if s == [] then []
    else
      var init, last := s[..|s| - 1], s[|s| - 1];
      assert s == init + [last];
      var rest := Without(init, x);
      assert NoDup(s) ==> last !in init && last !in rest;
      if last == x then rest else rest + [last]
  }

  lemma SortedLayer(r: Ranking, at: map<Name, Package>, names: seq<Name>)
    requires r.Consistent() && Keyed(at) && Elems(names) <= at.Keys && NoDup(names)
    ensures var layer := Sort(r.Le(), PackagesOf(at, names));
            && |layer| == |names|
            && (forall p | p in layer :: p.short in at && at[p.short] == p)
            && NoDup(Names(layer)) && Sorted(r.Le(), layer)
            && Elems(Names(layer)) == Elems(names)
  {
    var ps := PackagesOf(at, names);
    var layer := Sort(r.Le(), ps);
    r.ComparePreorder();
    SortSorted(r.Le(), ps);
    SameElems(layer, ps);
    SortNoDup(r.Le(), ps);
    SameNames(layer, ps);
    KeyedNoDup(at, layer);
  }

  lemma SameNames(a: seq<Package>, b: seq<Package>)
    requires forall p :: p in a <==> p in b
    ensures Elems(Names(a)) == Elems(Names(b))
  {
    forall n | n in Names(a) ensures n in Names(b) {
      NameOf(a, b, n);
    }
    forall n | n in Names(b) ensures n in Names(a) {
      NameOf(b, a, n);
    }
  }

  lemma NameOf(a: seq<Package>, b: seq<Package>, n: Name)
    requires n in Names(a) && forall p | p in a :: p in b
    ensures n in Names(b)
  {
    var j :| 0 <= j < |a| && Names(a)[j] == n;
    assert a[j] in b;
    var i :| 0 <= i < |b| && b[i] == a[j];
    assert Names(b)[i] == n;
  }

  lemma KeyedNoDup(at: map<Name, Package>, ps: seq<Package>)
    requires NoDup(ps) && forall p | p in ps :: p.short in at && at[p.short] == p
    ensures NoDup(Names(ps))
  {
    forall i, j | 0 <= i < j < |ps| ensures Names(ps)[i] != Names(ps)[j] {
      assert ps[i] in ps && ps[j] in ps;
      assert ps[i] != ps[j];
    }
  }

  /** A component as the search hands it over: never empty. */
  type Component = c: seq<Package> | c != [] witness [Package("", "", "", "", [])]

  function FirstLe(r: Ranking): (Component, Component) -> bool {
    (a: Component, b: Component) => r.Compare(a[0], b[0]) <= 0
  }

  predicate CyclesIn(at: map<Name, Package>, cycles: seq<seq<Name>>) {
    forall i | 0 <= i < |cycles| :: cycles[i] != [] && Elems(cycles[i]) <= at.Keys
  }

  function SortedComponent(r: Ranking, at: map<Name, Package>, c: seq<Name>): Component
    requires Keyed(at) && c != [] && Elems(c) <= at.Keys
  {
    var layer := Sort(r.Le(), PackagesOf(at, c));
    assert |multiset(layer)| == |multiset(PackagesOf(at, c))|;
    layer
  }

  function SortedComponents(r: Ranking, at: map<Name, Package>, cycles: seq<seq<Name>>): (cs: seq<Component>)
    requires Keyed(at) && CyclesIn(at, cycles)
    ensures |cs| == |cycles| && forall i | 0 <= i < |cs| :: cs[i] == SortedComponent(r, at, cycles[i])
  {
    seq(|cycles|, i requires 0 <= i < |cycles| => SortedComponent(r, at, cycles[i]))
  }

  lemma ListedCycle(at: map<Name, Package>, placed: set<Name>, cycles: seq<seq<Name>>, c: seq<Name>)
    requires ListsSinkCycles(GraphOf(at, placed), cycles) && c in cycles
    ensures c != [] && NoDup(c) && Elems(c) <= at.Keys && SinkCycle(GraphOf(at, placed), Elems(c))
  {
    var i :| 0 <= i < |cycles| && cycles[i] == c;
    assert SinkCycle(GraphOf(at, placed), Elems(cycles[i]));
    assert Elems<Name>([]) == {};
  }

  /** The member of a sorted component that stands first is no greater than any other. */
  lemma FirstIsLeast(r: Ranking, at: map<Name, Package>, c: seq<Name>, n: Name)
    requires r.Consistent() && Keyed(at) && Elems(c) <= at.Keys && NoDup(c) && n in c
    ensures n in at
    ensures var layer := Sort(r.Le(), PackagesOf(at, c)); layer != [] && r.Compare(layer[0], at[n]) <= 0
  {
    assert n in Elems(c);
    SortedLayer(r, at, c);
    var layer := Sort(r.Le(), PackagesOf(at, c));
    assert n in Names(layer) by {
      assert n in Elems(Names(layer));
    }
    var j :| 0 <= j < |layer| && Names(layer)[j] == n;
    assert layer[j] in layer;
    r.ComparePreorder();
    assert r.Le()(layer[0], layer[j]);
  }

  lemma ChosenCycle(r: Ranking, at: map<Name, Package>, placed: set<Name>, cycles: seq<seq<Name>>, layer: seq<Package>)
    requires r.Consistent() && Keyed(at) && cycles != []
    requires ListsSinkCycles(GraphOf(at, placed), cycles)
    requires CyclesIn(at, cycles)
    requires layer == Sort(FirstLe(r), SortedComponents(r, at, cycles))[0]
    requires !SomeReady(at, placed)
    ensures IsLayer(r, at, placed, layer)
  {
    var k := ChosenIndex(r, at, cycles, layer);
    ListedCycle(at, placed, cycles, cycles[k]);
    SortedLayer(r, at, cycles[k]);
    ChosenLeast(r, at, placed, cycles, layer);
    assert SinkCycle(GraphOf(at, placed), Elems(Names(layer)));
    assert LeastSinkCycle(r, at, placed, layer);
  }

  lemma ChosenIndex(r: Ranking, at: map<Name, Package>, cycles: seq<seq<Name>>, layer: seq<Package>) returns (k: nat)
    requires Keyed(at) && cycles != [] && CyclesIn(at, cycles)
    requires layer == Sort(FirstLe(r), SortedComponents(r, at, cycles))[0]
    ensures k < |cycles| && layer == SortedComponent(r, at, cycles[k])
  {
    var cs := SortedComponents(r, at, cycles);
    var sorted := Sort(FirstLe(r), cs);
    SameElems(sorted, cs);
    assert sorted[0] in cs;
    k :| 0 <= k < |cs| && cs[k] == layer;
  }

  lemma ChosenLeast(r: Ranking, at: map<Name, Package>, placed: set<Name>, cycles: seq<seq<Name>>, layer: seq<Package>)
    requires r.Consistent() && Keyed(at) && cycles != []
    requires ListsSinkCycles(GraphOf(at, placed), cycles) && CyclesIn(at, cycles)
    requires layer == Sort(FirstLe(r), SortedComponents(r, at, cycles))[0]
    ensures forall c, n | SinkCycle(GraphOf(at, placed), c) && n in c && n in at ::
              layer != [] && r.Compare(layer[0], at[n]) <= 0
  {
    var cs := SortedComponents(r, at, cycles);
    var sorted := Sort(FirstLe(r), cs);
    FirstPreorder(r);
    SortSorted(FirstLe(r), cs);
    SameElems(sorted, cs);
    forall c, n | SinkCycle(GraphOf(at, placed), c) && n in c && n in at ensures r.Compare(layer[0], at[n]) <= 0 {
      var m := ListedIndex(GraphOf(at, placed), cycles, c);
      LeastOfAll(r, sorted, cs[m]);
      CycleLeast(r, at, placed, cycles, m, n);
      r.CompareTransitive(layer[0], cs[m][0], at[n]);
    }
  }

  lemma ListedIndex(g: Graph, cycles: seq<seq<Name>>, c: set<Name>) returns (m: nat)
    requires ListsSinkCycles(g, cycles) && SinkCycle(g, c)
    ensures m < |cycles| && Elems(cycles[m]) == c
  {
    m :| 0 <= m < |cycles| && Elems(cycles[m]) == c;
  }

  lemma LeastOfAll(r: Ranking, sorted: seq<Component>, c: Component)
    requires c in sorted && Sorted(FirstLe(r), sorted) && TotalPreorder(FirstLe(r))
    ensures r.Compare(sorted[0][0], c[0]) <= 0
  {
    var p :| 0 <= p < |sorted| && sorted[p] == c;
    assert FirstLe(r)(sorted[0], sorted[p]);
  }

  lemma CycleLeast(r: Ranking, at: map<Name, Package>, placed: set<Name>, cycles: seq<seq<Name>>, m: nat, n: Name)
    requires r.Consistent() && Keyed(at) && CyclesIn(at, cycles)
    requires ListsSinkCycles(GraphOf(at, placed), cycles)
    requires m < |cycles| && n in cycles[m] && n in at
    ensures r.Compare(SortedComponents(r, at, cycles)[m][0], at[n]) <= 0
  {
    ListedCycle(at, placed, cycles, cycles[m]);
    FirstIsLeast(r, at, cycles[m], n);
  }

  lemma FirstPreorder(r: Ranking)
    requires r.Consistent()
    ensures TotalPreorder(FirstLe(r))
  {
    r.ComparePreorder();
    forall a: Component, b: Component ensures FirstLe(r)(a, b) || FirstLe(r)(b, a) {
      assert r.Le()(a[0], b[0]) || r.Le()(b[0], a[0]);
    }
    forall a: Component, b: Component, c: Component | FirstLe(r)(a, b) && FirstLe(r)(b, c) ensures FirstLe(r)(a, c) {
      r.CompareTransitive(a[0], b[0], c[0]);
    }
  }

  lemma ReadyLayer(r: Ranking, at: map<Name, Package>, remaining: seq<Name>, placed: set<Name>, names: seq<Name>)
    requires r.Consistent() && Keyed(at) && NoDup(remaining)
    requires Elems(remaining) == at.Keys - placed
    requires names == ReadyNames(at, remaining, placed) && names != [] && Elems(names) <= at.Keys
    ensures IsLayer(r, at, placed, Sort(r.Le(), PackagesOf(at, names)))
  {
    SortedLayer(r, at, names);
    var layer := Sort(r.Le(), PackagesOf(at, names));
    forall n ensures n in Names(layer) <==> IsReady(at, placed, n) {
      assert n in Names(layer) <==> n in Elems(Names(layer));
      assert n in names <==> n in Elems(names);
      assert n in remaining <==> n in Elems(remaining);
    }
    assert IsReady(at, placed, names[0]);
  }

  /** With nothing ready, every package still waits for one that is not placed either. */
  lemma NothingReady(at: map<Name, Package>, placed: set<Name>)
    requires Known(at) && !SomeReady(at, placed)
    ensures Blocked(GraphOf(at, placed))
  {
    var g := GraphOf(at, placed);
    forall n | n in g ensures Waits(g, n) {
      assert !IsReady(at, placed, n);
      var d :| d in at[n].deps && d !in placed;
      assert Edge(g, n, d);
    }
  }

  predicate KnownDeps(ps: seq<Package>) {
    forall p | p in ps :: forall d | d in p.deps :: d in ByName(ps)
  }

  /** The first dependency, in reading order, that names no package. */
  ghost predicate FirstMissing(ps: seq<Package>, pkg: Package, dependency: Name) {
    var at := ByName(ps);
    exists i, j | 0 <= i < |ps| && 0 <= j < |ps[i].deps| ::
      && pkg == ps[i] && dependency == ps[i].deps[j] && dependency !in at
      && (forall d | d in ps[i].deps[..j] :: d in at)
      && (forall p | p in ps[..i] :: forall d | d in p.deps :: d in at)
  }

  lemma {:induction false} ByNameValues(ps: seq<Package>, n: Name)
    requires n in ByName(ps)
    ensures ByName(ps)[n] in ps
  {
    if n != ps[|ps| - 1].short {
      ByNameValues(ps[..|ps| - 1], n);
    }
  }

  lemma KnownByName(ps: seq<Package>)
    requires KnownDeps(ps)
    ensures Known(ByName(ps))
  {
    var at := ByName(ps);
    forall n, d | n in at && d in at[n].deps ensures d in at {
      ByNameValues(ps, n);
    }
  }

  method CheckPeers(packages: seq<Package>, at: map<Name, Package>) returns (missing: seq<(Package, Name)>)
    requires at == ByName(packages)
    ensures missing == [] <==> KnownDeps(packages)
    ensures missing != [] ==> |missing| == 1 && FirstMissing(packages, missing[0].0, missing[0].1)
  {
    for i := 0 to |packages|
      invariant forall p | p in packages[..i] :: forall d | d in p.deps :: d in at
    {
      var pkg := packages[i];
      for j := 0 to |pkg.deps|
        invariant forall d | d in pkg.deps[..j] :: d in at
      {
        if pkg.deps[j] !in at {
          assert pkg in packages && pkg.deps[j] in pkg.deps;
          return [(pkg, pkg.deps[j])];
        }
      }
      assert pkg.deps[..|pkg.deps|] == pkg.deps;
    }
    assert packages[..|packages|] == packages;
    return [];
  }

  /** Order packages after their dependencies; the ghost result records the rounds of the loop. */
  method TopoSort(packages: seq<Package>, ranking: Ranking) returns (r: Result, ghost layers: seq<seq<Package>>)
    requires ranking.Consistent()
    ensures r.Ok? <==> KnownDeps(packages)
    ensures r.Ok? ==> Ordering(ranking, ByName(packages), layers) && r.packages == Flatten(layers)
    ensures r.Err? ==> r.error.MissingPeer? && FirstMissing(packages, r.error.pkg, r.error.dependency)
  {
    layers := [];
    var at := ByName(packages);
    var missing := CheckPeers(packages, at);
    if missing != [] {
      return Err(MissingPeer(missing[0].0, missing[0].1)), layers;
    }
    KnownByName(packages);
    var remaining := KeyOrder(packages);
    var placed: set<Name> := {};
    var out: seq<Package> := [];
    while remaining != []
      invariant Layered(ranking, at, layers)
      invariant out == Flatten(layers) && placed == Placed(layers)
      invariant NoDup(remaining) && Elems(remaining) == at.Keys - placed
      invariant placed <= at.Keys
      decreases |remaining|
    {
      var layer := NextLayer(at, remaining, placed, ranking);
      LayeredSnoc(ranking, at, layers, layer);
      layers := layers + [layer];
      out, placed, remaining := Place(at, layer, out, placed, remaining);
    }
    assert Elems<Name>([]) == {};
    r := Ok(out);
  }

  method NextLayer(at: map<Name, Package>, remaining: seq<Name>, placed: set<Name>, ranking: Ranking)
    returns (layer: seq<Package>)
    requires ranking.Consistent() && Keyed(at) && Known(at)
    requires NoDup(remaining) && Elems(remaining) == at.Keys - placed && remaining != []
    ensures IsLayer(ranking, at, placed, layer)
  {
    var names := ReadyNames(at, remaining, placed);
    if names != [] {
      ReadyLayer(ranking, at, remaining, placed, names);
      layer := Sort(ranking.Le(), PackagesOf(at, names));
    } else {
      forall n ensures !IsReady(at, placed, n) {
        assert n in remaining <==> n in Elems(remaining);
        assert n !in names;
      }
      NothingReady(at, placed);
      var g := GraphOf(at, placed);
      assert remaining[0] in Elems(remaining) && remaining[0] in g;
      var search := new SinkSearch(g, remaining);
      var cycles := search.Search();
      forall i | 0 <= i < |cycles| ensures cycles[i] != [] && Elems(cycles[i]) <= at.Keys {
        ListedCycle(at, placed, cycles, cycles[i]);
      }
      var components := Sort(FirstLe(ranking), SortedComponents(ranking, at, cycles));
      SameElems(components, SortedComponents(ranking, at, cycles));
      layer := components[0];
      ChosenCycle(ranking, at, placed, cycles, layer);
    }
  }

  method Place(at: map<Name, Package>, layer: seq<Package>, out0: seq<Package>, placed0: set<Name>,
               remaining0: seq<Name>)
    returns (out: seq<Package>, placed: set<Name>, remaining: seq<Name>)
    requires NoDup(remaining0) && Elems(remaining0) == at.Keys - placed0 && layer != []
    requires forall p | p in layer :: p.short in at
    ensures out == out0 + layer && placed == placed0 + Elems(Names(layer))
    ensures NoDup(remaining) && Elems(remaining) == at.Keys - placed
    ensures layer[0].short !in placed0 ==> |remaining| < |remaining0|
  {
    out, placed, remaining := out0, placed0, remaining0;
    for i := 0 to |layer|
      invariant out == out0 + layer[..i]
      invariant placed == placed0 + Elems(Names(layer)[..i])
      invariant NoDup(remaining) && Elems(remaining) == at.Keys - placed
      invariant |remaining| <= |remaining0|
      invariant i > 0 && layer[0].short !in placed0 ==> |remaining| < |remaining0|
    {
      var name := layer[i].short;
      out := out + [layer[i]];
      assert Names(layer)[..i + 1] == Names(layer)[..i] + [name];
      placed := placed + {name};
      assert layer[i] in layer && (name in remaining <==> name in Elems(remaining));
      ghost var was := remaining;
      remaining := Without(remaining, name);
      assert Elems(remaining) == Elems(was) - {name};
    }
    assert Names(layer)[..|layer|] == Names(layer) && layer[..|layer|] == layer;
  }
}
