/** What the finished ordering promises, for every package graph. */
module PackageOrderLaws {
  import opened Digraph
  import opened Sorting
  import opened SinkCycles
  import opened PackageOrder

  function Concat(blocks: seq<seq<Name>>): seq<Name> {
    if blocks == [] then [] else Concat(blocks[..|blocks| - 1]) + blocks[|blocks| - 1]
  }

  // ----- the output is a listing of strongly connected components, dependencies first

  lemma AddBlock(g: Graph, blocks: seq<seq<Name>>, c: seq<Name>)
    requires Emitted(g, blocks) && IsComponent(g, c)
    requires Elems(c) !! Done(blocks) && Closed(g, Done(blocks) + Elems(c))
    ensures Emitted(g, blocks + [c])
    ensures Done(blocks + [c]) == Done(blocks) + Elems(c)
    ensures Concat(blocks + [c]) == Concat(blocks) + c
  {
    AddComponent(g, blocks, c);
    assert (blocks + [c])[..|blocks|] == blocks;
  }

  lemma EmittedClosed(g: Graph, blocks: seq<seq<Name>>)
    requires Emitted(g, blocks)
    ensures Closed(g, Done(blocks))
  {
    assert blocks[..|blocks|] == blocks;
    assert Closed(g, Done(blocks[..|blocks|]));
  }

  /** A package whose dependencies are all placed is a component of its own. */
  lemma ReadyIsComponent(g: Graph, placed: set<Name>, n: Name)
    requires n in g && n !in placed && Closed(g, placed) && Closed(g, placed + {n})
    ensures IsComponent(g, [n])
  {
    ReachRefl(g, n);
    forall u, v | u in {n} ensures v in {n} <==> Mutual(g, u, v) {
      if Mutual(g, n, v) {
        ReachInClosed(g, placed + {n}, n, v);
        if v in placed {
          ReachInClosed(g, placed, v, n);
        }
      }
    }
    assert Elems([n]) == {n};
  }

  lemma ReadyCloses(at: map<Name, Package>, before: set<Name>, done: set<Name>, last: Name)
    requires Closed(GraphOf(at, {}), done) && before <= done && IsReady(at, before, last)
    ensures Closed(GraphOf(at, {}), done + {last})
  {
    var g := GraphOf(at, {});
    forall u, v {:trigger Edge(g, u, v)} | u in done + {last} && Edge(g, u, v) ensures v in done + {last} {
      assert u == last ==> v in before;
    }
  }

  lemma {:induction false} ReadyBlocks(at: map<Name, Package>, blocks: seq<seq<Name>>, names: seq<Name>)
    returns (r: seq<seq<Name>>)
    requires Emitted(GraphOf(at, {}), blocks) && NoDup(names)
    requires forall n | n in names :: IsReady(at, Done(blocks), n)
    ensures Emitted(GraphOf(at, {}), r)
    ensures Done(r) == Done(blocks) + Elems(names) && Concat(r) == Concat(blocks) + names
  {
    if names == [] {
      r := blocks;
    } else {
      var init, last := names[..|names| - 1], names[|names| - 1];
      assert names == init + [last] && last in names;
      var g := GraphOf(at, {});
      r := ReadyBlocks(at, blocks, init);
      EmittedClosed(g, r);
      ReadyCloses(at, Done(blocks), Done(r), last);
      ReadyIsComponent(g, Done(r), last);
      AddBlock(g, r, [last]);
      r := r + [[last]];
      assert Elems(names) == Elems(init) + {last};
    }
  }

  /** Reachability among the remaining packages is reachability in the whole graph. */
  lemma ReachLifts(at: map<Name, Package>, placed: set<Name>, u: Name, v: Name)
    requires Reach(GraphOf(at, placed), u, v)
    ensures Reach(GraphOf(at, {}), u, v)
  {
    var g, whole := GraphOf(at, placed), GraphOf(at, {});
    forall s | Closed(whole, s) && u in s ensures v in s {
      forall a, b | a in s && Edge(g, a, b) ensures b in s {
        assert Edge(whole, a, b);
      }
      assert Closed(g, s);
    }
  }

  lemma SinkClosed(at: map<Name, Package>, placed: set<Name>, c: set<Name>)
    requires Known(at) && Closed(GraphOf(at, {}), placed) && SinkCycle(GraphOf(at, placed), c)
    ensures Closed(GraphOf(at, {}), placed + c)
  {
    forall u, v | u in placed + c && Edge(GraphOf(at, {}), u, v) ensures v in placed + c {
      if u !in placed && v !in placed {
        assert Edge(GraphOf(at, placed), u, v);
      }
    }
  }

  /** A sink cycle of the remaining packages is a component of the whole graph. */
  lemma SinkIsComponent(at: map<Name, Package>, placed: set<Name>, c: set<Name>)
    requires Known(at) && Closed(GraphOf(at, {}), placed) && SinkCycle(GraphOf(at, placed), c)
    ensures IsScc(GraphOf(at, {}), c)
  {
    var g, whole := GraphOf(at, placed), GraphOf(at, {});
    SinkClosed(at, placed, c);
    forall u, v | u in c ensures v in c <==> Mutual(whole, u, v) {
      if v in c {
        assert Mutual(g, u, v);
        ReachLifts(at, placed, u, v);
        ReachLifts(at, placed, v, u);
      } else if Mutual(whole, u, v) {
        ReachInClosed(whole, placed + c, u, v);
        ReachInClosed(whole, placed, v, u);
      }
    }
  }

  lemma NamesConcat(a: seq<Package>, b: seq<Package>)
    ensures Names(a + b) == Names(a) + Names(b)
  {
  }

  lemma LayeredInit(r: Ranking, at: map<Name, Package>, layers: seq<seq<Package>>)
    requires Layered(r, at, layers) && layers != []
    ensures Layered(r, at, layers[..|layers| - 1])
    ensures IsLayer(r, at, Placed(layers[..|layers| - 1]), layers[|layers| - 1])
  {
    var init := layers[..|layers| - 1];
    assert LayerAt(r, at, layers, |layers| - 1);
    forall i | 0 <= i < |init| ensures LayerAt(r, at, init, i) {
      assert LayerAt(r, at, layers, i);
      assert init[..i] == layers[..i];
    }
  }

  /** The layers split into blocks: components of the whole graph, in reverse topological order. */
  lemma {:induction false} LayersAreBlocks(r: Ranking, at: map<Name, Package>, layers: seq<seq<Package>>)
    returns (blocks: seq<seq<Name>>)
    requires Layered(r, at, layers) && Known(at)
    ensures Emitted(GraphOf(at, {}), blocks) && Done(blocks) == Placed(layers)
    ensures Concat(blocks) == Names(Flatten(layers))
  {
    var g := GraphOf(at, {});
    if layers == [] {
      blocks := [];
      assert blocks[..0] == [];
    } else {
      var init, layer := layers[..|layers| - 1], layers[|layers| - 1];
      LayeredInit(r, at, layers);
      var before := LayersAreBlocks(r, at, init);
      var placed := Placed(init);
      EmittedClosed(g, before);
      NamesConcat(Flatten(init), layer);
      if SomeReady(at, placed) {
        blocks := ReadyBlocks(at, before, Names(layer));
      } else {
        SinkClosed(at, placed, Elems(Names(layer)));
        SinkIsComponent(at, placed, Elems(Names(layer)));
        AddBlock(g, before, Names(layer));
        blocks := before + [Names(layer)];
      }
    }
  }

  lemma EmittedInit(g: Graph, blocks: seq<seq<Name>>)
    requires Emitted(g, blocks) && blocks != []
    ensures Emitted(g, blocks[..|blocks| - 1])
    ensures IsComponent(g, blocks[|blocks| - 1])
    ensures Elems(blocks[|blocks| - 1]) !! Done(blocks[..|blocks| - 1])
    ensures Closed(g, Done(blocks[..|blocks| - 1]))
  {
    var init, last := blocks[..|blocks| - 1], blocks[|blocks| - 1];
    forall i | 0 <= i <= |init| ensures Closed(g, Done(init[..i])) {
      assert init[..i] == blocks[..i];
    }
    forall u | u in Done(init) ensures u !in last {
      var i := DoneMember(init, u);
      assert Elems(blocks[i]) !! Elems(last);
      assert u in Elems(blocks[i]);
    }
  }

  lemma InLastBlock(blocks: seq<seq<Name>>, j: nat)
    requires blocks != [] && |Concat(blocks[..|blocks| - 1])| <= j < |Concat(blocks)|
    ensures Concat(blocks)[j] in Elems(blocks[|blocks| - 1])
  {
    var last := blocks[|blocks| - 1];
    assert Concat(blocks)[j] == last[j - |Concat(blocks[..|blocks| - 1])|];
  }

  lemma {:induction false} ConcatMembers(blocks: seq<seq<Name>>)
    ensures Elems(Concat(blocks)) == Done(blocks)
  {
    if blocks != [] {
      ConcatMembers(blocks[..|blocks| - 1]);
    }
  }

  lemma {:induction false} BlocksNoDup(g: Graph, blocks: seq<seq<Name>>)
    requires Emitted(g, blocks)
    ensures NoDup(Concat(blocks))
  {
    if blocks != [] {
      var init, last := blocks[..|blocks| - 1], blocks[|blocks| - 1];
      EmittedInit(g, blocks);
      BlocksNoDup(g, init);
      ConcatMembers(init);
      assert forall i | 0 <= i < |Concat(init)| :: Concat(init)[i] in Elems(Concat(init));
      assert forall i | 0 <= i < |last| :: last[i] in Elems(last);
    }
  }

  /** An edge that does not lead backwards in the listing stays within a component. */
  lemma {:induction false} BlocksForwardEdge(g: Graph, blocks: seq<seq<Name>>, i: nat, j: nat)
    requires Emitted(g, blocks) && i <= j < |Concat(blocks)|
    requires Edge(g, Concat(blocks)[i], Concat(blocks)[j])
    ensures Mutual(g, Concat(blocks)[i], Concat(blocks)[j])
  {
    var init, last := blocks[..|blocks| - 1], blocks[|blocks| - 1];
    var k := |Concat(init)|;
    EmittedInit(g, blocks);
    ConcatMembers(init);
    if k <= i {
      InLastBlock(blocks, i);
      InLastBlock(blocks, j);
    } else {
      assert Concat(init)[i] in Elems(Concat(init));
      if k <= j {
        InLastBlock(blocks, j);
      } else {
        BlocksForwardEdge(g, init, i, j);
      }
    }
  }

  /** Between two members of a component stand only members of it. */
  lemma {:induction false} BlocksContiguous(g: Graph, blocks: seq<seq<Name>>, i: nat, j: nat, k: nat)
    requires Emitted(g, blocks) && i <= j <= k < |Concat(blocks)|
    requires Mutual(g, Concat(blocks)[i], Concat(blocks)[k])
    ensures Mutual(g, Concat(blocks)[i], Concat(blocks)[j])
  {
    var init, last := blocks[..|blocks| - 1], blocks[|blocks| - 1];
    var n := |Concat(init)|;
    EmittedInit(g, blocks);
    ConcatMembers(init);
    if n <= i {
      InLastBlock(blocks, i);
      InLastBlock(blocks, j);
    } else {
      assert Concat(init)[i] in Elems(Concat(init));
      ReachInClosed(g, Done(init), Concat(blocks)[i], Concat(blocks)[k]);
      if n <= k {
        InLastBlock(blocks, k);
      } else {
        BlocksContiguous(g, init, i, j, k);
      }
    }
  }

  /** Every package is output exactly once. */
  lemma EachOnce(r: Ranking, at: map<Name, Package>, layers: seq<seq<Package>>)
    requires Ordering(r, at, layers) && Known(at)
    ensures var out := Flatten(layers);
            && NoDup(Names(out))
            && (forall p | p in out :: p.short in at && at[p.short] == p)
            && (forall n | n in at :: n in Names(out))
  {
    var blocks := LayersAreBlocks(r, at, layers);
    BlocksNoDup(GraphOf(at, {}), blocks);
    ConcatMembers(blocks);
    forall n | n in at ensures n in Names(Flatten(layers)) {
      assert n in Elems(Concat(blocks));
    }
    FlattenFrom(r, at, layers);
  }

  lemma {:induction false} FlattenFrom(r: Ranking, at: map<Name, Package>, layers: seq<seq<Package>>)
    requires Layered(r, at, layers)
    ensures forall p | p in Flatten(layers) :: p.short in at && at[p.short] == p
  {
    if layers != [] {
      var init := layers[..|layers| - 1];
      LayeredInit(r, at, layers);
      FlattenFrom(r, at, init);
    }
  }

  /**
   * A dependency that does not precede its dependent is caught in a cycle with it:
   * the two are mutually reachable in the whole graph.
   */
  lemma DependencyFirst(r: Ranking, at: map<Name, Package>, layers: seq<seq<Package>>, i: nat, j: nat)
    requires Ordering(r, at, layers) && Known(at)
    requires i <= j < |Flatten(layers)|
    requires Flatten(layers)[j].short in Flatten(layers)[i].deps
    ensures Mutual(GraphOf(at, {}), Flatten(layers)[i].short, Flatten(layers)[j].short)
  {
    var blocks := LayersAreBlocks(r, at, layers);
    FlattenFrom(r, at, layers);
    var out := Flatten(layers);
    assert out[i] in out && out[j] in out;
    assert Concat(blocks)[i] == out[i].short && Concat(blocks)[j] == out[j].short;
    BlocksForwardEdge(GraphOf(at, {}), blocks, i, j);
  }

  /** The members of one cycle stand next to each other. */
  lemma CyclesContiguous(r: Ranking, at: map<Name, Package>, layers: seq<seq<Package>>, i: nat, j: nat, k: nat)
    requires Ordering(r, at, layers) && Known(at)
    requires i <= j <= k < |Flatten(layers)|
    requires Mutual(GraphOf(at, {}), Flatten(layers)[i].short, Flatten(layers)[k].short)
    ensures Mutual(GraphOf(at, {}), Flatten(layers)[i].short, Flatten(layers)[j].short)
  {
    var blocks := LayersAreBlocks(r, at, layers);
    var out := Flatten(layers);
    assert Concat(blocks)[i] == out[i].short && Concat(blocks)[j] == out[j].short && Concat(blocks)[k] == out[k].short;
    BlocksContiguous(GraphOf(at, {}), blocks, i, j, k);
  }

  // ----- the output does not depend on the order of the input

  lemma SameMembers(at: map<Name, Package>, a: seq<Package>, b: seq<Package>)
    requires forall p | p in a :: p.short in at && at[p.short] == p
    requires forall p | p in b :: p.short in at && at[p.short] == p
    requires forall n | n in Names(a) :: n in Names(b)
    ensures forall p | p in a :: p in b
  {
    forall p | p in a ensures p in b {
      var i :| 0 <= i < |a| && a[i] == p;
      assert Names(a)[i] in Names(b);
      var j :| 0 <= j < |b| && Names(b)[j] == p.short;
      assert b[j] in b;
    }
  }

  lemma LayerFromNames(r: Ranking, at: map<Name, Package>, placed: set<Name>, a: seq<Package>, b: seq<Package>)
    requires r.Consistent() && r.Strict()
    requires IsLayer(r, at, placed, a) && IsLayer(r, at, placed, b)
    requires Elems(Names(a)) == Elems(Names(b))
    ensures a == b
  {
    forall n ensures n in Names(a) <==> n in Names(b) {
      assert n in Elems(Names(a)) <==> n in Elems(Names(b));
    }
    SameMembers(at, a, b);
    SameMembers(at, b, a);
    NoDupSize(Names(a));
    NoDupSize(Names(b));
    forall p, q | p in a && q in a && r.Le()(p, q) && r.Le()(q, p) ensures p == q {
      r.CompareStrict(p, q);
    }
    assert NoDup(a) && NoDup(b) by {
      assert forall i | 0 <= i < |a| :: Names(a)[i] == a[i].short;
      assert forall i | 0 <= i < |b| :: Names(b)[i] == b[i].short;
    }
    SortedUnique(r.Le(), a, b);
  }

  lemma LayerUnique(r: Ranking, at: map<Name, Package>, placed: set<Name>, a: seq<Package>, b: seq<Package>)
    requires r.Consistent() && r.Strict()
    requires IsLayer(r, at, placed, a) && IsLayer(r, at, placed, b)
    ensures a == b
  {
    if SomeReady(at, placed) {
      assert Elems(Names(a)) == Elems(Names(b));
    } else {
      var c, d := Elems(Names(a)), Elems(Names(b));
      assert LeastSinkCycle(r, at, placed, a) && LeastSinkCycle(r, at, placed, b);
      assert a[0] in a && b[0] in b;
      assert Names(a)[0] in c && Names(b)[0] in d;
      assert r.Compare(a[0], at[b[0].short]) <= 0 && r.Compare(b[0], at[a[0].short]) <= 0;
      r.CompareStrict(a[0], b[0]);
      SccsDisjoint(GraphOf(at, placed), c, d, a[0].short);
    }
    LayerFromNames(r, at, placed, a, b);
  }

  lemma {:induction false} LayersAgree(r: Ranking, at: map<Name, Package>, a: seq<seq<Package>>,
                                       b: seq<seq<Package>>, i: nat)
    requires r.Consistent() && r.Strict() && Layered(r, at, a) && Layered(r, at, b)
    requires i <= |a| && i <= |b|
    ensures a[..i] == b[..i]
  {
    if i > 0 {
      LayersAgree(r, at, a, b, i - 1);
      assert LayerAt(r, at, a, i - 1) && LayerAt(r, at, b, i - 1);
      LayerUnique(r, at, Placed(a[..i - 1]), a[i - 1], b[i - 1]);
      assert a[..i] == a[..i - 1] + [a[i - 1]] && b[..i] == b[..i - 1] + [b[i - 1]];
    }
  }

  /** A layer adds packages that were not placed before. */
  lemma LayerIsNew(r: Ranking, at: map<Name, Package>, placed: set<Name>, layer: seq<Package>)
    requires IsLayer(r, at, placed, layer)
    ensures placed != at.Keys
  {
    assert layer[0] in layer;
    assert Names(layer)[0] in Names(layer);
    if !SomeReady(at, placed) {
      assert LeastSinkCycle(r, at, placed, layer);
      assert Names(layer)[0] in Elems(Names(layer));
    }
  }

  lemma NotLonger(r: Ranking, at: map<Name, Package>, a: seq<seq<Package>>, b: seq<seq<Package>>)
    requires r.Consistent() && r.Strict() && Ordering(r, at, a) && Layered(r, at, b)
    ensures |b| <= |a|
  {
    if |a| < |b| {
      LayersAgree(r, at, a, b, |a|);
      assert a[..|a|] == a && LayerAt(r, at, b, |a|);
      LayerIsNew(r, at, Placed(b[..|a|]), b[|a|]);
    }
  }

  /** When no two names tie, the name map determines the ordering. */
  lemma OrderingUnique(r: Ranking, at: map<Name, Package>, a: seq<seq<Package>>, b: seq<seq<Package>>)
    requires r.Consistent() && r.Strict() && Ordering(r, at, a) && Ordering(r, at, b)
    ensures a == b
  {
    NotLonger(r, at, a, b);
    NotLonger(r, at, b, a);
    LayersAgree(r, at, a, b, |a|);
    assert a[..|a|] == a && b[..|b|] == b;
  }

  lemma {:induction false} ByNameDomain(ps: seq<Package>)
    ensures ByName(ps).Keys == Elems(Names(ps))
  {
    if ps != [] {
      var init := ps[..|ps| - 1];
      ByNameDomain(init);
      assert Names(ps) == Names(init) + [ps[|ps| - 1].short];
    }
  }

  lemma SameNameMap(ps: seq<Package>, qs: seq<Package>)
    requires multiset(ps) == multiset(qs) && NoDup(Names(qs))
    ensures ByName(ps) == ByName(qs)
  {
    SameElems(ps, qs);
    SameNames(ps, qs);
    ByNameDomain(ps);
    ByNameDomain(qs);
    forall n | n in ByName(ps) ensures ByName(ps)[n] == ByName(qs)[n] {
      ByNameValues(ps, n);
      ByNameValues(qs, n);
      SameNamed(qs, ByName(ps)[n], ByName(qs)[n]);
    }
  }

  lemma SameNamed(qs: seq<Package>, p: Package, q: Package)
    requires NoDup(Names(qs)) && p in qs && q in qs && p.short == q.short
    ensures p == q
  {
    var i :| 0 <= i < |qs| && qs[i] == p;
    var j :| 0 <= j < |qs| && qs[j] == q;
    assert Names(qs)[i] == Names(qs)[j];
  }

  /** Uniquely named packages are ordered the same way however they are listed. */
  lemma InputOrderIrrelevant(r: Ranking, ps: seq<Package>, qs: seq<Package>, a: seq<seq<Package>>, b: seq<seq<Package>>)
    requires r.Consistent() && r.Strict()
    requires multiset(ps) == multiset(qs) && NoDup(Names(qs))
    requires Ordering(r, ByName(ps), a) && Ordering(r, ByName(qs), b)
    ensures Flatten(a) == Flatten(b)
  {
    SameNameMap(ps, qs);
    OrderingUnique(r, ByName(ps), a, b);
  }
}
