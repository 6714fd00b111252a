/**
 * The strongly-connected-components pass that picks the next block of packages
 * when every remaining one waits for another (Tarjan's algorithm and its sink filter).
 */
module SinkCycles {
  import opened Digraph
  import opened Sorting

  /** A snapshot of the search's variables. */
  datatype Walk = Walk(
    next: nat,
    idx: map<Name, nat>,
    low: map<Name, nat>,
    stack: seq<Name>,
    stacked: set<Name>,
    comps: seq<seq<Name>>)

  /** Every vertex already assigned to a component. */
  ghost function Done(comps: seq<seq<Name>>): (r: set<Name>)
    ensures forall i | 0 <= i < |comps| :: Elems(comps[i]) <= r
  {
    if comps == [] then {} else Done(comps[..|comps| - 1]) + Elems(comps[|comps| - 1])
  }


  ghost predicate Numbered(g: Graph, s: Walk) {
    && s.idx.Keys <= g.Keys
    && s.low.Keys == s.idx.Keys
    && (forall x | x in s.idx :: s.idx[x] < s.next)
    && (forall x, y {:trigger s.idx[x], s.idx[y]} | x in s.idx && y in s.idx && s.idx[x] == s.idx[y] :: x == y)
  }

  ghost predicate Stacked(s: Walk) {
    && s.stacked == Elems(s.stack)
    && s.stacked <= s.idx.Keys
    && forall i, j | 0 <= i < j < |s.stack| :: s.idx[s.stack[i]] < s.idx[s.stack[j]]
  }

  /** Along the stack, older vertices reach younger ones. */
  ghost predicate Forward(g: Graph, s: Walk) {
    forall i, j {:trigger Reach(g, s.stack[i], s.stack[j])} | 0 <= i <= j < |s.stack| ::
        Reach(g, s.stack[i], s.stack[j])
  }

  /** `z` is an active vertex no younger than `y` that `y` reaches. */
  ghost predicate Anchor(g: Graph, s: Walk, gray: set<Name>, y: Name, z: Name) {
    z in gray && z in s.idx && y in s.idx && s.idx[z] <= s.idx[y] && Reach(g, y, z)
  }

  ghost predicate HasAnchor(g: Graph, s: Walk, gray: set<Name>, y: Name) {
    exists z :: Anchor(g, s, gray, y, z)
  }

  ghost predicate Anchored(g: Graph, s: Walk, gray: set<Name>) {
    forall y {:trigger HasAnchor(g, s, gray, y)} | y in s.stacked :: HasAnchor(g, s, gray, y)
  }

  /** Visited vertices that are no longer active have only visited successors. */
  ghost predicate Explored(g: Graph, s: Walk, gray: set<Name>) {
    forall x, y {:trigger Edge(g, x, y)} | x in s.idx && x !in gray && Edge(g, x, y) :: y in s.idx
  }

  ghost predicate IsComponent(g: Graph, c: seq<Name>) {
    NoDup(c) && IsScc(g, Elems(c))
  }

  /** Components come in reverse topological order: edges lead to the same or an earlier one. */
  ghost predicate Emitted(g: Graph, comps: seq<seq<Name>>) {
    && (forall i | 0 <= i < |comps| :: IsComponent(g, comps[i]))
    && (forall i, j | 0 <= i < j < |comps| :: Elems(comps[i]) !! Elems(comps[j]))
    && (forall i | 0 <= i <= |comps| :: Closed(g, Done(comps[..i])))
  }

  ghost predicate Inv(g: Graph, s: Walk, gray: set<Name>) {
    && Numbered(g, s)
    && Stacked(s)
    && gray <= s.stacked
    && Forward(g, s)
    && Anchored(g, s, gray)
    && Explored(g, s, gray)
    && Emitted(g, s.comps)
    && Done(s.comps) == s.idx.Keys - s.stacked
  }

  /** What a search step may do to an earlier snapshot: only add. */
  ghost predicate Extends(s: Walk, t: Walk) {
    && s.next <= t.next
    && (forall x | x in s.idx :: x in t.idx && t.idx[x] == s.idx[x])
    && (forall x | x in s.idx && x in s.low :: x in t.low && t.low[x] == s.low[x])
    && (forall x | x in t.idx && x !in s.idx :: s.next <= t.idx[x])
    && s.stack <= t.stack
    && s.comps <= t.comps
  }

  /** `t.low[x]` is the index of a stacked vertex that `x` reaches. */
  ghost predicate LowWitness(g: Graph, t: Walk, x: Name, w: Name) {
    x in t.low && w in t.stacked && w in t.idx && t.idx[w] == t.low[x] && Reach(g, x, w)
  }

  /** No edge from above position `base` of the stack leads below `x`'s low-link. */
  ghost predicate LowBound(g: Graph, s: Walk, t: Walk, x: Name) {
    && x in t.low
    && forall y, z {:trigger Edge(g, y, z)} | y in t.stacked && y !in s.stacked && z in s.stacked && z in t.idx &&
        Edge(g, y, z) :: t.low[x] <= t.idx[z]
  }

  /** How a visit to `x` moves the search on, from snapshot `s` to snapshot `t`. */
  ghost predicate VisitEffect(g: Graph, s: Walk, t: Walk, x: Name) {
    && Extends(s, t)
    && x in t.idx && x in t.low && t.idx[x] == s.next
    && LowBound(g, s, t, x)
    && (|| (t.stack == s.stack && t.low[x] == s.next)
        || (x in t.stacked && t.low[x] < s.next && exists w :: LowWitness(g, t, x, w)))
  }

  ghost predicate Visited(g: Graph, s: Walk, t: Walk, gray: set<Name>, x: Name) {
    Inv(g, t, gray) && VisitEffect(g, s, t, x)
  }

  /** Midway through `x`'s dependencies: the first `i` of them are accounted for. */
  ghost predicate Frontier(g: Graph, s: Walk, t: Walk, x: Name, i: nat) {
    && x in g && i <= |g[x]|
    && s.stacked <= t.stacked
    && Extends(s, t)
    && x in t.idx && x in t.low && t.idx[x] == s.next
    && s.stack + [x] <= t.stack
    && t.low[x] <= s.next
    && (exists w :: LowWitness(g, t, x, w))
    && (forall y, z {:trigger Edge(g, y, z)} | y in t.stacked && y !in s.stacked && y != x && z in s.stacked &&
        z in t.idx && Edge(g, y, z) :: t.low[x] <= t.idx[z])
    && (forall j | 0 <= j < i && g[x][j] in g :: g[x][j] in t.idx)
    && (forall j | 0 <= j < i && g[x][j] in g && g[x][j] in s.stacked && g[x][j] in t.idx :: t.low[x] <= t.idx[g[x][j]])
  }

  ghost predicate Visiting(g: Graph, s: Walk, t: Walk, gray: set<Name>, x: Name, i: nat) {
    Inv(g, t, gray + {x}) && Frontier(g, s, t, x, i)
  }

  /** Every active vertex reaches the one about to be visited. */
  ghost predicate Active(g: Graph, gray: set<Name>, x: Name) {
    forall z {:trigger Reach(g, z, x)} | z in gray :: Reach(g, z, x)
  }

  /** The snapshot after numbering and pushing `x`. */
  ghost function Pushed(s: Walk, x: Name): Walk {
    Walk(s.next + 1, s.idx[x := s.next], s.low[x := s.next], s.stack + [x], s.stacked + {x}, s.comps)
  }

  lemma PushInv(g: Graph, s: Walk, gray: set<Name>, x: Name)
    requires Inv(g, s, gray) && x in g && x !in s.idx
    requires Active(g, gray, x)
    ensures Inv(g, Pushed(s, x), gray + {x})
  {
    PushStacked(g, s, x);
    PushForward(g, s, gray, x);
    PushAnchored(g, s, gray, x);
  }

  lemma PushNumbered(g: Graph, s: Walk, x: Name)
    requires Numbered(g, s) && x in g && x !in s.idx
    ensures Numbered(g, Pushed(s, x))
  {
  }

  lemma PushStacked(g: Graph, s: Walk, x: Name)
    requires Numbered(g, s) && Stacked(s) && x in g && x !in s.idx
    ensures Numbered(g, Pushed(s, x)) && Stacked(Pushed(s, x))
  {
    PushNumbered(g, s, x);
    assert Elems(s.stack + [x]) == Elems(s.stack) + {x};
    assert forall i | 0 <= i < |s.stack| :: s.stack[i] in s.stacked;
  }

  lemma PushAnchored(g: Graph, s: Walk, gray: set<Name>, x: Name)
    requires Numbered(g, s) && s.stacked <= s.idx.Keys && Anchored(g, s, gray) && x in g && x !in s.idx
    ensures Anchored(g, Pushed(s, x), gray + {x})
  {
    var t := Pushed(s, x);
    forall y | y in t.stacked ensures HasAnchor(g, t, gray + {x}, y) {
      if y == x {
        assert Anchor(g, t, gray + {x}, x, x);
      } else {
        assert HasAnchor(g, s, gray, y);
        var z :| Anchor(g, s, gray, y, z);
        assert Anchor(g, t, gray + {x}, y, z);
      }
    }
  }

  lemma PushForward(g: Graph, s: Walk, gray: set<Name>, x: Name)
    requires Forward(g, s) && Anchored(g, s, gray) && Stacked(s) && x in g
    requires Active(g, gray, x)
    ensures Forward(g, Pushed(s, x))
  {
    var t := Pushed(s, x);
    forall i, j | 0 <= i <= j < |t.stack| ensures Reach(g, t.stack[i], t.stack[j]) {
      if j < |s.stack| {
        assert Reach(g, s.stack[i], s.stack[j]);
      } else if i < |s.stack| {
        assert HasAnchor(g, s, gray, s.stack[i]);
        var z :| Anchor(g, s, gray, s.stack[i], z);
        ReachTrans(g, s.stack[i], z, x);
      }
    }
  }

  lemma PushFrontier(g: Graph, s: Walk, x: Name)
    requires Numbered(g, s) && x in g && x !in s.idx
    ensures Frontier(g, s, Pushed(s, x), x, 0)
  {
    assert LowWitness(g, Pushed(s, x), x, x);
  }

  /** Only the key set of the low-links matters to the invariant. */
  lemma LowChange(g: Graph, t: Walk, gray: set<Name>, x: Name, l: nat)
    requires Inv(g, t, gray) && x in t.low
    ensures Inv(g, t.(low := t.low[x := l]), gray)
  {
    AnchoredAgain(g, t, t.(low := t.low[x := l]), gray);
  }

  lemma AnchoredAgain(g: Graph, t: Walk, t': Walk, gray: set<Name>)
    requires Anchored(g, t, gray) && t'.idx == t.idx && t'.stacked == t.stacked
    ensures Anchored(g, t', gray)
  {
    forall y | y in t'.stacked ensures HasAnchor(g, t', gray, y) {
      assert HasAnchor(g, t, gray, y);
      var z :| Anchor(g, t, gray, y, z);
      assert Anchor(g, t', gray, y, z);
    }
  }

  lemma PrefixElems<T>(a: seq<T>, b: seq<T>)
    requires a <= b
    ensures Elems(a) <= Elems(b)
  {
    forall e | e in a ensures e in b {
      var k :| 0 <= k < |a| && a[k] == e;
      assert b[k] == e;
    }
  }

  /** A dependency outside the graph, or in an emitted component, changes nothing. */
  lemma SettledStep(g: Graph, s: Walk, t: Walk, x: Name, i: nat)
    requires Frontier(g, s, t, x, i) && i < |g[x]|
    requires g[x][i] in g ==> g[x][i] in t.idx && g[x][i] !in t.stacked
    ensures Frontier(g, s, t, x, i + 1)
  {
  }

  /** A dependency already on the stack pulls the low-link down to its index. */
  lemma StackedStep(g: Graph, s: Walk, t: Walk, x: Name, i: nat, l: nat)
    requires Frontier(g, s, t, x, i) && i < |g[x]|
    requires x !in s.idx
    requires g[x][i] in g && g[x][i] in t.stacked && g[x][i] in t.idx
    requires l == Min(t.low[x], t.idx[g[x][i]])
    ensures Frontier(g, s, t.(low := t.low[x := l]), x, i + 1)
  {
    var d := g[x][i];
    var t' := t.(low := t.low[x := l]);
    var w :| LowWitness(g, t, x, w);
    assert Edge(g, x, d);
    ReachStep(g, x, d);
    assert LowWitness(g, t', x, if l == t.low[x] then w else d);
  }

  /** A dependency just visited pulls the low-link down to its own. */
  lemma VisitedStep(g: Graph, s: Walk, t: Walk, u: Walk, gray: set<Name>, x: Name, i: nat, l: nat)
    requires Frontier(g, s, t, x, i) && i < |g[x]|
    requires x !in s.idx && t.stacked <= t.idx.Keys && t.stacked <= u.stacked
    requires g[x][i] in g && g[x][i] !in t.idx && VisitEffect(g, t, u, g[x][i])
    requires x in u.low && g[x][i] in u.low
    requires l == Min(u.low[x], u.low[g[x][i]])
    ensures Frontier(g, s, u.(low := u.low[x := l]), x, i + 1)
  {
    var d := g[x][i];
    var u' := u.(low := u.low[x := l]);
    var w :| LowWitness(g, t, x, w);
    assert Edge(g, x, d);
    ReachStep(g, x, d);
    if l == u.low[x] {
      assert LowWitness(g, u', x, w);
    } else {
      var v :| LowWitness(g, u, d, v);
      ReachTrans(g, x, d, v);
      assert LowWitness(g, u', x, v);
    }
  }

  /** All of `x`'s dependencies are accounted for. */
  ghost predicate Finished(g: Graph, s: Walk, t: Walk, gray: set<Name>, x: Name) {
    && x in g && x !in s.idx && x !in gray && gray <= s.stacked
    && Numbered(g, s) && Stacked(s)
    && Visiting(g, s, t, gray, x, |g[x]|)
  }

  lemma FinishedEdge(g: Graph, s: Walk, t: Walk, gray: set<Name>, x: Name, u: Name, v: Name)
    requires Finished(g, s, t, gray, x) && Edge(g, u, v) && u in t.stacked && u !in s.stacked
    ensures v in t.idx
    ensures v in s.stacked ==> t.low[x] <= t.idx[v]
  {
    if u == x {
      var j :| 0 <= j < |g[x]| && g[x][j] == v;
    } else if u in gray {
      assert false;
    }
  }

  lemma FinishedExplored(g: Graph, s: Walk, t: Walk, gray: set<Name>, x: Name)
    requires Finished(g, s, t, gray, x)
    ensures Explored(g, t, gray)
  {
    forall u, v | u in t.idx && u !in gray && Edge(g, u, v) ensures v in t.idx {
      if u == x {
        FinishedEdge(g, s, t, gray, x, u, v);
      }
    }
  }

  /** `x` hands its anchors over to an older active vertex that it reaches. */
  lemma StayAnchored(g: Graph, s: Walk, t: Walk, gray: set<Name>, x: Name)
    requires Anchored(g, t, gray + {x}) && t.stacked <= t.idx.Keys && x in t.idx && x in t.low
    requires t.low[x] < t.idx[x] && exists w :: LowWitness(g, t, x, w)
    ensures Anchored(g, t, gray)
  {
    var w :| LowWitness(g, t, x, w);
    assert HasAnchor(g, t, gray + {x}, w);
    var z :| Anchor(g, t, gray + {x}, w, z);
    ReachTrans(g, x, w, z);
    forall y | y in t.stacked ensures HasAnchor(g, t, gray, y) {
      assert HasAnchor(g, t, gray + {x}, y);
      var a :| Anchor(g, t, gray + {x}, y, a);
      if a == x {
        ReachTrans(g, y, x, z);
        assert Anchor(g, t, gray, y, z);
      } else {
        assert Anchor(g, t, gray, y, a);
      }
    }
  }

  lemma StayVisited(g: Graph, s: Walk, t: Walk, gray: set<Name>, x: Name)
    requires Finished(g, s, t, gray, x) && t.low[x] != t.idx[x]
    ensures Visited(g, s, t, gray, x)
  {
    StayAnchored(g, s, t, gray, x);
    FinishedExplored(g, s, t, gray, x);
    forall y, z | y in t.stacked && y !in s.stacked && z in s.stacked && Edge(g, y, z) ensures t.low[x] <= t.idx[z] {
      FinishedEdge(g, s, t, gray, x, y, z);
    }
  }

  lemma SegmentElems(s: Walk, t: Walk)
    requires Stacked(s) && Stacked(t) && s.stack <= t.stack
    ensures Elems(t.stack[|s.stack|..]) == t.stacked - s.stacked
  {
    forall e ensures e in t.stack[|s.stack|..] <==> e in t.stacked && e !in s.stacked {
      if e in s.stacked {
        var k :| 0 <= k < |s.stack| && s.stack[k] == e;
        assert t.stack[k] == e;
      }
      if e in t.stacked && e !in s.stacked {
        var k :| 0 <= k < |t.stack| && t.stack[k] == e;
        assert k >= |s.stack|;
        assert t.stack[|s.stack|..][k - |s.stack|] == e;
      }
    }
  }

  /** Every vertex above `x` on the stack is mutually reachable with it. */
  lemma SegmentMutual(g: Graph, s: Walk, t: Walk, gray: set<Name>, x: Name, u: Name)
    requires Finished(g, s, t, gray, x) && u in t.stacked && u !in s.stacked
    ensures Mutual(g, x, u)
  {
    var k :| 0 <= k < |t.stack| && t.stack[k] == u;
    assert |s.stack| <= k;
    assert t.stack[|s.stack|] == x;
    assert Reach(g, t.stack[|s.stack|], t.stack[k]);
    assert HasAnchor(g, t, gray + {x}, u);
    var z :| Anchor(g, t, gray + {x}, u, z);
    if z != x {
      var i :| 0 <= i < |s.stack| && s.stack[i] == z;
      assert t.stack[i] == z;
      assert Reach(g, t.stack[i], t.stack[|s.stack|]);
      ReachTrans(g, u, z, x);
    }
  }

  /** When `x`'s low-link is its own index, nothing leads from above `x` to below it. */
  lemma SegmentClosed(g: Graph, s: Walk, t: Walk, gray: set<Name>, x: Name)
    requires Finished(g, s, t, gray, x) && t.low[x] == t.idx[x]
    ensures Closed(g, Done(t.comps) + (t.stacked - s.stacked))
  {
    assert Closed(g, Done(t.comps[..|t.comps|]));
    assert t.comps[..|t.comps|] == t.comps;
    forall u, v | u in t.stacked && u !in s.stacked && Edge(g, u, v)
      ensures v in Done(t.comps) || (v in t.stacked && v !in s.stacked)
    {
      FinishedEdge(g, s, t, gray, x, u, v);
    }
  }

  lemma SegmentIsScc(g: Graph, s: Walk, t: Walk, gray: set<Name>, x: Name)
    requires Finished(g, s, t, gray, x) && t.low[x] == t.idx[x]
    ensures IsScc(g, t.stacked - s.stacked)
  {
    var c := t.stacked - s.stacked;
    SegmentClosed(g, s, t, gray, x);
    SegmentMutual(g, s, t, gray, x, x);
    forall u, v | u in c ensures v in c <==> Mutual(g, u, v) {
      SegmentMutual(g, s, t, gray, x, u);
      if v in c {
        SegmentMutual(g, s, t, gray, x, v);
        ReachTrans(g, u, x, v);
        ReachTrans(g, v, x, u);
      } else if Mutual(g, u, v) {
        ReachInClosed(g, Done(t.comps) + c, u, v);
        assert Closed(g, Done(t.comps[..|t.comps|]));
        assert t.comps[..|t.comps|] == t.comps;
        ReachInClosed(g, Done(t.comps), v, u);
      }
    }
  }

  /** The snapshot after the segment from `x` upwards left the stack as component `c`. */
  ghost function Emit(s: Walk, t: Walk, c: seq<Name>): Walk {
    Walk(t.next, t.idx, t.low, s.stack, s.stacked, t.comps + [c])
  }

  /** A component that no edge leaves but to earlier ones may be listed next. */
  lemma AddComponent(g: Graph, comps: seq<seq<Name>>, c: seq<Name>)
    requires Emitted(g, comps) && IsComponent(g, c)
    requires Elems(c) !! Done(comps) && Closed(g, Done(comps) + Elems(c))
    ensures Emitted(g, comps + [c])
    ensures Done(comps + [c]) == Done(comps) + Elems(c)
  {
    var all := comps + [c];
    assert all[..|comps|] == comps;
    forall i | 0 <= i <= |all| ensures Closed(g, Done(all[..i])) {
      if i <= |comps| {
        assert all[..i] == comps[..i];
      } else {
        assert all[..i] == all;
      }
    }
    assert forall i | 0 <= i < |comps| :: Elems(comps[i]) <= Done(comps);
  }

  lemma EmitVisited(g: Graph, s: Walk, t: Walk, gray: set<Name>, x: Name, c: seq<Name>)
    requires Finished(g, s, t, gray, x) && t.low[x] == t.idx[x]
    requires Inv(g, s, gray)
    requires NoDup(c) && Elems(c) == t.stacked - s.stacked
    ensures Visited(g, s, Emit(s, t, c), gray, x)
  {
    var e := Emit(s, t, c);
    SegmentIsScc(g, s, t, gray, x);
    SegmentClosed(g, s, t, gray, x);
    AddComponent(g, t.comps, c);
    FinishedExplored(g, s, t, gray, x);
    forall y | y in s.stacked ensures HasAnchor(g, e, gray, y) {
      assert HasAnchor(g, s, gray, y);
      var z :| Anchor(g, s, gray, y, z);
      assert Anchor(g, e, gray, y, z);
    }
  }

  lemma GrayReach(g: Graph, gray: set<Name>, x: Name, d: Name)
    requires Edge(g, x, d) && Active(g, gray, x)
    ensures Active(g, gray + {x}, d)
  {
    ReachStep(g, x, d);
    forall z | z in gray + {x} ensures Reach(g, z, d) {
      if z != x {
        ReachTrans(g, z, x, d);
      }
    }
  }

  function Min(a: nat, b: nat): nat {
    if a <= b then a else b
  }

  lemma AfterVisit(g: Graph, s: Walk, t: Walk, u: Walk, v: Walk, gray: set<Name>, x: Name, i: nat)
    requires Frontier(g, s, t, x, i) && Stacked(t) && i < |g[x]| && x !in s.idx
    requires g[x][i] in g && g[x][i] !in t.idx && Visited(g, t, u, gray + {x}, g[x][i])
    requires x in u.low && g[x][i] in u.low
    requires v == u.(low := u.low[x := Min(u.low[x], u.low[g[x][i]])])
    ensures Visiting(g, s, v, gray, x, i + 1)
  {
    PrefixElems(t.stack, u.stack);
    LowChange(g, u, gray + {x}, x, v.low[x]);
    VisitedStep(g, s, t, u, gray, x, i, v.low[x]);
  }

  lemma AfterStacked(g: Graph, s: Walk, t: Walk, v: Walk, gray: set<Name>, x: Name, i: nat)
    requires Visiting(g, s, t, gray, x, i) && i < |g[x]| && x !in s.idx
    requires g[x][i] in g && g[x][i] in t.stacked && g[x][i] in t.idx
    requires v == t.(low := t.low[x := Min(t.low[x], t.idx[g[x][i]])])
    ensures Visiting(g, s, v, gray, x, i + 1)
  {
    LowChange(g, t, gray + {x}, x, v.low[x]);
    StackedStep(g, s, t, x, i, v.low[x]);
  }

  lemma StackNoDup(s: Walk)
    requires Stacked(s)
    ensures NoDup(s.stack)
  {
  }

  /** More than one member, or a member that depends on itself. */
  ghost predicate Cyclic(g: Graph, c: set<Name>) {
    |c| > 1 || exists u :: u in c && Edge(g, u, u)
  }

  /** A maximal cyclic component that no edge leaves. */
  ghost predicate SinkCycle(g: Graph, c: set<Name>) {
    IsScc(g, c) && Cyclic(g, c) && Closed(g, c)
  }

  /** `r` lists exactly the sink cycles of `g`, each of them once and without repeating a member. */
  ghost predicate ListsSinkCycles(g: Graph, r: seq<seq<Name>>) {
    && (forall i | 0 <= i < |r| :: NoDup(r[i]) && SinkCycle(g, Elems(r[i])))
    && (forall i, j | 0 <= i < j < |r| :: Elems(r[i]) !! Elems(r[j]))
    && (forall c | SinkCycle(g, c) :: exists i :: 0 <= i < |r| && Elems(r[i]) == c)
  }

  /** Every vertex still waits for another one. */
  ghost predicate Blocked(g: Graph) {
    forall u {:trigger Waits(g, u)} | u in g :: Waits(g, u)
  }

  ghost predicate Waits(g: Graph, u: Name) {
    exists v :: Edge(g, u, v)
  }

  /** The filter on an emitted component. */
  predicate KeepsComponent(g: Graph, c: seq<Name>)
    requires c != [] && Elems(c) <= g.Keys
  {
    && (|c| > 1 || c[0] in g[c[0]])
    && forall u | u in c :: forall d | d in g[u] :: d !in g || d in c
  }

  lemma NoDupSize(c: seq<Name>)
    requires NoDup(c)
    ensures |Elems(c)| == |c|
  {
    NoDupMembers(c);
    assert Elems(c) == Members(c);
  }

  lemma KeepsSinkCycles(g: Graph, c: seq<Name>)
    requires c != [] && IsComponent(g, c)
    ensures KeepsComponent(g, c) <==> SinkCycle(g, Elems(c))
  {
    NoDupSize(c);
    assert c[0] in Elems(c);
    if |c| == 1 {
      assert Elems(c) == {c[0]};
      assert c[0] in g[c[0]] <==> Edge(g, c[0], c[0]);
    }
    if KeepsComponent(g, c) {
      forall u, v | u in Elems(c) && Edge(g, u, v) ensures v in Elems(c) {
      }
    }
    if Closed(g, Elems(c)) {
      forall u, d | u in c && d in g[u] && d in g ensures d in c {
        assert Edge(g, u, d);
      }
    }
  }

  /** Every component of the graph is listed. */
  ghost predicate Covers(g: Graph, comps: seq<seq<Name>>) {
    Emitted(g, comps) && Done(comps) == g.Keys
  }

  lemma {:induction false} DoneMember(comps: seq<seq<Name>>, u: Name) returns (i: nat)
    requires u in Done(comps)
    ensures i < |comps| && u in comps[i]
  {
    if u in comps[|comps| - 1] {
      i := |comps| - 1;
    } else {
      i := DoneMember(comps[..|comps| - 1], u);
    }
  }

  lemma CoversEveryScc(g: Graph, comps: seq<seq<Name>>, c: set<Name>) returns (i: nat)
    requires Covers(g, comps) && IsScc(g, c)
    ensures i < |comps| && Elems(comps[i]) == c
  {
    var u :| u in c;
    i := DoneMember(comps, u);
    assert IsComponent(g, comps[i]);
    SccsDisjoint(g, c, Elems(comps[i]), u);
  }

  lemma DoneFirst(c: seq<Name>)
    ensures Done([c]) == Elems(c)
  {
    assert [c][..|[c]| - 1] == [];
  }

  lemma BlockedIsCyclic(g: Graph, c: seq<Name>)
    requires Blocked(g) && IsComponent(g, c) && Closed(g, Elems(c))
    ensures SinkCycle(g, Elems(c))
  {
    var u :| u in Elems(c);
    assert Waits(g, u);
    var v :| Edge(g, u, v);
    NoDupSize(c);
    if |c| == 1 {
      assert u == c[0] && v == c[0];
    }
  }

  lemma FirstComponentIsSink(g: Graph, comps: seq<seq<Name>>)
    requires Covers(g, comps) && Blocked(g) && g != map[]
    ensures comps != [] && SinkCycle(g, Elems(comps[0]))
  {
    var x :| x in g;
    var _ := DoneMember(comps, x);
    assert comps[..1] == [comps[0]];
    assert Closed(g, Done(comps[..1]));
    DoneFirst(comps[0]);
    assert IsComponent(g, comps[0]);
    BlockedIsCyclic(g, comps[0]);
  }

  lemma {:induction false} SearchDone(g: Graph, t: Walk)
    requires Inv(g, t, {}) && t.idx.Keys == g.Keys
    ensures Covers(g, t.comps)
  {
    forall y ensures y !in t.stacked {
      assert !HasAnchor(g, t, {}, y);
    }
  }

  /** Of the first `i` components, those that are sink cycles. */
  ghost function Kept(g: Graph, comps: seq<seq<Name>>, i: nat): seq<seq<Name>>
    requires i <= |comps|
  {
    if i == 0 then []
    else Kept(g, comps, i - 1) + if SinkCycle(g, Elems(comps[i - 1])) then [comps[i - 1]] else []
  }

  lemma {:induction false} KeptFrom(g: Graph, comps: seq<seq<Name>>, i: nat, k: nat) returns (m: nat)
    requires i <= |comps| && k < |Kept(g, comps, i)|
    ensures m < i && Kept(g, comps, i)[k] == comps[m] && SinkCycle(g, Elems(comps[m]))
  {
    if k < |Kept(g, comps, i - 1)| {
      m := KeptFrom(g, comps, i - 1, k);
    } else {
      m := i - 1;
    }
  }

  lemma {:induction false} KeptHas(g: Graph, comps: seq<seq<Name>>, i: nat, m: nat)
    requires m < i <= |comps| && SinkCycle(g, Elems(comps[m]))
    ensures comps[m] in Kept(g, comps, i)
  {
    if m < i - 1 {
      KeptHas(g, comps, i - 1, m);
    }
  }

  lemma {:induction false} KeptApart(g: Graph, comps: seq<seq<Name>>, i: nat, j: nat, k: nat)
    requires Emitted(g, comps) && i <= |comps| && j < k < |Kept(g, comps, i)|
    ensures Elems(Kept(g, comps, i)[j]) !! Elems(Kept(g, comps, i)[k])
  {
    if k < |Kept(g, comps, i - 1)| {
      KeptApart(g, comps, i - 1, j, k);
    } else {
      var m := KeptFrom(g, comps, i - 1, j);
      assert Elems(comps[m]) !! Elems(comps[i - 1]);
    }
  }

  lemma KeptAll(g: Graph, comps: seq<seq<Name>>, r: seq<seq<Name>>)
    requires Covers(g, comps) && r == Kept(g, comps, |comps|)
    ensures ListsSinkCycles(g, r)
    ensures Blocked(g) && g != map[] ==> r != []
  {
    forall k | 0 <= k < |r| ensures NoDup(r[k]) && SinkCycle(g, Elems(r[k])) {
      var m := KeptFrom(g, comps, |comps|, k);
      assert IsComponent(g, comps[m]);
    }
    forall j, k | 0 <= j < k < |r| ensures Elems(r[j]) !! Elems(r[k]) {
      KeptApart(g, comps, |comps|, j, k);
    }
    forall c | SinkCycle(g, c) ensures exists i :: 0 <= i < |r| && Elems(r[i]) == c {
      var m := CoversEveryScc(g, comps, c);
      KeptHas(g, comps, |comps|, m);
    }
    if Blocked(g) && g != map[] {
      FirstComponentIsSink(g, comps);
      KeptHas(g, comps, |comps|, 0);
    }
  }

  /** The search of scripts/package-graph.ts over the packages still to be placed. */
  class SinkSearch {
    const g: Graph
    const order: seq<Name>
    var nextIndex: nat
    var indices: map<Name, nat>
    var lowLinks: map<Name, nat>
    var stack: seq<Name>
    var stacked: set<Name>
    var components: seq<seq<Name>>

    constructor (g: Graph, order: seq<Name>)
      ensures this.g == g && this.order == order
      ensures State() == Walk(0, map[], map[], [], {}, [])
    {
      this.g, this.order := g, order;
      nextIndex, indices, lowLinks := 0, map[], map[];
      stack, stacked, components := [], {}, [];
    }

    ghost function State(): Walk
      reads this
    {
      Walk(nextIndex, indices, lowLinks, stack, stacked, components)
    }

    /** The sink cycles of the remaining packages, in the order their components were completed. */
    method Search() returns (r: seq<seq<Name>>)
      requires State() == Walk(0, map[], map[], [], {}, []) && Elems(order) == g.Keys
      modifies this
      ensures ListsSinkCycles(g, r)
      ensures Blocked(g) && g != map[] ==> r != []
    {
      for i := 0 to |order|
        invariant Inv(g, State(), {})
        invariant Elems(order[..i]) <= indices.Keys
      {
        if order[i] !in indices {
          assert order[i] in Elems(order);
          Visit(order[i], {});
        }
      }
      assert order[..|order|] == order;
      SearchDone(g, State());
      r := FilterComponents();
    }

    method FilterComponents() returns (r: seq<seq<Name>>)
      requires Covers(g, components)
      ensures ListsSinkCycles(g, r)
      ensures Blocked(g) && g != map[] ==> r != []
    {
      r := [];
      for i := 0 to |components|
        invariant r == Kept(g, components, i)
      {
        assert IsComponent(g, components[i]);
        KeepsSinkCycles(g, components[i]);
        if KeepsComponent(g, components[i]) {
          r := r + [components[i]];
        }
      }
      KeptAll(g, components, r);
    }

    method Visit(pkg: Name, ghost gray: set<Name>)
      requires pkg in g && pkg !in indices && Inv(g, State(), gray)
      requires Active(g, gray, pkg)
      modifies this
      ensures Visited(g, old(State()), State(), gray, pkg)
      decreases g.Keys - indices.Keys, 0
    {
      ghost var s := State();
      indices := indices[pkg := nextIndex];
      lowLinks := lowLinks[pkg := nextIndex];
      nextIndex := nextIndex + 1;
      stack := stack + [pkg];
      stacked := stacked + {pkg};
      assert State() == Pushed(s, pkg);
      PushInv(g, s, gray, pkg);
      PushFrontier(g, s, pkg);
      for i := 0 to |g[pkg]|
        invariant Visiting(g, s, State(), gray, pkg, i)
      {
        VisitDependency(pkg, i, s, gray);
      }
      Finish(pkg, s, gray);
    }

    /** One dependency of `pkg`: recurse into a fresh one, or fold in the index of an active one. */
    method VisitDependency(pkg: Name, i: nat, ghost s: Walk, ghost gray: set<Name>)
      requires pkg in g && i < |g[pkg]| && pkg !in s.idx && pkg in indices
      requires Active(g, gray, pkg)
      requires Visiting(g, s, State(), gray, pkg, i)
      modifies this
      ensures Visiting(g, s, State(), gray, pkg, i + 1)
      decreases g.Keys - indices.Keys, 1
    {
      var target := g[pkg][i];
      ghost var t := State();
      if target !in g {
        SettledStep(g, s, t, pkg, i);
      } else if target !in indices {
        GrayReach(g, gray, pkg, target);
        Visit(target, gray + {pkg});
        ghost var u := State();
        lowLinks := lowLinks[pkg := Min(lowLinks[pkg], lowLinks[target])];
        AfterVisit(g, s, t, u, State(), gray, pkg, i);
      } else if target in stacked {
        lowLinks := lowLinks[pkg := Min(lowLinks[pkg], indices[target])];
        AfterStacked(g, s, t, State(), gray, pkg, i);
      } else {
        SettledStep(g, s, t, pkg, i);
      }
    }

    method Finish(pkg: Name, ghost s: Walk, ghost gray: set<Name>)
      requires Inv(g, s, gray) && Finished(g, s, State(), gray, pkg)
      modifies this
      ensures Visited(g, s, State(), gray, pkg)
    {
      ghost var t := State();
      if lowLinks[pkg] != indices[pkg] {
        StayVisited(g, s, t, gray, pkg);
      } else {
        StackNoDup(t);
        var component := PopComponent(pkg, |s.stack|);
        components := components + [component];
        SegmentReversed(s, t, component);
        EmitVisited(g, s, t, gray, pkg, component);
      }
    }

    method PopComponent(pkg: Name, ghost base: nat) returns (component: seq<Name>)
      requires base < |stack| && stack[base] == pkg && NoDup(stack) && stacked == Elems(stack)
      modifies this`stack, this`stacked
      ensures stack == old(stack)[..base] && stacked == Elems(stack)
      ensures |component| == |old(stack)| - base
      ensures forall k | 0 <= k < |component| :: component[k] == old(stack)[|old(stack)| - 1 - k]
    {
      var member := Pop();
      component := [member];
      while member != pkg
        invariant base <= |stack| && |stack| + |component| == |old(stack)|
        invariant stack == old(stack)[..|stack|] && stacked == Elems(stack)
        invariant forall k | 0 <= k < |component| :: component[k] == old(stack)[|old(stack)| - 1 - k]
        invariant member == old(stack)[|stack|]
        decreases |stack|
      {
        member := Pop();
        component := component + [member];
      }
    }

    method Pop() returns (member: Name)
      requires stack != [] && NoDup(stack) && stacked == Elems(stack)
      modifies this`stack, this`stacked
      ensures member == old(stack)[|old(stack)| - 1]
      ensures stack == old(stack)[..|old(stack)| - 1] && stacked == Elems(stack)
    {
      member := stack[|stack| - 1];
      stack := stack[..|stack| - 1];
      stacked := stacked - {member};
    }
  }

  lemma SegmentReversed(s: Walk, t: Walk, c: seq<Name>)
    requires Stacked(s) && Stacked(t) && s.stack <= t.stack
    requires |c| == |t.stack| - |s.stack|
    requires forall k | 0 <= k < |c| :: c[k] == t.stack[|t.stack| - 1 - k]
    ensures NoDup(c) && Elems(c) == t.stacked - s.stacked
  {
    var seg := t.stack[|s.stack|..];
    SegmentElems(s, t);
    assert forall k | 0 <= k < |c| :: c[k] == seg[|c| - 1 - k];
    assert forall k | 0 <= k < |c| :: seg[k] == c[|c| - 1 - k];
  }
}
