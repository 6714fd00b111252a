/** Finite directed graphs over package names, and reachability in them. */
module Digraph {

  type Name = string

  /** Adjacency lists. A successor that is not a key is not a vertex, and its edge does not count. */
  type Graph = map<Name, seq<Name>>

  function Elems<T>(s: seq<T>): set<T> {
    set x | x in s
  }

  predicate Edge(g: Graph, u: Name, v: Name) {
    u in g && v in g && v in g[u]
  }

  /** No edge leaves `s`. */
  ghost predicate Closed(g: Graph, s: set<Name>) {
    forall u, v {:trigger Edge(g, u, v)} | u in s && Edge(g, u, v) :: v in s
  }

  /**
   * Reflexive and transitive reachability between vertices: `v` is in every closed set that
   * holds `u`. ReachIsPath shows that this is the same as being led to by a path of edges.
   */
  ghost predicate Reach(g: Graph, u: Name, v: Name) {
    u in g && v in g && forall s {:trigger Closed(g, s)} | Closed(g, s) && u in s :: v in s
  }

  ghost predicate Mutual(g: Graph, u: Name, v: Name) {
    Reach(g, u, v) && Reach(g, v, u)
  }

  /** `c` is a maximal strongly connected component. */
  ghost predicate IsScc(g: Graph, c: set<Name>) {
    && c != {}
    && c <= g.Keys
    && forall u, v {:trigger Mutual(g, u, v)} | u in c :: v in c <==> Mutual(g, u, v)
  }

  lemma ReachRefl(g: Graph, u: Name)
    requires u in g
    ensures Reach(g, u, u)
  {
  }

  lemma ReachStep(g: Graph, u: Name, v: Name)
    requires Edge(g, u, v)
    ensures Reach(g, u, v)
  {
  }

  /** What a closed set reaches stays inside it. */
  lemma ReachInClosed(g: Graph, s: set<Name>, u: Name, v: Name)
    requires Closed(g, s) && u in s && Reach(g, u, v)
    ensures v in s
  {
  }

  lemma ReachTrans(g: Graph, u: Name, v: Name, w: Name)
    requires Reach(g, u, v) && Reach(g, v, w)
    ensures Reach(g, u, w)
  {
  }

  /** The components of a graph are disjoint or equal. */
  lemma SccsDisjoint(g: Graph, c: set<Name>, d: set<Name>, u: Name)
    requires IsScc(g, c) && IsScc(g, d) && u in c && u in d
    ensures c == d
  {
    forall v ensures v in c <==> v in d {
      assert v in c <==> Mutual(g, u, v);
      assert v in d <==> Mutual(g, u, v);
    }
  }

  /** `p` leads from `u` to `v` along edges. */
  ghost predicate Leads(g: Graph, p: seq<Name>, u: Name, v: Name) {
    && p != [] && p[0] == u && p[|p| - 1] == v && u in g
    && forall i | 0 <= i < |p| - 1 :: Edge(g, p[i], p[i + 1])
  }

  lemma {:induction false} PathInClosed(g: Graph, s: set<Name>, p: seq<Name>, u: Name, v: Name, k: nat)
    requires Closed(g, s) && Leads(g, p, u, v) && u in s && k < |p|
    ensures p[k] in s && p[k] in g
  {
    if k > 0 {
      PathInClosed(g, s, p, u, v, k - 1);
      assert Edge(g, p[k - 1], p[k - 1 + 1]);
    }
  }

  /** Reachability is exactly the existence of a path. */
  lemma ReachIsPath(g: Graph, u: Name, v: Name)
    ensures Reach(g, u, v) <==> exists p :: Leads(g, p, u, v)
  {
    if Reach(g, u, v) {
      var s := set w | w in g && exists p :: Leads(g, p, u, w);
      assert Leads(g, [u], u, u);
      forall a, b | a in s && Edge(g, a, b) ensures b in s {
        var p :| Leads(g, p, u, a);
        var q := p + [b];
        forall i | 0 <= i < |q| - 1 ensures Edge(g, q[i], q[i + 1]) {
          assert i < |p| - 1 ==> Edge(g, p[i], p[i + 1]);
        }
        assert Leads(g, q, u, b);
      }
      assert Closed(g, s);
    }
    if p :| Leads(g, p, u, v) {
      PathInClosed(g, g.Keys, p, u, v, |p| - 1);
      forall s | Closed(g, s) && u in s ensures v in s {
        PathInClosed(g, s, p, u, v, |p| - 1);
      }
    }
  }
}
