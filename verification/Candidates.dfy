/** Which packages the peer-resolution benchmark may pick: a breadth-first search over the registry. */
module Candidates {
  import opened Digraph
  import opened Sorting
  import opened Options

  type Version = string

  const TARGET_PACKAGE := "@deepseek-ai/dsh"
  const CORDIS := "@deepseek-ai/cordis"

  /** The names a manifest lists, section by section; an optional peer is one its metadata marks so. */
  datatype Manifest = Manifest(dependencies: seq<Name>, optionalDependencies: seq<Name>, peers: seq<Name>,
      optionalPeers: set<Name>)

  datatype Registry = Registry(versions: map<Name, Version>, index: map<Name, map<Version, Manifest>>)

  /** The manifest published for the workspace's version of a package. */
  function Published(r: Registry, name: Name): Option<Manifest> {
    if name !in r.versions || name !in r.index || r.versions[name] !in r.index[name] then None
    else Some(r.index[name][r.versions[name]])
  }

  function Filter<T(!new)>(keep: T -> bool, s: seq<T>): (r: seq<T>)
    ensures forall x :: x in r <==> x in s && keep(x)
    ensures NoDup(s) ==> NoDup(r)
  {
    if s == [] then []
    else
      var init, last := s[..|s| - 1], s[|s| - 1];
      assert s == init + [last];
      NoDupSnoc(init, last);
      NoDupSnoc(Filter(keep, init), last);
      if keep(last) then Filter(keep, init) + [last] else Filter(keep, init)
  }

  /** The keys of two objects spread into one. */
  function Spread(a: seq<Name>, b: seq<Name>): seq<Name> {
    a + Filter((n: Name) => n !in a, b)
  }

  /** What installing a package brings along. */
  function Installed(m: Manifest): seq<Name> {
    Spread(Spread(m.dependencies, m.optionalDependencies), Filter((p: Name) => p !in m.optionalPeers, m.peers))
  }

  /** The packages that resolve, and what each of them installs. */
  function InstallGraph(r: Registry): Graph {
    map n | n in r.versions && Published(r, n).Some? :: Installed(Published(r, n).value)
  }

  lemma InstallEdge(r: Registry, u: Name, v: Name)
    requires Published(r, u).Some? && Published(r, v).Some?
    ensures
      var m := Published(r, u).value;
      Edge(InstallGraph(r), u, v) <==>
      v in m.dependencies || v in m.optionalDependencies || (v in m.peers && v !in m.optionalPeers)
  {
  }

  /** A package worth measuring: released, not settled by the policy, and still carrying a peer besides Cordis. */
  predicate Eligible(r: Registry, released: set<Name>, policy: set<Name>, name: Name) {
    && name !in policy && name in released
    && Published(r, name).Some?
    && exists p | p in Published(r, name).value.peers :: p != CORDIS
  }

  /** The packages a search has found, and those it has still to look at, cover every edge. */
  ghost predicate Covers(g: Graph, reached: set<Name>, queue: seq<Name>, cursor: nat) {
    && (forall i | 0 <= i < |queue| :: i < cursor && queue[i] in g ==> queue[i] in reached)
    && (forall u, v {:trigger Edge(g, u, v)} | u in reached && Edge(g, u, v) :: v in reached || v in queue)
  }

  /** Everything found or waiting is reachable, if it resolves at all. */
  ghost predicate Justified(g: Graph, start: Name, reached: set<Name>, queue: seq<Name>) {
    && (forall u | u in reached :: u in g && Reach(g, start, u))
    && (forall q | q in queue && q in g :: Reach(g, start, q))
  }

  lemma SearchDone(g: Graph, start: Name, reached: set<Name>, queue: seq<Name>)
    requires Covers(g, reached, queue, |queue|) && Justified(g, start, reached, queue) && start in queue
    ensures forall v :: v in reached <==> Reach(g, start, v)
  {
    forall u, v {:trigger Edge(g, u, v)} | u in reached && Edge(g, u, v) ensures v in reached {
      if v in queue {
        var i :| 0 <= i < |queue| && queue[i] == v;
      }
    }
    forall v | Reach(g, start, v) ensures v in reached {
      var i :| 0 <= i < |queue| && queue[i] == start;
      ReachInClosed(g, reached, start, v);
    }
  }

  lemma Skip(g: Graph, reached: set<Name>, queue: seq<Name>, cursor: nat, name: Name)
    requires Covers(g, reached, queue, cursor) && cursor < |queue| && name == queue[cursor]
    requires name in g ==> name in reached
    ensures Covers(g, reached, queue, cursor + 1)
  {
  }

  lemma Expand(g: Graph, start: Name, reached: set<Name>, queue: seq<Name>, name: Name, cursor: nat, more: seq<Name>)
    requires Covers(g, reached, queue, cursor) && Justified(g, start, reached, queue)
    requires cursor < |queue| && name == queue[cursor] && name in g
    requires forall d :: d in more <==> d in g[name] && d !in reached + {name}
    ensures Covers(g, reached + {name}, queue + more, cursor + 1)
    ensures Justified(g, start, reached + {name}, queue + more)
  {
    var all := queue + more;
    assert name in queue;
    forall i | 0 <= i < |all| && i < cursor + 1 && all[i] in g ensures all[i] in reached + {name} {
      assert all[i] == queue[i];
    }
    forall q | q in all && q in g ensures Reach(g, start, q) {
      if q !in queue {
        assert Edge(g, name, q);
        ReachStep(g, name, q);
        ReachTrans(g, start, name, q);
      }
    }
  }

  /** What a package brings along that has not been reached, in order. */
  function Fresh(before: (Name, Name) -> bool, m: Manifest, reached: seq<Name>): (r: seq<Name>)
    ensures forall d :: d in r <==> d in Installed(m) && d !in reached
  {
    var installed := Sort(before, Installed(m));
    SameElems(installed, Installed(m));
    Filter((d: Name) => d !in reached, installed)
  }

  lemma ElemsSnoc(was: seq<Name>, name: Name)
    ensures Elems(was + [name]) == Elems(was) + {name}
  {
  }

  /** Search breadth first; a package may wait in the queue several times. */
  method Search(r: Registry, before: (Name, Name) -> bool) returns (reached: seq<Name>)
    ensures NoDup(reached)
    ensures forall n :: n in reached <==> Reach(InstallGraph(r), TARGET_PACKAGE, n)
  {
    ghost var g := InstallGraph(r);
    reached := [];
    var queue := [TARGET_PACKAGE];
    var cursor := 0;
    while cursor < |queue|
      invariant cursor <= |queue| && NoDup(reached) && TARGET_PACKAGE in queue
      invariant Covers(g, Elems(reached), queue, cursor)
      invariant Justified(g, TARGET_PACKAGE, Elems(reached), queue)
      decreases g.Keys - Elems(reached), |queue| - cursor
    {
      var name := queue[cursor];
      var manifest := Published(r, name);
      if name !in reached && manifest.Some? {
        ghost var was := reached;
        NoDupSnoc(reached, name);
        reached := reached + [name];
        var more := Fresh(before, manifest.value, reached);
        ElemsSnoc(was, name);
        Expand(g, TARGET_PACKAGE, Elems(was), queue, name, cursor, more);
        queue := queue + more;
      } else {
        Skip(g, Elems(reached), queue, cursor, name);
      }
      cursor := cursor + 1;
    }
    SearchDone(g, TARGET_PACKAGE, Elems(reached), queue);
    assert forall n :: n in reached <==> n in Elems(reached);
  }

  // ----- the candidates, told by the registry alone

  /** The registry holds `m` for the workspace's version of the package. */
  predicate ManifestIs(r: Registry, name: Name, m: Manifest) {
    && name in r.versions && name in r.index && r.versions[name] in r.index[name]
    && r.index[name][r.versions[name]] == m
  }

  /** Installing a package with this manifest installs `d`: a dependency, or a peer that is not optional. */
  predicate Brings(m: Manifest, d: Name) {
    d in m.dependencies || d in m.optionalDependencies || (d in m.peers && d !in m.optionalPeers)
  }

  /** `p` is a chain of installed packages from the target to `n`, with their manifests `ms`. */
  ghost predicate InstallPath(r: Registry, p: seq<Name>, ms: seq<Manifest>, n: Name) {
    && p != [] && |ms| == |p| && p[0] == "@deepseek-ai/dsh" && p[|p| - 1] == n
    && (forall i | 0 <= i < |p| :: ManifestIs(r, p[i], ms[i]))
    && (forall i | 0 < i < |p| :: Brings(ms[i - 1], p[i]))
  }

  /** A released package that no policy settles, with a peer besides Cordis, that installing the target installs. */
  ghost predicate IsCandidate(r: Registry, released: set<Name>, policy: set<Name>, n: Name) {
    && n in released && n !in policy
    && (exists m, peer :: ManifestIs(r, n, m) && peer in m.peers && peer != "@deepseek-ai/cordis")
    && exists p, ms :: InstallPath(r, p, ms, n)
  }

  lemma PublishedIs(r: Registry, name: Name, m: Manifest)
    ensures Published(r, name) == Some(m) <==> ManifestIs(r, name, m)
  {
  }

  lemma PathIsInstalled(r: Registry, p: seq<Name>, n: Name) returns (ms: seq<Manifest>)
    requires Leads(InstallGraph(r), p, TARGET_PACKAGE, n)
    ensures InstallPath(r, p, ms, n)
  {
    var g := InstallGraph(r);
    forall i | 0 <= i < |p| ensures p[i] in g {
      if i > 0 {
        assert Edge(g, p[i - 1], p[i - 1 + 1]);
      }
    }
    ms := seq(|p|, i requires 0 <= i < |p| => Published(r, p[i]).value);
    forall i | 0 <= i < |p| ensures ManifestIs(r, p[i], ms[i]) {
      PublishedIs(r, p[i], ms[i]);
    }
    forall i | 0 < i < |p| ensures Brings(ms[i - 1], p[i]) {
      assert Edge(g, p[i - 1], p[i - 1 + 1]);
      InstallEdge(r, p[i - 1], p[i]);
    }
  }

  lemma InstalledIsPath(r: Registry, p: seq<Name>, ms: seq<Manifest>, n: Name)
    requires InstallPath(r, p, ms, n)
    ensures Leads(InstallGraph(r), p, TARGET_PACKAGE, n)
  {
    var g := InstallGraph(r);
    forall i | 0 <= i < |p| ensures Published(r, p[i]) == Some(ms[i]) && p[i] in g {
      PublishedIs(r, p[i], ms[i]);
    }
    forall i | 0 <= i < |p| - 1 ensures Edge(g, p[i], p[i + 1]) {
      InstallEdge(r, p[i], p[i + 1]);
      assert Brings(ms[i + 1 - 1], p[i + 1]);
    }
  }

  lemma CandidateMeans(r: Registry, released: set<Name>, policy: set<Name>, n: Name)
    ensures Reach(InstallGraph(r), TARGET_PACKAGE, n) && Eligible(r, released, policy, n)
       <==> IsCandidate(r, released, policy, n)
  {
    ReachIsPath(InstallGraph(r), TARGET_PACKAGE, n);
    if p :| Leads(InstallGraph(r), p, TARGET_PACKAGE, n) {
      var ms := PathIsInstalled(r, p, n);
    }
    if p, ms :| InstallPath(r, p, ms, n) {
      InstalledIsPath(r, p, ms, n);
    }
    EligibleMeans(r, released, policy, n);
  }

  lemma EligibleMeans(r: Registry, released: set<Name>, policy: set<Name>, n: Name)
    ensures Eligible(r, released, policy, n) <==>
            && n in released && n !in policy
            && exists m, peer :: ManifestIs(r, n, m) && peer in m.peers && peer != "@deepseek-ai/cordis"
  {
    if Eligible(r, released, policy, n) {
      var m := Published(r, n).value;
      var peer :| peer in m.peers && peer != CORDIS;
      PublishedIs(r, n, m);
    }
    if m, peer :| ManifestIs(r, n, m) && peer in m.peers && peer != "@deepseek-ai/cordis" {
      PublishedIs(r, n, m);
    }
  }

  /**
   * Exactly the candidates, each once and in order; a package that does not resolve is no part of an install path.
   */
  method DiscoverBenchmarkCandidates(r: Registry, released: set<Name>, policy: set<Name>, before: (Name, Name) -> bool)
    returns (names: seq<Name>)
    ensures forall n :: n in names <==> IsCandidate(r, released, policy, n)
    ensures NoDup(names)
    ensures TotalPreorder(before) ==> Sorted(before, names)
  {
    var reached := Search(r, before);
    var kept := Filter((n: Name) => Eligible(r, released, policy, n), reached);
    names := Sort(before, kept);
    SameElems(names, kept);
    forall n ensures n in names <==> IsCandidate(r, released, policy, n) {
      CandidateMeans(r, released, policy, n);
    }
    SortNoDup(before, kept);
    if TotalPreorder(before) {
      SortSorted(before, kept);
    }
  }
}
