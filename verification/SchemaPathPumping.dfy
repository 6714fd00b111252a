/**
 * What an endless schema-path walk needs: a literal indexed access that is led back to with the
 * steps it added, and more, on top of a path that stays untouched.
 */
module SchemaPathPumping {
  import opened SchemaPath
  import opened SchemaReferences
  import opened SchemaPathEnds
  import opened Sorting
  import opened Options

  // ----- single moves of the walk, through any branch

  datatype Spot =
    | AtDecl(id: DeclId, steps: seq<Step>)
    | AtType(file: File, node: TypeNode, steps: seq<Step>)

  ghost predicate Move(w: World, s: Spot, t: Spot) {
    && s.steps != []
    && match s
       case AtDecl(id, steps) => id in w.decls && DeclMove(w, id, steps, t)
       case AtType(file, node, steps) => TypeMove(w, file, node, steps, t)
  }

  ghost predicate TypeMove(w: World, file: File, node: TypeNode, steps: seq<Step>, t: Spot)
    requires steps != []
  {
    match node
    case Literal(members) => PropertyMove(file, members, steps, t)
    case Parenthesized(inner) => t == AtType(file, inner, steps)
    case Intersection(parts) => exists i | 0 <= i < |parts| :: t == AtType(file, parts[i], steps)
    case Union(parts) => exists i | 0 <= i < |parts| :: t == AtType(file, parts[i], steps)
    case ArrayOf(element) => steps[0].Element? && t == AtType(file, element, steps[1..])
    case Operator(inner) => t == AtType(file, inner, steps)
    case IndexedAccess(object', index) => index.Some? && t == AtType(file, object', [Member(index.value)] + steps)
    case Reference(head, qualified, arguments) =>
      if IsWrapper(node) then t == AtType(file, arguments[0], steps)
      else if IsArray(node) then steps[0].Element? && t == AtType(file, arguments[0], steps[1..])
      else !qualified && NameMove(w, file, head, steps, t)
    case OtherType => false
  }

  ghost predicate PropertyMove(file: File, members: seq<TypeMember>, steps: seq<Step>, t: Spot)
    requires steps != []
  {
    && steps[0].Member? && |steps| > 1
    && var m := FindProperty(members, steps[0].name);
       m.Some? && m.value.typ.Some? && t == AtType(file, m.value.typ.value, steps[1..])
  }

  ghost predicate NameMove(w: World, file: File, name: string, steps: seq<Step>, t: Spot) {
    w.Resolve(file, name).Some? && t == AtDecl(w.Resolve(file, name).value, steps)
  }

  ghost predicate DeclMove(w: World, id: DeclId, steps: seq<Step>, t: Spot)
    requires id in w.decls && steps != []
  {
    match w.decls[id]
    case Enum => false
    case Alias(typ) => t == AtType(id.0, typ, steps)
    case Interface(members, bases) =>
      if steps[0].Member? && FindProperty(members, steps[0].name).None? then
        exists i | 0 <= i < |bases| :: bases[i].Some? && NameMove(w, id.0, bases[i].value, steps, t)
      else PropertyMove(id.0, members, steps, t)
  }

  ghost predicate MoveAt(w: World, c: seq<Spot>, i: nat)
    requires i + 1 < |c|
  {
    Move(w, c[i], c[i + 1])
  }

  ghost predicate Chain(w: World, c: seq<Spot>) {
    c != [] && forall i: nat | i + 1 < |c| :: MoveAt(w, c, i)
  }

  /** The walk can go from `s` to `t`. */
  ghost predicate CanGo(w: World, s: Spot, t: Spot) {
    exists c :: Chain(w, c) && c[0] == s && c[|c| - 1] == t
  }

  lemma ChainCons(w: World, s: Spot, c: seq<Spot>)
    requires Chain(w, c) && Move(w, s, c[0])
    ensures Chain(w, [s] + c)
  {
    var more := [s] + c;
    forall i: nat | i + 1 < |more| ensures MoveAt(w, more, i) {
      if i > 0 {
        assert MoveAt(w, c, i - 1);
      }
    }
  }

  lemma ChainPart(w: World, c: seq<Spot>, i: nat, j: nat)
    requires Chain(w, c) && i < j <= |c|
    ensures Chain(w, c[i..j])
  {
    forall k: nat | k + 1 < j - i ensures MoveAt(w, c[i..j], k) {
      assert MoveAt(w, c, i + k);
    }
  }

  lemma ChainGoes(w: World, c: seq<Spot>)
    requires Chain(w, c)
    ensures CanGo(w, c[0], c[|c| - 1])
  {
  }

  lemma GoesWithin(w: World, c: seq<Spot>, i: nat, j: nat)
    requires Chain(w, c) && i <= j < |c|
    ensures CanGo(w, c[i], c[j])
  {
    ChainPart(w, c, i, j + 1);
    ChainGoes(w, c[i..j + 1]);
  }

  // ----- every key that the walk meets can be gone to

  ghost predicate GoesToKey(w: World, s: Spot, k: Key) {
    exists steps :: |steps| == k.1 && CanGo(w, s, AtDecl(k.0, steps))
  }

  ghost predicate AllGone(w: World, s: Spot, seen: set<Key>, more: set<Key>) {
    forall k | k in more :: k in seen || GoesToKey(w, s, k)
  }

  lemma CanGoOn(w: World, s: Spot, t: Spot, u: Spot)
    requires Move(w, s, t) && CanGo(w, t, u)
    ensures CanGo(w, s, u)
  {
    var c: seq<Spot> :| Chain(w, c) && c[0] == t && c[|c| - 1] == u;
    ChainCons(w, s, c);
    ChainGoes(w, [s] + c);
  }

  lemma GoesOn(w: World, s: Spot, t: Spot, k: Key)
    requires Move(w, s, t) && GoesToKey(w, t, k)
    ensures GoesToKey(w, s, k)
  {
    var steps :| |steps| == k.1 && CanGo(w, t, AtDecl(k.0, steps));
    CanGoOn(w, s, t, AtDecl(k.0, steps));
  }

  lemma AllGoOn(w: World, s: Spot, t: Spot, seen: set<Key>, more: set<Key>)
    requires Move(w, s, t) && AllGone(w, t, seen, more)
    ensures AllGone(w, s, seen, more)
  {
    forall k | k in more && k !in seen ensures GoesToKey(w, s, k) {
      GoesOn(w, s, t, k);
    }
  }

  lemma {:induction false} TypeGoes(fuel: nat, w: World, file: File, node: TypeNode, steps: seq<Step>, seen: set<Key>)
    ensures AllGone(w, AtType(file, node, steps), seen, Lookup(fuel, w, file, node, steps, seen).seen)
    decreases fuel, 1, 0
  {
    if fuel > 0 && steps != [] {
      if node.Reference? {
        ReferenceGoes(fuel, w, file, node, steps, seen);
      } else if node.Literal? {
        LiteralGoes(fuel, w, file, node, steps, seen);
      } else if node.Intersection? || node.Union? {
        ChoiceGoes(fuel, w, file, node, steps, seen);
      } else {
        OneWayGoes(fuel, w, file, node, steps, seen);
      }
    }
  }

  lemma PartMoves(w: World, file: File, node: TypeNode, steps: seq<Step>, i: nat)
    requires steps != [] && (node.Intersection? || node.Union?) && i < |node.parts|
    ensures Move(w, AtType(file, node, steps), AtType(file, node.parts[i], steps))
  {
  }

  lemma {:induction false} ChoiceGoes(fuel: nat, w: World, file: File, node: TypeNode, steps: seq<Step>, seen: set<Key>)
    requires fuel > 0 && steps != [] && (node.Intersection? || node.Union?)
    ensures AllGone(w, AtType(file, node, steps), seen, Lookup(fuel, w, file, node, steps, seen).seen)
    decreases fuel, 0, 0
  {
    var s := AtType(file, node, steps);
    forall i: nat | i < |node.parts| ensures Move(w, s, AtType(file, node.parts[i], steps)) {
      PartMoves(w, file, node, steps, i);
    }
    PartsGo(fuel - 1, w, file, node.parts, steps, seen, s);
  }

  lemma {:induction false} LiteralGoes(fuel: nat, w: World, file: File, node: TypeNode, steps: seq<Step>,
                                       seen: set<Key>)
    requires fuel > 0 && steps != [] && node.Literal?
    ensures AllGone(w, AtType(file, node, steps), seen, Lookup(fuel, w, file, node, steps, seen).seen)
    decreases fuel, 0, 0
  {
    if steps[0].Member? && FindProperty(node.members, steps[0].name).Some? {
      var m := FindProperty(node.members, steps[0].name).value;
      MemberGoes(fuel - 1, w, file, m, steps, seen, AtType(file, node, steps));
    }
  }

  lemma {:induction false} OneWayGoes(fuel: nat, w: World, file: File, node: TypeNode, steps: seq<Step>, seen: set<Key>)
    requires fuel > 0 && steps != []
    requires !node.Literal? && !node.Intersection? && !node.Union? && !node.Reference?
    ensures AllGone(w, AtType(file, node, steps), seen, Lookup(fuel, w, file, node, steps, seen).seen)
    decreases fuel, 0, 0
  {
    var s := AtType(file, node, steps);
    match node
    case Parenthesized(inner) => PassGoes(fuel - 1, w, file, inner, steps, seen, s);
    case ArrayOf(element) =>
      if steps[0].Element? {
        PassGoes(fuel - 1, w, file, element, steps[1..], seen, s);
      }
    case Operator(inner) => PassGoes(fuel - 1, w, file, inner, steps, seen, s);
    case IndexedAccess(object', index) =>
      if index.Some? {
        PassGoes(fuel - 1, w, file, object', [Member(index.value)] + steps, seen, s);
      }
    case OtherType =>
  }

  lemma {:induction false} PassGoes(fuel: nat, w: World, file: File, node: TypeNode, steps: seq<Step>, seen: set<Key>,
                                    s: Spot)
    requires Move(w, s, AtType(file, node, steps))
    ensures AllGone(w, s, seen, Lookup(fuel, w, file, node, steps, seen).seen)
    decreases fuel, 2, 0
  {
    TypeGoes(fuel, w, file, node, steps, seen);
    AllGoOn(w, s, AtType(file, node, steps), seen, Lookup(fuel, w, file, node, steps, seen).seen);
  }

  lemma {:induction false} ReferenceGoes(fuel: nat, w: World, file: File, node: TypeNode, steps: seq<Step>,
                                         seen: set<Key>)
    requires fuel > 0 && steps != [] && node.Reference?
    ensures AllGone(w, AtType(file, node, steps), seen, Lookup(fuel, w, file, node, steps, seen).seen)
    decreases fuel, 0, 0
  {
    var s := AtType(file, node, steps);
    if IsWrapper(node) {
      PassGoes(fuel - 1, w, file, node.arguments[0], steps, seen, s);
    } else if IsArray(node) {
      if steps[0].Element? {
        PassGoes(fuel - 1, w, file, node.arguments[0], steps[1..], seen, s);
      }
    } else if !node.qualified {
      NameGoes(fuel - 1, w, file, node.head, steps, seen, s);
    }
  }

  lemma {:induction false} MemberGoes(fuel: nat, w: World, file: File, m: TypeMember, steps: seq<Step>, seen: set<Key>,
                                      s: Spot)
    requires m.Property? && steps != []
    requires |steps| > 1 && m.typ.Some? ==> Move(w, s, AtType(file, m.typ.value, steps[1..]))
    ensures AllGone(w, s, seen, IntoMember(fuel, w, file, m, steps, seen).seen)
    decreases fuel, 3, 0
  {
    if |steps| > 1 && m.typ.Some? {
      PassGoes(fuel, w, file, m.typ.value, steps[1..], seen, s);
    }
  }

  lemma {:induction false} PartsGo(fuel: nat, w: World, file: File, parts: seq<TypeNode>, steps: seq<Step>,
                                   seen: set<Key>, s: Spot)
    requires forall i | 0 <= i < |parts| :: Move(w, s, AtType(file, parts[i], steps))
    ensures AllGone(w, s, seen, LookupAll(fuel, w, file, parts, steps, seen).seen)
    decreases fuel, 3, |parts|
  {
    if parts != [] {
      var n := |parts| - 1;
      PartsGo(fuel, w, file, parts[..n], steps, seen, s);
      PassGoes(fuel, w, file, parts[n], steps, LookupAll(fuel, w, file, parts[..n], steps, seen).seen, s);
    }
  }

  lemma {:induction false} NameGoes(fuel: nat, w: World, file: File, name: string, steps: seq<Step>, seen: set<Key>,
                                    s: Spot)
    requires w.Resolve(file, name).Some? ==> Move(w, s, AtDecl(w.Resolve(file, name).value, steps))
    ensures AllGone(w, s, seen, LookupName(fuel, w, file, name, steps, seen).seen)
    decreases fuel, 2, 0
  {
    if w.Resolve(file, name).Some? {
      var target := w.Resolve(file, name).value;
      DeclGoes(fuel, w, target, steps, seen);
      AllGoOn(w, s, AtDecl(target, steps), seen, LookupDecl(fuel, w, target, steps, seen).seen);
    }
  }

  lemma KeyHere(w: World, id: DeclId, steps: seq<Step>)
    ensures GoesToKey(w, AtDecl(id, steps), (id, |steps|))
  {
    assert Chain(w, [AtDecl(id, steps)]);
    assert CanGo(w, AtDecl(id, steps), AtDecl(id, steps));
  }

  /** The key that the guard takes in is met right here. */
  lemma WithKeyHere(w: World, id: DeclId, steps: seq<Step>, seen: set<Key>, more: set<Key>)
    requires AllGone(w, AtDecl(id, steps), seen + {(id, |steps|)}, more)
    ensures AllGone(w, AtDecl(id, steps), seen, more)
  {
    KeyHere(w, id, steps);
  }

  lemma {:induction false} DeclGoes(fuel: nat, w: World, id: DeclId, steps: seq<Step>, seen: set<Key>)
    requires id in w.decls
    ensures AllGone(w, AtDecl(id, steps), seen, LookupDecl(fuel, w, id, steps, seen).seen)
    decreases fuel, 1, 0
  {
    if fuel > 0 && steps != [] && !w.decls[id].Enum? && (id, |steps|) !in seen {
      BodyGoes(fuel, w, id, steps, seen);
      WithKeyHere(w, id, steps, seen, LookupDecl(fuel, w, id, steps, seen).seen);
    }
  }

  lemma {:induction false} BodyGoes(fuel: nat, w: World, id: DeclId, steps: seq<Step>, seen: set<Key>)
    requires id in w.decls && fuel > 0 && steps != [] && !w.decls[id].Enum? && (id, |steps|) !in seen
    ensures AllGone(w, AtDecl(id, steps), seen + {(id, |steps|)}, LookupDecl(fuel, w, id, steps, seen).seen)
    decreases fuel, 0, 0
  {
    var s, guard := AtDecl(id, steps), seen + {(id, |steps|)};
    match w.decls[id]
    case Alias(typ) => PassGoes(fuel - 1, w, id.0, typ, steps, guard, s);
    case Interface(members, bases) =>
      if steps[0].Member? {
        match FindProperty(members, steps[0].name)
        case Some(m) => MemberGoes(fuel - 1, w, id.0, m, steps, guard, s);
        case None => BasesGo(fuel - 1, w, id.0, bases, steps, guard, s);
      }
  }

  lemma {:induction false} BasesGo(fuel: nat, w: World, file: File, bases: seq<Option<string>>, steps: seq<Step>,
                                   seen: set<Key>, s: Spot)
    requires forall i | 0 <= i < |bases| :: bases[i].Some? && w.Resolve(file, bases[i].value).Some? ==>
               Move(w, s, AtDecl(w.Resolve(file, bases[i].value).value, steps))
    ensures AllGone(w, s, seen, LookupBases(fuel, w, file, bases, steps, seen).seen)
    decreases fuel, 3, |bases|
  {
    if bases != [] {
      var n := |bases| - 1;
      BasesGo(fuel, w, file, bases[..n], steps, seen, s);
      if bases[n].Some? {
        NameGoes(fuel, w, file, bases[n].value, steps, LookupBases(fuel, w, file, bases[..n], steps, seen).seen, s);
      }
    }
  }

  // ----- the literal indexed accesses of a world

  function Accesses(node: TypeNode): set<TypeNode> {
    match node
    case Literal(members) => MemberAccesses(members)
    case Parenthesized(inner) => Accesses(inner)
    case Intersection(parts) => PartAccesses(parts)
    case Union(parts) => PartAccesses(parts)
    case ArrayOf(element) => Accesses(element)
    case Operator(inner) => Accesses(inner)
    case IndexedAccess(object', _) => {node} + Accesses(object')
    case Reference(_, _, arguments) => PartAccesses(arguments)
    case OtherType => {}
  }

  function PartAccesses(parts: seq<TypeNode>): set<TypeNode> {
    if parts == [] then {} else Accesses(parts[0]) + PartAccesses(parts[1..])
  }

  function MemberAccesses(members: seq<TypeMember>): set<TypeNode> {
    if members == [] then {} else MemberAccess(members[0]) + MemberAccesses(members[1..])
  }

  function MemberAccess(m: TypeMember): set<TypeNode> {
    if m.Property? && m.typ.Some? then Accesses(m.typ.value) else {}
  }

  function DeclAccesses(decl: Declaration): set<TypeNode> {
    match decl
    case Enum => {}
    case Alias(typ) => Accesses(typ)
    case Interface(members, _) => MemberAccesses(members)
  }

  type Site = (File, TypeNode)

  function Sites(w: World): set<Site> {
    set id, a | id in w.decls && a in DeclAccesses(w.decls[id]) :: (id.0, a)
  }

  /** What a spot can still come to belongs to the world. */
  ghost predicate Inside(w: World, s: Spot) {
    match s
    case AtDecl(id, _) => id in w.decls
    case AtType(file, node, _) => forall a | a in Accesses(node) :: (file, a) in Sites(w)
  }

  lemma {:induction false} PartAccessesHave(parts: seq<TypeNode>, i: nat)
    requires i < |parts|
    ensures Accesses(parts[i]) <= PartAccesses(parts)
  {
    if i > 0 {
      PartAccessesHave(parts[1..], i - 1);
    }
  }

  lemma {:induction false} PropertyAccesses(members: seq<TypeMember>, name: string)
    ensures var m := FindProperty(members, name); m.Some? ==> MemberAccess(m.value) <= MemberAccesses(members)
  {
    if members != [] {
      PropertyAccesses(members[1..], name);
    }
  }

  lemma MoveInside(w: World, s: Spot, t: Spot)
    requires Inside(w, s) && Move(w, s, t)
    ensures Inside(w, t)
  {
    match s
    case AtDecl(id, steps) => DeclMoveInside(w, id, steps, t);
    case AtType(file, node, steps) =>
      match node
      case Literal(members) => PropertyAccesses(members, steps[0].name);
      case Intersection(parts) => PartMoveInside(file, parts, steps, t);
      case Union(parts) => PartMoveInside(file, parts, steps, t);
      case Reference(_, _, arguments) =>
        if arguments != [] {
          PartAccessesHave(arguments, 0);
        }
      case _ =>
  }

  lemma PartMoveInside(file: File, parts: seq<TypeNode>, steps: seq<Step>, t: Spot)
    requires exists i | 0 <= i < |parts| :: t == AtType(file, parts[i], steps)
    ensures t.AtType? && t.file == file && Accesses(t.node) <= PartAccesses(parts)
  {
    var i :| 0 <= i < |parts| && t == AtType(file, parts[i], steps);
    PartAccessesHave(parts, i);
  }

  lemma DeclMoveInside(w: World, id: DeclId, steps: seq<Step>, t: Spot)
    requires id in w.decls && steps != [] && DeclMove(w, id, steps, t)
    ensures Inside(w, t)
  {
    match w.decls[id]
    case Alias(typ) =>
      forall a | a in Accesses(typ) ensures (id.0, a) in Sites(w) {
        assert a in DeclAccesses(w.decls[id]);
      }
    case Interface(members, bases) =>
      if steps[0].Member? && FindProperty(members, steps[0].name).Some? {
        PropertyAccesses(members, steps[0].name);
        forall a | a in MemberAccesses(members) ensures (id.0, a) in Sites(w) {
          assert a in DeclAccesses(w.decls[id]);
        }
      }
  }

  lemma {:induction false} ChainInside(w: World, c: seq<Spot>, i: nat)
    requires Chain(w, c) && Inside(w, c[0]) && i < |c|
    ensures Inside(w, c[i])
  {
    if i > 0 {
      ChainInside(w, c, i - 1);
      assert MoveAt(w, c, i - 1);
      MoveInside(w, c[i - 1], c[i]);
    }
  }

  // ----- a chain to a long path comes by some access twice, and never below it in between

  /** A move adds one step, at a literal indexed access, or adds none. */
  lemma MoveGrows(w: World, s: Spot, t: Spot)
    requires Move(w, s, t)
    ensures |t.steps| <= |s.steps| + 1
    ensures |t.steps| == |s.steps| + 1 ==>
              && s.AtType? && s.node.IndexedAccess? && s.node.index.Some?
              && t == AtType(s.file, s.node.object', [Member(s.node.index.value)] + s.steps)
  {
  }

  /** The last spot of the chain with at most `level` steps. */
  function LastAt(c: seq<Spot>, level: nat): (i: nat)
    requires c != [] && |c[0].steps| <= level
    ensures i < |c| && |c[i].steps| <= level && forall j | i < j < |c| :: |c[j].steps| > level
  {
    var n := |c| - 1;
    if |c[n].steps| <= level then n else LastAt(c[..n], level)
  }

  /** The chain leaves a level for good at a literal indexed access. */
  lemma LeavesLevel(w: World, c: seq<Spot>, level: nat)
    requires Chain(w, c) && Inside(w, c[0]) && |c[0].steps| <= level < |c[|c| - 1].steps|
    ensures
      var i := LastAt(c, level);
      && i + 1 < |c| && |c[i].steps| == level
      && c[i].AtType? && c[i].node.IndexedAccess? && c[i].node.index.Some? && (c[i].file, c[i].node) in Sites(w)
      && c[i + 1] == AtType(c[i].file, c[i].node.object', [Member(c[i].node.index.value)] + c[i].steps)
  {
    var i := LastAt(c, level);
    assert MoveAt(w, c, i);
    MoveGrows(w, c[i], c[i + 1]);
    ChainInside(w, c, i);
    assert c[i].node in Accesses(c[i].node);
  }

  ghost function SiteAt(w: World, c: seq<Spot>, level: nat): (site: Site)
    requires Chain(w, c) && Inside(w, c[0]) && |c[0].steps| <= level < |c[|c| - 1].steps|
    ensures site in Sites(w)
  {
    LeavesLevel(w, c, level);
    (c[LastAt(c, level)].file, c[LastAt(c, level)].node)
  }

  /** More levels than accesses: some access is left for good at two of them. */
  lemma TwoLevels(w: World, c: seq<Spot>) returns (low: nat, high: nat)
    requires Chain(w, c) && Inside(w, c[0]) && |c[|c| - 1].steps| > |c[0].steps| + |Sites(w)|
    ensures |c[0].steps| <= low < high < |c[|c| - 1].steps| && SiteAt(w, c, low) == SiteAt(w, c, high)
  {
    var base, n := |c[0].steps|, |Sites(w)| + 1;
    var sites := seq(n, k requires 0 <= k < n => SiteAt(w, c, base + k));
    forall x | x in Members(sites) ensures x in Sites(w) {
      var k :| 0 <= k < |sites| && sites[k] == x;
      assert x == SiteAt(w, c, base + k);
    }
    SubsetSize(Members(sites), Sites(w));
    if NoDup(sites) {
      NoDupMembers(sites);
    }
    var i, j :| 0 <= i < j < |sites| && sites[i] == sites[j];
    low, high := base + i, base + j;
  }

  /** The spot without the last `n` steps of its path. */
  function Cut(s: Spot, n: nat): Spot
    requires n <= |s.steps|
  {
    var steps := s.steps[..|s.steps| - n];
    match s
    case AtDecl(id, _) => AtDecl(id, steps)
    case AtType(file, node, _) => AtType(file, node, steps)
  }

  /** A move between paths that are longer than `n` does not depend on their last `n` steps. */
  lemma CutMove(w: World, s: Spot, t: Spot, n: nat)
    requires Move(w, s, t) && |s.steps| > n && |t.steps| > n
    ensures Move(w, Cut(s, n), Cut(t, n))
  {
    var steps := s.steps[..|s.steps| - n];
    assert steps[0] == s.steps[0] && steps[1..] == s.steps[1..][..|s.steps| - 1 - n];
    match s
    case AtDecl(id, _) =>
    case AtType(file, node, _) =>
      if node.IndexedAccess? {
        var longer := [Member(node.index.value)] + s.steps;
        assert longer[..|longer| - n] == [Member(node.index.value)] + steps;
      }
  }

  /**
   * A literal indexed access is followed, through any branches, from its object with just the step it
   * adds back to itself with `added`: the object is then met with that step and `added` behind it.
   */
  ghost predicate Pumps(w: World, file: File, access: TypeNode, added: seq<Step>) {
    && access.IndexedAccess? && access.index.Some? && added != []
    && CanGo(w, AtType(file, access.object', [Member(access.index.value)]), AtType(file, access, added))
  }

  lemma CutChain(w: World, c: seq<Spot>, n: nat)
    requires Chain(w, c) && forall k | 0 <= k < |c| :: |c[k].steps| > n
    ensures Chain(w, seq(|c|, k requires 0 <= k < |c| => Cut(c[k], n)))
  {
    var cut := seq(|c|, k requires 0 <= k < |c| => Cut(c[k], n));
    forall k: nat | k + 1 < |cut| ensures MoveAt(w, cut, k) {
      assert MoveAt(w, c, k);
      CutMove(w, c[k], c[k + 1], n);
    }
  }

  /** A chain that stays above its first `n` steps can be followed without them. */
  lemma GoesWithout(w: World, c: seq<Spot>, n: nat)
    requires Chain(w, c) && forall k | 0 <= k < |c| :: |c[k].steps| > n
    ensures CanGo(w, Cut(c[0], n), Cut(c[|c| - 1], n))
  {
    CutChain(w, c, n);
    ChainGoes(w, seq(|c|, k requires 0 <= k < |c| => Cut(c[k], n)));
  }

  lemma LevelsInOrder(w: World, c: seq<Spot>, low: nat, high: nat)
    requires Chain(w, c) && Inside(w, c[0]) && |c[0].steps| <= low < high < |c[|c| - 1].steps|
    ensures LastAt(c, low) < LastAt(c, high) < |c| - 1
  {
    LeavesLevel(w, c, low);
    LeavesLevel(w, c, high);
  }

  lemma GoesBetween(w: World, c: seq<Spot>, i: nat, j: nat, n: nat)
    requires Chain(w, c) && i < j < |c| && forall k | i < k <= j :: |c[k].steps| > n
    ensures CanGo(w, Cut(c[i + 1], n), Cut(c[j], n))
  {
    var part := c[i + 1..j + 1];
    PartEnds(c, part, i, j);
    ChainPart(w, c, i + 1, j + 1);
    PartAbove(c, part, i, j, n);
    GoesWithout(w, part, n);
  }

  lemma PartEnds(c: seq<Spot>, part: seq<Spot>, i: nat, j: nat)
    requires i < j < |c| && part == c[i + 1..j + 1]
    ensures part != [] && part[0] == c[i + 1] && part[|part| - 1] == c[j]
  {
  }

  lemma PartAbove(c: seq<Spot>, part: seq<Spot>, i: nat, j: nat, n: nat)
    requires i < j < |c| && part == c[i + 1..j + 1] && forall k | i < k <= j :: |c[k].steps| > n
    ensures forall k | 0 <= k < |part| :: |part[k].steps| > n
  {
    forall k | 0 <= k < |part| ensures |part[k].steps| > n {
      assert part[k] == c[i + 1 + k];
    }
  }

  /** What lies between the spots at which two levels are left stays above the lower one. */
  lemma BetweenLevels(w: World, c: seq<Spot>, low: nat, high: nat)
    requires Chain(w, c) && Inside(w, c[0]) && |c[0].steps| <= low < high < |c[|c| - 1].steps|
    ensures
      var i, j := LastAt(c, low), LastAt(c, high);
      && i < j < |c| && |c[i + 1].steps| > low && |c[j].steps| > low
      && CanGo(w, Cut(c[i + 1], low), Cut(c[j], low))
  {
    LevelsInOrder(w, c, low, high);
    GoesBetween(w, c, LastAt(c, low), LastAt(c, high), low);
  }

  lemma CutAfterAccess(s: Spot, access: TypeNode)
    requires s.AtType? && access.IndexedAccess? && access.index.Some?
    ensures
      var step := [Member(access.index.value)];
      Cut(AtType(s.file, access.object', step + s.steps), |s.steps|) == AtType(s.file, access.object', step)
  {
    var step := [Member(access.index.value)];
    assert (step + s.steps)[..1] == step;
  }

  lemma PumpsBetween(w: World, c: seq<Spot>, low: nat, high: nat)
    requires Chain(w, c) && Inside(w, c[0]) && |c[0].steps| <= low < high < |c[|c| - 1].steps|
    requires SiteAt(w, c, low) == SiteAt(w, c, high)
    ensures exists added :: Pumps(w, SiteAt(w, c, low).0, SiteAt(w, c, low).1, added)
  {
    var (file, access) := SiteAt(w, c, low);
    var i, j := LastAt(c, low), LastAt(c, high);
    LeavesLevel(w, c, low);
    LeavesLevel(w, c, high);
    BetweenLevels(w, c, low, high);
    CutAfterAccess(c[i], access);
    assert Pumps(w, file, access, c[j].steps[..high - low]);
  }

  // ----- what an endless walk needs

  /** The walk of `id` can go to the access, on top of some path. */
  ghost predicate ComesTo(w: World, id: DeclId, steps: seq<Step>, file: File, access: TypeNode) {
    exists rest :: CanGo(w, AtDecl(id, steps), AtType(file, access, rest))
  }

  ghost predicate HasPump(w: World, id: DeclId, steps: seq<Step>, site: Site) {
    ComesTo(w, id, steps, site.0, site.1) && exists added :: Pumps(w, site.0, site.1, added)
  }

  /**
   * A walk that never ends can go to a literal indexed access that can be followed round and round,
   * each time with more steps and without ever touching the path below.
   */
  lemma EndlessNeedsPump(w: World, id: DeclId, steps: seq<Step>)
    requires id in w.decls && !EverEnds(w, id, steps)
    ensures exists site :: HasPump(w, id, steps, site)
  {
    var len := |steps| + |Sites(w)|;
    var c := LongChain(w, id, steps, len);
    var low, high := TwoLevels(w, c);
    var site := SiteAt(w, c, low);
    PumpsBetween(w, c, low, high);
    ComesToSite(w, c, low);
    assert HasPump(w, id, steps, site);
  }

  /** An endless walk can go to a declaration with a path of any length. */
  lemma LongChain(w: World, id: DeclId, steps: seq<Step>, len: nat) returns (c: seq<Spot>)
    requires id in w.decls && !EverEnds(w, id, steps)
    ensures Chain(w, c) && c[0] == AtDecl(id, steps) && |c[|c| - 1].steps| > len
  {
    var fuel := EndsOrGrows(w, id, steps, {}, len);
    var k :| k in LookupDecl(fuel, w, id, steps, {}).seen && k.1 > len;
    DeclGoes(fuel, w, id, steps, {});
    assert GoesToKey(w, AtDecl(id, steps), k);
    var high :| |high| == k.1 && CanGo(w, AtDecl(id, steps), AtDecl(k.0, high));
    c :| Chain(w, c) && c[0] == AtDecl(id, steps) && c[|c| - 1] == AtDecl(k.0, high);
  }

  lemma ComesToSite(w: World, c: seq<Spot>, level: nat)
    requires Chain(w, c) && c[0].AtDecl? && Inside(w, c[0]) && |c[0].steps| <= level < |c[|c| - 1].steps|
    ensures ComesTo(w, c[0].id, c[0].steps, SiteAt(w, c, level).0, SiteAt(w, c, level).1)
  {
    var i := LastAt(c, level);
    LeavesLevel(w, c, level);
    GoesWithin(w, c, 0, i);
  }

  // ----- cycles that gain need not be endless

  const READ_OFF := IndexedAccess(IndexedAccess(Reference("A", false, []), Some("y")), Some("z"))

  /** `interface A { x: A['y']['z']; y: { z } }`: a cycle that takes one step off, adds two, and leads nowhere. */
  function ReadingOff(a: DeclId): World {
    World(map[a := Interface([Property("x", Some(READ_OFF)), Property("y", Some(Literal([Property("z", None)])))], [])],
          map[(a.0, "A") := a])
  }

  lemma ReadingOffGains(a: DeclId)
    ensures !NoGain(ReadingOff(a), Reachable(ReadingOff(a), a))
  {
    var w, ref := ReadingOff(a), Reference("A", false, []);
    var members := w.decls[a].members;
    assert w.Resolve(a.0, "A") == Some(a);
    assert Refs(w, a.0, ref, 1) == [Ref(a, 1)];
    assert Refs(w, a.0, IndexedAccess(ref, Some("y")), 0) == [Ref(a, 1)];
    assert Refs(w, a.0, READ_OFF, -1) == [Ref(a, 1)];
    assert MemberRefs(w, a.0, members, -1) == [Ref(a, 1)] + MemberRefs(w, a.0, members[1..], -1);
    assert Ref(a, 1) in RefsOf(w, a);
    HopLeads(w, Hop(a, Ref(a, 1)));
    ReachableClosed(w, a);
  }

  lemma ReadingOffEnds(a: DeclId)
    ensures LookupDecl(6, ReadingOff(a), a, [Member("x"), Member("q")], {}).verdict == Some(Unknown)
  {
    var w, ref, q := ReadingOff(a), Reference("A", false, []), Member("q");
    var zq, yzq := [Member("z"), q], [Member("y"), Member("z"), q];
    var seen := {(a, 2)};
    assert w.Resolve(a.0, "A") == Some(a);
    assert [Member("z")] + [q] == zq && [Member("y")] + zq == yzq && yzq[1..] == zq && [Member("x"), q][1..] == [q];
    assert w.decls[a].members[1..][0].name == "y";
    assert FindProperty(w.decls[a].members, "y") == Some(w.decls[a].members[1]);
    assert LookupDecl(2, w, a, yzq, seen).verdict == Some(Unknown);
    assert LookupName(2, w, a.0, "A", yzq, seen).verdict == Some(Unknown);
    assert Lookup(3, w, a.0, ref, yzq, seen).verdict == Some(Unknown);
    assert Lookup(4, w, a.0, IndexedAccess(ref, Some("y")), zq, seen).verdict == Some(Unknown);
    assert Lookup(5, w, a.0, READ_OFF, [q], seen).verdict == Some(Unknown);
    assert {} + {(a, 2)} == seen;
  }

  /** Its reference cycle adds a step, and still the walk through it ends. */
  lemma GainWithoutPump(a: DeclId)
    ensures !NoGain(ReadingOff(a), Reachable(ReadingOff(a), a))
    ensures EverEnds(ReadingOff(a), a, [Member("x"), Member("q")])
  {
    ReadingOffGains(a);
    ReadingOffEnds(a);
  }
}
