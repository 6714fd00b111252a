/**
 * Where the guard costs nothing: declarations whose cycles all consume steps, and whose unions,
 * intersections and heritage lists do not meet the same declaration in two branches.
 */
module SchemaPathDecides {
  import opened SchemaPath
  import opened SchemaPathLaws
  import opened SchemaPathGuard
  import opened SchemaPathCost
  import opened SchemaReferences
  import opened SchemaPathEnds
  import opened Sorting
  import opened Options

  // ----- branches that keep apart

  /** Nothing is reached both from `a` and from `b`. */
  ghost predicate ApartRefs(w: World, a: seq<Ref>, b: seq<Ref>) {
    forall r, t, e {:trigger Reaches(w, r.target, e), Reaches(w, t.target, e)} |
      r in a && t in b && Reaches(w, r.target, e) :: !Reaches(w, t.target, e)
  }

  /** No choice within the type reaches a declaration in two of its branches. */
  ghost predicate Apart(w: World, file: File, node: TypeNode, gain: int) {
    match node
    case Literal(members) => ApartMembers(w, file, members, gain - 1)
    case Parenthesized(inner) => Apart(w, file, inner, gain)
    case Intersection(parts) => ApartParts(w, file, parts, gain)
    case Union(parts) => ApartParts(w, file, parts, gain)
    case ArrayOf(element) => Apart(w, file, element, gain - 1)
    case Operator(inner) => Apart(w, file, inner, gain)
    case IndexedAccess(object', index) => index.Some? ==> Apart(w, file, object', gain + 1)
    case Reference(_, _, arguments) =>
      if IsWrapper(node) then Apart(w, file, arguments[0], gain)
      else IsArray(node) ==> Apart(w, file, arguments[0], gain - 1)
    case OtherType => true
  }

  ghost predicate ApartParts(w: World, file: File, parts: seq<TypeNode>, gain: int) {
    parts == [] ||
    var init, last := parts[..|parts| - 1], parts[|parts| - 1];
    && ApartParts(w, file, init, gain) && Apart(w, file, last, gain)
    && ApartRefs(w, PartRefs(w, file, init, gain), Refs(w, file, last, gain))
  }

  ghost predicate ApartMembers(w: World, file: File, members: seq<TypeMember>, gain: int) {
    members == [] || (ApartMember(w, file, members[0], gain) && ApartMembers(w, file, members[1..], gain))
  }

  ghost predicate ApartMember(w: World, file: File, m: TypeMember, gain: int) {
    m.Property? && m.typ.Some? ==> Apart(w, file, m.typ.value, gain)
  }

  ghost predicate ApartBases(w: World, file: File, bases: seq<Option<string>>) {
    bases == [] ||
    var init, last := bases[..|bases| - 1], bases[|bases| - 1];
    && ApartBases(w, file, init)
    && (last.Some? ==> ApartRefs(w, BaseRefs(w, file, init), NameRefs(w, file, last.value, 0)))
  }

  ghost predicate ApartDecl(w: World, id: DeclId)
    requires id in w.decls
  {
    match w.decls[id]
    case Enum => true
    case Alias(typ) => Apart(w, id.0, typ, 0)
    case Interface(members, bases) => ApartMembers(w, id.0, members, -1) && ApartBases(w, id.0, bases)
  }

  /** Every cycle of references consumes more steps than it adds. */
  ghost predicate Consuming(w: World, s: set<DeclId>) {
    forall p: seq<Hop>, a: DeclId {:trigger Leads(w, p, a, a)} | a in s && p != [] && Leads(w, p, a, a) :: Gain(p) < 0
  }

  /**
   * What a caller can check before the walk: within the declarations it can come to, branches keep apart and
   * cycles consume.
   */
  ghost predicate Clean(w: World, s: set<DeclId>) {
    Closed(w, s) && Consuming(w, s) && forall d | d in s :: ApartDecl(w, d)
  }

  // ----- then no key is met twice

  ghost predicate AlongBy(w: World, refs: seq<Ref>, base: int, k: Key, r: Ref, q: seq<Hop>) {
    r in refs && Leads(w, q, r.target, k.0) && k.1 == base + r.gain + Gain(q)
  }

  /** The key is met by following a reference of `refs`, with the path it then has. */
  ghost predicate Along(w: World, refs: seq<Ref>, base: int, k: Key) {
    exists r, q :: AlongBy(w, refs, base, k, r, q)
  }

  ghost predicate Tidy(w: World, met: seq<Key>, refs: seq<Ref>, base: int) {
    NoDup(met) && forall k | k in met :: Along(w, refs, base, k)
  }

  ghost predicate Within(s: set<DeclId>, refs: seq<Ref>) {
    forall r | r in refs :: r.target in s
  }

  lemma TidyMore(w: World, met: seq<Key>, refs: seq<Ref>, more: seq<Ref>, base: int)
    requires Tidy(w, met, refs, base) && forall r | r in refs :: r in more
    ensures Tidy(w, met, more, base)
  {
    forall k | k in met ensures Along(w, more, base, k) {
      var r, q :| AlongBy(w, refs, base, k, r, q);
      assert AlongBy(w, more, base, k, r, q);
    }
  }

  lemma NoDupJoin<T>(a: seq<T>, b: seq<T>)
    requires NoDup(a) && NoDup(b) && forall x | x in b :: x !in a
    ensures NoDup(a + b)
  {
    var s := a + b;
    forall i, j | 0 <= i < j < |s| ensures s[i] != s[j] {
      if i < |a| <= j {
        assert s[j] == b[j - |a|] && b[j - |a|] in b && s[i] == a[i];
      } else if |a| <= i {
        assert s[i] == b[i - |a|] && s[j] == b[j - |a|];
      }
    }
  }

  /** Keys of branches that keep apart are different. */
  lemma TidyJoin(w: World, a: seq<Key>, b: seq<Key>, refs: seq<Ref>, last: seq<Ref>, base: int)
    requires Tidy(w, a, refs, base) && Tidy(w, b, last, base) && ApartRefs(w, refs, last)
    ensures Tidy(w, a + b, refs + last, base)
  {
    TidyMore(w, a, refs, refs + last, base);
    TidyMore(w, b, last, refs + last, base);
    forall k | k in b ensures k !in a {
      if k in a {
        var r, q :| AlongBy(w, refs, base, k, r, q);
        var t, p :| AlongBy(w, last, base, k, t, p);
        assert Reaches(w, r.target, k.0) && Reaches(w, t.target, k.0);
      }
    }
    NoDupJoin(a, b);
  }

  lemma {:induction false} PropertyApart(w: World, file: File, members: seq<TypeMember>, gain: int, name: string)
    requires ApartMembers(w, file, members, gain)
    ensures var m := FindProperty(members, name); m.Some? ==> ApartMember(w, file, m.value, gain)
  {
    if members != [] {
      PropertyApart(w, file, members[1..], gain, name);
    }
  }

  lemma {:induction false} NodeTidy(fuel: nat, w: World, s: set<DeclId>, file: File, node: TypeNode,
                                    steps: seq<Step>, gain: int)
    requires Clean(w, s) && Apart(w, file, node, gain) && Within(s, Refs(w, file, node, gain))
    ensures Tidy(w, Free(fuel, w, file, node, steps).met, Refs(w, file, node, gain), |steps| - gain)
    decreases fuel, 1, 0
  {
    if fuel > 0 && steps != [] {
      match node
      case Literal(members) =>
        if steps[0].Member? && FindProperty(members, steps[0].name).Some? {
          var m := FindProperty(members, steps[0].name).value;
          PropertyApart(w, file, members, gain - 1, steps[0].name);
          PropertyRefs(w, file, members, gain - 1, steps[0].name);
          MemberTidy(fuel - 1, w, s, file, m, steps, gain - 1);
          TidyMore(w, FreeMember(fuel - 1, w, file, m, steps).met, MemberRef(w, file, m, gain - 1),
                   Refs(w, file, node, gain), |steps| - gain);
        }
      case Parenthesized(inner) => NodeTidy(fuel - 1, w, s, file, inner, steps, gain);
      case Intersection(parts) => PartsTidy(fuel - 1, w, s, file, parts, steps, gain);
      case Union(parts) => PartsTidy(fuel - 1, w, s, file, parts, steps, gain);
      case ArrayOf(element) =>
        if steps[0].Element? {
          NodeTidy(fuel - 1, w, s, file, element, steps[1..], gain - 1);
        }
      case Operator(inner) => NodeTidy(fuel - 1, w, s, file, inner, steps, gain);
      case IndexedAccess(object', index) =>
        if index.Some? {
          NodeTidy(fuel - 1, w, s, file, object', [Member(index.value)] + steps, gain + 1);
        }
      case Reference(_, _, _) => ReferenceTidy(fuel, w, s, file, node, steps, gain);
      case OtherType =>
    }
  }

  lemma {:induction false} ReferenceTidy(fuel: nat, w: World, s: set<DeclId>, file: File, node: TypeNode,
                                         steps: seq<Step>, gain: int)
    requires fuel > 0 && steps != [] && node.Reference?
    requires Clean(w, s) && Apart(w, file, node, gain) && Within(s, Refs(w, file, node, gain))
    ensures Tidy(w, Free(fuel, w, file, node, steps).met, Refs(w, file, node, gain), |steps| - gain)
    decreases fuel, 0, 0
  {
    if IsWrapper(node) {
      NodeTidy(fuel - 1, w, s, file, node.arguments[0], steps, gain);
    } else if IsArray(node) {
      if steps[0].Element? {
        NodeTidy(fuel - 1, w, s, file, node.arguments[0], steps[1..], gain - 1);
      }
    } else if !node.qualified {
      NameTidy(fuel - 1, w, s, file, node.head, steps, gain);
    }
  }

  lemma {:induction false} MemberTidy(fuel: nat, w: World, s: set<DeclId>, file: File, m: TypeMember,
                                      steps: seq<Step>, gain: int)
    requires m.Property? && steps != []
    requires Clean(w, s) && ApartMember(w, file, m, gain) && Within(s, MemberRef(w, file, m, gain))
    ensures Tidy(w, FreeMember(fuel, w, file, m, steps).met, MemberRef(w, file, m, gain), |steps| - 1 - gain)
    decreases fuel, 2, 0
  {
    if |steps| > 1 && m.typ.Some? {
      NodeTidy(fuel, w, s, file, m.typ.value, steps[1..], gain);
    }
  }

  lemma {:induction false} PartsTidy(fuel: nat, w: World, s: set<DeclId>, file: File, parts: seq<TypeNode>,
                                     steps: seq<Step>, gain: int)
    requires Clean(w, s) && ApartParts(w, file, parts, gain) && Within(s, PartRefs(w, file, parts, gain))
    ensures Tidy(w, FreeAll(fuel, w, file, parts, steps).met, PartRefs(w, file, parts, gain), |steps| - gain)
    decreases fuel, 2, |parts|
  {
    if parts != [] {
      var n, base := |parts| - 1, |steps| - gain;
      var refs, last := PartRefs(w, file, parts[..n], gain), Refs(w, file, parts[n], gain);
      var init := FreeAll(fuel, w, file, parts[..n], steps);
      PartsTidy(fuel, w, s, file, parts[..n], steps, gain);
      if init.verdicts.None? {
        TidyMore(w, init.met, refs, refs + last, base);
      } else {
        NodeTidy(fuel, w, s, file, parts[n], steps, gain);
        TidyJoin(w, init.met, Free(fuel, w, file, parts[n], steps).met, refs, last, base);
      }
    }
  }

  lemma {:induction false} NameTidy(fuel: nat, w: World, s: set<DeclId>, file: File, name: string,
                                    steps: seq<Step>, gain: int)
    requires Clean(w, s) && Within(s, NameRefs(w, file, name, gain))
    ensures Tidy(w, FreeName(fuel, w, file, name, steps).met, NameRefs(w, file, name, gain), |steps| - gain)
    decreases fuel, 2, 0
  {
    var target := w.Resolve(file, name);
    if target.Some? {
      var ref, base, met := Ref(target.value, gain), |steps| - gain, FreeDecl(fuel, w, target.value, steps).met;
      assert ref in NameRefs(w, file, name, gain);
      DeclTidy(fuel, w, s, target.value, steps);
      forall k | k in met ensures Along(w, [ref], base, k) {
        var q :| Leads(w, q, target.value, k.0) && k.1 == |steps| + Gain(q);
        assert AlongBy(w, [ref], base, k, ref, q);
      }
    }
  }

  lemma {:induction false} BasesTidy(fuel: nat, w: World, s: set<DeclId>, file: File, bases: seq<Option<string>>,
                                     steps: seq<Step>)
    requires Clean(w, s) && ApartBases(w, file, bases) && Within(s, BaseRefs(w, file, bases))
    ensures Tidy(w, FreeBases(fuel, w, file, bases, steps).met, BaseRefs(w, file, bases), |steps|)
    decreases fuel, 3, |bases|
  {
    if bases != [] {
      var n := |bases| - 1;
      var refs, init := BaseRefs(w, file, bases[..n]), FreeBases(fuel, w, file, bases[..n], steps);
      BasesTidy(fuel, w, s, file, bases[..n], steps);
      if init.verdicts.None? || bases[n].None? {
        TidyMore(w, init.met, refs, BaseRefs(w, file, bases), |steps|);
        assert init.met + [] == init.met;
      } else {
        var last := NameRefs(w, file, bases[n].value, 0);
        NameTidy(fuel, w, s, file, bases[n].value, steps, 0);
        TidyJoin(w, init.met, FreeName(fuel, w, file, bases[n].value, steps).met, refs, last, |steps|);
      }
    }
  }

  /** The keys a declaration's walk meets: all different, and reached from it with the path they then have. */
  ghost predicate TidyFrom(w: World, met: seq<Key>, id: DeclId, size: nat) {
    NoDup(met) && forall k | k in met :: exists q :: Leads(w, q, id, k.0) && k.1 == size + Gain(q)
  }

  lemma {:induction false} DeclTidy(fuel: nat, w: World, s: set<DeclId>, id: DeclId, steps: seq<Step>)
    requires Clean(w, s) && id in s && id in w.decls
    ensures TidyFrom(w, FreeDecl(fuel, w, id, steps).met, id, |steps|)
    decreases fuel, 1, 0
  {
    if fuel > 0 && steps != [] && !w.decls[id].Enum? {
      var body := FreeBody(fuel - 1, w, id, steps);
      BodyTidy(fuel - 1, w, s, id, steps);
      TidyStart(w, s, id, |steps|, body.met);
    }
  }

  lemma {:induction false} BodyTidy(fuel: nat, w: World, s: set<DeclId>, id: DeclId, steps: seq<Step>)
    requires Clean(w, s) && id in s && id in w.decls && !w.decls[id].Enum? && steps != []
    ensures Tidy(w, FreeBody(fuel, w, id, steps).met, RefsOf(w, id), |steps|)
    decreases fuel, 4, 0
  {
    assert ApartDecl(w, id) && Within(s, RefsOf(w, id));
    match w.decls[id]
    case Alias(typ) => NodeTidy(fuel, w, s, id.0, typ, steps, 0);
    case Interface(members, bases) =>
      if steps[0].Member? {
        PropertyApart(w, id.0, members, -1, steps[0].name);
        PropertyRefs(w, id.0, members, -1, steps[0].name);
        match FindProperty(members, steps[0].name)
        case Some(m) =>
          MemberTidy(fuel, w, s, id.0, m, steps, -1);
          TidyMore(w, FreeMember(fuel, w, id.0, m, steps).met, MemberRef(w, id.0, m, -1), RefsOf(w, id), |steps|);
        case None =>
          BasesTidy(fuel, w, s, id.0, bases, steps);
          TidyMore(w, FreeBases(fuel, w, id.0, bases, steps).met, BaseRefs(w, id.0, bases), RefsOf(w, id), |steps|);
      }
  }

  /** The declaration itself does not come up again with as long a path, for every cycle consumes. */
  lemma TidyStart(w: World, s: set<DeclId>, id: DeclId, size: nat, met: seq<Key>)
    requires Consuming(w, s) && id in s && id in w.decls && Tidy(w, met, RefsOf(w, id), size)
    ensures TidyFrom(w, [(id, size)] + met, id, size)
  {
    var all := [(id, size)] + met;
    assert Leads(w, [], id, id) && Gain([]) == 0;
    forall k | k in met ensures (exists q :: Leads(w, q, id, k.0) && k.1 == size + Gain(q)) && k != (id, size) {
      var r, q :| AlongBy(w, RefsOf(w, id), size, k, r, q);
      HopLeads(w, Hop(id, r));
      LeadsOn(w, [Hop(id, r)], q, id, r.target, k.0);
      assert [Hop(id, r)] + q != [];
    }
    NoDupJoin([(id, size)], met);
  }

  // ----- and the walk decides whatever can be derived

  lemma CleanEnds(w: World, id: DeclId, steps: seq<Step>) returns (fuel: nat)
    requires id in w.decls && Clean(w, Reachable(w, id))
    ensures LookupDecl(fuel, w, id, steps, {}).verdict.Some?
  {
    assert NoGain(w, Reachable(w, id));
    fuel := WalkEnds(w, id, steps, {});
  }

  /** Among clean declarations the guard changes no verdict. */
  lemma GuardCostsNothing(fuel: nat, w: World, id: DeclId, steps: seq<Step>)
    requires id in w.decls && Clean(w, Reachable(w, id))
    ensures LookupDecl(fuel, w, id, steps, {}).verdict == FreeDecl(fuel, w, id, steps).verdict
  {
    ReachableClosed(w, id);
    DeclTidy(fuel, w, Reachable(w, id), id, steps);
    GuardAgrees(fuel, w, id, steps);
  }

  /** There the walk finds exactly what is derivably present and misses exactly what is derivably absent. */
  lemma DecidesExactly(w: World, id: DeclId, steps: seq<Step>, v: Verdict)
    requires id in w.decls && Clean(w, Reachable(w, id)) && v != Unknown
    ensures (exists d: nat :: DeclHolds(d, v, w, id, steps)) <==>
            exists fuel: nat :: LookupDecl(fuel, w, id, steps, {}).verdict == Some(v)
  {
    if fuel: nat :| LookupDecl(fuel, w, id, steps, {}).verdict == Some(v) {
      DeclSound(fuel, w, id, steps, {});
      assert DeclHolds(fuel, v, w, id, steps);
    }
    if d: nat :| DeclHolds(d, v, w, id, steps) {
      var fuel := CleanEnds(w, id, steps);
      GuardCostsNothing(fuel, w, id, steps);
      DeclDecides(fuel, d, v, w, id, steps);
      assert LookupDecl(fuel, w, id, steps, {}).verdict == Some(v);
    }
  }

  /** `interface A { x: A; y }`: a recursive type with several members. */
  function Recursive(a: DeclId): World {
    World(map[a := Interface([Property("x", Some(Reference("A", false, []))), Property("y", None)], [])],
          map[(a.0, "A") := a])
  }

  lemma RecursiveRefs(a: DeclId)
    ensures RefsOf(Recursive(a), a) == [Ref(a, -1)] && ApartDecl(Recursive(a), a)
  {
    var w := Recursive(a);
    var members := w.decls[a].members;
    assert w.Resolve(a.0, "A") == Some(a);
    assert Refs(w, a.0, Reference("A", false, []), -1) == [Ref(a, -1)];
    assert members[1..] == [Property("y", None)] && members[1..][1..] == [];
    assert MemberRefs(w, a.0, members[1..], -1) == [] + MemberRefs(w, a.0, [], -1);
    assert MemberRefs(w, a.0, members, -1) == [Ref(a, -1)] + MemberRefs(w, a.0, members[1..], -1);
    assert ApartMembers(w, a.0, members[1..], -1);
  }

  lemma {:induction false} RecursiveGain(a: DeclId, p: seq<Hop>)
    requires Leads(Recursive(a), p, a, a)
    ensures Gain(p) == -|p|
  {
    if p != [] {
      RecursiveRefs(a);
      RecursiveGain(a, p[1..]);
    }
  }

  /** Recursive types through members are clean, so the walk decides every path in them. */
  lemma RecursiveIsClean(a: DeclId)
    ensures Clean(Recursive(a), Reachable(Recursive(a), a))
  {
    var w := Recursive(a);
    ReachableClosed(w, a);
    RecursiveRefs(a);
    forall p: seq<Hop>, d: DeclId {:trigger Leads(w, p, d, d)} | d in Reachable(w, a) && p != [] && Leads(w, p, d, d)
      ensures Gain(p) < 0
    {
      RecursiveGain(a, p);
    }
  }
}
