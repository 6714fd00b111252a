/** What the guard can cost: only ever a definite answer, and only where a key is met twice. */
module SchemaPathCost {
  import opened SchemaPath
  import opened SchemaPathLaws
  import opened SchemaPathGuard
  import opened Sorting
  import opened Options

  // ----- the guard-free walk decides whatever can be derived

  lemma {:induction false} PartVerdict(fuel: nat, w: World, file: File, parts: seq<TypeNode>, steps: seq<Step>, i: nat)
    requires FreeAll(fuel, w, file, parts, steps).verdicts.Some? && i < |parts|
    ensures Free(fuel, w, file, parts[i], steps).verdict == Some(FreeAll(fuel, w, file, parts, steps).verdicts.value[i])
    decreases |parts|
  {
    if i < |parts| - 1 {
      PartVerdict(fuel, w, file, parts[..|parts| - 1], steps, i);
    }
  }

  lemma {:induction false} BaseVerdict(fuel: nat, w: World, file: File, bases: seq<Option<string>>,
                                       steps: seq<Step>, i: nat)
    requires FreeBases(fuel, w, file, bases, steps).verdicts.Some? && i < |bases|
    ensures FreeBase(fuel, w, file, bases[i], steps).verdict ==
        Some(FreeBases(fuel, w, file, bases, steps).verdicts.value[i])
    decreases |bases|
  {
    if i < |bases| - 1 {
      BaseVerdict(fuel, w, file, bases[..|bases| - 1], steps, i);
    }
  }

  lemma CombineFound(results: seq<Verdict>, i: nat)
    requires i < |results| && results[i] == Found
    ensures Combine(results) == Found
  {
  }

  lemma CombineMissing(results: seq<Verdict>)
    requires forall i | 0 <= i < |results| :: results[i] == Missing
    ensures Combine(results) == Missing
  {
  }

  lemma AgreeOn(results: seq<Verdict>, v: Verdict)
    requires v != Unknown && (v == Missing ==> results != []) && forall i | 0 <= i < |results| :: results[i] == v
    ensures Agree(results) == v
  {
    if v == Missing {
      assert results[0] in results;
    }
  }

  lemma {:induction false} FreeDecides(fuel: nat, d: nat, v: Verdict, w: World, file: File, node: TypeNode,
                                       steps: seq<Step>)
    requires v != Unknown && Holds(d, v, w, file, node, steps) && Free(fuel, w, file, node, steps).verdict.Some?
    ensures Free(fuel, w, file, node, steps).verdict == Some(v)
    decreases d, 1
  {
    if steps != [] {
      match node
      case Literal(members) =>
        if FindProperty(members, steps[0].name).Some? {
          MemberDecides(fuel - 1, d - 1, v, w, file, FindProperty(members, steps[0].name).value, steps);
        }
      case Parenthesized(inner) => FreeDecides(fuel - 1, d - 1, v, w, file, inner, steps);
      case Intersection(parts) => IntersectionDecides(fuel, d, v, w, file, parts, steps);
      case Union(parts) =>
        var results := FreeAll(fuel - 1, w, file, parts, steps).verdicts.value;
        forall i | 0 <= i < |parts| ensures results[i] == v {
          PartDecides(fuel - 1, d - 1, v, w, file, parts, steps, i);
        }
        AgreeOn(results, v);
      case ArrayOf(element) => FreeDecides(fuel - 1, d - 1, v, w, file, element, steps[1..]);
      case Operator(inner) => FreeDecides(fuel - 1, d - 1, v, w, file, inner, steps);
      case IndexedAccess(object', index) =>
        FreeDecides(fuel - 1, d - 1, v, w, file, object', [Member(index.value)] + steps);
      case Reference(head, _, arguments) =>
        if IsWrapper(node) {
          FreeDecides(fuel - 1, d - 1, v, w, file, arguments[0], steps);
        } else if IsArray(node) {
          FreeDecides(fuel - 1, d - 1, v, w, file, arguments[0], steps[1..]);
        } else {
          NameDecides(fuel - 1, d - 1, v, w, file, head, steps);
        }
    }
  }

  lemma {:induction false} IntersectionDecides(fuel: nat, d: nat, v: Verdict, w: World, file: File,
                                               parts: seq<TypeNode>, steps: seq<Step>)
    requires v != Unknown && steps != [] && fuel > 0 && Holds(d, v, w, file, Intersection(parts), steps)
    requires FreeAll(fuel - 1, w, file, parts, steps).verdicts.Some?
    ensures Combine(FreeAll(fuel - 1, w, file, parts, steps).verdicts.value) == v
    decreases d, 0
  {
    var results := FreeAll(fuel - 1, w, file, parts, steps).verdicts.value;
    if v == Found {
      var i :| 0 <= i < |parts| && Holds(d - 1, Found, w, file, parts[i], steps);
      PartDecides(fuel - 1, d - 1, v, w, file, parts, steps, i);
      CombineFound(results, i);
    } else {
      forall i | 0 <= i < |parts| ensures results[i] == Missing {
        PartDecides(fuel - 1, d - 1, v, w, file, parts, steps, i);
      }
      CombineMissing(results);
    }
  }

  lemma {:induction false} PartDecides(fuel: nat, d: nat, v: Verdict, w: World, file: File, parts: seq<TypeNode>,
                                       steps: seq<Step>, i: nat)
    requires v != Unknown && i < |parts| && Holds(d, v, w, file, parts[i], steps)
    requires FreeAll(fuel, w, file, parts, steps).verdicts.Some?
    ensures FreeAll(fuel, w, file, parts, steps).verdicts.value[i] == v
    decreases d, 2
  {
    PartVerdict(fuel, w, file, parts, steps, i);
    FreeDecides(fuel, d, v, w, file, parts[i], steps);
  }

  lemma {:induction false} MemberDecides(fuel: nat, d: nat, v: Verdict, w: World, file: File, m: TypeMember,
                                         steps: seq<Step>)
    requires v != Unknown && m.Property? && steps != []
    requires MemberHolds(d, v, w, file, m, steps) && FreeMember(fuel, w, file, m, steps).verdict.Some?
    ensures FreeMember(fuel, w, file, m, steps).verdict == Some(v)
    decreases d, 2
  {
    if |steps| > 1 {
      FreeDecides(fuel, d, v, w, file, m.typ.value, steps[1..]);
    }
  }

  lemma {:induction false} NameDecides(fuel: nat, d: nat, v: Verdict, w: World, file: File, name: string,
                                       steps: seq<Step>)
    requires v != Unknown && NameHolds(d, v, w, file, name, steps) && FreeName(fuel, w, file, name, steps).verdict.Some?
    ensures FreeName(fuel, w, file, name, steps).verdict == Some(v)
    decreases d, 2
  {
    DeclDecides(fuel, d, v, w, w.Resolve(file, name).value, steps);
  }

  /** If the guard-free walk ends, it answers what can be derived. */
  lemma {:induction false} DeclDecides(fuel: nat, d: nat, v: Verdict, w: World, id: DeclId, steps: seq<Step>)
    requires v != Unknown && id in w.decls
    requires DeclHolds(d, v, w, id, steps) && FreeDecl(fuel, w, id, steps).verdict.Some?
    ensures FreeDecl(fuel, w, id, steps).verdict == Some(v)
    decreases d, 1
  {
    if steps != [] {
      match w.decls[id]
      case Alias(typ) => FreeDecides(fuel - 1, d - 1, v, w, id.0, typ, steps);
      case Interface(members, bases) =>
        match FindProperty(members, steps[0].name)
        case Some(m) => MemberDecides(fuel - 1, d - 1, v, w, id.0, m, steps);
        case None => BasesDecide(fuel, d, v, w, id, steps);
    }
  }

  lemma {:induction false} BasesDecide(fuel: nat, d: nat, v: Verdict, w: World, id: DeclId, steps: seq<Step>)
    requires v != Unknown && id in w.decls && w.decls[id].Interface? && steps != [] && fuel > 0
    requires DeclHolds(d, v, w, id, steps) && FindProperty(w.decls[id].members, steps[0].name).None?
    requires FreeBases(fuel - 1, w, id.0, w.decls[id].bases, steps).verdicts.Some?
    ensures
      var bases, results := w.decls[id].bases, FreeBases(fuel - 1, w, id.0, w.decls[id].bases, steps).verdicts.value;
      v == if bases != [] then Combine(results) else Missing
    decreases d, 0
  {
    var bases, results := w.decls[id].bases, FreeBases(fuel - 1, w, id.0, w.decls[id].bases, steps).verdicts.value;
    if v == Found {
      var i :| 0 <= i < |bases| && BaseHolds(d - 1, Found, w, id.0, bases[i], steps);
      BaseVerdict(fuel - 1, w, id.0, bases, steps, i);
      NameDecides(fuel - 1, d - 1, v, w, id.0, bases[i].value, steps);
      CombineFound(results, i);
    } else {
      forall i | 0 <= i < |bases| ensures results[i] == Missing {
        BaseVerdict(fuel - 1, w, id.0, bases, steps, i);
        NameDecides(fuel - 1, d - 1, v, w, id.0, bases[i].value, steps);
      }
      CombineMissing(results);
    }
  }

  // ----- what the guard costs

  /** Whatever the guard already holds, the guarded walk answers like the guard-free one, or unknown. */
  lemma GuardOnlyWeakens(fuel: nat, g: nat, w: World, id: DeclId, steps: seq<Step>, seen: set<Key>)
    requires id in w.decls && FreeDecl(g, w, id, steps).verdict.Some?
    ensures
      var guarded, free := LookupDecl(fuel, w, id, steps, seen).verdict, FreeDecl(g, w, id, steps).verdict;
      guarded.Some? ==> guarded == free || guarded == Some(Unknown)
  {
    var guarded := LookupDecl(fuel, w, id, steps, seen).verdict;
    DeclSound(fuel, w, id, steps, seen);
    if guarded.Some? && guarded.value != Unknown {
      DeclDecides(g, fuel, guarded.value, w, id, steps);
    }
  }

  /** From an empty guard the two agree, unless a declaration is met twice with as many steps left. */
  lemma GuardAgrees(fuel: nat, w: World, id: DeclId, steps: seq<Step>)
    requires id in w.decls && NoDup(FreeDecl(fuel, w, id, steps).met)
    ensures LookupDecl(fuel, w, id, steps, {}).verdict == FreeDecl(fuel, w, id, steps).verdict
  {
    DeclAgrees(fuel, w, id, steps, {});
  }

  /** An answer that could have been definite is lost only where some key is met twice. */
  lemma LossNeedsRepeat(fuel: nat, d: nat, v: Verdict, w: World, id: DeclId, steps: seq<Step>)
    requires id in w.decls && v != Unknown && DeclHolds(d, v, w, id, steps)
    requires LookupDecl(fuel, w, id, steps, {}).verdict == Some(Unknown)
    ensures !NoDup(FreeDecl(fuel, w, id, steps).met)
  {
    if NoDup(FreeDecl(fuel, w, id, steps).met) {
      GuardAgrees(fuel, w, id, steps);
      DeclDecides(fuel, d, v, w, id, steps);
    }
  }

  /** `interface A { x }` and `type B = A | A`, neither of them recursive. */
  function Diamond(a: DeclId, b: DeclId): World {
    World(map[a := Interface([Property("x", None)], []),
              b := Alias(Union([Reference("A", false, []), Reference("A", false, [])]))],
          map[(b.0, "A") := a])
  }

  /** The member is there, in the very first branch. */
  lemma DiamondHolds(a: DeclId, b: DeclId)
    requires a != b
    ensures DeclHolds(5, Found, Diamond(a, b), b, [Member("x")])
  {
    var w, steps, r := Diamond(a, b), [Member("x")], Reference("A", false, []);
    assert w.Resolve(b.0, "A") == Some(a);
    assert DeclHolds(2, Found, w, a, steps);
    assert NameHolds(2, Found, w, b.0, "A", steps);
    assert Holds(3, Found, w, b.0, r, steps);
    assert Holds(4, Found, w, b.0, Union([r, r]), steps);
  }

  /** The two branches, one after the other: the second finds the guard taken. */
  lemma DiamondBranches(a: DeclId, b: DeclId, fuel: nat)
    requires a != b && fuel >= 3
    ensures
      var w, r, steps, guard := Diamond(a, b), Reference("A", false, []), [Member("x")], {(b, 1)};
      && Lookup(fuel, w, b.0, r, steps, guard) == Outcome(Some(Found), guard + {(a, 1)})
      && Lookup(fuel, w, b.0, r, steps, guard + {(a, 1)}).verdict == Some(Unknown)
  {
    var w, steps, guard := Diamond(a, b), [Member("x")], {(b, 1)};
    assert w.Resolve(b.0, "A") == Some(a);
    assert LookupDecl(fuel - 1, w, a, steps, guard) == Outcome(Some(Found), guard + {(a, 1)});
    assert LookupName(fuel - 1, w, b.0, "A", steps, guard) == Outcome(Some(Found), guard + {(a, 1)});
    assert LookupName(fuel - 1, w, b.0, "A", steps, guard + {(a, 1)}).verdict == Some(Unknown);
  }

  /** The guard also answers unknown when a declaration is met twice without any recursion. */
  lemma DiamondIsUnknown(a: DeclId, b: DeclId, fuel: nat)
    requires a != b && fuel >= 5
    ensures LookupDecl(fuel, Diamond(a, b), b, [Member("x")], {}).verdict == Some(Unknown)
    ensures DeclHolds(5, Found, Diamond(a, b), b, [Member("x")])
  {
    var w, r, steps, guard := Diamond(a, b), Reference("A", false, []), [Member("x")], {(b, 1)};
    var one, parts := [r], [r, r];
    DiamondHolds(a, b);
    DiamondBranches(a, b, fuel - 2);
    assert one[..|one| - 1] == [] && parts[..|parts| - 1] == one;
    assert LookupAll(fuel - 2, w, b.0, one[..|one| - 1], steps, guard) == Outcomes(Some([]), guard);
    assert one[|one| - 1] == r && parts[|parts| - 1] == r && [] + [Found] == [Found];
    assert LookupAll(fuel - 2, w, b.0, one, steps, guard) == Outcomes(Some([Found]), guard + {(a, 1)});
    assert LookupAll(fuel - 2, w, b.0, parts, steps, guard).verdicts == Some([Found] + [Unknown]);
    var results := [Found] + [Unknown];
    assert results[0] in results && results[1] in results;
    assert {} + {(b, 1)} == guard;
  }
}
