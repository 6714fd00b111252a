/** Where the guard does cost an answer: unions that name one declaration in two branches. */
module SchemaPathLoss {
  import opened SchemaPath
  import opened SchemaPathGuard
  import opened Options

  // ----- the guard never keeps a walk from ending

  lemma {:induction false} LookupEndsToo(fuel: nat, w: World, file: File, node: TypeNode, steps: seq<Step>,
                                         seen: set<Key>)
    requires Free(fuel, w, file, node, steps).verdict.Some?
    ensures Lookup(fuel, w, file, node, steps, seen).verdict.Some?
    decreases fuel, 1, 0
  {
    if steps != [] {
      match node
      case Literal(members) =>
        if steps[0].Member? && FindProperty(members, steps[0].name).Some? {
          MemberEndsToo(fuel - 1, w, file, FindProperty(members, steps[0].name).value, steps, seen);
        }
      case Parenthesized(inner) => LookupEndsToo(fuel - 1, w, file, inner, steps, seen);
      case Intersection(parts) => AllEndToo(fuel - 1, w, file, parts, steps, seen);
      case Union(parts) => AllEndToo(fuel - 1, w, file, parts, steps, seen);
      case ArrayOf(element) =>
        if steps[0].Element? {
          LookupEndsToo(fuel - 1, w, file, element, steps[1..], seen);
        }
      case Operator(inner) => LookupEndsToo(fuel - 1, w, file, inner, steps, seen);
      case IndexedAccess(object', index) =>
        if index.Some? {
          LookupEndsToo(fuel - 1, w, file, object', [Member(index.value)] + steps, seen);
        }
      case Reference(_, _, _) => ReferenceEndsToo(fuel, w, file, node, steps, seen);
      case OtherType =>
    }
  }

  lemma {:induction false} ReferenceEndsToo(fuel: nat, w: World, file: File, node: TypeNode, steps: seq<Step>,
                                            seen: set<Key>)
    requires node.Reference? && steps != [] && Free(fuel, w, file, node, steps).verdict.Some?
    ensures Lookup(fuel, w, file, node, steps, seen).verdict.Some?
    decreases fuel, 0, 0
  {
    if IsWrapper(node) {
      LookupEndsToo(fuel - 1, w, file, node.arguments[0], steps, seen);
    } else if IsArray(node) {
      if steps[0].Element? {
        LookupEndsToo(fuel - 1, w, file, node.arguments[0], steps[1..], seen);
      }
    } else if !node.qualified {
      NameEndsToo(fuel - 1, w, file, node.head, steps, seen);
    }
  }

  lemma {:induction false} MemberEndsToo(fuel: nat, w: World, file: File, m: TypeMember, steps: seq<Step>,
                                         seen: set<Key>)
    requires m.Property? && steps != [] && FreeMember(fuel, w, file, m, steps).verdict.Some?
    ensures IntoMember(fuel, w, file, m, steps, seen).verdict.Some?
    decreases fuel, 2, 0
  {
    if |steps| > 1 && m.typ.Some? {
      LookupEndsToo(fuel, w, file, m.typ.value, steps[1..], seen);
    }
  }

  lemma {:induction false} AllEndToo(fuel: nat, w: World, file: File, parts: seq<TypeNode>, steps: seq<Step>,
                                     seen: set<Key>)
    requires FreeAll(fuel, w, file, parts, steps).verdicts.Some?
    ensures LookupAll(fuel, w, file, parts, steps, seen).verdicts.Some?
    decreases fuel, 2, |parts|
  {
    if parts != [] {
      var n := |parts| - 1;
      AllEndToo(fuel, w, file, parts[..n], steps, seen);
      LookupEndsToo(fuel, w, file, parts[n], steps, LookupAll(fuel, w, file, parts[..n], steps, seen).seen);
    }
  }

  lemma {:induction false} NameEndsToo(fuel: nat, w: World, file: File, name: string, steps: seq<Step>, seen: set<Key>)
    requires FreeName(fuel, w, file, name, steps).verdict.Some?
    ensures LookupName(fuel, w, file, name, steps, seen).verdict.Some?
    decreases fuel, 2, 0
  {
    if w.Resolve(file, name).Some? {
      DeclEndsToo(fuel, w, w.Resolve(file, name).value, steps, seen);
    }
  }

  /** Where the guard-free walk ends, the guarded one does, at no greater depth. */
  lemma {:induction false} DeclEndsToo(fuel: nat, w: World, id: DeclId, steps: seq<Step>, seen: set<Key>)
    requires id in w.decls && FreeDecl(fuel, w, id, steps).verdict.Some?
    ensures LookupDecl(fuel, w, id, steps, seen).verdict.Some?
    decreases fuel, 1, 0
  {
    if steps != [] && !w.decls[id].Enum? && (id, |steps|) !in seen {
      var guard := seen + {(id, |steps|)};
      match w.decls[id]
      case Alias(typ) => LookupEndsToo(fuel - 1, w, id.0, typ, steps, guard);
      case Interface(members, bases) =>
        if steps[0].Member? {
          match FindProperty(members, steps[0].name)
          case Some(m) => MemberEndsToo(fuel - 1, w, id.0, m, steps, guard);
          case None => BasesEndToo(fuel - 1, w, id.0, bases, steps, guard);
        }
    }
  }

  lemma {:induction false} BasesEndToo(fuel: nat, w: World, file: File, bases: seq<Option<string>>, steps: seq<Step>,
                                       seen: set<Key>)
    requires FreeBases(fuel, w, file, bases, steps).verdicts.Some?
    ensures LookupBases(fuel, w, file, bases, steps, seen).verdicts.Some?
    decreases fuel, 3, |bases|
  {
    if bases != [] {
      var n := |bases| - 1;
      BasesEndToo(fuel, w, file, bases[..n], steps, seen);
      if bases[n].Some? {
        NameEndsToo(fuel, w, file, bases[n].value, steps, LookupBases(fuel, w, file, bases[..n], steps, seen).seen);
      }
    }
  }

  // ----- a declaration named in two branches of a union

  /** The type is a plain reference to the declaration. */
  predicate Names(w: World, file: File, node: TypeNode, id: DeclId) {
    && node.Reference? && !node.qualified && !IsWrapper(node) && !IsArray(node)
    && w.Resolve(file, node.head) == Some(id)
  }

  lemma NamedLookup(fuel: nat, w: World, file: File, node: TypeNode, id: DeclId, steps: seq<Step>, seen: set<Key>)
    requires Names(w, file, node, id) && steps != [] && fuel > 0
    ensures Lookup(fuel, w, file, node, steps, seen) == LookupDecl(fuel - 1, w, id, steps, seen)
  {
    assert LookupName(fuel - 1, w, file, node.head, steps, seen) == LookupDecl(fuel - 1, w, id, steps, seen);
  }

  /** Once the branch was walked, the guard holds its declaration; enums are never walked. */
  lemma BranchTakes(fuel: nat, w: World, file: File, node: TypeNode, id: DeclId, steps: seq<Step>, seen: set<Key>)
    requires Names(w, file, node, id) && steps != [] && Lookup(fuel, w, file, node, steps, seen).verdict.Some?
    ensures w.decls[id].Enum? || (id, |steps|) in Lookup(fuel, w, file, node, steps, seen).seen
  {
    NamedLookup(fuel, w, file, node, id, steps, seen);
  }

  lemma BranchTaken(fuel: nat, w: World, file: File, node: TypeNode, id: DeclId, steps: seq<Step>, seen: set<Key>)
    requires Names(w, file, node, id) && steps != [] && Lookup(fuel, w, file, node, steps, seen).verdict.Some?
    requires w.decls[id].Enum? || (id, |steps|) in seen
    ensures Lookup(fuel, w, file, node, steps, seen).verdict == Some(Unknown)
  {
    NamedLookup(fuel, w, file, node, id, steps, seen);
  }

  /** The branches are walked one after the other, each with what the ones before it left in the guard. */
  lemma {:induction false} BranchAt(fuel: nat, w: World, file: File, parts: seq<TypeNode>, steps: seq<Step>,
                                    seen: set<Key>, i: nat)
    requires i < |parts| && LookupAll(fuel, w, file, parts, steps, seen).verdicts.Some?
    ensures
      var before := LookupAll(fuel, w, file, parts[..i], steps, seen);
      var here := Lookup(fuel, w, file, parts[i], steps, before.seen);
      && before.verdicts.Some? && here.verdict == Some(LookupAll(fuel, w, file, parts, steps, seen).verdicts.value[i])
      && here.seen <= LookupAll(fuel, w, file, parts, steps, seen).seen
    decreases |parts|
  {
    var n := |parts| - 1;
    if i < n {
      BranchAt(fuel, w, file, parts[..n], steps, seen, i);
      assert parts[..n][..i] == parts[..i];
    }
  }

  lemma SecondBranchUnknown(fuel: nat, w: World, file: File, parts: seq<TypeNode>, steps: seq<Step>, seen: set<Key>,
                            i: nat, j: nat, id: DeclId)
    requires i < j < |parts| && Names(w, file, parts[i], id) && Names(w, file, parts[j], id) && steps != []
    requires LookupAll(fuel, w, file, parts, steps, seen).verdicts.Some?
    ensures LookupAll(fuel, w, file, parts, steps, seen).verdicts.value[j] == Unknown
  {
    BranchAt(fuel, w, file, parts, steps, seen, j);
    BranchAt(fuel, w, file, parts[..j], steps, seen, i);
    assert parts[..j][..i] == parts[..i] && parts[..j][i] == parts[i];
    var first := LookupAll(fuel, w, file, parts[..i], steps, seen);
    BranchTakes(fuel, w, file, parts[i], id, steps, first.seen);
    BranchTaken(fuel, w, file, parts[j], id, steps, LookupAll(fuel, w, file, parts[..j], steps, seen).seen);
  }

  lemma AgreeUnknown(results: seq<Verdict>, i: nat)
    requires i < |results| && results[i] == Unknown
    ensures Agree(results) == Unknown
  {
    assert results[i] in results;
  }

  /** An alias of a union that names one declaration in two of its branches. */
  ghost predicate RepeatsBranch(w: World, id: DeclId, i: nat, j: nat, named: DeclId) {
    && id in w.decls && w.decls[id].Alias? && w.decls[id].typ.Union?
    && i < j < |w.decls[id].typ.parts|
    && Names(w, id.0, w.decls[id].typ.parts[i], named) && Names(w, id.0, w.decls[id].typ.parts[j], named)
  }

  /**
   * Such an alias is never answered but by unknown, on any path and at any depth; and it is answered
   * whenever the guard-free walk ends, whatever that says.
   */
  lemma RepeatedBranchIsUnknown(fuel: nat, w: World, id: DeclId, steps: seq<Step>, i: nat, j: nat, named: DeclId)
    requires RepeatsBranch(w, id, i, j, named) && steps != []
    ensures
      var verdict := LookupDecl(fuel, w, id, steps, {}).verdict;
      && (verdict.Some? ==> verdict == Some(Unknown))
      && (FreeDecl(fuel, w, id, steps).verdict.Some? ==> verdict == Some(Unknown))
  {
    var parts, guard := w.decls[id].typ.parts, {} + {(id, |steps|)};
    if FreeDecl(fuel, w, id, steps).verdict.Some? {
      DeclEndsToo(fuel, w, id, steps, {});
    }
    if LookupDecl(fuel, w, id, steps, {}).verdict.Some? {
      assert LookupDecl(fuel, w, id, steps, {}) == Lookup(fuel - 1, w, id.0, Union(parts), steps, guard);
      assert fuel - 1 > 0;
      var r := LookupAll(fuel - 2, w, id.0, parts, steps, guard);
      SecondBranchUnknown(fuel - 2, w, id.0, parts, steps, guard, i, j, named);
      AgreeUnknown(r.verdicts.value, j);
    }
  }
}
