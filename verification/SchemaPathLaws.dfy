/** What a definite answer of the schema-path walk may be trusted for. */
module SchemaPathLaws {
  import opened SchemaPath
  import opened Options

  lemma AgreeAll(results: seq<Verdict>)
    ensures Agree(results) != Unknown ==> forall i | 0 <= i < |results| :: results[i] == Agree(results)
    ensures Agree(results) == Missing ==> results != []
  {
    forall i | 0 <= i < |results| && Agree(results) != Unknown ensures results[i] == Agree(results) {
      assert results[i] in results;
    }
  }

  // ----- a definite verdict is right, whatever the guard already holds

  lemma {:induction false} LookupSound(fuel: nat, w: World, file: File, node: TypeNode, steps: seq<Step>,
                                       seen: set<Key>)
    ensures var v := Lookup(fuel, w, file, node, steps, seen).verdict;
            v.Some? && v.value != Unknown ==> Holds(fuel, v.value, w, file, node, steps)
    decreases fuel, 1, 0
  {
    if fuel > 0 && steps != [] {
      match node
      case Literal(members) =>
        if steps[0].Member? {
          var m := FindProperty(members, steps[0].name);
          if m.Some? {
            MemberSound(fuel - 1, w, file, m.value, steps, seen);
          }
        }
      case Parenthesized(inner) => LookupSound(fuel - 1, w, file, inner, steps, seen);
      case Intersection(parts) => AllSound(fuel - 1, w, file, parts, steps, seen);
      case Union(parts) =>
        AllSound(fuel - 1, w, file, parts, steps, seen);
        var r := LookupAll(fuel - 1, w, file, parts, steps, seen).verdicts;
        if r.Some? {
          AgreeAll(r.value);
        }
      case ArrayOf(element) => LookupSound(fuel - 1, w, file, element, steps[1..], seen);
      case Operator(inner) => LookupSound(fuel - 1, w, file, inner, steps, seen);
      case IndexedAccess(object', index) =>
        if index.Some? {
          LookupSound(fuel - 1, w, file, object', [Member(index.value)] + steps, seen);
        }
      case Reference(head, qualified, arguments) =>
        if arguments != [] {
          LookupSound(fuel - 1, w, file, arguments[0], steps, seen);
          LookupSound(fuel - 1, w, file, arguments[0], steps[1..], seen);
        }
        NameSound(fuel - 1, w, file, head, steps, seen);
      case OtherType =>
    }
  }

  lemma {:induction false} MemberSound(fuel: nat, w: World, file: File, m: TypeMember, steps: seq<Step>, seen: set<Key>)
    requires m.Property? && steps != []
    ensures var v := IntoMember(fuel, w, file, m, steps, seen).verdict;
            v.Some? && v.value != Unknown ==> MemberHolds(fuel, v.value, w, file, m, steps)
    decreases fuel, 2, 0
  {
    if m.typ.Some? {
      LookupSound(fuel, w, file, m.typ.value, steps[1..], seen);
    }
  }

  lemma {:induction false} AllSound(fuel: nat, w: World, file: File, parts: seq<TypeNode>, steps: seq<Step>,
                                    seen: set<Key>)
    ensures var r := LookupAll(fuel, w, file, parts, steps, seen).verdicts;
            r.Some? ==> forall i | 0 <= i < |parts| && r.value[i] != Unknown ::
                Holds(fuel, r.value[i], w, file, parts[i], steps)
    decreases fuel, 2, |parts|
  {
    if parts != [] {
      var n := |parts| - 1;
      AllSound(fuel, w, file, parts[..n], steps, seen);
      LookupSound(fuel, w, file, parts[n], steps, LookupAll(fuel, w, file, parts[..n], steps, seen).seen);
    }
  }

  lemma {:induction false} NameSound(fuel: nat, w: World, file: File, name: string, steps: seq<Step>, seen: set<Key>)
    ensures var v := LookupName(fuel, w, file, name, steps, seen).verdict;
            v.Some? && v.value != Unknown ==> NameHolds(fuel, v.value, w, file, name, steps)
    decreases fuel, 2, 0
  {
    var target := w.Resolve(file, name);
    if target.Some? {
      DeclSound(fuel, w, target.value, steps, seen);
    }
  }

  /** The verdict on a declaration: found means derivably present, missing means derivably absent. */
  lemma {:induction false} DeclSound(fuel: nat, w: World, id: DeclId, steps: seq<Step>, seen: set<Key>)
    requires id in w.decls
    ensures var v := LookupDecl(fuel, w, id, steps, seen).verdict;
            v.Some? && v.value != Unknown ==> DeclHolds(fuel, v.value, w, id, steps)
    decreases fuel, 1, 0
  {
    if fuel > 0 && steps != [] && (id, |steps|) !in seen {
      var guard := seen + {(id, |steps|)};
      match w.decls[id]
      case Enum =>
      case Alias(typ) => LookupSound(fuel - 1, w, id.0, typ, steps, guard);
      case Interface(members, bases) =>
        if steps[0].Member? {
          var m := FindProperty(members, steps[0].name);
          if m.Some? {
            MemberSound(fuel - 1, w, id.0, m.value, steps, guard);
          } else {
            BasesSound(fuel - 1, w, id.0, bases, steps, guard);
          }
        }
    }
  }

  lemma {:induction false} BasesSound(fuel: nat, w: World, file: File, bases: seq<Option<string>>,
                                      steps: seq<Step>, seen: set<Key>)
    ensures var r := LookupBases(fuel, w, file, bases, steps, seen).verdicts;
            r.Some? ==> forall i | 0 <= i < |bases| && r.value[i] != Unknown ::
                BaseHolds(fuel, r.value[i], w, file, bases[i], steps)
    decreases fuel, 3, |bases|
  {
    if bases != [] {
      var n := |bases| - 1;
      BasesSound(fuel, w, file, bases[..n], steps, seen);
      if bases[n].Some? {
        NameSound(fuel, w, file, bases[n].value, steps, LookupBases(fuel, w, file, bases[..n], steps, seen).seen);
      }
    }
  }

  // ----- presence and absence exclude each other

  lemma {:induction false} Exclusive(d: nat, e: nat, w: World, file: File, node: TypeNode, steps: seq<Step>)
    requires Holds(d, Found, w, file, node, steps)
    ensures !Holds(e, Missing, w, file, node, steps)
    decreases d, 1
  {
    if steps != [] && e > 0 {
      match node
      case Literal(members) =>
        var m := FindProperty(members, steps[0].name);
        if m.Some? {
          MemberExclusive(d - 1, e - 1, w, file, m.value, steps);
        }
      case Parenthesized(inner) => Exclusive(d - 1, e - 1, w, file, inner, steps);
      case Intersection(parts) =>
        var i :| 0 <= i < |parts| && Holds(d - 1, Found, w, file, parts[i], steps);
        Exclusive(d - 1, e - 1, w, file, parts[i], steps);
      case Union(parts) =>
        if parts != [] {
          Exclusive(d - 1, e - 1, w, file, parts[0], steps);
        }
      case ArrayOf(element) => Exclusive(d - 1, e - 1, w, file, element, steps[1..]);
      case Operator(inner) => Exclusive(d - 1, e - 1, w, file, inner, steps);
      case IndexedAccess(object', index) => Exclusive(d - 1, e - 1, w, file, object', [Member(index.value)] + steps);
      case Reference(head, qualified, arguments) =>
        if IsWrapper(node) {
          Exclusive(d - 1, e - 1, w, file, arguments[0], steps);
        } else if IsArray(node) {
          Exclusive(d - 1, e - 1, w, file, arguments[0], steps[1..]);
        } else {
          NameExclusive(d - 1, e - 1, w, file, head, steps);
        }
    }
  }

  lemma {:induction false} MemberExclusive(d: nat, e: nat, w: World, file: File, m: TypeMember, steps: seq<Step>)
    requires m.Property? && steps != [] && MemberHolds(d, Found, w, file, m, steps)
    ensures !MemberHolds(e, Missing, w, file, m, steps)
    decreases d, 2
  {
    if |steps| > 1 {
      Exclusive(d, e, w, file, m.typ.value, steps[1..]);
    }
  }

  lemma {:induction false} NameExclusive(d: nat, e: nat, w: World, file: File, name: string, steps: seq<Step>)
    requires NameHolds(d, Found, w, file, name, steps)
    ensures !NameHolds(e, Missing, w, file, name, steps)
    decreases d, 2
  {
    DeclExclusive(d, e, w, w.Resolve(file, name).value, steps);
  }

  /** No path is both present in and absent from a declaration. */
  lemma {:induction false} DeclExclusive(d: nat, e: nat, w: World, id: DeclId, steps: seq<Step>)
    requires id in w.decls && DeclHolds(d, Found, w, id, steps)
    ensures !DeclHolds(e, Missing, w, id, steps)
    decreases d, 1
  {
    if steps != [] && e > 0 {
      match w.decls[id]
      case Alias(typ) => Exclusive(d - 1, e - 1, w, id.0, typ, steps);
      case Interface(members, bases) =>
        var m := FindProperty(members, steps[0].name);
        if m.Some? {
          MemberExclusive(d - 1, e - 1, w, id.0, m.value, steps);
        } else {
          var i :| 0 <= i < |bases| && BaseHolds(d - 1, Found, w, id.0, bases[i], steps);
          NameExclusive(d - 1, e - 1, w, id.0, bases[i].value, steps);
        }
    }
  }

  /** A reported miss is a real one: no derivation of any depth makes the path present. */
  lemma MissingIsAbsent(fuel: nat, w: World, id: DeclId, steps: seq<Step>, seen: set<Key>)
    requires id in w.decls && LookupDecl(fuel, w, id, steps, seen).verdict == Some(Missing)
    ensures forall d: nat :: !DeclHolds(d, Found, w, id, steps)
  {
    DeclSound(fuel, w, id, steps, seen);
    forall d: nat ensures !DeclHolds(d, Found, w, id, steps) {
      if DeclHolds(d, Found, w, id, steps) {
        DeclExclusive(d, fuel, w, id, steps);
      }
    }
  }

  /** Likewise a found path is never derivably absent. */
  lemma FoundIsPresent(fuel: nat, w: World, id: DeclId, steps: seq<Step>, seen: set<Key>)
    requires id in w.decls && LookupDecl(fuel, w, id, steps, seen).verdict == Some(Found)
    ensures DeclHolds(fuel, Found, w, id, steps)
    ensures forall d: nat :: !DeclHolds(d, Missing, w, id, steps)
  {
    DeclSound(fuel, w, id, steps, seen);
    forall d: nat ensures !DeclHolds(d, Missing, w, id, steps) {
      DeclExclusive(fuel, d, w, id, steps);
    }
  }
}
