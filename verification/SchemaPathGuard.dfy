/** What the guard of the schema-path walk costs: a walk without it, and when the two agree. */
module SchemaPathGuard {
  import opened SchemaPath
  import opened Sorting
  import opened Options

  // ----- the walk without a guard

  /** A verdict, and the keys that were met on the way, in order; None when the walk did not finish. */
  datatype Trail = Trail(verdict: Option<Verdict>, met: seq<Key>)
  datatype Trails = Trails(verdicts: Option<seq<Verdict>>, met: seq<Key>)

  function Free(fuel: nat, w: World, file: File, node: TypeNode, steps: seq<Step>): Trail
    decreases fuel, 1, 0
  {
    if fuel == 0 then Trail(None, [])
    else if steps == [] then Trail(Some(Found), [])
    else match node
      case Literal(members) =>
        if steps[0].Element? then Trail(Some(Unknown), [])
        else (match FindProperty(members, steps[0].name)
              case Some(m) => FreeMember(fuel - 1, w, file, m, steps)
              case None => Trail(Some(Missing), []))
      case Parenthesized(inner) => Free(fuel - 1, w, file, inner, steps)
      case Intersection(parts) =>
        var r := FreeAll(fuel - 1, w, file, parts, steps);
        Trail(if r.verdicts.None? then None else Some(Combine(r.verdicts.value)), r.met)
      case Union(parts) =>
        var r := FreeAll(fuel - 1, w, file, parts, steps);
        Trail(if r.verdicts.None? then None else Some(Agree(r.verdicts.value)), r.met)
      case ArrayOf(element) =>
        if steps[0].Element? then Free(fuel - 1, w, file, element, steps[1..]) else Trail(Some(Unknown), [])
      case Operator(inner) => Free(fuel - 1, w, file, inner, steps)
      case IndexedAccess(object', index) =>
        if index.Some? then Free(fuel - 1, w, file, object', [Member(index.value)] + steps)
        else Trail(Some(Unknown), [])
      case Reference(head, qualified, arguments) =>
        if IsWrapper(node) then Free(fuel - 1, w, file, arguments[0], steps)
        else if IsArray(node) then
          if steps[0].Element? then Free(fuel - 1, w, file, arguments[0], steps[1..]) else Trail(Some(Unknown), [])
        else if qualified then Trail(Some(Unknown), [])
        else FreeName(fuel - 1, w, file, head, steps)
      case OtherType => Trail(Some(Unknown), [])
  }

  function FreeMember(fuel: nat, w: World, file: File, m: TypeMember, steps: seq<Step>): Trail
    requires m.Property? && steps != []
    decreases fuel, 2, 0
  {
    if |steps| == 1 then Trail(Some(Found), [])
    else if m.typ.Some? then Free(fuel, w, file, m.typ.value, steps[1..])
    else Trail(Some(Unknown), [])
  }

  function FreeAll(fuel: nat, w: World, file: File, parts: seq<TypeNode>, steps: seq<Step>): (r: Trails)
    ensures r.verdicts.Some? ==> |r.verdicts.value| == |parts|
    decreases fuel, 2, |parts|
  {
    if parts == [] then Trails(Some([]), [])
    else
      var init := FreeAll(fuel, w, file, parts[..|parts| - 1], steps);
      if init.verdicts.None? then init
      else Joined(init, Free(fuel, w, file, parts[|parts| - 1], steps))
  }

  /** One more branch after those of `init`. */
  function Joined(init: Trails, last: Trail): (r: Trails)
    requires init.verdicts.Some?
    ensures r.verdicts.Some? ==> |r.verdicts.value| == |init.verdicts.value| + 1
  {
    Trails(if last.verdict.None? then None else Some(init.verdicts.value + [last.verdict.value]), init.met + last.met)
  }

  function FreeName(fuel: nat, w: World, file: File, name: string, steps: seq<Step>): Trail
    decreases fuel, 2, 0
  {
    var target := w.Resolve(file, name);
    if target.None? then Trail(Some(Unknown), []) else FreeDecl(fuel, w, target.value, steps)
  }

  /** A declaration that is walked into adds its key to those that were met. */
  function FreeDecl(fuel: nat, w: World, id: DeclId, steps: seq<Step>): Trail
    requires id in w.decls
    decreases fuel, 1, 0
  {
    if fuel == 0 then Trail(None, [])
    else if steps == [] then Trail(Some(Found), [])
    else if w.decls[id].Enum? then Trail(Some(Unknown), [])
    else
      var body := FreeBody(fuel - 1, w, id, steps);
      Trail(body.verdict, [(id, |steps|)] + body.met)
  }

  function FreeBody(fuel: nat, w: World, id: DeclId, steps: seq<Step>): Trail
    requires id in w.decls && !w.decls[id].Enum? && steps != []
    decreases fuel, 4, 0
  {
    match w.decls[id]
    case Alias(typ) => Free(fuel, w, id.0, typ, steps)
    case Interface(members, bases) =>
      if steps[0].Element? then Trail(Some(Unknown), [])
      else match FindProperty(members, steps[0].name)
        case Some(m) => FreeMember(fuel, w, id.0, m, steps)
        case None =>
          var r := FreeBases(fuel, w, id.0, bases, steps);
          Trail(if r.verdicts.None? then None
                else Some(if bases != [] then Combine(r.verdicts.value) else Missing), r.met)
  }

  function FreeBases(fuel: nat, w: World, file: File, bases: seq<Option<string>>, steps: seq<Step>): (r: Trails)
    ensures r.verdicts.Some? ==> |r.verdicts.value| == |bases|
    decreases fuel, 3, |bases|
  {
    if bases == [] then Trails(Some([]), [])
    else
      var init := FreeBases(fuel, w, file, bases[..|bases| - 1], steps);
      if init.verdicts.None? then init
      else Joined(init, FreeBase(fuel, w, file, bases[|bases| - 1], steps))
  }

  function FreeBase(fuel: nat, w: World, file: File, base: Option<string>, steps: seq<Step>): Trail
    decreases fuel, 2, 1
  {
    if base.None? then Trail(Some(Unknown), []) else FreeName(fuel, w, file, base.value, steps)
  }

  // ----- the guard changes nothing as long as no key is met twice

  /** Every key of the trail is new to the guard and to the rest of the trail. */
  ghost predicate Fresh(met: seq<Key>, seen: set<Key>) {
    NoDup(met) && forall k | k in met :: k !in seen
  }

  ghost predicate Same(r: Outcome, t: Trail, seen: set<Key>) {
    r == Outcome(t.verdict, seen + Members(t.met))
  }

  ghost predicate SameAll(r: Outcomes, t: Trails, seen: set<Key>) {
    r == Outcomes(t.verdicts, seen + Members(t.met))
  }

  lemma NoDupConcat<T>(a: seq<T>, b: seq<T>)
    requires NoDup(a + b)
    ensures NoDup(a) && NoDup(b) && forall x | x in b :: x !in a
  {
    var s := a + b;
    forall i, j | 0 <= i < j < |a| ensures a[i] != a[j] {
      assert s[i] != s[j];
    }
    forall i, j | 0 <= i < j < |b| ensures b[i] != b[j] {
      assert s[|a| + i] != s[|a| + j];
    }
    forall i, j | 0 <= i < |a| && 0 <= j < |b| ensures a[i] != b[j] {
      assert s[i] != s[|a| + j];
    }
  }

  lemma FreshConcat(a: seq<Key>, b: seq<Key>, seen: set<Key>)
    requires Fresh(a + b, seen)
    ensures Fresh(a, seen) && Fresh(b, seen + Members(a))
    ensures seen + Members(a + b) == seen + Members(a) + Members(b)
  {
    NoDupConcat(a, b);
  }

  lemma {:induction false} LookupAgrees(fuel: nat, w: World, file: File, node: TypeNode, steps: seq<Step>,
                                        seen: set<Key>)
    requires Fresh(Free(fuel, w, file, node, steps).met, seen)
    ensures Same(Lookup(fuel, w, file, node, steps, seen), Free(fuel, w, file, node, steps), seen)
    decreases fuel, 1, 0
  {
    if fuel > 0 && steps != [] {
      match node
      case Literal(members) =>
        if steps[0].Member? && FindProperty(members, steps[0].name).Some? {
          MemberAgrees(fuel - 1, w, file, FindProperty(members, steps[0].name).value, steps, seen);
        }
      case Parenthesized(inner) => LookupAgrees(fuel - 1, w, file, inner, steps, seen);
      case Intersection(parts) => AllAgree(fuel - 1, w, file, parts, steps, seen);
      case Union(parts) => AllAgree(fuel - 1, w, file, parts, steps, seen);
      case ArrayOf(element) =>
        if steps[0].Element? {
          LookupAgrees(fuel - 1, w, file, element, steps[1..], seen);
        }
      case Operator(inner) => LookupAgrees(fuel - 1, w, file, inner, steps, seen);
      case IndexedAccess(object', index) =>
        if index.Some? {
          LookupAgrees(fuel - 1, w, file, object', [Member(index.value)] + steps, seen);
        }
      case Reference(_, _, _) => ReferenceAgrees(fuel, w, file, node, steps, seen);
      case OtherType =>
    }
  }

  lemma {:induction false} ReferenceAgrees(fuel: nat, w: World, file: File, node: TypeNode, steps: seq<Step>,
                                           seen: set<Key>)
    requires fuel > 0 && steps != [] && node.Reference? && Fresh(Free(fuel, w, file, node, steps).met, seen)
    ensures Same(Lookup(fuel, w, file, node, steps, seen), Free(fuel, w, file, node, steps), seen)
    decreases fuel, 0, 0
  {
    if IsWrapper(node) {
      LookupAgrees(fuel - 1, w, file, node.arguments[0], steps, seen);
    } else if IsArray(node) {
      if steps[0].Element? {
        LookupAgrees(fuel - 1, w, file, node.arguments[0], steps[1..], seen);
      }
    } else if !node.qualified {
      NameAgrees(fuel - 1, w, file, node.head, steps, seen);
    }
  }

  lemma {:induction false} MemberAgrees(fuel: nat, w: World, file: File, m: TypeMember, steps: seq<Step>,
                                        seen: set<Key>)
    requires m.Property? && steps != [] && Fresh(FreeMember(fuel, w, file, m, steps).met, seen)
    ensures Same(IntoMember(fuel, w, file, m, steps, seen), FreeMember(fuel, w, file, m, steps), seen)
    decreases fuel, 2, 0
  {
    if |steps| > 1 && m.typ.Some? {
      LookupAgrees(fuel, w, file, m.typ.value, steps[1..], seen);
    }
  }

  lemma {:induction false} AllAgree(fuel: nat, w: World, file: File, parts: seq<TypeNode>, steps: seq<Step>,
                                    seen: set<Key>)
    requires Fresh(FreeAll(fuel, w, file, parts, steps).met, seen)
    ensures SameAll(LookupAll(fuel, w, file, parts, steps, seen), FreeAll(fuel, w, file, parts, steps), seen)
    decreases fuel, 2, |parts|
  {
    if parts != [] {
      var n := |parts| - 1;
      var init, last := FreeAll(fuel, w, file, parts[..n], steps), Free(fuel, w, file, parts[n], steps);
      if init.verdicts.Some? {
        FreshConcat(init.met, last.met, seen);
        AllAgree(fuel, w, file, parts[..n], steps, seen);
        LookupAgrees(fuel, w, file, parts[n], steps, seen + Members(init.met));
      } else {
        AllAgree(fuel, w, file, parts[..n], steps, seen);
      }
    }
  }

  lemma {:induction false} NameAgrees(fuel: nat, w: World, file: File, name: string, steps: seq<Step>, seen: set<Key>)
    requires Fresh(FreeName(fuel, w, file, name, steps).met, seen)
    ensures Same(LookupName(fuel, w, file, name, steps, seen), FreeName(fuel, w, file, name, steps), seen)
    decreases fuel, 2, 0
  {
    if w.Resolve(file, name).Some? {
      DeclAgrees(fuel, w, w.Resolve(file, name).value, steps, seen);
    }
  }

  /** Where the guard-free walk meets no key twice, the guarded one does the same and remembers what was met. */
  lemma {:induction false} DeclAgrees(fuel: nat, w: World, id: DeclId, steps: seq<Step>, seen: set<Key>)
    requires id in w.decls && Fresh(FreeDecl(fuel, w, id, steps).met, seen)
    ensures Same(LookupDecl(fuel, w, id, steps, seen), FreeDecl(fuel, w, id, steps), seen)
    decreases fuel, 1, 0
  {
    if fuel > 0 && steps != [] && !w.decls[id].Enum? {
      var key, body := (id, |steps|), FreeBody(fuel - 1, w, id, steps);
      FreshConcat([key], body.met, seen);
      assert key in [key] + body.met && Members([key]) == {key};
      match w.decls[id]
      case Alias(typ) => LookupAgrees(fuel - 1, w, id.0, typ, steps, seen + {key});
      case Interface(members, bases) =>
        if steps[0].Member? {
          match FindProperty(members, steps[0].name)
          case Some(m) => MemberAgrees(fuel - 1, w, id.0, m, steps, seen + {key});
          case None => BasesAgree(fuel - 1, w, id.0, bases, steps, seen + {key});
        }
    }
  }

  lemma {:induction false} BasesAgree(fuel: nat, w: World, file: File, bases: seq<Option<string>>,
                                      steps: seq<Step>, seen: set<Key>)
    requires Fresh(FreeBases(fuel, w, file, bases, steps).met, seen)
    ensures SameAll(LookupBases(fuel, w, file, bases, steps, seen), FreeBases(fuel, w, file, bases, steps), seen)
    decreases fuel, 3, |bases|
  {
    if bases != [] {
      var n := |bases| - 1;
      var init, last := FreeBases(fuel, w, file, bases[..n], steps), FreeBase(fuel, w, file, bases[n], steps);
      if init.verdicts.Some? {
        FreshConcat(init.met, last.met, seen);
        BasesAgree(fuel, w, file, bases[..n], steps, seen);
        if bases[n].Some? {
          NameAgrees(fuel, w, file, bases[n].value, steps, seen + Members(init.met));
        }
      } else {
        BasesAgree(fuel, w, file, bases[..n], steps, seen);
      }
    }
  }
}
