/** When the schema-path walk ends. */
module SchemaPathEnds {
  import opened SchemaPath
  import opened SchemaReferences
  import opened Sorting
  import opened Options

  // ----- more recursion depth never changes a verdict

  predicate Deeper(r: Outcome, t: Outcome) {
    r.seen <= t.seen && (r.verdict.Some? ==> t == r)
  }

  predicate DeeperAll(r: Outcomes, t: Outcomes) {
    r.seen <= t.seen && (r.verdicts.Some? ==> t == r)
  }

  lemma {:induction false} LookupDeeper(f: nat, g: nat, w: World, file: File, node: TypeNode, steps: seq<Step>,
                                        seen: set<Key>)
    requires f <= g
    ensures Deeper(Lookup(f, w, file, node, steps, seen), Lookup(g, w, file, node, steps, seen))
    decreases f, 1, 0
  {
    if f > 0 && steps != [] {
      match node
      case Literal(members) =>
        if steps[0].Member? && FindProperty(members, steps[0].name).Some? {
          MemberDeeper(f - 1, g - 1, w, file, FindProperty(members, steps[0].name).value, steps, seen);
        }
      case Parenthesized(inner) => LookupDeeper(f - 1, g - 1, w, file, inner, steps, seen);
      case Intersection(parts) => AllDeeper(f - 1, g - 1, w, file, parts, steps, seen);
      case Union(parts) => AllDeeper(f - 1, g - 1, w, file, parts, steps, seen);
      case ArrayOf(element) => LookupDeeper(f - 1, g - 1, w, file, element, steps[1..], seen);
      case Operator(inner) => LookupDeeper(f - 1, g - 1, w, file, inner, steps, seen);
      case IndexedAccess(object', index) =>
        if index.Some? {
          LookupDeeper(f - 1, g - 1, w, file, object', [Member(index.value)] + steps, seen);
        }
      case Reference(head, qualified, arguments) =>
        ReferenceDeeper(f - 1, g - 1, w, file, head, arguments, steps, seen);
      case OtherType =>
    }
  }

  lemma {:induction false} ReferenceDeeper(f: nat, g: nat, w: World, file: File, head: string,
                                           arguments: seq<TypeNode>, steps: seq<Step>, seen: set<Key>)
    requires f <= g && steps != []
    ensures
      arguments != [] ==>
        Deeper(Lookup(f, w, file, arguments[0], steps, seen), Lookup(g, w, file, arguments[0], steps, seen))
    ensures
      arguments != [] ==>
        Deeper(Lookup(f, w, file, arguments[0], steps[1..], seen), Lookup(g, w, file, arguments[0], steps[1..], seen))
    ensures Deeper(LookupName(f, w, file, head, steps, seen), LookupName(g, w, file, head, steps, seen))
    decreases f, 3, 0
  {
    if arguments != [] {
      LookupDeeper(f, g, w, file, arguments[0], steps, seen);
      LookupDeeper(f, g, w, file, arguments[0], steps[1..], seen);
    }
    NameDeeper(f, g, w, file, head, steps, seen);
  }

  lemma {:induction false} MemberDeeper(f: nat, g: nat, w: World, file: File, m: TypeMember, steps: seq<Step>,
                                        seen: set<Key>)
    requires f <= g && m.Property? && steps != []
    ensures Deeper(IntoMember(f, w, file, m, steps, seen), IntoMember(g, w, file, m, steps, seen))
    decreases f, 2, 0
  {
    if m.typ.Some? {
      LookupDeeper(f, g, w, file, m.typ.value, steps[1..], seen);
    }
  }

  lemma {:induction false} AllDeeper(f: nat, g: nat, w: World, file: File, parts: seq<TypeNode>, steps: seq<Step>,
                                     seen: set<Key>)
    requires f <= g
    ensures DeeperAll(LookupAll(f, w, file, parts, steps, seen), LookupAll(g, w, file, parts, steps, seen))
    decreases f, 2, |parts|
  {
    if parts != [] {
      var n := |parts| - 1;
      AllDeeper(f, g, w, file, parts[..n], steps, seen);
      LookupDeeper(f, g, w, file, parts[n], steps, LookupAll(f, w, file, parts[..n], steps, seen).seen);
    }
  }

  lemma {:induction false} NameDeeper(f: nat, g: nat, w: World, file: File, name: string, steps: seq<Step>,
                                      seen: set<Key>)
    requires f <= g
    ensures Deeper(LookupName(f, w, file, name, steps, seen), LookupName(g, w, file, name, steps, seen))
    decreases f, 2, 0
  {
    if w.Resolve(file, name).Some? {
      DeclDeeper(f, g, w, w.Resolve(file, name).value, steps, seen);
    }
  }

  /** A walk that ended gives the same outcome at every greater depth; one that did not had met no other keys. */
  lemma {:induction false} DeclDeeper(f: nat, g: nat, w: World, id: DeclId, steps: seq<Step>, seen: set<Key>)
    requires f <= g && id in w.decls
    ensures Deeper(LookupDecl(f, w, id, steps, seen), LookupDecl(g, w, id, steps, seen))
    decreases f, 1, 0
  {
    if f > 0 && steps != [] && (id, |steps|) !in seen {
      var guard := seen + {(id, |steps|)};
      match w.decls[id]
      case Enum =>
      case Alias(typ) => LookupDeeper(f - 1, g - 1, w, id.0, typ, steps, guard);
      case Interface(members, bases) =>
        if steps[0].Member? {
          if FindProperty(members, steps[0].name).Some? {
            MemberDeeper(f - 1, g - 1, w, id.0, FindProperty(members, steps[0].name).value, steps, guard);
          } else {
            BasesDeeper(f - 1, g - 1, w, id.0, bases, steps, guard);
          }
        }
    }
  }

  lemma {:induction false} BasesDeeper(f: nat, g: nat, w: World, file: File, bases: seq<Option<string>>,
                                       steps: seq<Step>, seen: set<Key>)
    requires f <= g
    ensures DeeperAll(LookupBases(f, w, file, bases, steps, seen), LookupBases(g, w, file, bases, steps, seen))
    decreases f, 3, |bases|
  {
    if bases != [] {
      var n := |bases| - 1;
      BasesDeeper(f, g, w, file, bases[..n], steps, seen);
      if bases[n].Some? {
        NameDeeper(f, g, w, file, bases[n].value, steps, LookupBases(f, w, file, bases[..n], steps, seen).seen);
      }
    }
  }

  // ----- the guard ends every walk whose paths stay short

  function Size(node: TypeNode): nat {
    match node
    case Literal(members) => 1 + MembersSize(members)
    case Parenthesized(inner) => 1 + Size(inner)
    case Intersection(parts) => 1 + AllSize(parts)
    case Union(parts) => 1 + AllSize(parts)
    case ArrayOf(element) => 1 + Size(element)
    case Operator(inner) => 1 + Size(inner)
    case IndexedAccess(object', _) => 1 + Size(object')
    case Reference(_, _, arguments) => 2 + AllSize(arguments)
    case OtherType => 1
  }

  function AllSize(parts: seq<TypeNode>): nat {
    if parts == [] then 0 else Size(parts[0]) + AllSize(parts[1..])
  }

  function MembersSize(members: seq<TypeMember>): nat {
    if members == [] then 0 else MemberSize(members[0]) + MembersSize(members[1..])
  }

  function MemberSize(m: TypeMember): nat {
    if m.Property? && m.typ.Some? then Size(m.typ.value) else 0
  }

  function DeclSize(decl: Declaration): nat {
    match decl
    case Interface(members, _) => MembersSize(members)
    case Alias(typ) => Size(typ)
    case Enum => 0
  }

  lemma {:induction false} PartSize(parts: seq<TypeNode>, i: nat)
    requires i < |parts|
    ensures Size(parts[i]) <= AllSize(parts)
  {
    if i > 0 {
      PartSize(parts[1..], i - 1);
    }
  }

  lemma {:induction false} PropertySize(members: seq<TypeMember>, name: string)
    ensures var m := FindProperty(members, name); m.Some? ==> MemberSize(m.value) <= MembersSize(members)
  {
    if members != [] {
      PropertySize(members[1..], name);
    }
  }

  /** No declaration is larger than `m`. */
  predicate Sized(w: World, m: nat) {
    forall id | id in w.decls :: DeclSize(w.decls[id]) <= m
  }

  /** The guard keys that paths of at most `len` steps can use. */
  function AllKeys(w: World, len: nat): set<Key> {
    set id, n: nat | id in w.decls && n <= len :: (id, n)
  }

  /** Fuel that `k` unused guard keys are worth, when no declaration is larger than `m`. */
  function Budget(k: nat, m: nat): nat {
    if k == 0 then 0 else Budget(k - 1, m) + m + 3
  }

  lemma {:induction false} BudgetGrows(j: nat, k: nat, m: nat)
    requires j <= k
    ensures Budget(j, m) <= Budget(k, m)
  {
    if j < k {
      BudgetGrows(j, k - 1, m);
    }
  }

  function Left(w: World, len: nat, seen: set<Key>, m: nat): nat {
    Budget(|AllKeys(w, len) - seen|, m)
  }

  lemma LeftShrinks(w: World, len: nat, seen: set<Key>, more: set<Key>, m: nat)
    requires seen <= more
    ensures Left(w, len, more, m) <= Left(w, len, seen, m)
  {
    var a, b := AllKeys(w, len) - more, AllKeys(w, len) - seen;
    SubsetSize(a, b);
    BudgetGrows(|a|, |b|, m);
  }

  lemma LeftPays(w: World, len: nat, seen: set<Key>, key: Key, m: nat)
    requires key in AllKeys(w, len) && key !in seen
    ensures Left(w, len, seen, m) >= Left(w, len, seen + {key}, m) + m + 3
  {
    var a := AllKeys(w, len) - seen;
    assert AllKeys(w, len) - (seen + {key}) == a - {key};
  }

  /** Some key was met with a path of more than `len` steps. */
  ghost predicate Long(seen: set<Key>, len: nat) {
    exists k :: k in seen && k.1 > len
  }

  lemma LongGrows(seen: set<Key>, more: set<Key>, len: nat)
    requires seen <= more && Long(seen, len)
    ensures Long(more, len)
  {
    var k :| k in seen && k.1 > len;
    assert k in more;
  }

  ghost predicate Ends(r: Outcome, len: nat) {
    r.verdict.Some? || Long(r.seen, len)
  }

  ghost predicate AllEnded(r: Outcomes, len: nat) {
    r.verdicts.Some? || Long(r.seen, len)
  }

  lemma {:induction false} LookupEnds(fuel: nat, w: World, file: File, node: TypeNode, steps: seq<Step>,
                                      seen: set<Key>, len: nat, m: nat)
    requires Sized(w, m) && fuel >= Left(w, len, seen, m) + Size(node)
    ensures Ends(Lookup(fuel, w, file, node, steps, seen), len)
    decreases fuel, 1, 0
  {
    if steps != [] {
      match node
      case Literal(members) => LiteralEnds(fuel, w, file, node, steps, seen, len, m);
      case Parenthesized(inner) => LookupEnds(fuel - 1, w, file, inner, steps, seen, len, m);
      case Intersection(parts) =>
        AllEnd(fuel - 1, w, file, parts, parts, steps, seen, len, m);
        PartsEnd(fuel, w, file, node, steps, seen, len);
      case Union(parts) =>
        AllEnd(fuel - 1, w, file, parts, parts, steps, seen, len, m);
        PartsEnd(fuel, w, file, node, steps, seen, len);
      case ArrayOf(element) => LookupEnds(fuel - 1, w, file, element, steps[1..], seen, len, m);
      case Operator(inner) => LookupEnds(fuel - 1, w, file, inner, steps, seen, len, m);
      case IndexedAccess(object', index) =>
        if index.Some? {
          LookupEnds(fuel - 1, w, file, object', [Member(index.value)] + steps, seen, len, m);
        }
      case Reference(head, qualified, arguments) => ReferenceEnds(fuel, w, file, node, steps, seen, len, m);
      case OtherType =>
    }
  }

  lemma {:induction false} LiteralEnds(fuel: nat, w: World, file: File, node: TypeNode, steps: seq<Step>,
                                       seen: set<Key>, len: nat, m: nat)
    requires Sized(w, m) && node.Literal? && steps != [] && fuel >= Left(w, len, seen, m) + Size(node)
    ensures Ends(Lookup(fuel, w, file, node, steps, seen), len)
    decreases fuel, 0, 0
  {
    if steps[0].Member? && FindProperty(node.members, steps[0].name).Some? {
      PropertySize(node.members, steps[0].name);
      MemberEnds(fuel - 1, w, file, FindProperty(node.members, steps[0].name).value, steps, seen, len, m);
    }
  }

  lemma PartsEnd(fuel: nat, w: World, file: File, node: TypeNode, steps: seq<Step>, seen: set<Key>, len: nat)
    requires (node.Intersection? || node.Union?) && fuel > 0 && steps != []
    requires AllEnded(LookupAll(fuel - 1, w, file, node.parts, steps, seen), len)
    ensures Ends(Lookup(fuel, w, file, node, steps, seen), len)
  {
  }

  lemma {:induction false} ReferenceEnds(fuel: nat, w: World, file: File, node: TypeNode, steps: seq<Step>,
                                         seen: set<Key>, len: nat, m: nat)
    requires Sized(w, m) && node.Reference? && steps != [] && fuel >= Left(w, len, seen, m) + Size(node)
    ensures Ends(Lookup(fuel, w, file, node, steps, seen), len)
    decreases fuel, 0, 1
  {
    if IsWrapper(node) {
      WrapperEnds(fuel, w, file, node, steps, seen, len, m);
    } else if IsArray(node) {
      ArrayEnds(fuel, w, file, node, steps, seen, len, m);
    } else {
      NamedEnds(fuel, w, file, node, steps, seen, len, m);
    }
  }

  lemma {:induction false} WrapperEnds(fuel: nat, w: World, file: File, node: TypeNode, steps: seq<Step>,
                                       seen: set<Key>, len: nat, m: nat)
    requires Sized(w, m) && IsWrapper(node) && steps != [] && fuel >= Left(w, len, seen, m) + Size(node)
    ensures Ends(Lookup(fuel, w, file, node, steps, seen), len)
    decreases fuel, 0, 0
  {
    PartSize(node.arguments, 0);
    LookupEnds(fuel - 1, w, file, node.arguments[0], steps, seen, len, m);
  }

  lemma {:induction false} ArrayEnds(fuel: nat, w: World, file: File, node: TypeNode, steps: seq<Step>,
                                     seen: set<Key>, len: nat, m: nat)
    requires Sized(w, m) && IsArray(node) && !IsWrapper(node) && steps != []
    requires fuel >= Left(w, len, seen, m) + Size(node)
    ensures Ends(Lookup(fuel, w, file, node, steps, seen), len)
    decreases fuel, 0, 0
  {
    PartSize(node.arguments, 0);
    if steps[0].Element? {
      LookupEnds(fuel - 1, w, file, node.arguments[0], steps[1..], seen, len, m);
    }
  }

  lemma {:induction false} NamedEnds(fuel: nat, w: World, file: File, node: TypeNode, steps: seq<Step>,
                                     seen: set<Key>, len: nat, m: nat)
    requires Sized(w, m) && node.Reference? && !IsWrapper(node) && !IsArray(node) && steps != []
    requires fuel >= Left(w, len, seen, m) + Size(node)
    ensures Ends(Lookup(fuel, w, file, node, steps, seen), len)
    decreases fuel, 0, 0
  {
    if !node.qualified {
      NameEnds(fuel - 1, w, file, node.head, steps, seen, len, m);
    }
  }

  lemma {:induction false} MemberEnds(fuel: nat, w: World, file: File, p: TypeMember, steps: seq<Step>,
                                      seen: set<Key>, len: nat, m: nat)
    requires Sized(w, m) && p.Property? && steps != [] && fuel >= Left(w, len, seen, m) + MemberSize(p)
    ensures Ends(IntoMember(fuel, w, file, p, steps, seen), len)
    decreases fuel, 2, 0
  {
    if p.typ.Some? {
      LookupEnds(fuel, w, file, p.typ.value, steps[1..], seen, len, m);
    }
  }

  lemma {:induction false} AllEnd(fuel: nat, w: World, file: File, parts: seq<TypeNode>, all: seq<TypeNode>,
                                  steps: seq<Step>, seen: set<Key>, len: nat, m: nat)
    requires Sized(w, m) && parts <= all && fuel >= Left(w, len, seen, m) + AllSize(all)
    ensures AllEnded(LookupAll(fuel, w, file, parts, steps, seen), len)
    decreases fuel, 2, |parts|
  {
    if parts != [] {
      var n := |parts| - 1;
      AllEnd(fuel, w, file, parts[..n], all, steps, seen, len, m);
      var mid := LookupAll(fuel, w, file, parts[..n], steps, seen);
      LeftShrinks(w, len, seen, mid.seen, m);
      PartSize(all, n);
      LookupEnds(fuel, w, file, parts[n], steps, mid.seen, len, m);
      if Long(mid.seen, len) {
        LongGrows(mid.seen, LookupAll(fuel, w, file, parts, steps, seen).seen, len);
      }
    }
  }

  lemma {:induction false} NameEnds(fuel: nat, w: World, file: File, name: string, steps: seq<Step>,
                                    seen: set<Key>, len: nat, m: nat)
    requires Sized(w, m) && fuel >= Left(w, len, seen, m) + 1
    ensures Ends(LookupName(fuel, w, file, name, steps, seen), len)
    decreases fuel, 2, 0
  {
    if w.Resolve(file, name).Some? {
      DeclEnds(fuel, w, w.Resolve(file, name).value, steps, seen, len, m);
    }
  }

  lemma {:induction false} DeclEnds(fuel: nat, w: World, id: DeclId, steps: seq<Step>, seen: set<Key>, len: nat, m: nat)
    requires Sized(w, m) && id in w.decls && fuel >= Left(w, len, seen, m) + 1
    ensures Ends(LookupDecl(fuel, w, id, steps, seen), len)
    decreases fuel, 1, 0
  {
    if steps != [] && !w.decls[id].Enum? && (id, |steps|) !in seen {
      var guard := seen + {(id, |steps|)};
      if |steps| > len {
        assert (id, |steps|) in guard;
        LongGrows(guard, LookupDecl(fuel, w, id, steps, seen).seen, len);
      } else {
        LeftPays(w, len, seen, (id, |steps|), m);
        BodyEnds(fuel - 1, w, id, steps, guard, len, m);
      }
    }
  }

  lemma {:induction false} BodyEnds(fuel: nat, w: World, id: DeclId, steps: seq<Step>, guard: set<Key>, len: nat,
                                    m: nat)
    requires Sized(w, m) && id in w.decls && steps != [] && fuel >= Left(w, len, guard, m) + m + 1
    ensures w.decls[id].Alias? ==> Ends(Lookup(fuel, w, id.0, w.decls[id].typ, steps, guard), len)
    ensures
      w.decls[id].Interface? && steps[0].Member? ==>
      match FindProperty(w.decls[id].members, steps[0].name)
      case Some(p) => Ends(IntoMember(fuel, w, id.0, p, steps, guard), len)
      case None => AllEnded(LookupBases(fuel, w, id.0, w.decls[id].bases, steps, guard), len)
    decreases fuel, 4, 0
  {
    match w.decls[id]
    case Enum =>
    case Alias(typ) => LookupEnds(fuel, w, id.0, typ, steps, guard, len, m);
    case Interface(members, bases) =>
      if steps[0].Member? {
        PropertySize(members, steps[0].name);
        match FindProperty(members, steps[0].name)
        case Some(p) => MemberEnds(fuel, w, id.0, p, steps, guard, len, m);
        case None => BasesEnd(fuel, w, id.0, bases, steps, guard, len, m);
      }
  }

  lemma {:induction false} BasesEnd(fuel: nat, w: World, file: File, bases: seq<Option<string>>, steps: seq<Step>,
                                    seen: set<Key>, len: nat, m: nat)
    requires Sized(w, m) && fuel >= Left(w, len, seen, m) + 1
    ensures AllEnded(LookupBases(fuel, w, file, bases, steps, seen), len)
    decreases fuel, 3, |bases|
  {
    if bases != [] {
      var n := |bases| - 1;
      BasesEnd(fuel, w, file, bases[..n], steps, seen, len, m);
      var mid := LookupBases(fuel, w, file, bases[..n], steps, seen);
      LeftShrinks(w, len, seen, mid.seen, m);
      if bases[n].Some? {
        NameEnds(fuel, w, file, bases[n].value, steps, mid.seen, len, m);
      }
      LastBaseEnds(fuel, w, file, bases, steps, seen, mid, len);
    }
  }

  lemma LastBaseEnds(fuel: nat, w: World, file: File, bases: seq<Option<string>>, steps: seq<Step>,
                     seen: set<Key>, mid: Outcomes, len: nat)
    requires bases != [] && mid == LookupBases(fuel, w, file, bases[..|bases| - 1], steps, seen) && AllEnded(mid, len)
    requires
      var base := bases[|bases| - 1];
      base.Some? ==> Ends(LookupName(fuel, w, file, base.value, steps, mid.seen), len)
    ensures AllEnded(LookupBases(fuel, w, file, bases, steps, seen), len)
  {
    if Long(mid.seen, len) {
      LongGrows(mid.seen, LookupBases(fuel, w, file, bases, steps, seen).seen, len);
    }
  }

  lemma {:induction false} LargestDecl(ids: set<DeclId>, w: World) returns (m: nat)
    requires ids <= w.decls.Keys
    ensures forall id | id in ids :: DeclSize(w.decls[id]) <= m
  {
    m := 0;
    if id :| id in ids {
      var rest := LargestDecl(ids - {id}, w);
      m := rest + DeclSize(w.decls[id]);
    }
  }

  // ----- how long paths get

  /** A path that is `base` longer than its gains stays within `len` at every reference of `refs`. */
  ghost predicate Fits(pot: map<DeclId, nat>, refs: seq<Ref>, base: int, len: nat) {
    forall r | r in refs :: r.target in pot && base + r.gain + pot[r.target] <= len
  }

  ghost predicate Kept(seen: set<Key>, more: set<Key>, len: nat) {
    forall k | k in more :: k in seen || k.1 <= len
  }

  /** Every declaration with a potential pays for its references with it. */
  ghost predicate Budgeted(w: World, pot: map<DeclId, nat>) {
    Pays(w, pot.Keys, pot)
  }

  lemma {:induction false} LookupKeeps(fuel: nat, w: World, file: File, node: TypeNode, steps: seq<Step>,
                                       seen: set<Key>, gain: int, pot: map<DeclId, nat>, len: nat)
    requires Budgeted(w, pot) && Fits(pot, Refs(w, file, node, gain), |steps| - gain, len)
    ensures Kept(seen, Lookup(fuel, w, file, node, steps, seen).seen, len)
    decreases fuel, 1, 0
  {
    if fuel > 0 && steps != [] {
      match node
      case Literal(_) => LiteralKeeps(fuel, w, file, node, steps, seen, gain, pot, len);
      case Parenthesized(inner) => LookupKeeps(fuel - 1, w, file, inner, steps, seen, gain, pot, len);
      case Intersection(parts) => AllKeep(fuel - 1, w, file, parts, steps, seen, gain, pot, len);
      case Union(parts) => AllKeep(fuel - 1, w, file, parts, steps, seen, gain, pot, len);
      case ArrayOf(element) => LookupKeeps(fuel - 1, w, file, element, steps[1..], seen, gain - 1, pot, len);
      case Operator(inner) => LookupKeeps(fuel - 1, w, file, inner, steps, seen, gain, pot, len);
      case IndexedAccess(object', index) =>
        if index.Some? {
          LookupKeeps(fuel - 1, w, file, object', [Member(index.value)] + steps, seen, gain + 1, pot, len);
        }
      case Reference(_, _, _) => ReferenceKeeps(fuel, w, file, node, steps, seen, gain, pot, len);
      case OtherType =>
    }
  }

  /** One property needs no more than all members together. */
  lemma PropertyFits(w: World, file: File, members: seq<TypeMember>, gain: int, name: string, pot: map<DeclId, nat>,
                     base: int, len: nat)
    requires FindProperty(members, name).Some? && Fits(pot, MemberRefs(w, file, members, gain), base, len)
    ensures Fits(pot, MemberRef(w, file, FindProperty(members, name).value, gain), base, len)
  {
    PropertyRefs(w, file, members, gain, name);
  }

  lemma {:induction false} LiteralKeeps(fuel: nat, w: World, file: File, node: TypeNode, steps: seq<Step>,
                                        seen: set<Key>, gain: int, pot: map<DeclId, nat>, len: nat)
    requires fuel > 0 && steps != [] && node.Literal?
    requires Budgeted(w, pot) && Fits(pot, Refs(w, file, node, gain), |steps| - gain, len)
    ensures Kept(seen, Lookup(fuel, w, file, node, steps, seen).seen, len)
    decreases fuel, 0, 0
  {
    if steps[0].Member? && FindProperty(node.members, steps[0].name).Some? {
      var m := FindProperty(node.members, steps[0].name).value;
      PropertyFits(w, file, node.members, gain - 1, steps[0].name, pot, |steps| - gain, len);
      MemberKeeps(fuel - 1, w, file, m, steps, seen, gain - 1, pot, len);
    }
  }

  lemma {:induction false} ReferenceKeeps(fuel: nat, w: World, file: File, node: TypeNode, steps: seq<Step>,
                                          seen: set<Key>, gain: int, pot: map<DeclId, nat>, len: nat)
    requires fuel > 0 && steps != [] && node.Reference?
    requires Budgeted(w, pot) && Fits(pot, Refs(w, file, node, gain), |steps| - gain, len)
    ensures Kept(seen, Lookup(fuel, w, file, node, steps, seen).seen, len)
    decreases fuel, 0, 0
  {
    if IsWrapper(node) {
      LookupKeeps(fuel - 1, w, file, node.arguments[0], steps, seen, gain, pot, len);
    } else if IsArray(node) {
      LookupKeeps(fuel - 1, w, file, node.arguments[0], steps[1..], seen, gain - 1, pot, len);
    } else if !node.qualified {
      NameKeeps(fuel - 1, w, file, node.head, steps, seen, gain, pot, len);
    }
  }

  lemma {:induction false} MemberKeeps(fuel: nat, w: World, file: File, m: TypeMember, steps: seq<Step>,
                                       seen: set<Key>, gain: int, pot: map<DeclId, nat>, len: nat)
    requires m.Property? && steps != []
    requires Budgeted(w, pot) && Fits(pot, MemberRef(w, file, m, gain), |steps| - 1 - gain, len)
    ensures Kept(seen, IntoMember(fuel, w, file, m, steps, seen).seen, len)
    decreases fuel, 2, 0
  {
    if m.typ.Some? {
      LookupKeeps(fuel, w, file, m.typ.value, steps[1..], seen, gain, pot, len);
    }
  }

  lemma {:induction false} AllKeep(fuel: nat, w: World, file: File, parts: seq<TypeNode>, steps: seq<Step>,
                                   seen: set<Key>, gain: int, pot: map<DeclId, nat>, len: nat)
    requires Budgeted(w, pot) && Fits(pot, PartRefs(w, file, parts, gain), |steps| - gain, len)
    ensures Kept(seen, LookupAll(fuel, w, file, parts, steps, seen).seen, len)
    decreases fuel, 2, |parts|
  {
    if parts != [] {
      var n := |parts| - 1;
      AllKeep(fuel, w, file, parts[..n], steps, seen, gain, pot, len);
      var mid := LookupAll(fuel, w, file, parts[..n], steps, seen).seen;
      LookupKeeps(fuel, w, file, parts[n], steps, mid, gain, pot, len);
    }
  }

  lemma {:induction false} NameKeeps(fuel: nat, w: World, file: File, name: string, steps: seq<Step>,
                                     seen: set<Key>, gain: int, pot: map<DeclId, nat>, len: nat)
    requires Budgeted(w, pot) && Fits(pot, NameRefs(w, file, name, gain), |steps| - gain, len)
    ensures Kept(seen, LookupName(fuel, w, file, name, steps, seen).seen, len)
    decreases fuel, 2, 0
  {
    var target := w.Resolve(file, name);
    if target.Some? {
      assert Ref(target.value, gain) in NameRefs(w, file, name, gain);
      DeclKeeps(fuel, w, target.value, steps, seen, pot, len);
    }
  }

  /** Every key the walk meets has a path within `len`, when the potential of its start is paid for. */
  lemma {:induction false} DeclKeeps(fuel: nat, w: World, id: DeclId, steps: seq<Step>, seen: set<Key>,
                                     pot: map<DeclId, nat>, len: nat)
    requires Budgeted(w, pot) && id in w.decls && id in pot && |steps| + pot[id] <= len
    ensures Kept(seen, LookupDecl(fuel, w, id, steps, seen).seen, len)
    decreases fuel, 1, 0
  {
    assert Fits(pot, RefsOf(w, id), |steps|, len);
    if fuel > 0 && steps != [] && (id, |steps|) !in seen {
      var guard := seen + {(id, |steps|)};
      match w.decls[id]
      case Enum =>
      case Alias(typ) => LookupKeeps(fuel - 1, w, id.0, typ, steps, guard, 0, pot, len);
      case Interface(members, bases) =>
        if steps[0].Member? {
          match FindProperty(members, steps[0].name)
          case Some(m) =>
            PropertyFits(w, id.0, members, -1, steps[0].name, pot, |steps|, len);
            MemberKeeps(fuel - 1, w, id.0, m, steps, guard, -1, pot, len);
          case None => BasesKeep(fuel - 1, w, id.0, bases, steps, guard, pot, len);
        }
    }
  }

  lemma {:induction false} BasesKeep(fuel: nat, w: World, file: File, bases: seq<Option<string>>,
                                     steps: seq<Step>, seen: set<Key>, pot: map<DeclId, nat>, len: nat)
    requires Budgeted(w, pot) && Fits(pot, BaseRefs(w, file, bases), |steps|, len)
    ensures Kept(seen, LookupBases(fuel, w, file, bases, steps, seen).seen, len)
    decreases fuel, 3, |bases|
  {
    if bases != [] {
      var n := |bases| - 1;
      BasesKeep(fuel, w, file, bases[..n], steps, seen, pot, len);
      if bases[n].Some? {
        var mid := LookupBases(fuel, w, file, bases[..n], steps, seen).seen;
        NameKeeps(fuel, w, file, bases[n].value, steps, mid, 0, pot, len);
      }
    }
  }

  // ----- when the walk ends

  lemma {:induction false} LongestPath(seen: set<Key>) returns (len: nat)
    ensures !Long(seen, len)
  {
    len := 0;
    if k :| k in seen {
      var rest := LongestPath(seen - {k});
      len := if rest < k.1 then k.1 else rest;
      forall x | x in seen ensures x.1 <= len {
        assert x != k ==> x in seen - {k};
      }
    }
  }

  /** At a great enough depth the walk has ended, or has met a path of more than `len` steps. */
  lemma EndsOrGrows(w: World, id: DeclId, steps: seq<Step>, seen: set<Key>, len: nat) returns (fuel: nat)
    requires id in w.decls
    ensures Ends(LookupDecl(fuel, w, id, steps, seen), len)
  {
    var m := LargestDecl(w.decls.Keys, w);
    fuel := Left(w, len, seen, m) + 1;
    DeclEnds(fuel, w, id, steps, seen, len, m);
  }

  ghost predicate EverEnds(w: World, id: DeclId, steps: seq<Step>)
    requires id in w.decls
  {
    exists fuel: nat :: LookupDecl(fuel, w, id, steps, {}).verdict.Some?
  }

  /** No depth makes the walk meet a path of more than `len` steps. */
  ghost predicate StaysWithin(w: World, id: DeclId, steps: seq<Step>, len: nat)
    requires id in w.decls
  {
    forall fuel: nat :: !Long(LookupDecl(fuel, w, id, steps, {}).seen, len)
  }

  /** The walk ends exactly when its paths do not grow beyond every bound: the guard catches everything else. */
  lemma EndsIffBounded(w: World, id: DeclId, steps: seq<Step>)
    requires id in w.decls
    ensures EverEnds(w, id, steps) <==> exists len: nat :: StaysWithin(w, id, steps, len)
  {
    if EverEnds(w, id, steps) {
      var f: nat :| LookupDecl(f, w, id, steps, {}).verdict.Some?;
      var len := LongestPath(LookupDecl(f, w, id, steps, {}).seen);
      forall g: nat ensures !Long(LookupDecl(g, w, id, steps, {}).seen, len) {
        DeclDeeper(if f < g then f else g, if f < g then g else f, w, id, steps, {});
        if Long(LookupDecl(g, w, id, steps, {}).seen, len) {
          LongGrows(LookupDecl(g, w, id, steps, {}).seen, LookupDecl(f, w, id, steps, {}).seen, len);
        }
      }
      assert StaysWithin(w, id, steps, len);
    }
    if len: nat :| StaysWithin(w, id, steps, len) {
      var fuel := EndsOrGrows(w, id, steps, {}, len);
      assert !Long(LookupDecl(fuel, w, id, steps, {}).seen, len);
    }
  }

  /** When no cycle of references adds more steps than it consumes, the walk ends on every path and guard. */
  lemma WalkEnds(w: World, id: DeclId, steps: seq<Step>, seen: set<Key>) returns (fuel: nat)
    requires id in w.decls && NoGain(w, Reachable(w, id))
    ensures LookupDecl(fuel, w, id, steps, seen).verdict.Some?
  {
    ReachableClosed(w, id);
    var pot := PotentialExists(w, Reachable(w, id));
    pot := map d | d in Reachable(w, id) :: pot[d];
    assert Budgeted(w, pot);
    var old' := LongestPath(seen);
    var len := if old' < |steps| + pot[id] then |steps| + pot[id] else old';
    fuel := EndsOrGrows(w, id, steps, seen, len);
    DeclKeeps(fuel, w, id, steps, seen, pot, len);
  }

  /** In particular when no declaration reaches itself through a reference that adds steps. */
  lemma NoSelfGainEnds(w: World, id: DeclId, steps: seq<Step>, seen: set<Key>) returns (fuel: nat)
    requires id in w.decls && NoSelfGain(w, Reachable(w, id))
    ensures LookupDecl(fuel, w, id, steps, seen).verdict.Some?
  {
    ReachableClosed(w, id);
    NoSelfGainNoGain(w, Reachable(w, id));
    fuel := WalkEnds(w, id, steps, seen);
  }

  /** `interface A { x: { y } }` and `type B = A['x']`: an indexed access outside every cycle. */
  function Elsewhere(a: DeclId, b: DeclId): World {
    World(map[a := Interface([Property("x", Some(Literal([Property("y", None)])))], []),
              b := Alias(IndexedAccess(Reference("A", false, []), Some("x")))],
          map[(b.0, "A") := a])
  }

  lemma ElsewhereRefs(a: DeclId, b: DeclId)
    requires a != b
    ensures RefsOf(Elsewhere(a, b), a) == [] && RefsOf(Elsewhere(a, b), b) == [Ref(a, 1)]
  {
    var w, inner := Elsewhere(a, b), Literal([Property("y", None)]);
    assert inner.members[1..] == [] && w.decls[a].members[1..] == [];
    assert MemberRefs(w, a.0, inner.members, -2) == [] + MemberRefs(w, a.0, [], -2);
    assert Refs(w, a.0, inner, -1) == [];
    assert MemberRefs(w, a.0, w.decls[a].members, -1) == [] + MemberRefs(w, a.0, [], -1);
    assert w.Resolve(b.0, "A") == Some(a);
    assert Refs(w, b.0, Reference("A", false, []), 1) == [Ref(a, 1)];
  }

  /** Such an access meets the condition, and what it leads to is found. */
  lemma ElsewhereIsFound(a: DeclId, b: DeclId)
    requires a != b
    ensures NoSelfGain(Elsewhere(a, b), Reachable(Elsewhere(a, b), b))
    ensures LookupDecl(7, Elsewhere(a, b), b, [Member("y")], {}).verdict == Some(Found)
  {
    ElsewhereRefs(a, b);
    ElsewhereLookup(a, b);
  }

  lemma ElsewhereLookup(a: DeclId, b: DeclId)
    requires a != b
    ensures LookupDecl(7, Elsewhere(a, b), b, [Member("y")], {}).verdict == Some(Found)
  {
    var w, ref, longer := Elsewhere(a, b), Reference("A", false, []), [Member("x"), Member("y")];
    var guard := {(b, 1)};
    assert w.Resolve(b.0, "A") == Some(a);
    assert [Member("x")] + [Member("y")] == longer && longer[1..] == [Member("y")];
    assert LookupDecl(4, w, a, longer, guard).verdict == Some(Found);
    assert LookupName(4, w, b.0, "A", longer, guard).verdict == Some(Found);
    assert Lookup(5, w, b.0, ref, longer, guard).verdict == Some(Found);
    assert Lookup(6, w, b.0, IndexedAccess(ref, Some("x")), [Member("y")], guard).verdict == Some(Found);
    assert {} + {(b, 1)} == guard;
  }
}
