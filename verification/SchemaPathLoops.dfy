/** When the schema-path walk never ends: cycles of references that bring back a longer path. */
module SchemaPathLoops {
  import opened SchemaPath
  import opened SchemaPathEnds
  import opened Sorting
  import opened Options

  /**
   * Where the walk of a type goes first, by the first branch of every choice: a declaration and what is left
   * of the path.
   */
  function Onward(w: World, file: File, node: TypeNode, steps: seq<Step>): Option<(DeclId, seq<Step>)>
    decreases Size(node)
  {
    if steps == [] then None
    else match node
      case Literal(members) =>
        PropertySize(members, if steps[0].Member? then steps[0].name else "");
        var m := if steps[0].Member? then FindProperty(members, steps[0].name) else None;
        if m.Some? && |steps| > 1 && m.value.typ.Some? then Onward(w, file, m.value.typ.value, steps[1..]) else None
      case Parenthesized(inner) => Onward(w, file, inner, steps)
      case Intersection(parts) =>
        if parts == [] then None
        else
          PartSize(parts, 0);
          Onward(w, file, parts[0], steps)
      case Union(parts) =>
        if parts == [] then None
        else
          PartSize(parts, 0);
          Onward(w, file, parts[0], steps)
      case ArrayOf(element) => if steps[0].Element? then Onward(w, file, element, steps[1..]) else None
      case Operator(inner) => Onward(w, file, inner, steps)
      case IndexedAccess(object', index) =>
        if index.Some? then Onward(w, file, object', [Member(index.value)] + steps) else None
      case Reference(head, qualified, arguments) =>
        if IsWrapper(node) then
          PartSize(arguments, 0);
          Onward(w, file, arguments[0], steps)
        else if IsArray(node) then
          PartSize(arguments, 0);
          if steps[0].Element? then Onward(w, file, arguments[0], steps[1..]) else None
        else if qualified then None
        else Named(w, file, head, steps)
      case OtherType => None
  }

  function Named(w: World, file: File, name: string, steps: seq<Step>): (r: Option<(DeclId, seq<Step>)>)
    ensures r.Some? ==> r.value.0 in w.decls
  {
    var target := w.Resolve(file, name);
    if target.Some? then Some((target.value, steps)) else None
  }

  /** Where the walk of a declaration goes first. */
  function Next(w: World, id: DeclId, steps: seq<Step>): Option<(DeclId, seq<Step>)>
    requires id in w.decls
  {
    if steps == [] then None
    else match w.decls[id]
      case Enum => None
      case Alias(typ) => Onward(w, id.0, typ, steps)
      case Interface(members, bases) =>
        if steps[0].Element? then None
        else match FindProperty(members, steps[0].name)
          case Some(m) => if |steps| > 1 && m.typ.Some? then Onward(w, id.0, m.typ.value, steps[1..]) else None
          case None => if bases != [] && bases[0].Some? then Named(w, id.0, bases[0].value, steps) else None
  }

  /** The walk of `next` does not end within `fuel` levels, with this guard. */
  ghost predicate Endless(fuel: nat, w: World, next: Option<(DeclId, seq<Step>)>, seen: set<Key>) {
    && next.Some? && next.value.0 in w.decls
    && forall f: nat | f < fuel :: LookupDecl(f, w, next.value.0, next.value.1, seen).verdict == None
  }

  lemma {:induction false} FirstPart(fuel: nat, w: World, file: File, parts: seq<TypeNode>, steps: seq<Step>,
                                     seen: set<Key>)
    requires parts != [] && Lookup(fuel, w, file, parts[0], steps, seen).verdict == None
    ensures LookupAll(fuel, w, file, parts, steps, seen).verdicts == None
    decreases |parts|
  {
    if |parts| > 1 {
      FirstPart(fuel, w, file, parts[..|parts| - 1], steps, seen);
    } else {
      assert parts[..0] == [];
    }
  }

  lemma {:induction false} FirstBase(fuel: nat, w: World, file: File, bases: seq<Option<string>>,
                                     steps: seq<Step>, seen: set<Key>)
    requires bases != [] && bases[0].Some? && LookupName(fuel, w, file, bases[0].value, steps, seen).verdict == None
    ensures LookupBases(fuel, w, file, bases, steps, seen).verdicts == None
    decreases |bases|
  {
    if |bases| > 1 {
      FirstBase(fuel, w, file, bases[..|bases| - 1], steps, seen);
    } else {
      assert bases[..0] == [];
    }
  }

  lemma {:induction false} OnwardEndless(fuel: nat, w: World, file: File, node: TypeNode, steps: seq<Step>,
                                         seen: set<Key>)
    requires Endless(fuel, w, Onward(w, file, node, steps), seen)
    ensures Lookup(fuel, w, file, node, steps, seen).verdict == None
    decreases fuel
  {
    if fuel > 0 {
      match node
      case Literal(members) =>
        OnwardEndless(fuel - 1, w, file, FindProperty(members, steps[0].name).value.typ.value, steps[1..], seen);
      case Parenthesized(inner) => OnwardEndless(fuel - 1, w, file, inner, steps, seen);
      case Intersection(parts) =>
        OnwardEndless(fuel - 1, w, file, parts[0], steps, seen);
        FirstPart(fuel - 1, w, file, parts, steps, seen);
      case Union(parts) =>
        OnwardEndless(fuel - 1, w, file, parts[0], steps, seen);
        FirstPart(fuel - 1, w, file, parts, steps, seen);
      case ArrayOf(element) => OnwardEndless(fuel - 1, w, file, element, steps[1..], seen);
      case Operator(inner) => OnwardEndless(fuel - 1, w, file, inner, steps, seen);
      case IndexedAccess(object', index) =>
        OnwardEndless(fuel - 1, w, file, object', [Member(index.value)] + steps, seen);
      case Reference(head, _, arguments) =>
        if IsWrapper(node) {
          OnwardEndless(fuel - 1, w, file, arguments[0], steps, seen);
        } else if IsArray(node) {
          OnwardEndless(fuel - 1, w, file, arguments[0], steps[1..], seen);
        } else {
          assert LookupDecl(fuel - 1, w, w.Resolve(file, head).value, steps, seen).verdict == None;
        }
    }
  }

  /** A walk that goes on to an endless one is endless, unless the guard stops it. */
  lemma NextEndless(fuel: nat, w: World, id: DeclId, steps: seq<Step>, seen: set<Key>)
    requires id in w.decls && (id, |steps|) !in seen && fuel > 0
    requires Endless(fuel, w, Next(w, id, steps), seen + {(id, |steps|)})
    ensures LookupDecl(fuel, w, id, steps, seen).verdict == None
  {
    var guard := seen + {(id, |steps|)};
    match w.decls[id]
    case Alias(typ) => OnwardEndless(fuel - 1, w, id.0, typ, steps, guard);
    case Interface(members, bases) =>
      match FindProperty(members, steps[0].name)
      case Some(m) => OnwardEndless(fuel - 1, w, id.0, m.typ.value, steps[1..], guard);
      case None => FirstBase(fuel - 1, w, id.0, bases, steps, guard);
  }

  // ----- a cycle that brings back a longer path

  lemma {:induction false} OnwardExtends(w: World, file: File, node: TypeNode, steps: seq<Step>, tail: seq<Step>)
    requires Onward(w, file, node, steps).Some?
    ensures
      var (target, rest) := Onward(w, file, node, steps).value;
      Onward(w, file, node, steps + tail) == Some((target, rest + tail))
    decreases Size(node)
  {
    var more := steps + tail;
    assert more[0] == steps[0] && more[1..] == steps[1..] + tail;
    match node
    case Literal(members) =>
      PropertySize(members, steps[0].name);
      OnwardExtends(w, file, FindProperty(members, steps[0].name).value.typ.value, steps[1..], tail);
    case Parenthesized(inner) => OnwardExtends(w, file, inner, steps, tail);
    case Intersection(parts) =>
      PartSize(parts, 0);
      OnwardExtends(w, file, parts[0], steps, tail);
    case Union(parts) =>
      PartSize(parts, 0);
      OnwardExtends(w, file, parts[0], steps, tail);
    case ArrayOf(element) => OnwardExtends(w, file, element, steps[1..], tail);
    case Operator(inner) => OnwardExtends(w, file, inner, steps, tail);
    case IndexedAccess(object', index) =>
      assert [Member(index.value)] + more == ([Member(index.value)] + steps) + tail;
      OnwardExtends(w, file, object', [Member(index.value)] + steps, tail);
    case Reference(_, _, arguments) =>
      if IsWrapper(node) {
        PartSize(arguments, 0);
        OnwardExtends(w, file, arguments[0], steps, tail);
      } else if IsArray(node) {
        PartSize(arguments, 0);
        OnwardExtends(w, file, arguments[0], steps[1..], tail);
      }
  }

  /** Where the walk goes does not depend on what follows the part of the path it looks at. */
  lemma NextExtends(w: World, id: DeclId, steps: seq<Step>, tail: seq<Step>)
    requires id in w.decls && Next(w, id, steps).Some?
    ensures
      var (target, rest) := Next(w, id, steps).value;
      Next(w, id, steps + tail) == Some((target, rest + tail))
  {
    var more := steps + tail;
    assert more[0] == steps[0] && more[1..] == steps[1..] + tail;
    match w.decls[id]
    case Alias(typ) => OnwardExtends(w, id.0, typ, steps, tail);
    case Interface(members, bases) =>
      match FindProperty(members, steps[0].name)
      case Some(m) => OnwardExtends(w, id.0, m.typ.value, steps[1..], tail);
      case None =>
  }

  /** A round through different declarations that starts with `paths[0]` and comes back with `added` behind it. */
  datatype Round = Round(ids: seq<DeclId>, paths: seq<seq<Step>>, added: seq<Step>) {

    /** The declaration and path after position `k`. */
    function After(k: nat): (DeclId, seq<Step>)
      requires k < |ids| == |paths|
    {
      if k + 1 < |ids| then (ids[k + 1], paths[k + 1]) else (ids[0], paths[0] + added)
    }

    ghost predicate Goes(w: World) {
      && |ids| == |paths| > 0 && NoDup(ids) && added != []
      && (forall k | 0 <= k < |ids| :: ids[k] in w.decls)
      && (forall k | 0 <= k < |ids| :: Next(w, ids[k], paths[k]) == Some(After(k)))
    }

    /** The guard knows the declarations of the round only with shorter paths than they are about to be met with. */
    ghost predicate Ahead(k: nat, tail: seq<Step>, seen: set<Key>)
      requires |ids| == |paths|
    {
      forall i, n | 0 <= i < |ids| && (ids[i], n) in seen ::
        n < |paths[i]| + |tail| + if i < k then |added| else 0
    }
  }

  lemma AheadOn(round: Round, k: nat, tail: seq<Step>, seen: set<Key>)
    requires |round.ids| == |round.paths| && NoDup(round.ids) && round.added != [] && k < |round.ids|
    requires round.Ahead(k, tail, seen)
    ensures
      var guard := seen + {(round.ids[k], |round.paths[k] + tail|)};
      if k + 1 < |round.ids| then round.Ahead(k + 1, tail, guard) else round.Ahead(0, round.added + tail, guard)
  {
  }

  /**
   * A round of references that adds more steps than it consumes never ends: each time it is met with
   * a longer path, so the guard never sees a key again.
   */
  lemma {:induction false} RoundsNeverEnd(fuel: nat, w: World, round: Round, k: nat, tail: seq<Step>, seen: set<Key>)
    requires round.Goes(w) && k < |round.ids| && round.Ahead(k, tail, seen)
    ensures LookupDecl(fuel, w, round.ids[k], round.paths[k] + tail, seen).verdict == None
    decreases fuel, 0
  {
    if fuel > 0 {
      var id, steps := round.ids[k], round.paths[k] + tail;
      var guard, after := seen + {(id, |steps|)}, round.After(k);
      assert Next(w, id, round.paths[k]) == Some(after);
      NextExtends(w, id, round.paths[k], tail);
      AheadOn(round, k, tail, seen);
      forall f: nat | f < fuel ensures LookupDecl(f, w, after.0, after.1 + tail, guard).verdict == None {
        TurnNeverEnds(f, w, round, k, tail, guard);
      }
      NextEndless(fuel, w, id, steps, seen);
    }
  }

  lemma {:induction false} TurnNeverEnds(fuel: nat, w: World, round: Round, k: nat, tail: seq<Step>, guard: set<Key>)
    requires round.Goes(w) && k < |round.ids|
    requires if k + 1 < |round.ids| then round.Ahead(k + 1, tail, guard) else round.Ahead(0, round.added + tail, guard)
    ensures
      round.After(k).0 in w.decls &&
      LookupDecl(fuel, w, round.After(k).0, round.After(k).1 + tail, guard).verdict == None
    decreases fuel, 1
  {
    if k + 1 < |round.ids| {
      RoundsNeverEnd(fuel, w, round, k + 1, tail, guard);
    } else {
      assert round.paths[0] + round.added + tail == round.paths[0] + (round.added + tail);
      RoundsNeverEnd(fuel, w, round, 0, round.added + tail, guard);
    }
  }

  /** So a walk that meets such a round never ends, whatever follows on the path. */
  lemma RoundNeverEnds(w: World, round: Round, tail: seq<Step>)
    requires round.Goes(w)
    ensures !EverEnds(w, round.ids[0], round.paths[0] + tail)
  {
    forall fuel: nat ensures LookupDecl(fuel, w, round.ids[0], round.paths[0] + tail, {}).verdict == None {
      RoundsNeverEnd(fuel, w, round, 0, tail, {});
    }
  }

  // ----- two such rounds

  /** `type T = T['a']`. */
  function SelfIndexed(id: DeclId, name: string): World {
    World(map[id := Alias(IndexedAccess(Reference(name, false, []), Some("a")))], map[(id.0, name) := id])
  }

  /** The path grows on every round, so the guard never sees the same key and the walk never ends. */
  lemma IndexedAccessLoops(fuel: nat, id: DeclId, name: string, steps: seq<Step>, seen: set<Key>)
    requires name !in PASSTHROUGH_WRAPPERS && name !in ARRAY_NAMES && steps != []
    requires forall n | (id, n) in seen :: n < |steps|
    ensures LookupDecl(fuel, SelfIndexed(id, name), id, steps, seen).verdict == None
  {
    var w, a := SelfIndexed(id, name), [Member("a")];
    var round := Round([id], [a], a);
    SelfIndexedNext(id, name, a);
    SelfIndexedNext(id, name, steps);
    assert round.Goes(w);
    forall f: nat | f < fuel ensures LookupDecl(f, w, id, a + steps, seen + {(id, |steps|)}).verdict == None {
      RoundsNeverEnd(f, w, round, 0, steps, seen + {(id, |steps|)});
    }
    if fuel > 0 {
      NextEndless(fuel, w, id, steps, seen);
    }
  }

  lemma SelfIndexedNext(id: DeclId, name: string, steps: seq<Step>)
    requires name !in PASSTHROUGH_WRAPPERS && name !in ARRAY_NAMES && steps != []
    ensures Next(SelfIndexed(id, name), id, steps) == Some((id, [Member("a")] + steps))
  {
    var w, r := SelfIndexed(id, name), Reference(name, false, []);
    assert w.Resolve(id.0, name) == Some(id);
    assert Onward(w, id.0, r, [Member("a")] + steps) == Some((id, [Member("a")] + steps));
  }

  /** `interface A { x: B['x']['x'] }` and `type B = A`: a round through two declarations that also consumes a step. */
  function Doubling(a: DeclId, b: DeclId): World {
    var twice := IndexedAccess(IndexedAccess(Reference("B", false, []), Some("x")), Some("x"));
    World(map[a := Interface([Property("x", Some(twice))], []), b := Alias(Reference("A", false, []))],
          map[(a.0, "B") := b, (b.0, "A") := a])
  }

  /** Neither declaration indexes itself, and still looking up `x.x` never ends. */
  lemma DoublingLoops(a: DeclId, b: DeclId, tail: seq<Step>)
    requires a != b
    ensures !EverEnds(Doubling(a, b), a, [Member("x"), Member("x")] + tail)
  {
    var w, x := Doubling(a, b), Member("x");
    var round := Round([a, b], [[x, x], [x, x, x]], [x]);
    var ref, inner := Reference("B", false, []), IndexedAccess(Reference("B", false, []), Some("x"));
    assert w.Resolve(a.0, "B") == Some(b) && w.Resolve(b.0, "A") == Some(a);
    assert [x, x][1..] == [x] && [x] + [x] == [x, x] && [x] + [x, x] == [x, x, x];
    assert Onward(w, a.0, ref, [x, x, x]) == Some((b, [x, x, x]));
    assert Onward(w, a.0, inner, [x, x]) == Some((b, [x, x, x]));
    assert Onward(w, a.0, IndexedAccess(inner, Some("x")), [x]) == Some((b, [x, x, x]));
    assert Next(w, a, [x, x]) == Some(round.After(0));
    assert Next(w, b, [x, x, x]) == Some((a, [x, x, x]));
    assert [x, x] + [x] == [x, x, x];
    assert Next(w, b, [x, x, x]) == Some(round.After(1));
    RoundNeverEnds(w, round, tail);
  }
}
