/**
 * Presence check of a schema key path against a declared config type: a recursive walk over
 * possibly cyclic declarations that answers found, missing or unknown.
 */
module SchemaPath {
  import opened Options

  type File = string
  type DeclId = (File, nat)

  /** A step of the path: into the member of that name, or into the elements of an array. */
  datatype Step = Member(name: string) | Element

  datatype Verdict = Found | Missing | Unknown

  datatype TypeMember = Property(name: string, typ: Option<TypeNode>) | OtherMember

  datatype TypeNode =
    | Literal(members: seq<TypeMember>)
    | Parenthesized(inner: TypeNode)
    | Intersection(parts: seq<TypeNode>)
    | Union(parts: seq<TypeNode>)
    | ArrayOf(element: TypeNode)
    | Operator(inner: TypeNode)
    | IndexedAccess(object': TypeNode, index: Option<string>)
    | Reference(head: string, qualified: bool, arguments: seq<TypeNode>)
    | OtherType

  datatype Declaration =
    | Interface(members: seq<TypeMember>, bases: seq<Option<string>>)
    | Alias(typ: TypeNode)
    | Enum

  /** The declarations of all source files, and what a type name means in a file. */
  datatype World = World(decls: map<DeclId, Declaration>, names: map<(File, string), DeclId>) {

    function Resolve(file: File, name: string): (r: Option<DeclId>)
      ensures r.Some? ==> r.value in decls
    {
      if (file, name) in names && names[(file, name)] in decls then Some(names[(file, name)]) else None
    }
  }

  const PASSTHROUGH_WRAPPERS := {"Partial", "Required", "Readonly", "NonNullable"}
  const ARRAY_NAMES := {"Array", "ReadonlyArray"}

  type Key = (DeclId, nat)

  /** A verdict with the guard's contents afterwards; None when the walk did not finish within its fuel. */
  datatype Outcome = Outcome(verdict: Option<Verdict>, seen: set<Key>)
  datatype Outcomes = Outcomes(verdicts: Option<seq<Verdict>>, seen: set<Key>)

  /** One branch that has the path is enough; without one, an undecided branch leaves it open. */
  function Combine(results: seq<Verdict>): Verdict {
    if Found in results then Found else if Unknown in results then Unknown else Missing
  }

  /** What the branches say with one voice; no branch at all has every path. */
  function Agree(results: seq<Verdict>): Verdict {
    if forall r | r in results :: r == Found then Found
    else if forall r | r in results :: r == Missing then Missing
    else Unknown
  }

  /** The first property of that name, as far as the declared members go. */
  function FindProperty(members: seq<TypeMember>, name: string): (r: Option<TypeMember>)
    ensures r.Some? ==> r.value in members && r.value.Property? && r.value.name == name
  {
    if members == [] then None
    else if members[0].Property? && members[0].name == name then Some(members[0])
    else FindProperty(members[1..], name)
  }

  /** A reference to a utility that passes the path on to its argument. */
  predicate IsWrapper(node: TypeNode) {
    node.Reference? && node.head in PASSTHROUGH_WRAPPERS && node.arguments != []
  }

  predicate IsArray(node: TypeNode) {
    node.Reference? && node.head in ARRAY_NAMES && node.arguments != []
  }

  // ----- the walk, with its guard

  function Lookup(fuel: nat, w: World, file: File, node: TypeNode, steps: seq<Step>, seen: set<Key>): (r: Outcome)
    ensures seen <= r.seen
    decreases fuel, 1, 0
  {
    if fuel == 0 then Outcome(None, seen)
    else if steps == [] then Outcome(Some(Found), seen)
    else match node
      case Literal(members) =>
        if steps[0].Element? then Outcome(Some(Unknown), seen)
        else (match FindProperty(members, steps[0].name)
              case Some(m) => IntoMember(fuel - 1, w, file, m, steps, seen)
              case None => Outcome(Some(Missing), seen))
      case Parenthesized(inner) => Lookup(fuel - 1, w, file, inner, steps, seen)
      case Intersection(parts) =>
        var r := LookupAll(fuel - 1, w, file, parts, steps, seen);
        if r.verdicts.None? then Outcome(None, r.seen) else Outcome(Some(Combine(r.verdicts.value)), r.seen)
      case Union(parts) =>
        var r := LookupAll(fuel - 1, w, file, parts, steps, seen);
        if r.verdicts.None? then Outcome(None, r.seen) else Outcome(Some(Agree(r.verdicts.value)), r.seen)
      case ArrayOf(element) =>
        if steps[0].Element? then Lookup(fuel - 1, w, file, element, steps[1..], seen) else Outcome(Some(Unknown), seen)
      case Operator(inner) => Lookup(fuel - 1, w, file, inner, steps, seen)
      case IndexedAccess(object', index) =>
        if index.Some? then Lookup(fuel - 1, w, file, object', [Member(index.value)] + steps, seen)
        else Outcome(Some(Unknown), seen)
      case Reference(head, qualified, arguments) =>
        if IsWrapper(node) then Lookup(fuel - 1, w, file, arguments[0], steps, seen)
        else if IsArray(node) then
          if steps[0].Element? then Lookup(fuel - 1, w, file, arguments[0], steps[1..], seen)
          else Outcome(Some(Unknown), seen)
        else if qualified then Outcome(Some(Unknown), seen)
        else LookupName(fuel - 1, w, file, head, steps, seen)
      case OtherType => Outcome(Some(Unknown), seen)
  }

  function IntoMember(fuel: nat, w: World, file: File, m: TypeMember, steps: seq<Step>, seen: set<Key>): (r: Outcome)
    requires m.Property? && steps != []
    ensures seen <= r.seen
    decreases fuel, 2, 0
  {
    if |steps| == 1 then Outcome(Some(Found), seen)
    else if m.typ.Some? then Lookup(fuel, w, file, m.typ.value, steps[1..], seen)
    else Outcome(Some(Unknown), seen)
  }

  function LookupAll(fuel: nat, w: World, file: File, parts: seq<TypeNode>, steps: seq<Step>,
                     seen: set<Key>): (r: Outcomes)
    ensures seen <= r.seen
    ensures r.verdicts.Some? ==> |r.verdicts.value| == |parts|
    decreases fuel, 2, |parts|
  {
    if parts == [] then Outcomes(Some([]), seen)
    else
      var init := LookupAll(fuel, w, file, parts[..|parts| - 1], steps, seen);
      if init.verdicts.None? then init
      else
        var last := Lookup(fuel, w, file, parts[|parts| - 1], steps, init.seen);
        if last.verdict.None? then Outcomes(None, last.seen)
        else Outcomes(Some(init.verdicts.value + [last.verdict.value]), last.seen)
  }

  function LookupName(fuel: nat, w: World, file: File, name: string, steps: seq<Step>, seen: set<Key>): (r: Outcome)
    ensures seen <= r.seen
    decreases fuel, 2, 0
  {
    var target := w.Resolve(file, name);
    if target.None? then Outcome(Some(Unknown), seen) else LookupDecl(fuel, w, target.value, steps, seen)
  }

  function LookupDecl(fuel: nat, w: World, id: DeclId, steps: seq<Step>, seen: set<Key>): (r: Outcome)
    requires id in w.decls
    ensures seen <= r.seen
    decreases fuel, 1, 0
  {
    var decl := w.decls[id];
    if fuel == 0 then Outcome(None, seen)
    else if steps == [] then Outcome(Some(Found), seen)
    else if decl.Enum? then Outcome(Some(Unknown), seen)
    else if (id, |steps|) in seen then Outcome(Some(Unknown), seen)
    else
      var guard := seen + {(id, |steps|)};
      if decl.Alias? then Lookup(fuel - 1, w, id.0, decl.typ, steps, guard)
      else if steps[0].Element? then Outcome(Some(Unknown), guard)
      else match FindProperty(decl.members, steps[0].name)
        case Some(m) => IntoMember(fuel - 1, w, id.0, m, steps, guard)
        case None =>
          var r := LookupBases(fuel - 1, w, id.0, decl.bases, steps, guard);
          if r.verdicts.None? then Outcome(None, r.seen)
          else Outcome(Some(if decl.bases != [] then Combine(r.verdicts.value) else Missing), r.seen)
  }

  function LookupBases(fuel: nat, w: World, file: File, bases: seq<Option<string>>, steps: seq<Step>,
                       seen: set<Key>): (r: Outcomes)
    ensures seen <= r.seen
    ensures r.verdicts.Some? ==> |r.verdicts.value| == |bases|
    decreases fuel, 3, |bases|
  {
    if bases == [] then Outcomes(Some([]), seen)
    else
      var init := LookupBases(fuel, w, file, bases[..|bases| - 1], steps, seen);
      if init.verdicts.None? then init
      else
        var base := bases[|bases| - 1];
        var last := if base.None? then Outcome(Some(Unknown), init.seen)
          else LookupName(fuel, w, file, base.value, steps, init.seen);
        if last.verdict.None? then Outcomes(None, last.seen)
        else Outcomes(Some(init.verdicts.value + [last.verdict.value]), last.seen)
  }

  // ----- what presence and absence mean, without any guard

  /** `steps` is definitely present (`want == Found`) or absent (`want == Missing`), by a derivation of depth `d`. */
  ghost predicate Holds(d: nat, want: Verdict, w: World, file: File, node: TypeNode, steps: seq<Step>)
    decreases d, 1
  {
    && d > 0
    && if steps == [] then want == Found
       else match node
         case Literal(members) =>
           && steps[0].Member?
           && (match FindProperty(members, steps[0].name)
               case Some(m) => MemberHolds(d - 1, want, w, file, m, steps)
               case None => want == Missing)
         case Parenthesized(inner) => Holds(d - 1, want, w, file, inner, steps)
         case Intersection(parts) =>
           if want == Found then exists i | 0 <= i < |parts| :: Holds(d - 1, want, w, file, parts[i], steps)
           else forall i | 0 <= i < |parts| :: Holds(d - 1, want, w, file, parts[i], steps)
         case Union(parts) =>
           && (want == Missing ==> parts != [])
           && forall i | 0 <= i < |parts| :: Holds(d - 1, want, w, file, parts[i], steps)
         case ArrayOf(element) => steps[0].Element? && Holds(d - 1, want, w, file, element, steps[1..])
         case Operator(inner) => Holds(d - 1, want, w, file, inner, steps)
         case IndexedAccess(object', index) =>
           index.Some? && Holds(d - 1, want, w, file, object', [Member(index.value)] + steps)
         case Reference(head, qualified, arguments) =>
           if IsWrapper(node) then Holds(d - 1, want, w, file, arguments[0], steps)
           else if IsArray(node) then
             steps[0].Element? && Holds(d - 1, want, w, file, arguments[0], steps[1..])
           else !qualified && NameHolds(d - 1, want, w, file, head, steps)
         case OtherType => false
  }

  ghost predicate MemberHolds(d: nat, want: Verdict, w: World, file: File, m: TypeMember, steps: seq<Step>)
    requires m.Property? && steps != []
    decreases d, 2
  {
    if |steps| == 1 then want == Found
    else m.typ.Some? && Holds(d, want, w, file, m.typ.value, steps[1..])
  }

  ghost predicate NameHolds(d: nat, want: Verdict, w: World, file: File, name: string, steps: seq<Step>)
    decreases d, 2
  {
    w.Resolve(file, name).Some? && DeclHolds(d, want, w, w.Resolve(file, name).value, steps)
  }

  ghost predicate BaseHolds(d: nat, want: Verdict, w: World, file: File, base: Option<string>, steps: seq<Step>)
    decreases d, 3
  {
    base.Some? && NameHolds(d, want, w, file, base.value, steps)
  }

  ghost predicate DeclHolds(d: nat, want: Verdict, w: World, id: DeclId, steps: seq<Step>)
    requires id in w.decls
    decreases d, 1
  {
    var decl := w.decls[id];
    && d > 0
    && if steps == [] then want == Found
       else match decl
         case Enum => false
         case Alias(typ) => Holds(d - 1, want, w, id.0, typ, steps)
         case Interface(members, bases) =>
           && steps[0].Member?
           && match FindProperty(members, steps[0].name)
              case Some(m) => MemberHolds(d - 1, want, w, id.0, m, steps)
              case None =>
                if want == Found then exists i | 0 <= i < |bases| :: BaseHolds(d - 1, want, w, id.0, bases[i], steps)
                else forall i | 0 <= i < |bases| :: BaseHolds(d - 1, want, w, id.0, bases[i], steps)
  }
}
