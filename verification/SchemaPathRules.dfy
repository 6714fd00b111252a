/** The walk and the derivations by kind of declaration, told by the declared members, bases and names alone. */
module SchemaPathRules {
  import opened Options
  import opened SchemaPath

  /** Some declared property has the name. */
  predicate Declares(members: seq<TypeMember>, name: string) {
    exists k | 0 <= k < |members| :: members[k].Property? && members[k].name == name
  }

  /** Member `k` is the first property of that name. */
  predicate FirstNamed(members: seq<TypeMember>, name: string, k: nat) {
    && k < |members| && members[k].Property? && members[k].name == name
    && forall j | 0 <= j < k && members[j].Property? :: members[j].name != name
  }

  lemma {:induction false} FindMeans(members: seq<TypeMember>, name: string)
    ensures FindProperty(members, name).Some? <==> Declares(members, name)
    ensures forall k: nat | FirstNamed(members, name, k) :: FindProperty(members, name) == Some(members[k])
  {
    if members != [] {
      var rest := members[1..];
      FindMeans(rest, name);
      assert members == [members[0]] + rest;
      forall k: nat | FirstNamed(members, name, k) ensures FindProperty(members, name) == Some(members[k]) {
        if k > 0 {
          assert forall j | 0 <= j < |rest| :: rest[j] == members[j + 1];
          assert FirstNamed(rest, name, k - 1);
        }
      }
      if Declares(rest, name) {
        var k :| 0 <= k < |rest| && rest[k].Property? && rest[k].name == name;
        assert members[k + 1] == rest[k];
      }
    }
  }

  /** A property that is declared at all is declared a first time. */
  lemma {:induction false} FirstExists(members: seq<TypeMember>, name: string) returns (k: nat)
    requires Declares(members, name)
    ensures FirstNamed(members, name, k)
  {
    if members[0].Property? && members[0].name == name {
      k := 0;
    } else {
      var j :| 0 <= j < |members| && members[j].Property? && members[j].name == name;
      assert members[1..][j - 1] == members[j];
      var rest := FirstExists(members[1..], name);
      k := rest + 1;
    }
  }

  /** A literal declares a name exactly when the path of that name is found, and else it is missing. */
  lemma LiteralName(fuel: nat, w: World, file: File, members: seq<TypeMember>, name: string, seen: set<Key>)
    requires fuel > 0
    ensures Lookup(fuel, w, file, Literal(members), [Member(name)], seen)
         == Outcome(Some(if Declares(members, name) then Found else Missing), seen)
  {
    FindMeans(members, name);
  }

  /** A longer path goes on in the type of the first property of the name, or is undecided where it has no type. */
  lemma LiteralPath(fuel: nat, w: World, file: File, members: seq<TypeMember>, name: string, rest: seq<Step>,
                    seen: set<Key>, k: nat)
    requires fuel > 0 && rest != [] && FirstNamed(members, name, k)
    ensures Lookup(fuel, w, file, Literal(members), [Member(name)] + rest, seen)
         == if members[k].typ.None? then Outcome(Some(Unknown), seen)
            else Lookup(fuel - 1, w, file, members[k].typ.value, rest, seen)
  {
    FindMeans(members, name);
    assert ([Member(name)] + rest)[1..] == rest;
  }

  lemma LiteralLacks(fuel: nat, w: World, file: File, members: seq<TypeMember>, name: string, rest: seq<Step>,
                     seen: set<Key>)
    requires fuel > 0 && !Declares(members, name)
    ensures Lookup(fuel, w, file, Literal(members), [Member(name)] + rest, seen) == Outcome(Some(Missing), seen)
  {
    FindMeans(members, name);
  }

  /** The same for the declared members of an interface, which its bases have no say in. */
  lemma InterfaceDeclares(fuel: nat, w: World, id: DeclId, members: seq<TypeMember>, bases: seq<Option<string>>,
                          name: string, rest: seq<Step>, seen: set<Key>, k: nat)
    requires fuel > 0 && id in w.decls && w.decls[id] == Interface(members, bases) && FirstNamed(members, name, k)
    requires (id, 1 + |rest|) !in seen
    ensures
      LookupDecl(fuel, w, id, [Member(name)] + rest, seen) ==
      (var guard := seen + {(id, 1 + |rest|)};
       if rest == [] then Outcome(Some(Found), guard)
       else if members[k].typ.None? then Outcome(Some(Unknown), guard)
       else Lookup(fuel - 1, w, id.0, members[k].typ.value, rest, guard))
  {
    FindMeans(members, name);
    assert ([Member(name)] + rest)[1..] == rest;
  }

  /** What asking a base answers: undecided where it names no known declaration. */
  ghost predicate AsksBase(fuel: nat, w: World, file: File, base: Option<string>, steps: seq<Step>,
                           guard: set<Key>, verdict: Verdict, after: set<Key>) {
    if base.Some? && (file, base.value) in w.names && w.names[(file, base.value)] in w.decls then
      LookupDecl(fuel, w, w.names[(file, base.value)], steps, guard) == Outcome(Some(verdict), after)
    else verdict == Unknown && after == guard
  }

  /** One base is asked after the other. */
  ghost predicate AsksBases(fuel: nat, w: World, file: File, bases: seq<Option<string>>, steps: seq<Step>,
                            guards: seq<set<Key>>, verdicts: seq<Verdict>) {
    && |verdicts| == |bases| && |guards| == |bases| + 1
    && forall i | 0 <= i < |bases| ::
         AsksBase(fuel, w, file, bases[i], steps, guards[i], verdicts[i], guards[i + 1])
  }

  lemma AsksOneMore(fuel: nat, w: World, file: File, bases: seq<Option<string>>, steps: seq<Step>,
                    guards: seq<set<Key>>, verdicts: seq<Verdict>, last: set<Key>)
    requires bases != [] && |verdicts| == |bases|
    requires AsksBases(fuel, w, file, bases[..|bases| - 1], steps, guards, verdicts[..|bases| - 1])
    requires AsksBase(fuel, w, file, bases[|bases| - 1], steps, guards[|bases| - 1], verdicts[|bases| - 1], last)
    ensures AsksBases(fuel, w, file, bases, steps, guards + [last], verdicts)
  {
    var n, all := |bases| - 1, guards + [last];
    forall i | 0 <= i < |bases| ensures AsksBase(fuel, w, file, bases[i], steps, all[i], verdicts[i], all[i + 1]) {
      if i < n {
        assert bases[..n][i] == bases[i] && verdicts[..n][i] == verdicts[i];
      }
    }
  }

  lemma {:induction false} BasesAsked(fuel: nat, w: World, file: File, bases: seq<Option<string>>, steps: seq<Step>,
                                      seen: set<Key>) returns (guards: seq<set<Key>>)
    requires LookupBases(fuel, w, file, bases, steps, seen).verdicts.Some?
    ensures var r := LookupBases(fuel, w, file, bases, steps, seen);
            && AsksBases(fuel, w, file, bases, steps, guards, r.verdicts.value)
            && guards[0] == seen && guards[|bases|] == r.seen
  {
    if bases == [] {
      guards := [seen];
    } else {
      var n := |bases| - 1;
      var init := BasesAsked(fuel, w, file, bases[..n], steps, seen);
      var r := LookupBases(fuel, w, file, bases, steps, seen);
      guards := init + [r.seen];
      AsksOneMore(fuel, w, file, bases, steps, init, r.verdicts.value, r.seen);
    }
  }

  /**
   * An interface without a property of the name asks its bases: one that has the path is enough, one that is
   * undecided leaves it open, and otherwise, or with no base, the path is missing.
   */
  lemma InterfaceLacks(fuel: nat, w: World, id: DeclId, members: seq<TypeMember>, bases: seq<Option<string>>,
                       name: string, rest: seq<Step>, seen: set<Key>)
    returns (guards: seq<set<Key>>, verdicts: seq<Verdict>)
    requires fuel > 0 && id in w.decls && w.decls[id] == Interface(members, bases) && !Declares(members, name)
    requires (id, 1 + |rest|) !in seen
    requires LookupDecl(fuel, w, id, [Member(name)] + rest, seen).verdict.Some?
    ensures var r := LookupDecl(fuel, w, id, [Member(name)] + rest, seen);
            && AsksBases(fuel - 1, w, id.0, bases, [Member(name)] + rest, guards, verdicts)
            && guards[0] == seen + {(id, 1 + |rest|)} && guards[|bases|] == r.seen
            && (r.verdict.value == Found <==> exists i :: 0 <= i < |bases| && verdicts[i] == Found)
            && (r.verdict.value == Missing <==> forall i :: 0 <= i < |bases| ==> verdicts[i] == Missing)
  {
    FindMeans(members, name);
    var steps, guard := [Member(name)] + rest, seen + {(id, 1 + |rest|)};
    guards := BasesAsked(fuel - 1, w, id.0, bases, steps, guard);
    verdicts := LookupBases(fuel - 1, w, id.0, bases, steps, guard).verdicts.value;
    CombineMeans(verdicts);
  }

  lemma CombineMeans(verdicts: seq<Verdict>)
    ensures Combine(verdicts) == Found <==> exists i :: 0 <= i < |verdicts| && verdicts[i] == Found
    ensures Combine(verdicts) == Missing <==> forall i :: 0 <= i < |verdicts| ==> verdicts[i] == Missing
  {
    if Found in verdicts {
      var i :| 0 <= i < |verdicts| && verdicts[i] == Found;
    } else if Unknown in verdicts {
      var i :| 0 <= i < |verdicts| && verdicts[i] == Unknown;
    }
  }

  // ----- parts

  /** One part is asked after the other. */
  ghost predicate AsksParts(fuel: nat, w: World, file: File, parts: seq<TypeNode>, steps: seq<Step>,
                            guards: seq<set<Key>>, verdicts: seq<Verdict>) {
    && |verdicts| == |parts| && |guards| == |parts| + 1
    && forall i | 0 <= i < |parts| ::
         Lookup(fuel, w, file, parts[i], steps, guards[i]) == Outcome(Some(verdicts[i]), guards[i + 1])
  }

  lemma {:induction false} PartsAsked(fuel: nat, w: World, file: File, parts: seq<TypeNode>, steps: seq<Step>,
                                      seen: set<Key>) returns (guards: seq<set<Key>>)
    requires LookupAll(fuel, w, file, parts, steps, seen).verdicts.Some?
    ensures var r := LookupAll(fuel, w, file, parts, steps, seen);
            && AsksParts(fuel, w, file, parts, steps, guards, r.verdicts.value)
            && guards[0] == seen && guards[|parts|] == r.seen
    decreases |parts|
  {
    if parts == [] {
      guards := [seen];
    } else {
      var n, r := |parts| - 1, LookupAll(fuel, w, file, parts, steps, seen);
      var init := PartsAsked(fuel, w, file, parts[..n], steps, seen);
      guards := init + [r.seen];
      forall i | 0 <= i < |parts|
        ensures Lookup(fuel, w, file, parts[i], steps, guards[i])
             == Outcome(Some(r.verdicts.value[i]), guards[i + 1])
      {
        if i < n {
          assert parts[..n][i] == parts[i];
        }
      }
    }
  }

  /** One part of an intersection that has the path is enough, and it is missing when every part lacks it. */
  lemma IntersectionAsks(fuel: nat, w: World, file: File, parts: seq<TypeNode>, steps: seq<Step>, seen: set<Key>)
    returns (guards: seq<set<Key>>, verdicts: seq<Verdict>)
    requires fuel > 0 && steps != [] && Lookup(fuel, w, file, Intersection(parts), steps, seen).verdict.Some?
    ensures var r := Lookup(fuel, w, file, Intersection(parts), steps, seen);
            && AsksParts(fuel - 1, w, file, parts, steps, guards, verdicts)
            && guards[0] == seen && guards[|parts|] == r.seen
            && (r.verdict.value == Found <==> exists i :: 0 <= i < |parts| && verdicts[i] == Found)
            && (r.verdict.value == Missing <==> forall i :: 0 <= i < |parts| ==> verdicts[i] == Missing)
  {
    guards := PartsAsked(fuel - 1, w, file, parts, steps, seen);
    verdicts := LookupAll(fuel - 1, w, file, parts, steps, seen).verdicts.value;
    CombineMeans(verdicts);
  }

  lemma AgreeMeans(verdicts: seq<Verdict>)
    ensures Agree(verdicts) == Found <==> forall i :: 0 <= i < |verdicts| ==> verdicts[i] == Found
    ensures Agree(verdicts) == Missing
       <==> verdicts != [] && forall i :: 0 <= i < |verdicts| ==> verdicts[i] == Missing
  {
    if verdicts != [] {
      assert verdicts[0] in verdicts;
    }
    assert forall i | 0 <= i < |verdicts| :: verdicts[i] in verdicts;
  }

  /** The branches of a union speak with one voice, or leave the path open. */
  lemma UnionAsks(fuel: nat, w: World, file: File, parts: seq<TypeNode>, steps: seq<Step>, seen: set<Key>)
    returns (guards: seq<set<Key>>, verdicts: seq<Verdict>)
    requires fuel > 0 && steps != [] && Lookup(fuel, w, file, Union(parts), steps, seen).verdict.Some?
    ensures var r := Lookup(fuel, w, file, Union(parts), steps, seen);
            && AsksParts(fuel - 1, w, file, parts, steps, guards, verdicts)
            && guards[0] == seen && guards[|parts|] == r.seen
            && (r.verdict.value == Found <==> forall i :: 0 <= i < |parts| ==> verdicts[i] == Found)
            && (r.verdict.value == Missing
                <==> parts != [] && forall i :: 0 <= i < |parts| ==> verdicts[i] == Missing)
  {
    guards := PartsAsked(fuel - 1, w, file, parts, steps, seen);
    verdicts := LookupAll(fuel - 1, w, file, parts, steps, seen).verdicts.value;
    AgreeMeans(verdicts);
  }

  // ----- references

  /** A name whose first argument is asked in its place. */
  predicate PassesOn(head: string) {
    head == "Partial" || head == "Required" || head == "Readonly" || head == "NonNullable"
  }

  lemma WrapperPasses(fuel: nat, w: World, file: File, head: string, qualified: bool, arguments: seq<TypeNode>,
                      steps: seq<Step>, seen: set<Key>)
    requires fuel > 0 && steps != [] && PassesOn(head) && arguments != []
    ensures Lookup(fuel, w, file, Reference(head, qualified, arguments), steps, seen)
         == Lookup(fuel - 1, w, file, arguments[0], steps, seen)
  {
    WrapperMeans(Reference(head, qualified, arguments));
  }

  lemma WrapperMeans(node: TypeNode)
    requires node.Reference?
    ensures IsWrapper(node) <==> PassesOn(node.head) && node.arguments != []
  {
  }

  lemma ArrayMeans(node: TypeNode)
    requires node.Reference?
    ensures IsArray(node) <==> (node.head == "Array" || node.head == "ReadonlyArray") && node.arguments != []
  {
  }

  lemma NoOverlap(node: TypeNode)
    requires node.Reference? && (node.head == "Array" || node.head == "ReadonlyArray")
    ensures !PassesOn(node.head)
  {
    assert node.head[0] == 'A' || |node.head| == 13;
    assert |"NonNullable"| == 11;
  }

  /** An array's argument is asked for what follows the element step, and no other step lands on it. */
  lemma ArrayPasses(fuel: nat, w: World, file: File, head: string, qualified: bool, arguments: seq<TypeNode>,
                    steps: seq<Step>, seen: set<Key>)
    requires fuel > 0 && steps != [] && (head == "Array" || head == "ReadonlyArray") && arguments != []
    ensures Lookup(fuel, w, file, Reference(head, qualified, arguments), steps, seen)
         == if steps[0] == Element then Lookup(fuel - 1, w, file, arguments[0], steps[1..], seen)
            else Outcome(Some(Unknown), seen)
  {
    var node := Reference(head, qualified, arguments);
    NoOverlap(node);
    WrapperMeans(node);
    ArrayMeans(node);
  }

  /** Any other name is looked up in the file; a qualified or unresolved one is undecided. */
  lemma NameResolves(fuel: nat, w: World, file: File, head: string, qualified: bool, arguments: seq<TypeNode>,
                     steps: seq<Step>, seen: set<Key>)
    requires fuel > 0 && steps != []
    requires arguments == [] || (!PassesOn(head) && head != "Array" && head != "ReadonlyArray")
    ensures Lookup(fuel, w, file, Reference(head, qualified, arguments), steps, seen)
         == if !qualified && (file, head) in w.names && w.names[(file, head)] in w.decls then
              LookupDecl(fuel - 1, w, w.names[(file, head)], steps, seen)
            else Outcome(Some(Unknown), seen)
  {
    var node := Reference(head, qualified, arguments);
    WrapperMeans(node);
    ArrayMeans(node);
  }

  /** The guard stops at a repeated key; an alias is asked in its own file, with the key remembered. */
  lemma AliasPasses(fuel: nat, w: World, id: DeclId, typ: TypeNode, steps: seq<Step>, seen: set<Key>)
    requires fuel > 0 && steps != [] && id in w.decls && w.decls[id] == Alias(typ)
    ensures LookupDecl(fuel, w, id, steps, seen)
         == if (id, |steps|) in seen then Outcome(Some(Unknown), seen)
            else Lookup(fuel - 1, w, id.0, typ, steps, seen + {(id, |steps|)})
  {
  }

  // ----- derivations

  /** Presence and absence in a literal are what its declared properties say. */
  lemma LiteralDerives(d: nat, w: World, file: File, members: seq<TypeMember>, name: string)
    requires d > 0
    ensures Holds(d, Found, w, file, Literal(members), [Member(name)]) <==> Declares(members, name)
    ensures Holds(d, Missing, w, file, Literal(members), [Member(name)]) <==> !Declares(members, name)
  {
    FindMeans(members, name);
  }

  lemma LiteralDerivesPath(d: nat, want: Verdict, w: World, file: File, members: seq<TypeMember>, name: string,
                           rest: seq<Step>, k: nat)
    requires rest != [] && FirstNamed(members, name, k)
    ensures Holds(d, want, w, file, Literal(members), [Member(name)] + rest)
       <==> d > 0 && members[k].typ.Some? && Holds(d - 1, want, w, file, members[k].typ.value, rest)
  {
    FindMeans(members, name);
    assert ([Member(name)] + rest)[1..] == rest;
  }

  lemma InterfaceDerivesPath(d: nat, want: Verdict, w: World, id: DeclId, members: seq<TypeMember>,
                             bases: seq<Option<string>>, name: string, rest: seq<Step>, k: nat)
    requires id in w.decls && w.decls[id] == Interface(members, bases) && FirstNamed(members, name, k)
    ensures DeclHolds(d, want, w, id, [Member(name)] + rest)
       <==> d > 0 && if rest == [] then want == Found
                     else members[k].typ.Some? && Holds(d - 1, want, w, id.0, members[k].typ.value, rest)
  {
    FindMeans(members, name);
    assert ([Member(name)] + rest)[1..] == rest;
  }

  /** Without a property of the name, presence needs one base and absence all of them. */
  lemma InterfaceDerivesFromBases(d: nat, w: World, id: DeclId, members: seq<TypeMember>,
                                  bases: seq<Option<string>>, name: string, rest: seq<Step>)
    requires d > 0 && id in w.decls && w.decls[id] == Interface(members, bases) && !Declares(members, name)
    ensures var steps := [Member(name)] + rest;
            && (DeclHolds(d, Found, w, id, steps) <==>
                exists i | 0 <= i < |bases| :: BaseDerives(d - 1, Found, w, id.0, bases[i], steps))
            && (DeclHolds(d, Missing, w, id, steps) <==>
                forall i | 0 <= i < |bases| :: BaseDerives(d - 1, Missing, w, id.0, bases[i], steps))
  {
    FindMeans(members, name);
    var steps := [Member(name)] + rest;
    forall i | 0 <= i < |bases|
      ensures BaseDerives(d - 1, Found, w, id.0, bases[i], steps) == BaseHolds(d - 1, Found, w, id.0, bases[i], steps)
      ensures BaseDerives(d - 1, Missing, w, id.0, bases[i], steps)
           == BaseHolds(d - 1, Missing, w, id.0, bases[i], steps)
    {
    }
  }

  ghost predicate BaseDerives(d: nat, want: Verdict, w: World, file: File, base: Option<string>, steps: seq<Step>) {
    && base.Some? && (file, base.value) in w.names && w.names[(file, base.value)] in w.decls
    && DeclHolds(d, want, w, w.names[(file, base.value)], steps)
  }
}
