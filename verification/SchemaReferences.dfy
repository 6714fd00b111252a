/**
 * The references among declarations: where the schema-path walk can go from each of them, and by
 * how many steps the path has grown when it gets there.
 */
module SchemaReferences {
  import opened SchemaPath
  import opened Sorting
  import opened Options

  /** A reference to a declaration; `gain` is the steps added less the steps consumed on the way to it. */
  datatype Ref = Ref(target: DeclId, gain: int)

  function Refs(w: World, file: File, node: TypeNode, gain: int): seq<Ref> {
    match node
    case Literal(members) => MemberRefs(w, file, members, gain - 1)
    case Parenthesized(inner) => Refs(w, file, inner, gain)
    case Intersection(parts) => PartRefs(w, file, parts, gain)
    case Union(parts) => PartRefs(w, file, parts, gain)
    case ArrayOf(element) => Refs(w, file, element, gain - 1)
    case Operator(inner) => Refs(w, file, inner, gain)
    case IndexedAccess(object', index) => if index.Some? then Refs(w, file, object', gain + 1) else []
    case Reference(head, qualified, arguments) =>
      if IsWrapper(node) then Refs(w, file, arguments[0], gain)
      else if IsArray(node) then Refs(w, file, arguments[0], gain - 1)
      else if qualified then [] else NameRefs(w, file, head, gain)
    case OtherType => []
  }

  function PartRefs(w: World, file: File, parts: seq<TypeNode>, gain: int): seq<Ref> {
    if parts == [] then []
    else PartRefs(w, file, parts[..|parts| - 1], gain) + Refs(w, file, parts[|parts| - 1], gain)
  }

  function MemberRefs(w: World, file: File, members: seq<TypeMember>, gain: int): seq<Ref> {
    if members == [] then []
    else MemberRef(w, file, members[0], gain) + MemberRefs(w, file, members[1..], gain)
  }

  function MemberRef(w: World, file: File, m: TypeMember, gain: int): seq<Ref> {
    if m.Property? && m.typ.Some? then Refs(w, file, m.typ.value, gain) else []
  }

  function NameRefs(w: World, file: File, name: string, gain: int): seq<Ref> {
    var target := w.Resolve(file, name);
    if target.Some? then [Ref(target.value, gain)] else []
  }

  function BaseRefs(w: World, file: File, bases: seq<Option<string>>): seq<Ref> {
    if bases == [] then []
    else
      var base := bases[|bases| - 1];
      BaseRefs(w, file, bases[..|bases| - 1]) + if base.Some? then NameRefs(w, file, base.value, 0) else []
  }

  /** All references of a declaration that the walk can follow. */
  function RefsOf(w: World, id: DeclId): seq<Ref>
    requires id in w.decls
  {
    match w.decls[id]
    case Enum => []
    case Alias(typ) => Refs(w, id.0, typ, 0)
    case Interface(members, bases) => MemberRefs(w, id.0, members, -1) + BaseRefs(w, id.0, bases)
  }

  lemma {:induction false} PropertyRefs(w: World, file: File, members: seq<TypeMember>, gain: int, name: string)
    ensures
      var m := FindProperty(members, name);
      m.Some? ==> forall r | r in MemberRef(w, file, m.value, gain) :: r in MemberRefs(w, file, members, gain)
  {
    if members != [] {
      PropertyRefs(w, file, members[1..], gain, name);
    }
  }

  // ----- walks along references

  /** One reference followed. */
  datatype Hop = Hop(from: DeclId, ref: Ref)

  ghost predicate IsHop(w: World, h: Hop) {
    h.from in w.decls && h.ref in RefsOf(w, h.from)
  }

  /** `p` leads from `a` to `b`. */
  ghost predicate Leads(w: World, p: seq<Hop>, a: DeclId, b: DeclId) {
    if p == [] then a == b
    else IsHop(w, p[0]) && p[0].from == a && Leads(w, p[1..], p[0].ref.target, b)
  }

  function Gain(p: seq<Hop>): int {
    if p == [] then 0 else p[0].ref.gain + Gain(p[1..])
  }

  ghost predicate Reaches(w: World, a: DeclId, b: DeclId) {
    exists p :: Leads(w, p, a, b)
  }

  ghost function Reachable(w: World, id: DeclId): set<DeclId> {
    set d | d in w.decls && Reaches(w, id, d)
  }

  /** No cycle of references within `s` adds more steps than it consumes. */
  ghost predicate NoGain(w: World, s: set<DeclId>) {
    forall p: seq<Hop>, a: DeclId {:trigger Leads(w, p, a, a)} | a in s && Leads(w, p, a, a) :: Gain(p) <= 0
  }

  /** The walk cannot leave `s`. */
  ghost predicate Closed(w: World, s: set<DeclId>) {
    forall d | d in s :: d in w.decls && forall r | r in RefsOf(w, d) :: r.target in s
  }

  lemma {:induction false} LeadsOn(w: World, p: seq<Hop>, q: seq<Hop>, a: DeclId, b: DeclId, c: DeclId)
    requires Leads(w, p, a, b) && Leads(w, q, b, c)
    ensures Leads(w, p + q, a, c) && Gain(p + q) == Gain(p) + Gain(q)
  {
    if p == [] {
      assert p + q == q;
    } else {
      var rest := p[1..];
      LeadsOn(w, rest, q, p[0].ref.target, b, c);
      LeadsFrom(w, p[0], rest + q, c);
      ConsConcat(p, q);
    }
  }

  lemma ConsConcat<T>(p: seq<T>, q: seq<T>)
    requires p != []
    ensures p + q == [p[0]] + (p[1..] + q)
  {
  }

  lemma LeadsFrom(w: World, h: Hop, p: seq<Hop>, c: DeclId)
    requires IsHop(w, h) && Leads(w, p, h.ref.target, c)
    ensures Leads(w, [h] + p, h.from, c) && Gain([h] + p) == h.ref.gain + Gain(p)
  {
    assert ([h] + p)[1..] == p;
  }

  lemma {:induction false} TargetsKnown(w: World, file: File, node: TypeNode, gain: int)
    ensures forall r | r in Refs(w, file, node, gain) :: r.target in w.decls
  {
    match node
    case Literal(members) => MemberTargetsKnown(w, file, members, gain - 1);
    case Parenthesized(inner) => TargetsKnown(w, file, inner, gain);
    case Intersection(parts) => PartTargetsKnown(w, file, parts, gain);
    case Union(parts) => PartTargetsKnown(w, file, parts, gain);
    case ArrayOf(element) => TargetsKnown(w, file, element, gain - 1);
    case Operator(inner) => TargetsKnown(w, file, inner, gain);
    case IndexedAccess(object', _) => TargetsKnown(w, file, object', gain + 1);
    case Reference(_, _, arguments) =>
      if arguments != [] {
        TargetsKnown(w, file, arguments[0], gain);
        TargetsKnown(w, file, arguments[0], gain - 1);
      }
    case OtherType =>
  }

  lemma {:induction false} PartTargetsKnown(w: World, file: File, parts: seq<TypeNode>, gain: int)
    ensures forall r | r in PartRefs(w, file, parts, gain) :: r.target in w.decls
  {
    if parts != [] {
      PartTargetsKnown(w, file, parts[..|parts| - 1], gain);
      TargetsKnown(w, file, parts[|parts| - 1], gain);
    }
  }

  lemma {:induction false} MemberTargetsKnown(w: World, file: File, members: seq<TypeMember>, gain: int)
    ensures forall r | r in MemberRefs(w, file, members, gain) :: r.target in w.decls
  {
    if members != [] {
      if members[0].Property? && members[0].typ.Some? {
        TargetsKnown(w, file, members[0].typ.value, gain);
      }
      MemberTargetsKnown(w, file, members[1..], gain);
    }
  }

  lemma {:induction false} BaseTargetsKnown(w: World, file: File, bases: seq<Option<string>>)
    ensures forall r | r in BaseRefs(w, file, bases) :: r.target in w.decls
  {
    if bases != [] {
      BaseTargetsKnown(w, file, bases[..|bases| - 1]);
    }
  }

  /** Only declarations of the world are ever referred to. */
  lemma RefsKnown(w: World, id: DeclId)
    requires id in w.decls
    ensures forall r | r in RefsOf(w, id) :: r.target in w.decls
  {
    match w.decls[id]
    case Enum =>
    case Alias(typ) => TargetsKnown(w, id.0, typ, 0);
    case Interface(members, bases) =>
      MemberTargetsKnown(w, id.0, members, -1);
      BaseTargetsKnown(w, id.0, bases);
  }

  lemma HopLeads(w: World, h: Hop)
    requires IsHop(w, h)
    ensures Leads(w, [h], h.from, h.ref.target) && Gain([h]) == h.ref.gain
  {
    assert [h][1..] == [];
  }

  lemma ReachableClosed(w: World, id: DeclId)
    requires id in w.decls
    ensures id in Reachable(w, id) && Closed(w, Reachable(w, id))
  {
    assert Leads(w, [], id, id);
    forall d, r | d in Reachable(w, id) && r in RefsOf(w, d) ensures r.target in Reachable(w, id) {
      RefsKnown(w, d);
      var p :| Leads(w, p, id, d);
      HopLeads(w, Hop(d, r));
      LeadsOn(w, p, [Hop(d, r)], id, d, r.target);
    }
  }

  // ----- a bound on what the walk can still add, when no cycle adds steps

  /** The most that at most `k` references from `d` can add. */
  ghost function Best(w: World, k: nat, d: DeclId): (n: nat)
    decreases k, 1, 0
  {
    if k == 0 || d !in w.decls then 0 else BestOf(w, k - 1, RefsOf(w, d))
  }

  ghost function BestOf(w: World, k: nat, refs: seq<Ref>): (n: nat)
    decreases k, 2, |refs|
  {
    if refs == [] then 0
    else
      var rest, here := BestOf(w, k, refs[1..]), refs[0].gain + Best(w, k, refs[0].target);
      if rest < here then here else rest
  }

  lemma {:induction false} BestOfBounds(w: World, k: nat, refs: seq<Ref>, r: Ref)
    requires r in refs
    ensures r.gain + Best(w, k, r.target) <= BestOf(w, k, refs)
  {
    if r != refs[0] {
      BestOfBounds(w, k, refs[1..], r);
    }
  }

  lemma {:induction false} BestOfTaken(w: World, k: nat, refs: seq<Ref>) returns (r: Ref)
    requires BestOf(w, k, refs) > 0
    ensures r in refs && BestOf(w, k, refs) == r.gain + Best(w, k, r.target)
  {
    if BestOf(w, k, refs) == BestOf(w, k, refs[1..]) {
      r := BestOfTaken(w, k, refs[1..]);
    } else {
      r := refs[0];
    }
  }

  lemma {:induction false} BestBounds(w: World, k: nat, p: seq<Hop>, a: DeclId, b: DeclId)
    requires Leads(w, p, a, b) && |p| <= k
    ensures Gain(p) <= Best(w, k, a)
  {
    if p != [] {
      BestBounds(w, k - 1, p[1..], p[0].ref.target, b);
      BestOfBounds(w, k - 1, RefsOf(w, a), p[0].ref);
    }
  }

  lemma {:induction false} BestTaken(w: World, k: nat, a: DeclId) returns (p: seq<Hop>, b: DeclId)
    ensures Leads(w, p, a, b) && |p| <= k && Gain(p) == Best(w, k, a)
  {
    p, b := [], a;
    if Best(w, k, a) > 0 {
      var r := BestOfTaken(w, k - 1, RefsOf(w, a));
      p, b := BestTaken(w, k - 1, r.target);
      p := [Hop(a, r)] + p;
      assert p[1..] == p[1..];
    }
  }

  /** Where the walk stands before hop `i`. */
  function Stop(p: seq<Hop>, b: DeclId, i: nat): DeclId
    requires i <= |p|
  {
    if i == |p| then b else p[i].from
  }

  lemma {:induction false} LeadsSplit(w: World, p: seq<Hop>, a: DeclId, b: DeclId, i: nat)
    requires Leads(w, p, a, b) && i <= |p|
    ensures Leads(w, p[..i], a, Stop(p, b, i)) && Leads(w, p[i..], Stop(p, b, i), b)
    ensures Gain(p) == Gain(p[..i]) + Gain(p[i..])
  {
    if i == 0 {
      assert p[..0] == [] && p[0..] == p;
    } else {
      LeadsSplit(w, p[1..], p[0].ref.target, b, i - 1);
      assert p[1..][..i - 1] == p[..i][1..] && p[1..][i - 1..] == p[i..];
      assert Stop(p[1..], b, i - 1) == Stop(p, b, i);
    }
  }

  lemma {:induction false} LeadsStays(w: World, s: set<DeclId>, p: seq<Hop>, a: DeclId, b: DeclId, i: nat)
    requires Closed(w, s) && a in s && Leads(w, p, a, b) && i <= |p|
    ensures Stop(p, b, i) in s
  {
    if i > 0 {
      LeadsStays(w, s, p[1..], p[0].ref.target, b, i - 1);
      assert Stop(p[1..], b, i - 1) == Stop(p, b, i);
    }
  }

  /** A walk of as many hops as there are declarations comes by one of them twice. */
  lemma Revisits(w: World, s: set<DeclId>, p: seq<Hop>, a: DeclId, b: DeclId) returns (i: nat, j: nat)
    requires Closed(w, s) && a in s && Leads(w, p, a, b) && |p| >= |s|
    ensures i < j <= |p| && Stop(p, b, i) == Stop(p, b, j)
  {
    var stops := seq(|p| + 1, k requires 0 <= k <= |p| => Stop(p, b, k));
    forall d | d in Members(stops) ensures d in s {
      var k :| 0 <= k < |stops| && stops[k] == d;
      LeadsStays(w, s, p, a, b, k);
    }
    SubsetSize(Members(stops), s);
    if NoDup(stops) {
      NoDupMembers(stops);
    }
    i, j :| 0 <= i < j < |stops| && stops[i] == stops[j];
  }

  /** Without gaining cycles, a walk with a revisit gains no more than one that leaves the detour out. */
  lemma SkipDetour(w: World, s: set<DeclId>, p: seq<Hop>, a: DeclId, b: DeclId, i: nat, j: nat) returns (q: seq<Hop>)
    requires Closed(w, s) && NoGain(w, s) && a in s && Leads(w, p, a, b)
    requires i < j <= |p| && Stop(p, b, i) == Stop(p, b, j)
    ensures Leads(w, q, a, b) && |q| < |p| && Gain(p) <= Gain(q)
  {
    var x, rest := Stop(p, b, i), p[i..];
    LeadsStays(w, s, p, a, b, i);
    LeadsSplit(w, p, a, b, i);
    assert Stop(rest, b, j - i) == Stop(p, b, j);
    LeadsSplit(w, rest, x, b, j - i);
    assert Leads(w, rest[..j - i], x, x);
    q := p[..i] + rest[j - i..];
    LeadsOn(w, p[..i], rest[j - i..], a, x, b);
  }

  /** So more hops than there are declarations add nothing more. */
  lemma BestSettles(w: World, s: set<DeclId>, a: DeclId)
    requires Closed(w, s) && NoGain(w, s) && a in s
    ensures Best(w, |s|, a) <= Best(w, |s| - 1, a)
  {
    var p, b := BestTaken(w, |s|, a);
    if |p| < |s| {
      BestBounds(w, |s| - 1, p, a, b);
    } else {
      var i, j := Revisits(w, s, p, a, b);
      var q := SkipDetour(w, s, p, a, b, i, j);
      BestBounds(w, |s| - 1, q, a, b);
    }
  }

  /** A potential pays for every step that references add. */
  ghost predicate Pays(w: World, s: set<DeclId>, pot: map<DeclId, nat>) {
    forall d | d in s ::
      d in w.decls && d in pot && forall r | r in RefsOf(w, d) ::
          r.target in s && r.target in pot && r.gain + pot[r.target] <= pot[d]
  }

  /** When no cycle adds more steps than it consumes, what can still be added is bounded at every declaration. */
  lemma PotentialExists(w: World, s: set<DeclId>) returns (pot: map<DeclId, nat>)
    requires Closed(w, s) && NoGain(w, s)
    ensures Pays(w, s, pot)
  {
    pot := map d | d in s :: Best(w, |s| - 1, d);
    forall d, r | d in s && r in RefsOf(w, d) ensures r.gain + pot[r.target] <= pot[d] {
      BestOfBounds(w, |s| - 1, RefsOf(w, d), r);
      BestSettles(w, s, d);
    }
  }

  lemma {:induction false} PotentialBounds(w: World, s: set<DeclId>, pot: map<DeclId, nat>, p: seq<Hop>,
                                           a: DeclId, b: DeclId)
    requires Pays(w, s, pot) && a in s && Leads(w, p, a, b)
    ensures b in s && b in pot && Gain(p) + pot[b] <= pot[a]
  {
    if p != [] {
      PotentialBounds(w, s, pot, p[1..], p[0].ref.target, b);
    }
  }

  /** A potential exists exactly when no cycle of references adds more steps than it consumes. */
  lemma PotentialIff(w: World, s: set<DeclId>)
    requires Closed(w, s)
    ensures NoGain(w, s) <==> exists pot :: Pays(w, s, pot)
  {
    if NoGain(w, s) {
      var pot := PotentialExists(w, s);
    }
    if pot :| Pays(w, s, pot) {
      forall p: seq<Hop>, a: DeclId {:trigger Leads(w, p, a, a)} | a in s && Leads(w, p, a, a) ensures Gain(p) <= 0 {
        PotentialBounds(w, s, pot, p, a, a);
      }
    }
  }

  // ----- conditions under which no cycle gains

  lemma {:induction false} GainfulHop(p: seq<Hop>) returns (i: nat)
    requires Gain(p) > 0
    ensures i < |p| && p[i].ref.gain > 0
  {
    if p[0].ref.gain > 0 {
      i := 0;
    } else {
      i := GainfulHop(p[1..]);
      i := i + 1;
    }
  }

  /** No declaration reaches itself through a reference that adds steps. */
  ghost predicate NoSelfGain(w: World, s: set<DeclId>) {
    forall d, r | d in s && d in w.decls && r in RefsOf(w, d) && r.gain > 0 :: !Reaches(w, r.target, d)
  }

  lemma CycleReaches(w: World, p: seq<Hop>, a: DeclId, i: nat)
    requires Leads(w, p, a, a) && i < |p|
    ensures Reaches(w, p[i].ref.target, p[i].from)
  {
    LeadsSplit(w, p, a, a, i);
    var rest := p[i..][1..];
    assert p[i..][0] == p[i] && Leads(w, rest, p[i].ref.target, a);
    LeadsOn(w, rest, p[..i], p[i].ref.target, a, p[i].from);
  }

  /** Then no cycle adds steps, however many literal indexed accesses there are elsewhere. */
  lemma NoSelfGainNoGain(w: World, s: set<DeclId>)
    requires Closed(w, s) && NoSelfGain(w, s)
    ensures NoGain(w, s)
  {
    forall p: seq<Hop>, a: DeclId {:trigger Leads(w, p, a, a)} | a in s && Leads(w, p, a, a) ensures Gain(p) <= 0 {
      if Gain(p) > 0 {
        var i := GainfulHop(p);
        LeadsStays(w, s, p, a, a, i);
        LeadsSplit(w, p, a, a, i);
        CycleReaches(w, p, a, i);
      }
    }
  }
}
