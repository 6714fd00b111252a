/**
 * The worklist that gathers a config type's package-local declarations and the references
 * they leave to other packages, refusing any name that would be ambiguous in one listing.
 */
module TypeClosure {

  type File = string
  type Name = string

  /** Where a declaration starts: file and line. */
  type Pointer = (File, nat)

  datatype TypeRef = TypeRef(imported: string, specifier: string)

  /** What a type name means in a file. */
  datatype Resolution = Unresolved | Imported(ref: TypeRef) | Local(at: Pointer)

  /** A declaration's file, the type names it mentions, and whether all its members carry prose. */
  datatype Declaration = Declaration(file: File, mentions: seq<Name>, documented: bool)

  datatype World = World(
    names: map<(Name, File), Resolution>,
    decls: map<(Name, Pointer), Declaration>,
    globals: set<Name>)
  {
    function Resolve(x: Use): (r: Resolution)
      ensures r.Local? ==> (x.0, r.at) in decls
      ensures !r.Unresolved? ==> x in names
    {
      if x in names && (names[x].Local? ==> (x.0, names[x].at) in decls) then names[x] else Unresolved
    }
  }

  /** A name as used in a file. */
  type Use = (Name, File)

  datatype Violation =
    | NotFound(use: Use)
    | ConfigTypeImported(ref: TypeRef)
    | LocalThenImported(name: Name)
    | TwoImports(name: Name)
    | TwoDeclarations(name: Name)
    | ImportedThenLocal(name: Name)
    | Undocumented(name: Name)

  /** `y` is a name that the declaration behind `x` mentions, as used in that declaration's file. */
  predicate Mentions(w: World, x: Use, y: Use) {
    var r := w.Resolve(x);
    r.Local? && MentionedBy(w, x.0, r.at, y)
  }

  predicate MentionedBy(w: World, name: Name, at: Pointer, y: Use) {
    && (name, at) in w.decls
    && y.1 == w.decls[(name, at)].file
    && y.0 in w.decls[(name, at)].mentions
    && y.0 !in w.globals
  }

  ghost predicate ClosedUnder(w: World, s: set<Use>) {
    forall x, y {:trigger Mentions(w, x, y)} | x in s && Mentions(w, x, y) :: y in s
  }

  /** `x` belongs to the closure of `start`: it is in every closed set that holds `start`. */
  ghost predicate Reached(w: World, start: Use, x: Use) {
    forall s {:trigger ClosedUnder(w, s)} | ClosedUnder(w, s) && start in s :: x in s
  }

  /**
   * The closure can be listed in one namespace: every use resolves, all uses of a name resolve
   * alike, the config type itself is local, and every declaration is documented.
   */
  ghost predicate Listable(w: World, start: Use) {
    && (forall x | Reached(w, start, x) :: Clear(w, start, x))
    && (forall x, y | Reached(w, start, x) && Reached(w, start, y) && x.0 == y.0 :: w.Resolve(x) == w.Resolve(y))
  }

  predicate Clear(w: World, start: Use, x: Use) {
    match w.Resolve(x)
    case Unresolved => false
    case Imported(_) => x.0 != start.0
    case Local(at) => w.decls[(x.0, at)].documented
  }

  lemma StartReached(w: World, start: Use)
    ensures Reached(w, start, start)
  {
  }

  lemma MentionReached(w: World, start: Use, x: Use, y: Use)
    requires Reached(w, start, x) && Mentions(w, x, y)
    ensures Reached(w, start, y)
  {
  }

  /** The names whose meaning is settled, and what they are. */
  datatype Tables = Tables(pasted: map<Name, Pointer>, refs: map<Name, TypeRef>)

  /** The tables record what `x` resolves to. */
  predicate Records(w: World, t: Tables, x: Use) {
    match w.Resolve(x)
    case Unresolved => false
    case Imported(ref) => x.0 in t.refs && t.refs[x.0] == ref
    case Local(at) => x.0 in t.pasted && t.pasted[x.0] == at
  }

  /** Every entry stems from a reached use; no name is both pasted and referenced. */
  ghost predicate Justified(w: World, start: Use, t: Tables) {
    && (forall n | n in t.pasted :: WitnessLocal(w, start, n, t.pasted[n]))
    && (forall n | n in t.refs :: WitnessImport(w, start, n, t.refs[n]))
    && t.pasted.Keys !! t.refs.Keys
    && start.0 !in t.refs
  }

  ghost predicate WitnessLocal(w: World, start: Use, n: Name, at: Pointer) {
    exists f :: Reached(w, start, (n, f)) && w.Resolve((n, f)) == Local(at)
  }

  ghost predicate WitnessImport(w: World, start: Use, n: Name, ref: TypeRef) {
    exists f :: Reached(w, start, (n, f)) && w.Resolve((n, f)) == Imported(ref)
  }

  /** What a violation says is so, of uses that belong to the closure. */
  ghost predicate Warranted(w: World, start: Use, v: Violation) {
    match v
    case NotFound(x) => Reached(w, start, x) && w.Resolve(x).Unresolved?
    case ConfigTypeImported(ref) => WitnessImport(w, start, start.0, ref)
    case LocalThenImported(n) => BothWays(w, start, n)
    case ImportedThenLocal(n) => BothWays(w, start, n)
    case TwoImports(n) => exists a, b :: a != b && WitnessImport(w, start, n, a) && WitnessImport(w, start, n, b)
    case TwoDeclarations(n) => exists a, b :: a != b && WitnessLocal(w, start, n, a) && WitnessLocal(w, start, n, b)
    case Undocumented(n) =>
      exists at :: WitnessLocal(w, start, n, at) && (n, at) in w.decls && !w.decls[(n, at)].documented
  }

  /** One use of the name is a declaration of the package, another one an import. */
  ghost predicate BothWays(w: World, start: Use, n: Name) {
    exists at, ref :: WitnessLocal(w, start, n, at) && WitnessImport(w, start, n, ref)
  }

  ghost predicate AllWarranted(w: World, start: Use, violations: seq<Violation>) {
    forall v | v in violations :: Warranted(w, start, v)
  }

  lemma UseWitness(w: World, start: Use, x: Use)
    requires Reached(w, start, x)
    ensures match w.Resolve(x)
            case Unresolved => true
            case Imported(ref) => WitnessImport(w, start, x.0, ref)
            case Local(at) => WitnessLocal(w, start, x.0, at)
  {
    assert (x.0, x.1) == x;
  }

  lemma MoreWarranted(w: World, start: Use, a: seq<Violation>, b: seq<Violation>)
    requires AllWarranted(w, start, a) && AllWarranted(w, start, b)
    ensures AllWarranted(w, start, a + b)
  {
  }

  lemma PasteWarranted(w: World, start: Use, x: Use, at: Pointer)
    requires Reached(w, start, x) && w.Resolve(x) == Local(at)
    ensures !w.decls[(x.0, at)].documented ==> Warranted(w, start, Undocumented(x.0))
  {
    UseWitness(w, start, x);
  }

  /** While nothing was refused: handled uses are recorded, and pasted declarations' mentions are handled or queued. */
  ghost predicate Complete(w: World, t: Tables, done: set<Use>, queue: seq<Use>) {
    && (forall x | x in done :: Records(w, t, x))
    && (forall n, y {:trigger MentionedBy(w, n, t.pasted[n], y)} |
          n in t.pasted && MentionedBy(w, n, t.pasted[n], y) :: y in done || y in queue)
    && (forall n | n in t.pasted :: (n, t.pasted[n]) in w.decls && w.decls[(n, t.pasted[n])].documented)
  }

  ghost predicate AllReached(w: World, start: Use, queue: seq<Use>) {
    forall x | x in queue :: Reached(w, start, x)
  }

  /** Two reached uses of one name that resolve differently rule out a listing. */
  lemma Disagree(w: World, start: Use, x: Use, y: Use)
    requires Reached(w, start, x) && Reached(w, start, y) && x.0 == y.0 && w.Resolve(x) != w.Resolve(y)
    ensures !Listable(w, start)
  {
  }

  lemma NotClear(w: World, start: Use, x: Use)
    requires Reached(w, start, x) && !Clear(w, start, x)
    ensures !Listable(w, start)
  {
  }

  lemma LocalClash(w: World, start: Use, t: Tables, x: Use)
    requires Justified(w, start, t) && Reached(w, start, x) && x.0 in t.pasted && w.Resolve(x) != Local(t.pasted[x.0])
    ensures !Listable(w, start)
  {
    assert WitnessLocal(w, start, x.0, t.pasted[x.0]);
    var f :| Reached(w, start, (x.0, f)) && w.Resolve((x.0, f)) == Local(t.pasted[x.0]);
    Disagree(w, start, x, (x.0, f));
  }

  lemma ImportClash(w: World, start: Use, t: Tables, x: Use)
    requires Justified(w, start, t) && Reached(w, start, x) && x.0 in t.refs && w.Resolve(x) != Imported(t.refs[x.0])
    ensures !Listable(w, start)
  {
    assert WitnessImport(w, start, x.0, t.refs[x.0]);
    var f :| Reached(w, start, (x.0, f)) && w.Resolve((x.0, f)) == Imported(t.refs[x.0]);
    Disagree(w, start, x, (x.0, f));
  }

  /** The mentions of a declaration that join the queue. */
  function NewUses(w: World, decl: Declaration): (r: seq<Use>)
    ensures forall y :: y in r <==> y.1 == decl.file && y.0 in decl.mentions && y.0 !in w.globals
    decreases |decl.mentions|
  {
    if decl.mentions == [] then []
    else
      var n := |decl.mentions| - 1;
      var rest := NewUses(w, decl.(mentions := decl.mentions[..n]));
      assert decl.mentions == decl.mentions[..n] + [decl.mentions[n]];
      if decl.mentions[n] in w.globals then rest else rest + [(decl.mentions[n], decl.file)]
  }

  lemma QueueReached(w: World, start: Use, x: Use, at: Pointer)
    requires Reached(w, start, x) && w.Resolve(x) == Local(at)
    ensures AllReached(w, start, NewUses(w, w.decls[(x.0, at)]))
  {
    forall y | y in NewUses(w, w.decls[(x.0, at)]) ensures Reached(w, start, y) {
      assert Mentions(w, x, y);
      MentionReached(w, start, x, y);
    }
  }

  /** When the queue runs dry without a refusal, the handled uses are the whole closure. */
  lemma ClosureComplete(w: World, start: Use, t: Tables, done: set<Use>)
    requires Complete(w, t, done, []) && start in done
    ensures forall x | Reached(w, start, x) :: Records(w, t, x)
  {
    forall x, y | x in done && Mentions(w, x, y) ensures y in done {
      assert Records(w, t, x);
      assert MentionedBy(w, x.0, t.pasted[x.0], y);
    }
    assert ClosedUnder(w, done);
  }

  lemma RecordedIsListable(w: World, start: Use, t: Tables, done: set<Use>)
    requires Complete(w, t, done, []) && start in done && Justified(w, start, t)
    ensures Listable(w, start)
  {
    ClosureComplete(w, start, t, done);
    forall x | Reached(w, start, x) ensures Clear(w, start, x) {
      assert Records(w, t, x);
    }
    forall x, y | Reached(w, start, x) && Reached(w, start, y) && x.0 == y.0 ensures w.Resolve(x) == w.Resolve(y) {
      assert Records(w, t, x) && Records(w, t, y);
    }
  }

  /** The tables hold exactly the names of the closure, each with its one meaning. */
  ghost predicate Exact(w: World, start: Use, t: Tables) {
    && Justified(w, start, t)
    && (forall x | Reached(w, start, x) :: Records(w, t, x))
  }

  /** The state of the worklist loop; `ok` while nothing has been refused. */
  ghost predicate Progress(w: World, start: Use, t: Tables, done: set<Use>, queue: seq<Use>, ok: bool) {
    && Justified(w, start, t) && AllReached(w, start, queue)
    && (!ok ==> !Listable(w, start))
    && (ok ==> Complete(w, t, done, queue) && (start in done || start in queue))
  }

  lemma RefusedStep(w: World, start: Use, t: Tables, done: set<Use>, queue: seq<Use>, ok: bool)
    requires queue != [] && Progress(w, start, t, done, queue, ok) && !Listable(w, start)
    ensures Progress(w, start, t, done + {queue[0]}, queue[1..], false)
  {
  }

  lemma HandledComplete(w: World, t: Tables, done: set<Use>, queue: seq<Use>)
    requires queue != [] && Complete(w, t, done, queue) && Records(w, t, queue[0])
    ensures Complete(w, t, done + {queue[0]}, queue[1..])
  {
    forall n, y | n in t.pasted && MentionedBy(w, n, t.pasted[n], y) ensures y in done + {queue[0]} || y in queue[1..] {
      assert y in queue ==> y == queue[0] || y in queue[1..];
    }
  }

  lemma HandledStep(w: World, start: Use, t: Tables, done: set<Use>, queue: seq<Use>, ok: bool)
    requires queue != [] && Progress(w, start, t, done, queue, ok) && Records(w, t, queue[0])
    ensures Progress(w, start, t, done + {queue[0]}, queue[1..], ok)
  {
    if ok {
      HandledComplete(w, t, done, queue);
      assert start in queue ==> start == queue[0] || start in queue[1..];
    }
  }

  lemma ImportStep(w: World, start: Use, t: Tables, done: set<Use>, queue: seq<Use>, ok: bool, ref: TypeRef)
    requires queue != [] && Progress(w, start, t, done, queue, ok)
    requires w.Resolve(queue[0]) == Imported(ref) && queue[0].0 != start.0 && queue[0].0 !in t.pasted
    requires queue[0].0 in t.refs ==> t.refs[queue[0].0] == ref
    ensures Progress(w, start, t.(refs := t.refs[queue[0].0 := ref]), done + {queue[0]}, queue[1..], ok)
  {
    var x := queue[0];
    var t' := t.(refs := t.refs[x.0 := ref]);
    assert x in queue;
    forall n | n in t'.refs ensures WitnessImport(w, start, n, t'.refs[n]) {
      if n == x.0 {
        assert (n, x.1) == x;
      } else {
        assert WitnessImport(w, start, n, t.refs[n]);
      }
    }
    if ok {
      assert forall y | y in done :: Records(w, t, y) && Records(w, t', y);
    }
    HandledStep(w, start, t', done, queue, ok);
  }

  lemma PasteStep(w: World, start: Use, t: Tables, done: set<Use>, queue: seq<Use>, ok: bool, at: Pointer)
    requires queue != [] && Progress(w, start, t, done, queue, ok)
    requires w.Resolve(queue[0]) == Local(at) && queue[0].0 !in t.pasted && queue[0].0 !in t.refs
    ensures var x := queue[0];
            Progress(w, start, t.(pasted := t.pasted[x.0 := at]), done + {x},
                     queue[1..] + NewUses(w, w.decls[(x.0, at)]), ok && w.decls[(x.0, at)].documented)
  {
    var x := queue[0];
    var decl := w.decls[(x.0, at)];
    var t' := t.(pasted := t.pasted[x.0 := at]);
    assert x in queue;
    forall n | n in t'.pasted ensures WitnessLocal(w, start, n, t'.pasted[n]) {
      if n == x.0 {
        assert (n, x.1) == x;
      } else {
        assert WitnessLocal(w, start, n, t.pasted[n]);
      }
    }
    QueueReached(w, start, x, at);
    if !decl.documented {
      NotClear(w, start, x);
    } else if ok {
      PasteComplete(w, t, done, queue, at);
      assert start in queue ==> start == x || start in queue[1..];
    }
  }

  lemma PasteComplete(w: World, t: Tables, done: set<Use>, queue: seq<Use>, at: Pointer)
    requires queue != [] && Complete(w, t, done, queue)
    requires w.Resolve(queue[0]) == Local(at) && queue[0].0 !in t.pasted && w.decls[(queue[0].0, at)].documented
    ensures var x := queue[0];
            Complete(w, t.(pasted := t.pasted[x.0 := at]), done + {x}, queue[1..] + NewUses(w, w.decls[(x.0, at)]))
  {
    var x := queue[0];
    var new' := NewUses(w, w.decls[(x.0, at)]);
    var t' := t.(pasted := t.pasted[x.0 := at]);
    forall y | y in done + {x} ensures Records(w, t', y) {
      assert y in done ==> Records(w, t, y);
    }
    forall n, y | n in t'.pasted && MentionedBy(w, n, t'.pasted[n], y)
      ensures y in done + {x} || y in queue[1..] + new'
    {
      if n == x.0 {
        assert y in new';
      } else {
        assert MentionedBy(w, n, t.pasted[n], y);
        assert y in queue ==> y == x || y in queue[1..];
      }
    }
  }

  /** The pasted declarations in listing order agree with the table of pasted names. */
  predicate ListsPasted(pastes: seq<(Name, Pointer)>, pasted: map<Name, Pointer>) {
    && (forall i | 0 <= i < |pastes| :: pastes[i].0 in pasted && pasted[pastes[i].0] == pastes[i].1)
    && (forall n | n in pasted :: (n, pasted[n]) in pastes)
    && (forall i, j | 0 <= i < j < |pastes| :: pastes[i].0 != pastes[j].0)
  }

  lemma PasteListed(pastes: seq<(Name, Pointer)>, pasted: map<Name, Pointer>, n: Name, at: Pointer)
    requires ListsPasted(pastes, pasted) && n !in pasted
    ensures ListsPasted(pastes + [(n, at)], pasted[n := at])
  {
    var more, table := pastes + [(n, at)], pasted[n := at];
    assert more[|pastes|] == (n, at);
    forall k | k in table ensures (k, table[k]) in more {
      if k != n {
        assert (k, pasted[k]) in pastes;
      }
    }
  }

  // ----- nothing is passed over, whatever was refused before

  /** The use is recorded, or it is reported for what stands in its way. */
  predicate Answered(start: Use, w: World, t: Tables, violations: seq<Violation>, x: Use) {
    var n := x.0;
    if x !in w.names || (w.names[x].Local? && (n, w.names[x].at) !in w.decls) then NotFound(x) in violations
    else match w.names[x]
      case Unresolved => NotFound(x) in violations
      case Imported(ref) =>
        if n == start.0 then ConfigTypeImported(ref) in violations
        else if n in t.pasted then LocalThenImported(n) in violations
        else n in t.refs && (t.refs[n] == ref || TwoImports(n) in violations)
      case Local(at) =>
        if n in t.refs then ImportedThenLocal(n) in violations
        else n in t.pasted && (t.pasted[n] == at || TwoDeclarations(n) in violations)
  }

  /** The declaration is in the world, and reported if it is not documented. */
  predicate Checked(w: World, violations: seq<Violation>, n: Name, at: Pointer) {
    (n, at) in w.decls && (w.decls[(n, at)].documented || Undocumented(n) in violations)
  }

  /** Every handled use is answered; every mention of a pasted declaration is handled or queued. */
  ghost predicate Accounted(w: World, start: Use, t: Tables, done: set<Use>, queue: seq<Use>,
                            violations: seq<Violation>) {
    && (start in done || start in queue)
    && (forall x | x in done :: Answered(start, w, t, violations, x))
    && (forall n, y {:trigger MentionedBy(w, n, t.pasted[n], y)} |
          n in t.pasted && MentionedBy(w, n, t.pasted[n], y) :: y in done || y in queue)
    && (forall n | n in t.pasted :: Checked(w, violations, n, t.pasted[n]))
  }

  /** Nothing is taken back. */
  predicate Grows(t: Tables, u: Tables) {
    && (forall n | n in t.pasted :: n in u.pasted && u.pasted[n] == t.pasted[n])
    && (forall n | n in t.refs :: n in u.refs && u.refs[n] == t.refs[n])
    && u.pasted.Keys !! u.refs.Keys
  }

  lemma StaysAnswered(start: Use, w: World, t: Tables, u: Tables, before: seq<Violation>, more: seq<Violation>, x: Use)
    requires Grows(t, u) && Answered(start, w, t, before, x)
    ensures Answered(start, w, u, before + more, x)
  {
  }

  lemma RefusalAnswers(start: Use, w: World, t: Tables, violations: seq<Violation>, refusal: seq<Violation>, x: Use)
    requires Answered(start, w, t, refusal, x)
    ensures Answered(start, w, t, violations + refusal, x)
  {
  }

  lemma AccountRefused(w: World, start: Use, t: Tables, done: set<Use>, queue: seq<Use>, violations: seq<Violation>,
                       more: seq<Violation>)
    requires queue != [] && Accounted(w, start, t, done, queue, violations) && t.pasted.Keys !! t.refs.Keys
    requires Answered(start, w, t, violations + more, queue[0])
    ensures Accounted(w, start, t, done + {queue[0]}, queue[1..], violations + more)
  {
    forall x | x in done ensures Answered(start, w, t, violations + more, x) {
      StaysAnswered(start, w, t, t, violations, more, x);
    }
    assert forall y | y in queue :: y == queue[0] || y in queue[1..];
  }

  lemma AccountImport(w: World, start: Use, t: Tables, done: set<Use>, queue: seq<Use>, violations: seq<Violation>,
                      ref: TypeRef)
    requires queue != [] && Accounted(w, start, t, done, queue, violations) && t.pasted.Keys !! t.refs.Keys
    requires w.Resolve(queue[0]) == Imported(ref) && queue[0].0 != start.0 && queue[0].0 !in t.pasted
    requires queue[0].0 in t.refs ==> t.refs[queue[0].0] == ref
    ensures Accounted(w, start, t.(refs := t.refs[queue[0].0 := ref]), done + {queue[0]}, queue[1..], violations)
  {
    var u := t.(refs := t.refs[queue[0].0 := ref]);
    forall x | x in done ensures Answered(start, w, u, violations, x) {
      StaysAnswered(start, w, t, u, violations, [], x);
      assert violations + [] == violations;
    }
    assert forall y | y in queue :: y == queue[0] || y in queue[1..];
  }

  lemma AccountPaste(w: World, start: Use, t: Tables, done: set<Use>, queue: seq<Use>, violations: seq<Violation>,
                     at: Pointer, more: seq<Violation>)
    requires queue != [] && Accounted(w, start, t, done, queue, violations) && t.pasted.Keys !! t.refs.Keys
    requires w.Resolve(queue[0]) == Local(at) && queue[0].0 !in t.pasted && queue[0].0 !in t.refs
    requires w.decls[(queue[0].0, at)].documented || more == [Undocumented(queue[0].0)]
    ensures var x := queue[0];
            Accounted(w, start, t.(pasted := t.pasted[x.0 := at]), done + {x},
                      queue[1..] + NewUses(w, w.decls[(x.0, at)]), violations + more)
  {
    var x, u := queue[0], t.(pasted := t.pasted[queue[0].0 := at]);
    var new' := NewUses(w, w.decls[(x.0, at)]);
    forall y | y in done ensures Answered(start, w, u, violations + more, y) {
      StaysAnswered(start, w, t, u, violations, more, y);
    }
    forall n, y | n in u.pasted && MentionedBy(w, n, u.pasted[n], y) ensures y in done + {x} || y in queue[1..] + new' {
      if n == x.0 {
        assert y in new';
      } else {
        assert MentionedBy(w, n, t.pasted[n], y);
        assert y in queue ==> y == x || y in queue[1..];
      }
    }
    forall n | n in u.pasted ensures Checked(w, violations + more, n, u.pasted[n]) {
      assert n != x.0 ==> Checked(w, violations, n, t.pasted[n]);
    }
  }

  // ----- one round of the loop

  ghost predicate Going(w: World, start: Use, t: Tables, done: set<Use>, queue: seq<Use>, violations: seq<Violation>) {
    && Progress(w, start, t, done, queue, violations == []) && Accounted(w, start, t, done, queue, violations)
    && AllWarranted(w, start, violations)
  }

  lemma GoRefused(w: World, start: Use, t: Tables, done: set<Use>, queue: seq<Use>, violations: seq<Violation>,
                  refusal: seq<Violation>)
    requires queue != [] && Going(w, start, t, done, queue, violations) && !Listable(w, start)
    requires refusal != [] && AllWarranted(w, start, refusal) && Answered(start, w, t, refusal, queue[0])
    ensures Going(w, start, t, done + {queue[0]}, queue[1..], violations + refusal)
  {
    RefusedStep(w, start, t, done, queue, violations == []);
    RefusalAnswers(start, w, t, violations, refusal, queue[0]);
    AccountRefused(w, start, t, done, queue, violations, refusal);
    MoreWarranted(w, start, violations, refusal);
  }

  lemma GoImported(w: World, start: Use, t: Tables, done: set<Use>, queue: seq<Use>, violations: seq<Violation>,
                   ref: TypeRef)
    requires queue != [] && Going(w, start, t, done, queue, violations)
    requires w.Resolve(queue[0]) == Imported(ref) && queue[0].0 != start.0 && queue[0].0 !in t.pasted
    requires queue[0].0 in t.refs ==> t.refs[queue[0].0] == ref
    ensures Going(w, start, t.(refs := t.refs[queue[0].0 := ref]), done + {queue[0]}, queue[1..], violations)
  {
    ImportStep(w, start, t, done, queue, violations == [], ref);
    AccountImport(w, start, t, done, queue, violations, ref);
  }

  lemma GoAgain(w: World, start: Use, t: Tables, done: set<Use>, queue: seq<Use>, violations: seq<Violation>)
    requires queue != [] && Going(w, start, t, done, queue, violations)
    requires w.Resolve(queue[0]).Local? && Records(w, t, queue[0])
    ensures Going(w, start, t, done + {queue[0]}, queue[1..], violations)
  {
    HandledStep(w, start, t, done, queue, violations == []);
    AccountRefused(w, start, t, done, queue, violations, []);
    assert violations + [] == violations;
  }

  lemma GoPasted(w: World, start: Use, t: Tables, done: set<Use>, queue: seq<Use>, violations: seq<Violation>,
                 at: Pointer)
    requires queue != [] && Going(w, start, t, done, queue, violations)
    requires w.Resolve(queue[0]) == Local(at) && queue[0].0 !in t.pasted && queue[0].0 !in t.refs
    ensures
      var x, decl := queue[0], w.decls[(queue[0].0, at)];
      Going(w, start, t.(pasted := t.pasted[x.0 := at]), done + {x}, queue[1..] + NewUses(w, decl),
            violations + if decl.documented then [] else [Undocumented(x.0)])
  {
    var x := queue[0];
    var more := if w.decls[(x.0, at)].documented then [] else [Undocumented(x.0)];
    assert x in queue;
    PasteWarranted(w, start, x, at);
    MoreWarranted(w, start, violations, more);
    PasteStep(w, start, t, done, queue, violations == [], at);
    AccountPaste(w, start, t, done, queue, violations, at, more);
  }

  function NamesOf(w: World): set<Name> {
    set x | x in w.names :: x.0
  }

  /**
   * Gather the declarations of `start` and everything they mention. Without a violation the two
   * tables are exact; and there is a violation exactly when the closure cannot be listed.
   */
  method Collect(w: World, start: Use)
    returns (pastes: seq<(Name, Pointer)>, refs: map<Name, TypeRef>, violations: seq<Violation>,
        ghost pasted: map<Name, Pointer>, ghost handled: set<Use>)
    ensures Accounted(w, start, Tables(pasted, refs), handled, [], violations)
    ensures violations == [] <==> Listable(w, start)
    ensures AllWarranted(w, start, violations)
    ensures violations == [] ==> Exact(w, start, Tables(pasted, refs))
    ensures ListsPasted(pastes, pasted)
    ensures pastes != [] && violations == [] ==> pastes[0].0 == start.0
  {
    StartReached(w, start);
    pastes, violations := [], [];
    refs := map[];
    var pastedDeclByName: map<Name, Pointer> := map[];
    var queue := [start];
    ghost var done: set<Use> := {};
    while queue != []
      invariant Going(w, start, Tables(pastedDeclByName, refs), done, queue, violations)
      invariant ListsPasted(pastes, pastedDeclByName)
      invariant violations == [] ==> if pastes == [] then queue[..1] == [start] else pastes[0].0 == start.0
      decreases NamesOf(w) - pastedDeclByName.Keys, |queue|
    {
      var x := queue[0];
      var resolved := w.Resolve(x);
      ghost var t := Tables(pastedDeclByName, refs);
      assert x in queue;
      var refusal := Refuse(w, start, t, x, pastedDeclByName, refs);
      if refusal != [] {
        GoRefused(w, start, t, done, queue, violations, refusal);
        violations := violations + refusal;
        queue := queue[1..];
      } else if resolved.Imported? {
        GoImported(w, start, t, done, queue, violations, resolved.ref);
        refs := refs[x.0 := resolved.ref];
        queue := queue[1..];
      } else if x.0 in pastedDeclByName {
        GoAgain(w, start, t, done, queue, violations);
        queue := queue[1..];
      } else {
        var at, decl := resolved.at, w.decls[(x.0, resolved.at)];
        GoPasted(w, start, t, done, queue, violations, at);
        PasteListed(pastes, pastedDeclByName, x.0, at);
        assert NamesOf(w) - pastedDeclByName[x.0 := at].Keys == NamesOf(w) - pastedDeclByName.Keys - {x.0};
        pastedDeclByName := pastedDeclByName[x.0 := at];
        pastes := pastes + [(x.0, at)];
        violations := violations + if decl.documented then [] else [Undocumented(x.0)];
        queue := queue[1..] + NewUses(w, decl);
      }
      done := done + {x};
    }
    pasted, handled := pastedDeclByName, done;
    if violations == [] {
      ClosureComplete(w, start, Tables(pasted, refs), done);
      RecordedIsListable(w, start, Tables(pasted, refs), done);
    }
  }

  /** Why a use cannot be recorded; empty when it can be, or already is. */
  method Refuse(w: World, start: Use, ghost t: Tables, x: Use, pasted: map<Name, Pointer>, refs: map<Name, TypeRef>)
    returns (refusal: seq<Violation>)
    requires Justified(w, start, t) && Reached(w, start, x) && t == Tables(pasted, refs)
    ensures refusal != [] ==> !Listable(w, start)
    ensures AllWarranted(w, start, refusal)
    ensures refusal != [] ==> Answered(start, w, t, refusal, x)
    ensures refusal == [] ==>
              match w.Resolve(x)
              case Unresolved => false
              case Imported(ref) => x.0 != start.0 && x.0 !in pasted && (x.0 in refs ==> refs[x.0] == ref)
              case Local(at) => if x.0 in pasted then pasted[x.0] == at else x.0 !in refs
  {
    UseWitness(w, start, x);
    match w.Resolve(x)
    case Unresolved =>
      NotClear(w, start, x);
      return [NotFound(x)];
    case Imported(ref) =>
      if x.0 == start.0 {
        NotClear(w, start, x);
        return [ConfigTypeImported(ref)];
      }
      if x.0 in pasted {
        LocalClash(w, start, t, x);
        return [LocalThenImported(x.0)];
      }
      if x.0 in refs && refs[x.0] != ref {
        ImportClash(w, start, t, x);
        return [TwoImports(x.0)];
      }
      return [];
    case Local(at) =>
      if x.0 in pasted && pasted[x.0] == at {
        return [];
      }
      if x.0 in pasted {
        LocalClash(w, start, t, x);
        return [TwoDeclarations(x.0)];
      }
      if x.0 in refs {
        ImportClash(w, start, t, x);
        return [ImportedThenLocal(x.0)];
      }
      return [];
  }

  /** Every name a pasted declaration mentions is settled, in exactly one table, as its file means it. */
  lemma MentionsSettled(w: World, start: Use, t: Tables, n: Name, y: Use)
    requires Exact(w, start, t) && n in t.pasted && MentionedBy(w, n, t.pasted[n], y)
    ensures Records(w, t, y)
    ensures y.0 in t.pasted <==> y.0 !in t.refs
  {
    assert WitnessLocal(w, start, n, t.pasted[n]);
    var f :| Reached(w, start, (n, f)) && w.Resolve((n, f)) == Local(t.pasted[n]);
    assert Mentions(w, (n, f), y);
    MentionReached(w, start, (n, f), y);
    assert Records(w, t, y);
  }

  /** `chain` leads from `x` to `y` by mentions. */
  ghost predicate Chain(w: World, chain: seq<Use>, x: Use, y: Use) {
    && chain != [] && chain[0] == x && chain[|chain| - 1] == y
    && forall i | 0 <= i < |chain| - 1 :: Mentions(w, chain[i], chain[i + 1])
  }

  lemma {:induction false} ChainInClosed(w: World, s: set<Use>, chain: seq<Use>, x: Use, y: Use, k: nat)
    requires ClosedUnder(w, s) && Chain(w, chain, x, y) && x in s && k < |chain|
    ensures chain[k] in s
  {
    if k > 0 {
      ChainInClosed(w, s, chain, x, y, k - 1);
      assert Mentions(w, chain[k - 1], chain[k - 1 + 1]);
    }
  }

  /** Uses that some declaration can contribute. */
  function Mentioned(w: World): set<Use> {
    set k, m | k in w.decls && m in w.decls[k].mentions :: (m, w.decls[k].file)
  }

  /** Belonging to the closure is the same as being led to by a chain of mentions. */
  lemma ReachedIsChain(w: World, start: Use, x: Use)
    ensures Reached(w, start, x) <==> exists chain :: Chain(w, chain, start, x)
  {
    if Reached(w, start, x) {
      var s := set u | u in {start} + Mentioned(w) && exists chain :: Chain(w, chain, start, u);
      assert Chain(w, [start], start, start);
      forall a, b | a in s && Mentions(w, a, b) ensures b in s {
        var chain :| Chain(w, chain, start, a);
        var longer := chain + [b];
        forall i | 0 <= i < |longer| - 1 ensures Mentions(w, longer[i], longer[i + 1]) {
          assert i < |chain| - 1 ==> Mentions(w, chain[i], chain[i + 1]);
        }
        assert Chain(w, longer, start, b);
        var k := (a.0, w.Resolve(a).at);
        assert b == (b.0, w.decls[k].file);
      }
      assert ClosedUnder(w, s);
    }
    if chain :| Chain(w, chain, start, x) {
      forall s | ClosedUnder(w, s) && start in s ensures x in s {
        ChainInClosed(w, s, chain, start, x, |chain| - 1);
      }
    }
  }
}
