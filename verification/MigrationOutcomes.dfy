/** The report of a finished migration, told by the inputs and how the attempts on them ended. */
module MigrationOutcomes {
  import opened Sorting
  import opened Options
  import opened MigrationPool
  import opened MigrationReport
  import opened MigrationVisits

  /** The completed visits are the callback's, visit `k` with attempt `k`. */
  ghost predicate Attempted(candidates: seq<Candidate>, log: seq<Event>, attempts: seq<Attempt>) {
    && |attempts| == |log|
    && forall k | 0 <= k < |log| ::
         log[k].index < |candidates| && log[k].result == Visit(candidates[log[k].index], attempts[k], log[k].retry)
  }

  /** Any log of the callback comes about by some attempts. */
  lemma {:induction false} SomeAttempts(candidates: seq<Candidate>, log: seq<Event>) returns (attempts: seq<Attempt>)
    requires Callback(candidates, log)
    ensures Attempted(candidates, log, attempts)
  {
    if log == [] {
      attempts := [];
    } else {
      var n := |log| - 1;
      assert Callback(candidates, log[..n]) by {
        assert forall k | 0 <= k < n :: log[..n][k] == log[k];
      }
      var init := SomeAttempts(candidates, log[..n]);
      assert Answered(candidates, log[n]);
      var a :| log[n].result == Visit(candidates[log[n].index], a, log[n].retry);
      attempts := init + [a];
      assert forall k | 0 <= k < n :: log[..n][k] == log[k];
    }
  }

  lemma AttemptsAnswer(candidates: seq<Candidate>, log: seq<Event>, attempts: seq<Attempt>)
    requires Attempted(candidates, log, attempts)
    ensures Callback(candidates, log)
  {
    forall k | 0 <= k < |log| ensures Answered(candidates, log[k]) {
      assert log[k].result == Visit(candidates[log[k].index], attempts[k], log[k].retry);
    }
  }

  /** An input whose last attempt was `a` is counted under `o`. */
  predicate CountedAs(c: Candidate, a: Attempt, o: Outcome) {
    match o
    case Skipped => !c.broken && c.source.None?
    case AlreadyV4 => !c.broken && c.source == Some("4") && a == Opened
    case Converted => !c.broken && c.source.Some? && c.source != Some("4") && a == Opened
    case Failed => c.broken || (c.source.Some? && a != Opened)
  }

  /** And under the version of its source, or `unknown` without one. */
  predicate Labelled(c: Candidate, v: Version) {
    if c.source.Some? then v == c.source.value else v == "unknown"
  }

  /** What each visit came to, by its input and its attempt alone. */
  lemma VisitOutcome(candidates: seq<Candidate>, log: seq<Event>, attempts: seq<Attempt>, k: nat)
    requires Attempted(candidates, log, attempts) && k < |log|
    ensures var c, a, e := candidates[log[k].index], attempts[k], log[k];
            && (e.result == Rejected <==> a == Unlogged)
            && (e.result == Deferred <==> a == Changed && !e.retry && (c.broken || c.source.Some?))
            && (e.result.Settled? ==> Labelled(c, e.result.value.version))
            && forall o :: e.result.Settled? ==> (e.result.value.outcome == o <==> CountedAs(c, a, o))
  {
    var c, a, e := candidates[log[k].index], attempts[k], log[k];
    assert e.result == Visit(c, a, e.retry);
    assert c.source.Some? ==> (c.source == Some("4") <==> c.source.value == "4");
  }

  /** How the last attempt on each input ended. */
  ghost predicate Ends(log: seq<Event>, attempts: seq<Attempt>, ends: seq<Attempt>)
    requires |attempts| == |log|
  {
    forall k | 0 <= k < |log| && log[k].result.Settled? :: log[k].index < |ends| && ends[log[k].index] == attempts[k]
  }

  // ----- counting records is counting inputs

  function Matching(records: seq<Record>, p: Record -> bool): nat {
    if records == [] then 0
    else Matching(records[..|records| - 1], p) + if p(records[|records| - 1]) then 1 else 0
  }

  lemma {:induction false} TallyMatches(records: seq<Record>, o: Outcome)
    ensures Tally(records, o) == Matching(records, (r: Record) => r.outcome == o)
  {
    if records != [] {
      TallyMatches(records[..|records| - 1], o);
    }
  }

  lemma {:induction false} TallyOfMatches(records: seq<Record>, v: Version, o: Outcome)
    ensures TallyOf(records, v, o) == Matching(records, (r: Record) => r == Record(v, o))
  {
    if records != [] {
      TallyOfMatches(records[..|records| - 1], v, o);
    }
  }

  /** The inputs that the log settles with such a record. */
  function SettledWith(log: seq<Event>, p: Record -> bool): set<nat> {
    set k | 0 <= k < |log| && log[k].result.Settled? && p(log[k].result.value) :: log[k].index
  }

  /** No input is settled twice. */
  predicate Once(log: seq<Event>) {
    forall j, k | 0 <= j < k < |log| && log[j].result.Settled? && log[k].result.Settled? :: log[j].index != log[k].index
  }

  lemma SettledSnoc(log: seq<Event>, p: Record -> bool)
    requires log != []
    ensures var e := log[|log| - 1];
            SettledWith(log, p) == SettledWith(log[..|log| - 1], p)
              + if e.result.Settled? && p(e.result.value) then {e.index} else {}
  {
    var n := |log| - 1;
    var last := log[n].result.Settled? && p(log[n].result.value);
    forall i ensures i in SettledWith(log, p) <==> (i in SettledWith(log[..n], p) || (last && i == log[n].index)) {
      if k :| 0 <= k < n && log[k].result.Settled? && p(log[k].result.value) && i == log[k].index {
        assert log[..n][k] == log[k];
      }
      if k :| 0 <= k < n && log[..n][k].result.Settled? && p(log[..n][k].result.value) && i == log[..n][k].index {
        assert log[k] == log[..n][k];
      }
    }
  }

  lemma {:induction false} RecordsAreInputs(log: seq<Event>, p: Record -> bool)
    requires Once(log)
    ensures Matching(Reported(log), p) == |SettledWith(log, p)|
  {
    if log != [] {
      var n := |log| - 1;
      RecordsAreInputs(log[..n], p);
      SettledSnoc(log, p);
      var records := Reported(log[..n]);
      if log[n].result.Settled? {
        NewInput(log, p);
        assert (records + [log[n].result.value])[..|records|] == records;
      } else {
        assert records + [] == records;
      }
    }
  }

  lemma NewInput(log: seq<Event>, p: Record -> bool)
    requires Once(log) && log != [] && log[|log| - 1].result.Settled?
    ensures log[|log| - 1].index !in SettledWith(log[..|log| - 1], p)
  {
    var n := |log| - 1;
    forall k | 0 <= k < n && log[..n][k].result.Settled? ensures log[..n][k].index != log[n].index {
      assert log[..n][k] == log[k];
    }
  }

  // ----- the report

  ghost predicate SettledOnce(log: seq<Event>, i: nat) {
    exists k :: SettledAt(log, i, k) && forall j | SettledAt(log, i, j) :: j == k
  }

  lemma SettledOnceEach(c: Config, run: seq<State>, candidates: seq<Candidate>, log: seq<Event>)
    requires c.jobs > 0 && Run(c, run) && run[|run| - 1].phase.Finished? && log == run[|run| - 1].log
    requires Callback(candidates, log) && c.count == |candidates|
    ensures Once(log)
    ensures forall i: nat | i < c.count :: SettledOnce(log, i)
  {
    forall i: nat | i < c.count ensures SettledOnce(log, i) {
      var k := EachSettledOnce(c, run, candidates, i);
    }
    forall j, k | 0 <= j < k < |log| && log[j].result.Settled? && log[k].result.Settled?
      ensures log[j].index != log[k].index
    {
      assert Answered(candidates, log[j]);
      assert SettledOnce(log, log[j].index);
      assert SettledAt(log, log[j].index, j) && SettledAt(log, log[k].index, k);
    }
  }

  /** The last attempts on the inputs, when each is settled once. */
  lemma {:induction false} LastAttempts(log: seq<Event>, attempts: seq<Attempt>, n: nat) returns (ends: seq<Attempt>)
    requires |attempts| == |log| && Once(log)
    requires forall k | 0 <= k < |log| :: log[k].index < n
    ensures |ends| == n && Ends(log, attempts, ends)
  {
    if log == [] {
      ends := seq(n, _ => Opened);
    } else {
      var m := |log| - 1;
      assert forall k | 0 <= k < m :: log[..m][k] == log[k] && attempts[..m][k] == attempts[k];
      var init := LastAttempts(log[..m], attempts[..m], n);
      ends := if log[m].result.Settled? then init[log[m].index := attempts[m]] else init;
      forall k | 0 <= k < |log| && log[k].result.Settled? ensures ends[log[k].index] == attempts[k] {
        if k < m {
          assert log[..m][k] == log[k];
        }
      }
    }
  }

  /** The inputs of a kind that are settled with it are those whose last attempt says so. */
  lemma SettledAre(candidates: seq<Candidate>, log: seq<Event>, attempts: seq<Attempt>, ends: seq<Attempt>,
                   p: Record -> bool, inputs: set<nat>)
    requires Attempted(candidates, log, attempts) && |ends| == |candidates| && Ends(log, attempts, ends)
    requires forall i: nat | i < |candidates| :: SettledOnce(log, i)
    requires forall i | i in inputs :: i < |candidates|
    requires forall i: nat, r: Record | i < |candidates| && Labelled(candidates[i], r.version)
               && CountedAs(candidates[i], ends[i], r.outcome) :: p(r) <==> i in inputs
    ensures SettledWith(log, p) == inputs
  {
    forall k | 0 <= k < |log| && log[k].result.Settled?
      ensures log[k].index < |candidates| && (p(log[k].result.value) <==> log[k].index in inputs)
    {
      VisitOutcome(candidates, log, attempts, k);
      assert CountedAs(candidates[log[k].index], ends[log[k].index], log[k].result.value.outcome);
    }
    forall i | i in inputs ensures i in SettledWith(log, p) {
      assert SettledOnce(log, i);
      var k :| SettledAt(log, i, k);
    }
  }

  /** Of the given inputs, those counted under `o`. */
  ghost function Under(candidates: seq<Candidate>, ends: seq<Attempt>, inputs: set<nat>, o: Outcome): set<nat>
    requires |ends| == |candidates|
  {
    set i | i in inputs && i < |candidates| && CountedAs(candidates[i], ends[i], o)
  }

  /** The counts are those of the given inputs. */
  ghost predicate CountsAre(counts: Counts, candidates: seq<Candidate>, ends: seq<Attempt>, inputs: set<nat>)
    requires |ends| == |candidates|
  {
    && counts.converted == |Under(candidates, ends, inputs, Converted)|
    && counts.alreadyV4 == |Under(candidates, ends, inputs, AlreadyV4)|
    && counts.failed == |Under(candidates, ends, inputs, Failed)|
    && counts.skipped == |Under(candidates, ends, inputs, Skipped)|
  }

  /** The inputs of one version. */
  ghost function OfVersion(candidates: seq<Candidate>, v: Version): set<nat> {
    set i: nat | i < |candidates| && Labelled(candidates[i], v)
  }

  /** The report is about these inputs and the last attempts on them. */
  ghost predicate Reports(totals: Counts, table: map<Version, Counts>, candidates: seq<Candidate>, ends: seq<Attempt>)
    requires |ends| == |candidates|
  {
    && CountsAre(totals, candidates, ends, Below(|candidates|))
    && (forall v | v in table :: CountsAre(table[v], candidates, ends, OfVersion(candidates, v)))
    && (forall v :: v in table <==> OfVersion(candidates, v) != {})
  }

  ghost predicate AllSettled(candidates: seq<Candidate>, log: seq<Event>, attempts: seq<Attempt>, ends: seq<Attempt>) {
    && Attempted(candidates, log, attempts) && |ends| == |candidates| && Ends(log, attempts, ends) && Once(log)
    && forall i: nat | i < |candidates| :: SettledOnce(log, i)
  }

  lemma TotalIs(candidates: seq<Candidate>, log: seq<Event>, attempts: seq<Attempt>, ends: seq<Attempt>, o: Outcome)
    requires AllSettled(candidates, log, attempts, ends)
    ensures Tally(Reported(log), o) == |Under(candidates, ends, Below(|candidates|), o)|
  {
    var p := (r: Record) => r.outcome == o;
    TallyMatches(Reported(log), o);
    RecordsAreInputs(log, p);
    SettledAre(candidates, log, attempts, ends, p, Under(candidates, ends, Below(|candidates|), o));
  }

  lemma CellIs(candidates: seq<Candidate>, log: seq<Event>, attempts: seq<Attempt>, ends: seq<Attempt>, v: Version,
               o: Outcome)
    requires AllSettled(candidates, log, attempts, ends)
    ensures TallyOf(Reported(log), v, o) == |Under(candidates, ends, OfVersion(candidates, v), o)|
  {
    var p := (r: Record) => r == Record(v, o);
    TallyOfMatches(Reported(log), v, o);
    RecordsAreInputs(log, p);
    SettledAre(candidates, log, attempts, ends, p, Under(candidates, ends, OfVersion(candidates, v), o));
  }

  lemma {:induction false} ReportedFrom(log: seq<Event>, v: Version) returns (k: nat)
    requires Occurs(Reported(log), v)
    ensures k < |log| && log[k].result.Settled? && log[k].result.value.version == v
  {
    var n := |log| - 1;
    if log[n].result.Settled? && log[n].result.value.version == v {
      k := n;
    } else {
      var records := Reported(log);
      var j :| 0 <= j < |records| && records[j].version == v;
      assert Reported(log[..n])[j] == records[j];
      k := ReportedFrom(log[..n], v);
    }
  }

  lemma {:induction false} ReportedHas(log: seq<Event>, k: nat)
    requires k < |log| && log[k].result.Settled?
    ensures Occurs(Reported(log), log[k].result.value.version)
  {
    var n := |log| - 1;
    var before, records := Reported(log[..n]), Reported(log);
    if k < n {
      ReportedHas(log[..n], k);
      var j :| 0 <= j < |before| && before[j].version == log[k].result.value.version;
      assert records[j] == before[j];
    } else {
      assert records[|before|].version == log[k].result.value.version;
    }
  }

  /** The versions of the report are those of the inputs. */
  lemma VersionOccurs(candidates: seq<Candidate>, log: seq<Event>, attempts: seq<Attempt>, ends: seq<Attempt>,
                      v: Version)
    requires AllSettled(candidates, log, attempts, ends)
    ensures Occurs(Reported(log), v) <==> OfVersion(candidates, v) != {}
  {
    if Occurs(Reported(log), v) {
      var k := ReportedFrom(log, v);
      VisitOutcome(candidates, log, attempts, k);
      assert log[k].index in OfVersion(candidates, v);
    }
    if i :| i in OfVersion(candidates, v) {
      assert SettledOnce(log, i);
      var k :| SettledAt(log, i, k);
      VisitOutcome(candidates, log, attempts, k);
      ReportedHas(log, k);
    }
  }

  lemma ReportIs(candidates: seq<Candidate>, log: seq<Event>, attempts: seq<Attempt>, ends: seq<Attempt>,
                 totals: Counts, table: map<Version, Counts>)
    requires AllSettled(candidates, log, attempts, ends)
    requires Totals(Reported(log), totals) && Table(Reported(log), table)
    ensures Reports(totals, table, candidates, ends)
  {
    CountsFrom(candidates, log, attempts, ends, totals);
    forall v ensures v in table <==> OfVersion(candidates, v) != {} {
      VersionOccurs(candidates, log, attempts, ends, v);
    }
    forall v | v in table ensures CountsAre(table[v], candidates, ends, OfVersion(candidates, v)) {
      RowFrom(candidates, log, attempts, ends, table, v);
    }
  }

  lemma CountsFrom(candidates: seq<Candidate>, log: seq<Event>, attempts: seq<Attempt>, ends: seq<Attempt>,
                   totals: Counts)
    requires AllSettled(candidates, log, attempts, ends) && Totals(Reported(log), totals)
    ensures CountsAre(totals, candidates, ends, Below(|candidates|))
  {
    forall o ensures totals.Get(o) == |Under(candidates, ends, Below(|candidates|), o)| {
      TotalIs(candidates, log, attempts, ends, o);
    }
    assert totals.Get(Converted) == totals.converted && totals.Get(AlreadyV4) == totals.alreadyV4;
    assert totals.Get(Failed) == totals.failed && totals.Get(Skipped) == totals.skipped;
  }

  lemma RowFrom(candidates: seq<Candidate>, log: seq<Event>, attempts: seq<Attempt>, ends: seq<Attempt>,
                table: map<Version, Counts>, v: Version)
    requires AllSettled(candidates, log, attempts, ends) && Table(Reported(log), table) && v in table
    ensures CountsAre(table[v], candidates, ends, OfVersion(candidates, v))
  {
    var row := table[v];
    forall o ensures row.Get(o) == |Under(candidates, ends, OfVersion(candidates, v), o)| {
      CellIs(candidates, log, attempts, ends, v, o);
    }
    assert row.Get(Converted) == row.converted && row.Get(AlreadyV4) == row.alreadyV4;
    assert row.Get(Failed) == row.failed && row.Get(Skipped) == row.skipped;
  }

  lemma {:induction false} DiagnosedHas(log: seq<Event>, failureOf: (nat, Version) -> Failure, k: nat)
    requires k < |log| && log[k].result.Settled? && log[k].result.value.outcome == Failed
    ensures failureOf(log[k].index, log[k].result.value.version) in Diagnosed(log, failureOf)
  {
    if k < |log| - 1 {
      DiagnosedHas(log[..|log| - 1], failureOf, k);
    }
  }

  lemma {:induction false} DiagnosedFrom(log: seq<Event>, failureOf: (nat, Version) -> Failure, f: Failure)
    returns (k: nat)
    requires f in Diagnosed(log, failureOf)
    ensures k < |log| && log[k].result.Settled? && log[k].result.value.outcome == Failed
    ensures f == failureOf(log[k].index, log[k].result.value.version)
  {
    var n := |log| - 1;
    if f in Diagnosed(log[..n], failureOf) {
      k := DiagnosedFrom(log[..n], failureOf, f);
    } else {
      k := n;
    }
  }

  /** Input `i` failed as what it is labelled, and `f` is its diagnostic. */
  predicate FailedWith(candidates: seq<Candidate>, ends: seq<Attempt>, failureOf: (nat, Version) -> Failure,
                       f: Failure, i: nat)
    requires |ends| == |candidates|
  {
    && i < |candidates| && CountedAs(candidates[i], ends[i], Failed)
    && f == failureOf(i, if candidates[i].source.Some? then candidates[i].source.value else "unknown")
  }

  /** The diagnostics are those of the failed inputs. */
  lemma FailuresAre(candidates: seq<Candidate>, log: seq<Event>, attempts: seq<Attempt>, ends: seq<Attempt>,
                    failureOf: (nat, Version) -> Failure, f: Failure)
    requires AllSettled(candidates, log, attempts, ends)
    ensures f in Diagnosed(log, failureOf) <==> exists i: nat :: FailedWith(candidates, ends, failureOf, f, i)
  {
    if f in Diagnosed(log, failureOf) {
      var k := DiagnosedFrom(log, failureOf, f);
      VisitOutcome(candidates, log, attempts, k);
      assert FailedWith(candidates, ends, failureOf, f, log[k].index);
    }
    if i: nat :| FailedWith(candidates, ends, failureOf, f, i) {
      assert SettledOnce(log, i);
      var k :| SettledAt(log, i, k);
      VisitOutcome(candidates, log, attempts, k);
      DiagnosedHas(log, failureOf, k);
    }
  }

  /**
   * The report that a finished migration is left with, for any attempts and however the visits interleave: every
   * input is counted once, in total and for its version, under what its last attempt came to.
   */
  method ReportOf(c: Config, ghost run: seq<State>, log: seq<Event>, candidates: seq<Candidate>,
                  failureOf: (nat, Version) -> Failure, ghost attempts: seq<Attempt>)
    returns (report: Report, ghost ends: seq<Attempt>)
    requires c.jobs > 0 && Run(c, run) && run[|run| - 1].phase.Finished? && log == run[|run| - 1].log
    requires Attempted(candidates, log, attempts) && c.count == |candidates|
    requires forall i, v :: failureOf(i, v).version == v
    ensures report.Valid() && |report.failures| == report.totals.failed
    ensures |ends| == |candidates| && Ends(log, attempts, ends)
    ensures Reports(report.totals, report.bySourceVersion, candidates, ends)
    ensures forall f :: f in report.failures <==> exists i: nat :: FailedWith(candidates, ends, failureOf, f, i)
    ensures
      var t := report.totals;
      t.converted + t.alreadyV4 + t.failed + t.skipped == |candidates|
  {
    report := Replay(log, failureOf);
    AttemptsAnswer(candidates, log, attempts);
    SettledOnceEach(c, run, candidates, log);
    ends := LastAttempts(log, attempts, |candidates|);
    ReportIs(candidates, log, attempts, ends, report.totals, report.bySourceVersion);
    forall f ensures f in report.failures <==> exists i: nat :: FailedWith(candidates, ends, failureOf, f, i) {
      FailuresAre(candidates, log, attempts, ends, failureOf, f);
    }
    TotalsCoverInputs(c, run, candidates, report.totals);
  }
}
