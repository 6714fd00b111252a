/** The migration's bookkeeping: outcome totals, the per-version table and the failure groups. */
module MigrationReport {
  import opened Sorting
  import opened MigrationPool
  import opened PoolInvariant
  import opened PoolRuns
  import opened Options

  datatype Counts = Counts(converted: nat, alreadyV4: nat, failed: nat, skipped: nat) {

    function Get(o: Outcome): nat {
      match o
      case Converted => converted
      case AlreadyV4 => alreadyV4
      case Failed => failed
      case Skipped => skipped
    }

    function Bump(o: Outcome): Counts {
      match o
      case Converted => this.(converted := converted + 1)
      case AlreadyV4 => this.(alreadyV4 := alreadyV4 + 1)
      case Failed => this.(failed := failed + 1)
      case Skipped => this.(skipped := skipped + 1)
    }

    function Sum(): nat {
      converted + alreadyV4 + failed + skipped
    }
  }

  const NO_COUNTS := Counts(0, 0, 0, 0)

  datatype Failure = Failure(
    inputPath: string, version: Version, reason: string, errorName: string,
    eventType: Option<string>, member: Option<string>, child: bool, message: string)

  // ----- what the tables must say about the records

  function Tally(records: seq<Record>, o: Outcome): nat {
    if records == [] then 0
    else Tally(records[..|records| - 1], o) + if records[|records| - 1].outcome == o then 1 else 0
  }

  function TallyOf(records: seq<Record>, v: Version, o: Outcome): nat {
    if records == [] then 0
    else TallyOf(records[..|records| - 1], v, o) + if records[|records| - 1] == Record(v, o) then 1 else 0
  }

  /** Every record is counted under exactly one outcome. */
  lemma {:induction false} TallyTotal(records: seq<Record>)
    ensures Tally(records, Converted) + Tally(records, AlreadyV4) + Tally(records, Failed)
      + Tally(records, Skipped) == |records|
  {
    if records != [] {
      TallyTotal(records[..|records| - 1]);
    }
  }

  /** A column of the per-version table, added up over a listing of the versions. */
  function ColumnSum(versions: seq<Version>, table: map<Version, Counts>, o: Outcome): nat
    requires forall v | v in versions :: v in table
  {
    if versions == [] then 0
    else
      var n := |versions| - 1;
      ColumnSum(versions[..n], table, o) + table[versions[n]].Get(o)
  }

  function ColumnTally(versions: seq<Version>, records: seq<Record>, o: Outcome): nat {
    if versions == [] then 0
    else ColumnTally(versions[..|versions| - 1], records, o) + TallyOf(records, versions[|versions| - 1], o)
  }

  lemma {:induction false} ColumnOfNone(versions: seq<Version>, o: Outcome)
    ensures ColumnTally(versions, [], o) == 0
  {
    if versions != [] {
      ColumnOfNone(versions[..|versions| - 1], o);
    }
  }

  lemma {:induction false} ColumnSnoc(versions: seq<Version>, records: seq<Record>, o: Outcome)
    requires records != [] && NoDup(versions)
    ensures var n := |records| - 1;
            ColumnTally(versions, records, o) == ColumnTally(versions, records[..n], o)
              + (if records[n].outcome == o && records[n].version in versions then 1 else 0)
  {
    if versions != [] {
      var init, last := versions[..|versions| - 1], versions[|versions| - 1];
      assert versions == init + [last];
      NoDupSnoc(init, last);
      ColumnSnoc(init, records, o);
    }
  }

  /** Whatever the listing of versions, each column adds up to the total of its outcome. */
  lemma {:induction false} ColumnsAddUp(versions: seq<Version>, records: seq<Record>, o: Outcome)
    requires NoDup(versions) && forall k | 0 <= k < |records| :: records[k].version in versions
    ensures ColumnTally(versions, records, o) == Tally(records, o)
    decreases |records|
  {
    if records == [] {
      ColumnOfNone(versions, o);
    } else {
      ColumnSnoc(versions, records, o);
      ColumnsAddUp(versions, records[..|records| - 1], o);
    }
  }

  predicate Totals(records: seq<Record>, totals: Counts) {
    forall o :: totals.Get(o) == Tally(records, o)
  }

  predicate Occurs(records: seq<Record>, v: Version) {
    exists k :: 0 <= k < |records| && records[k].version == v
  }

  ghost predicate Table(records: seq<Record>, table: map<Version, Counts>) {
    && (forall v, o | v in table :: table[v].Get(o) == TallyOf(records, v, o))
    && (forall v :: v in table <==> Occurs(records, v))
  }

  lemma TotalsSnoc(records: seq<Record>, totals: Counts, r: Record)
    requires Totals(records, totals)
    ensures Totals(records + [r], totals.Bump(r.outcome))
  {
    assert (records + [r])[..|records|] == records;
  }

  lemma {:induction false} UnseenVersion(records: seq<Record>, v: Version, o: Outcome)
    requires forall k | 0 <= k < |records| :: records[k].version != v
    ensures TallyOf(records, v, o) == 0
  {
    if records != [] {
      UnseenVersion(records[..|records| - 1], v, o);
    }
  }

  lemma TableSnoc(records: seq<Record>, table: map<Version, Counts>, r: Record)
    requires Table(records, table)
    ensures var was := if r.version in table then table[r.version] else NO_COUNTS;
            Table(records + [r], table[r.version := was.Bump(r.outcome)])
  {
    var was := if r.version in table then table[r.version] else NO_COUNTS;
    var now := table[r.version := was.Bump(r.outcome)];
    forall v ensures v in now <==> Occurs(records + [r], v) {
      OccursSnoc(records, r, v);
    }
    forall v, o | v in now ensures now[v].Get(o) == TallyOf(records + [r], v, o) {
      CellSnoc(records, table, r, v, o);
    }
  }

  lemma CellSnoc(records: seq<Record>, table: map<Version, Counts>, r: Record, v: Version, o: Outcome)
    requires Table(records, table) && (v in table || v == r.version)
    ensures
      var was := if r.version in table then table[r.version] else NO_COUNTS;
      table[r.version := was.Bump(r.outcome)][v].Get(o) == TallyOf(records + [r], v, o)
  {
    TallySnoc(records, r, v, o);
    if v !in table {
      assert !Occurs(records, v);
      UnseenVersion(records, v, o);
    }
  }

  lemma OccursSnoc(records: seq<Record>, r: Record, v: Version)
    ensures Occurs(records + [r], v) <==> Occurs(records, v) || v == r.version
  {
    var all := records + [r];
    if v == r.version {
      assert all[|records|].version == v;
    }
    if k :| 0 <= k < |records| && records[k].version == v {
      assert all[k].version == v;
    }
  }

  lemma TallySnoc(records: seq<Record>, r: Record, v: Version, o: Outcome)
    ensures TallyOf(records + [r], v, o) == TallyOf(records, v, o) + if r == Record(v, o) then 1 else 0
  {
    assert (records + [r])[..|records|] == records;
  }

  /** The counters and lists the visits update. */
  class Report {
    var totals: Counts
    var bySourceVersion: map<Version, Counts>
    var failures: seq<Failure>
    ghost var records: seq<Record>

    /** The counters say what was recorded. */
    ghost predicate Counted()
      reads this
    {
      Totals(records, totals) && Table(records, bySourceVersion)
    }

    /** And every failure that was counted is kept. */
    ghost predicate Valid()
      reads this
    {
      Counted() && |failures| == totals.failed
    }

    constructor ()
      ensures Valid() && records == [] && failures == []
    {
      totals, bySourceVersion, failures, records := NO_COUNTS, map[], [], [];
    }

    /** Count an outcome, in total and for its version. */
    method RecordOutcome(version: Version, outcome: Outcome)
      requires Counted()
      modifies this`totals, this`bySourceVersion, this`records
      ensures Counted() && records == old(records) + [Record(version, outcome)]
      ensures totals == old(totals).Bump(outcome)
    {
      TotalsSnoc(records, totals, Record(version, outcome));
      TableSnoc(records, bySourceVersion, Record(version, outcome));
      totals := totals.Bump(outcome);
      var counts := if version in bySourceVersion then bySourceVersion[version] else NO_COUNTS;
      bySourceVersion := bySourceVersion[version := counts.Bump(outcome)];
      records := records + [Record(version, outcome)];
    }

    /** Keep a failure's diagnostic and count it. */
    method Fail(failure: Failure)
      requires Valid()
      modifies this
      ensures Valid() && records == old(records) + [Record(failure.version, Failed)]
      ensures failures == old(failures) + [failure]
    {
      failures := failures + [failure];
      RecordOutcome(failure.version, Failed);
    }
  }

  lemma {:induction false} TableColumn(versions: seq<Version>, records: seq<Record>, table: map<Version, Counts>,
                                       o: Outcome)
    requires Table(records, table) && forall v | v in versions :: v in table
    ensures ColumnSum(versions, table, o) == ColumnTally(versions, records, o)
  {
    if versions != [] {
      TableColumn(versions[..|versions| - 1], records, table, o);
    }
  }

  /** In a valid report the table's columns add up to the totals, and the totals to the records. */
  lemma TableAddsUp(versions: seq<Version>, records: seq<Record>, totals: Counts, table: map<Version, Counts>)
    requires Totals(records, totals) && Table(records, table)
    requires NoDup(versions) && forall v :: v in versions <==> v in table
    ensures totals.Sum() == |records|
    ensures forall o :: ColumnSum(versions, table, o) == totals.Get(o)
  {
    TotalsSum(records, totals);
    forall k | 0 <= k < |records| ensures records[k].version in versions {
      assert Occurs(records, records[k].version);
    }
    forall o ensures ColumnSum(versions, table, o) == totals.Get(o) {
      TableColumn(versions, records, table, o);
      ColumnsAddUp(versions, records, o);
    }
  }

  // ----- conservation over a whole run of the pool

  /** The outcomes that the completed visits of a run reported, in completion order. */
  function Reported(log: seq<Event>): seq<Record> {
    if log == [] then []
    else
      var e := log[|log| - 1];
      Reported(log[..|log| - 1]) + if e.result.Settled? then [e.result.value] else []
  }

  /** The diagnostics of the failed visits, in completion order. */
  function Diagnosed(log: seq<Event>, failureOf: (nat, Version) -> Failure): seq<Failure> {
    if log == [] then []
    else
      var e := log[|log| - 1];
      var failed := e.result.Settled? && e.result.value.outcome == Failed;
      Diagnosed(log[..|log| - 1], failureOf) +
      if failed then [failureOf(e.index, e.result.value.version)] else []
  }

  /** What the visits of a run leave in the report, each settled visit counting its outcome as it completes. */
  method Replay(log: seq<Event>, failureOf: (nat, Version) -> Failure) returns (report: Report)
    requires forall i, v :: failureOf(i, v).version == v
    ensures fresh(report) && report.Valid() && report.records == Reported(log)
    ensures report.failures == Diagnosed(log, failureOf)
  {
    report := new Report();
    for k := 0 to |log|
      invariant fresh(report) && report.Valid() && report.records == Reported(log[..k])
      invariant report.failures == Diagnosed(log[..k], failureOf)
    {
      assert log[..k + 1][..k] == log[..k];
      var e := log[k];
      if e.result.Settled? {
        var version, outcome := e.result.value.version, e.result.value.outcome;
        if outcome == Failed {
          report.Fail(failureOf(e.index, version));
        } else {
          report.RecordOutcome(version, outcome);
        }
      }
    }
    PrefixAll(log);
  }

  /** The visit callback never defers a retried input. */
  predicate RetriesSettle(log: seq<Event>) {
    forall k | 0 <= k < |log| && log[k].retry :: !log[k].result.Deferred?
  }

  lemma {:induction false} ReportedCount(log: seq<Event>)
    requires RetriesSettle(log) && !SomeRejected(log)
    ensures |Reported(log)| + |DeferredBy(log)| == |Visited(log, false)| + |Visited(log, true)|
  {
    if log != [] {
      var n := |log| - 1;
      assert !SomeRejected(log[..n]) by {
        assert forall k | 0 <= k < n :: log[..n][k] == log[k];
      }
      assert !log[n].result.Rejected?;
      ReportedCount(log[..n]);
    }
  }

  /**
   * A run in which only candidate processing can fail reports exactly one outcome for every
   * discovered input, the deferred and retried ones included.
   */
  lemma OutcomesConserved(c: Config, run: seq<State>, totals: Counts)
    requires c.jobs > 0 && Run(c, run) && run[|run| - 1].phase.Finished?
    requires RetriesSettle(run[|run| - 1].log) && Totals(Reported(run[|run| - 1].log), totals)
    ensures totals.Sum() == c.count
  {
    var log := run[|run| - 1].log;
    FinishedCounts(c, run);
    ReportedCount(log);
    TotalsSum(Reported(log), totals);
  }

  lemma TotalsSum(records: seq<Record>, totals: Counts)
    requires Totals(records, totals)
    ensures totals.Sum() == |records|
  {
    TallyTotal(records);
    assert totals.Get(Converted) == Tally(records, Converted) && totals.Get(AlreadyV4) == Tally(records, AlreadyV4);
    assert totals.Get(Failed) == Tally(records, Failed) && totals.Get(Skipped) == Tally(records, Skipped);
  }

  lemma FinishedCounts(c: Config, run: seq<State>)
    requires c.jobs > 0 && Run(c, run) && run[|run| - 1].phase.Finished?
    ensures var log := run[|run| - 1].log;
            !SomeRejected(log) && |Visited(log, false)| == c.count && |Visited(log, true)| == |DeferredBy(log)|
  {
    var s := run[|run| - 1];
    FinishedRun(c, run);
    RunInv(c, run, |run| - 1);
    assert |multiset(Sort(Ascending(), s.deferred))| == |multiset(s.deferred)|;
    NoDupMembers(Visited(s.log, false));
    assert Members(Visited(s.log, false)) == Below(c.count);
  }

  // ----- failure groups

  datatype GroupKey = GroupKey(version: Version, reason: string, errorName: string,
                               eventType: Option<string>, member: Option<string>, child: bool)

  datatype FailureGroup = FailureGroup(key: GroupKey, count: nat, items: seq<Failure>)

  function KeyOf(f: Failure): GroupKey {
    GroupKey(f.version, f.reason, f.errorName, f.eventType, f.member, f.child)
  }

  /** The failures of one key, in their order. */
  function OfKey(failures: seq<Failure>, key: GroupKey): (r: seq<Failure>)
    ensures forall f | f in r :: KeyOf(f) == key
  {
    if failures == [] then []
    else
      var last := failures[|failures| - 1];
      OfKey(failures[..|failures| - 1], key) + if KeyOf(last) == key then [last] else []
  }

  /** The groups partition the failures by key, each group counted and none of them empty. */
  ghost predicate Grouped(groups: seq<FailureGroup>, failures: seq<Failure>) {
    && (forall i, j | 0 <= i < j < |groups| :: groups[i].key != groups[j].key)
    && (forall i | 0 <= i < |groups| :: HoldsKey(groups[i], failures))
    && (forall f | f in failures :: HasGroup(groups, KeyOf(f)))
  }

  /** The group holds exactly the failures of its key. */
  ghost predicate HoldsKey(g: FailureGroup, failures: seq<Failure>) {
    && g.items != [] && g.count == |g.items|
    && multiset(g.items) == multiset(OfKey(failures, g.key))
  }

  predicate HasGroup(groups: seq<FailureGroup>, key: GroupKey) {
    exists i :: 0 <= i < |groups| && groups[i].key == key
  }

  function IndexOfKey(groups: seq<FailureGroup>, key: GroupKey): (i: nat)
    ensures i <= |groups| && (i < |groups| ==> groups[i].key == key)
    ensures i == |groups| ==> !HasGroup(groups, key)
  {
    if groups == [] then 0
    else if groups[0].key == key then 0
    else 1 + IndexOfKey(groups[1..], key)
  }

  lemma {:induction false} NoneOfKey(failures: seq<Failure>, key: GroupKey)
    requires forall f | f in failures :: KeyOf(f) != key
    ensures OfKey(failures, key) == []
  {
    if failures != [] {
      assert failures == failures[..|failures| - 1] + [failures[|failures| - 1]];
      NoneOfKey(failures[..|failures| - 1], key);
    }
  }

  lemma OfKeySnoc(failures: seq<Failure>, f: Failure, key: GroupKey)
    ensures OfKey(failures + [f], key) == OfKey(failures, key) + if KeyOf(f) == key then [f] else []
  {
    assert (failures + [f])[..|failures|] == failures;
  }

  /** Add one failure to the group of its key, opening the group when it is the first. */
  function AddFailure(groups: seq<FailureGroup>, f: Failure): seq<FailureGroup> {
    var i := IndexOfKey(groups, KeyOf(f));
    if i < |groups| then groups[i := groups[i].(count := groups[i].count + 1, items := groups[i].items + [f])]
    else groups + [FailureGroup(KeyOf(f), 1, [f])]
  }

  lemma AddKeepsGroups(groups: seq<FailureGroup>, f: Failure, key: GroupKey)
    requires HasGroup(groups, key) || key == KeyOf(f)
    ensures HasGroup(AddFailure(groups, f), key)
  {
    var now, i := AddFailure(groups, f), IndexOfKey(groups, KeyOf(f));
    if key == KeyOf(f) {
      assert now[i].key == key;
    } else {
      var k :| 0 <= k < |groups| && groups[k].key == key;
      assert now[k].key == key;
    }
  }

  lemma AddGrouped(groups: seq<FailureGroup>, failures: seq<Failure>, f: Failure)
    requires Grouped(groups, failures)
    ensures Grouped(AddFailure(groups, f), failures + [f])
  {
    var now := AddFailure(groups, f);
    forall k | 0 <= k < |now| ensures HoldsKey(now[k], failures + [f]) {
      AddHoldsKey(groups, failures, f, k);
    }
    forall e | e in failures + [f] ensures HasGroup(now, KeyOf(e)) {
      AddKeepsGroups(groups, f, KeyOf(e));
    }
    forall a, b | 0 <= a < b < |now| ensures now[a].key != now[b].key {
      if b == |groups| {
        assert groups[a].key != KeyOf(f);
      }
    }
  }

  lemma AddHoldsKey(groups: seq<FailureGroup>, failures: seq<Failure>, f: Failure, k: nat)
    requires Grouped(groups, failures) && k < |AddFailure(groups, f)|
    ensures HoldsKey(AddFailure(groups, f)[k], failures + [f])
  {
    var g := AddFailure(groups, f)[k];
    OfKeySnoc(failures, f, g.key);
    if k == |groups| {
      NewKey(groups, failures, f);
    } else {
      assert HoldsKey(groups[k], failures);
      assert k == IndexOfKey(groups, KeyOf(f)) <==> g.key == KeyOf(f);
      AlsoHolds(groups[k], failures, f);
    }
  }

  /** A group takes the failure in exactly when it has its key. */
  lemma AlsoHolds(g: FailureGroup, failures: seq<Failure>, f: Failure)
    requires HoldsKey(g, failures)
    ensures if KeyOf(f) == g.key then HoldsKey(g.(count := g.count + 1, items := g.items + [f]), failures + [f])
            else HoldsKey(g, failures + [f])
  {
    OfKeySnoc(failures, f, g.key);
    var was := OfKey(failures, g.key);
    assert was + [] == was && multiset(was + [f]) == multiset(was) + multiset{f};
    assert multiset(g.items + [f]) == multiset(g.items) + multiset{f};
  }

  lemma NewKey(groups: seq<FailureGroup>, failures: seq<Failure>, f: Failure)
    requires Grouped(groups, failures) && !HasGroup(groups, KeyOf(f))
    ensures OfKey(failures, KeyOf(f)) == []
  {
    forall e | e in failures ensures KeyOf(e) != KeyOf(f) {
      assert HasGroup(groups, KeyOf(e));
    }
    NoneOfKey(failures, KeyOf(f));
  }

  function SortItems(groups: seq<FailureGroup>, pathLe: (Failure, Failure) -> bool): (r: seq<FailureGroup>)
    ensures |r| == |groups|
    ensures forall i | 0 <= i < |r| :: r[i] == groups[i].(items := Sort(pathLe, groups[i].items))
  {
    seq(|groups|, i requires 0 <= i < |groups| => groups[i].(items := Sort(pathLe, groups[i].items)))
  }

  /** The groups come in the order of their keys, the failures of a group in the order of their paths. */
  ghost predicate InOrder(summary: seq<FailureGroup>, keyLe: (GroupKey, GroupKey) -> bool,
                          pathLe: (Failure, Failure) -> bool) {
    && (TotalPreorder(keyLe) ==> forall i, j | 0 <= i < j < |summary| :: keyLe(summary[i].key, summary[j].key))
    && (TotalPreorder(pathLe) ==> forall i | 0 <= i < |summary| :: Sorted(pathLe, summary[i].items))
  }

  /** Gather the failures by version and recognised facts, in order of first appearance. */
  method GroupFailures(failures: seq<Failure>) returns (groups: seq<FailureGroup>)
    ensures Grouped(groups, failures)
  {
    groups := [];
    for k := 0 to |failures|
      invariant Grouped(groups, failures[..k])
    {
      AddGrouped(groups, failures[..k], failures[k]);
      groups := AddFailure(groups, failures[k]);
      PrefixOn(failures, k);
    }
    PrefixAll(failures);
  }

  /** The facts that keep two failures apart. */
  predicate SameFacts(f: Failure, g: Failure) {
    && f.version == g.version && f.reason == g.reason && f.errorName == g.errorName
    && f.eventType == g.eventType && f.member == g.member && f.child == g.child
  }

  /** A group is all the failures of the same facts, however often each occurs. */
  ghost predicate GroupOfFacts(g: FailureGroup, failures: seq<Failure>) {
    && g.items != [] && g.count == |g.items|
    && g.key.version == g.items[0].version && g.key.reason == g.items[0].reason
    && g.key.errorName == g.items[0].errorName && g.key.eventType == g.items[0].eventType
    && g.key.member == g.items[0].member && g.key.child == g.items[0].child
    && forall f :: multiset(g.items)[f] == if SameFacts(f, g.items[0]) then multiset(failures)[f] else 0
  }

  /** Every failure stands in a group, and two failures in the same one exactly when their facts are the same. */
  ghost predicate GroupedByFacts(groups: seq<FailureGroup>, failures: seq<Failure>) {
    && (forall i | 0 <= i < |groups| :: GroupOfFacts(groups[i], failures))
    && (forall i, j | 0 <= i < j < |groups| && groups[i].items != [] && groups[j].items != [] ::
          !SameFacts(groups[i].items[0], groups[j].items[0]))
    && forall f | f in failures :: exists i :: 0 <= i < |groups| && f in groups[i].items
  }

  lemma {:induction false} OfKeyCounts(failures: seq<Failure>, key: GroupKey, f: Failure)
    ensures multiset(OfKey(failures, key))[f] == if KeyOf(f) == key then multiset(failures)[f] else 0
  {
    if failures != [] {
      var n := |failures| - 1;
      assert failures == failures[..n] + [failures[n]];
      OfKeyCounts(failures[..n], key, f);
    }
  }

  lemma KeysAreFacts(f: Failure, g: Failure)
    ensures KeyOf(f) == KeyOf(g) <==> SameFacts(f, g)
  {
  }

  lemma GroupHasFacts(g: FailureGroup, failures: seq<Failure>)
    requires HoldsKey(g, failures)
    ensures GroupOfFacts(g, failures) && KeyOf(g.items[0]) == g.key
  {
    SameElems(g.items, OfKey(failures, g.key));
    assert g.items[0] in g.items;
    forall f ensures multiset(g.items)[f] == if SameFacts(f, g.items[0]) then multiset(failures)[f] else 0 {
      OfKeyCounts(failures, g.key, f);
      KeysAreFacts(f, g.items[0]);
    }
  }

  lemma FactsGrouped(groups: seq<FailureGroup>, failures: seq<Failure>)
    requires Grouped(groups, failures)
    ensures GroupedByFacts(groups, failures)
  {
    forall i | 0 <= i < |groups|
      ensures GroupOfFacts(groups[i], failures) && KeyOf(groups[i].items[0]) == groups[i].key
    {
      assert HoldsKey(groups[i], failures);
      GroupHasFacts(groups[i], failures);
    }
    forall f | f in failures ensures exists i :: 0 <= i < |groups| && f in groups[i].items {
      assert HasGroup(groups, KeyOf(f));
      var i :| 0 <= i < |groups| && groups[i].key == KeyOf(f);
      KeysAreFacts(f, groups[i].items[0]);
      assert multiset(groups[i].items)[f] > 0;
    }
  }

  /** Group the failures by their facts; groups and their items come out sorted. */
  method SummarizeFailures(failures: seq<Failure>, keyLe: (GroupKey, GroupKey) -> bool,
                           pathLe: (Failure, Failure) -> bool)
    returns (summary: seq<FailureGroup>)
    ensures GroupedByFacts(summary, failures) && Grouped(summary, failures)
    ensures InOrder(summary, keyLe, pathLe)
  {
    var groups := GroupFailures(failures);
    var sorted := Sort(GroupLe(keyLe), groups);
    SortedGrouped(groups, sorted, failures);
    ItemsGrouped(sorted, failures, pathLe);
    summary := SortItems(sorted, pathLe);
    SummaryInOrder(groups, keyLe, pathLe);
    FactsGrouped(summary, failures);
  }

  lemma SummaryInOrder(groups: seq<FailureGroup>, keyLe: (GroupKey, GroupKey) -> bool,
                       pathLe: (Failure, Failure) -> bool)
    ensures InOrder(SortItems(Sort(GroupLe(keyLe), groups), pathLe), keyLe, pathLe)
  {
    var sorted := Sort(GroupLe(keyLe), groups);
    if TotalPreorder(keyLe) {
      GroupsInOrder(keyLe, groups);
    }
    if TotalPreorder(pathLe) {
      forall i | 0 <= i < |sorted| ensures Sorted(pathLe, Sort(pathLe, sorted[i].items)) {
        SortSorted(pathLe, sorted[i].items);
      }
    }
  }

  function GroupLe(keyLe: (GroupKey, GroupKey) -> bool): (FailureGroup, FailureGroup) -> bool {
    (a: FailureGroup, b: FailureGroup) => keyLe(a.key, b.key)
  }

  lemma GroupsInOrder(keyLe: (GroupKey, GroupKey) -> bool, groups: seq<FailureGroup>)
    requires TotalPreorder(keyLe)
    ensures
      var sorted := Sort(GroupLe(keyLe), groups);
      forall i, j | 0 <= i < j < |sorted| :: keyLe(sorted[i].key, sorted[j].key)
  {
    var le := GroupLe(keyLe);
    forall a, b ensures le(a, b) || le(b, a) {
      assert keyLe(a.key, b.key) || keyLe(b.key, a.key);
    }
    forall a, b, c | le(a, b) && le(b, c) ensures le(a, c) {
      assert keyLe(a.key, b.key) && keyLe(b.key, c.key);
    }
    SortSorted(le, groups);
    var sorted := Sort(le, groups);
    forall i, j | 0 <= i < j < |sorted| ensures keyLe(sorted[i].key, sorted[j].key) {
      assert le(sorted[i], sorted[j]);
    }
  }

  lemma SortedGrouped(groups: seq<FailureGroup>, sorted: seq<FailureGroup>, failures: seq<Failure>)
    requires Grouped(groups, failures) && multiset(sorted) == multiset(groups)
    ensures Grouped(sorted, failures)
  {
    SortedApart(groups, sorted);
    SortedHolds(groups, sorted, failures);
    SortedHas(groups, sorted, failures);
  }

  lemma SortedApart(groups: seq<FailureGroup>, sorted: seq<FailureGroup>)
    requires forall i, j | 0 <= i < j < |groups| :: groups[i].key != groups[j].key
    requires multiset(sorted) == multiset(groups)
    ensures forall i, j | 0 <= i < j < |sorted| :: sorted[i].key != sorted[j].key
  {
    SameElems(groups, sorted);
    NoDupCount(groups);
    NoDupCount(sorted);
    forall i, j | 0 <= i < j < |sorted| ensures sorted[i].key != sorted[j].key {
      OneGroupPerKey(groups, sorted[i], sorted[j]);
    }
  }

  lemma OneGroupPerKey(groups: seq<FailureGroup>, g: FailureGroup, h: FailureGroup)
    requires forall i, j | 0 <= i < j < |groups| :: groups[i].key != groups[j].key
    requires g in groups && h in groups && g != h
    ensures g.key != h.key
  {
    var a :| 0 <= a < |groups| && groups[a] == g;
    var b :| 0 <= b < |groups| && groups[b] == h;
  }

  lemma SortedHolds(groups: seq<FailureGroup>, sorted: seq<FailureGroup>, failures: seq<Failure>)
    requires forall i | 0 <= i < |groups| :: HoldsKey(groups[i], failures)
    requires multiset(sorted) == multiset(groups)
    ensures forall i | 0 <= i < |sorted| :: HoldsKey(sorted[i], failures)
  {
    SameElems(groups, sorted);
    forall i | 0 <= i < |sorted| ensures HoldsKey(sorted[i], failures) {
      assert sorted[i] in sorted;
      var a :| 0 <= a < |groups| && groups[a] == sorted[i];
      assert HoldsKey(groups[a], failures);
    }
  }

  lemma SortedHas(groups: seq<FailureGroup>, sorted: seq<FailureGroup>, failures: seq<Failure>)
    requires forall f | f in failures :: HasGroup(groups, KeyOf(f))
    requires multiset(sorted) == multiset(groups)
    ensures forall f | f in failures :: HasGroup(sorted, KeyOf(f))
  {
    SameElems(groups, sorted);
    forall f | f in failures ensures HasGroup(sorted, KeyOf(f)) {
      assert HasGroup(groups, KeyOf(f));
      var a :| 0 <= a < |groups| && groups[a].key == KeyOf(f);
      assert groups[a] in sorted;
    }
  }

  lemma ItemsGrouped(groups: seq<FailureGroup>, failures: seq<Failure>, pathLe: (Failure, Failure) -> bool)
    requires Grouped(groups, failures)
    ensures Grouped(SortItems(groups, pathLe), failures)
  {
    var r := SortItems(groups, pathLe);
    forall i | 0 <= i < |r| ensures HoldsKey(r[i], failures) {
      assert HoldsKey(groups[i], failures);
      SameElems(r[i].items, groups[i].items);
    }
    forall f | f in failures ensures HasGroup(r, KeyOf(f)) {
      assert HasGroup(groups, KeyOf(f));
      var a :| 0 <= a < |groups| && groups[a].key == KeyOf(f);
      assert r[a].key == KeyOf(f);
    }
  }

  function GroupCounts(groups: seq<FailureGroup>): nat {
    if groups == [] then 0 else GroupCounts(groups[..|groups| - 1]) + groups[|groups| - 1].count
  }

  function CountOfKeys(groups: seq<FailureGroup>, failures: seq<Failure>): nat {
    if groups == [] then 0
    else CountOfKeys(groups[..|groups| - 1], failures) + |OfKey(failures, groups[|groups| - 1].key)|
  }

  lemma {:induction false} CountOfNone(groups: seq<FailureGroup>)
    ensures CountOfKeys(groups, []) == 0
  {
    if groups != [] {
      CountOfNone(groups[..|groups| - 1]);
    }
  }

  lemma {:induction false} CountSnoc(groups: seq<FailureGroup>, failures: seq<Failure>)
    requires failures != [] && forall i, j | 0 <= i < j < |groups| :: groups[i].key != groups[j].key
    ensures var n := |failures| - 1;
            CountOfKeys(groups, failures) == CountOfKeys(groups, failures[..n])
              + (if HasGroup(groups, KeyOf(failures[n])) then 1 else 0)
  {
    if groups != [] {
      var m := |groups| - 1;
      var key := KeyOf(failures[|failures| - 1]);
      CountSnoc(groups[..m], failures);
      HasGroupLast(groups, key);
    }
  }

  lemma HasGroupLast(groups: seq<FailureGroup>, key: GroupKey)
    requires groups != []
    ensures
      var m := |groups| - 1;
      HasGroup(groups, key) <==> HasGroup(groups[..m], key) || groups[m].key == key
  {
    var m := |groups| - 1;
    if i :| 0 <= i < |groups| && groups[i].key == key {
      assert i < m ==> groups[..m][i].key == key;
    }
    if i :| 0 <= i < m && groups[..m][i].key == key {
      assert groups[i].key == key;
    }
  }

  lemma {:induction false} CountsCover(groups: seq<FailureGroup>, failures: seq<Failure>)
    requires forall i, j | 0 <= i < j < |groups| :: groups[i].key != groups[j].key
    requires forall k | 0 <= k < |failures| :: HasGroup(groups, KeyOf(failures[k]))
    ensures CountOfKeys(groups, failures) == |failures|
    decreases |failures|
  {
    if failures == [] {
      CountOfNone(groups);
    } else {
      CountSnoc(groups, failures);
      CountsCover(groups, failures[..|failures| - 1]);
    }
  }

  /** The group counts add up to the number of failures. */
  lemma GroupCountsAddUp(groups: seq<FailureGroup>, failures: seq<Failure>)
    requires Grouped(groups, failures)
    ensures GroupCounts(groups) == |failures|
  {
    CountsCover(groups, failures);
    CountsMatch(groups, failures);
  }

  lemma {:induction false} CountsMatch(groups: seq<FailureGroup>, failures: seq<Failure>)
    requires forall i | 0 <= i < |groups| :: HoldsKey(groups[i], failures)
    ensures GroupCounts(groups) == CountOfKeys(groups, failures)
  {
    if groups != [] {
      var m := |groups| - 1;
      CountsMatch(groups[..m], failures);
      assert HoldsKey(groups[m], failures);
      assert |multiset(groups[m].items)| == |multiset(OfKey(failures, groups[m].key))|;
    }
  }
}
