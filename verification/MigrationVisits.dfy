/** The migration's visit callback, and what a run of the pool over it settles. */
module MigrationVisits {
  import opened Sorting
  import opened Options
  import opened MigrationPool
  import opened PoolRuns
  import opened MigrationReport

  const CURRENT: Version := "4"
  const UNKNOWN: Version := "unknown"

  /** A discovered input: one whose inspection failed, one without a Session, or one of some version. */
  datatype Candidate = Candidate(broken: bool, source: Option<Version>)

  /**
   * What a visit came to: the input was opened, or opening it failed, where `Changed` is the one error
   * that is worth a second attempt; or the visit could not keep its log.
   */
  datatype Attempt = Opened | Changed | Broke | Unlogged

  function VersionOf(c: Candidate): Version {
    if c.source.Some? then c.source.value else UNKNOWN
  }

  predicate Fails(c: Candidate, a: Attempt) {
    c.broken || (c.source.Some? && !a.Opened?)
  }

  function Visit(c: Candidate, a: Attempt, retry: bool): VisitResult {
    if a.Unlogged? then Rejected
    else if Fails(c, a) then
      if a.Changed? && !retry then Deferred else Settled(Record(VersionOf(c), Failed))
    else if c.source.None? then Settled(Record(UNKNOWN, Skipped))
    else Settled(Record(c.source.value, if c.source.value == CURRENT then AlreadyV4 else Converted))
  }

  /** Every completed visit of the log is the callback's, with attempts that may come out in any way. */
  ghost predicate Callback(candidates: seq<Candidate>, log: seq<Event>) {
    forall k | 0 <= k < |log| :: Answered(candidates, log[k])
  }

  ghost predicate Answered(candidates: seq<Candidate>, e: Event) {
    e.index < |candidates| && exists a :: e.result == Visit(candidates[e.index], a, e.retry)
  }

  /** And every visit kept its log, so that only processing the input can have failed. */
  ghost predicate OnlyProcessing(candidates: seq<Candidate>, log: seq<Event>) {
    forall k | 0 <= k < |log| :: Processed(candidates, log[k])
  }

  ghost predicate Processed(candidates: seq<Candidate>, e: Event) {
    e.index < |candidates| && exists a :: a != Unlogged && e.result == Visit(candidates[e.index], a, e.retry)
  }

  /** The callback never defers twice, and rejects only when it cannot keep its log. */
  lemma CallbackSettles(candidates: seq<Candidate>, log: seq<Event>)
    requires Callback(candidates, log)
    ensures RetriesSettle(log)
    ensures OnlyProcessing(candidates, log) <==> !SomeRejected(log)
  {
    forall k | 0 <= k < |log| ensures log[k].retry ==> !log[k].result.Deferred? {
      assert Answered(candidates, log[k]);
    }
    forall k | 0 <= k < |log| ensures Processed(candidates, log[k]) <==> !log[k].result.Rejected? {
      assert Answered(candidates, log[k]);
      var a :| log[k].result == Visit(candidates[log[k].index], a, log[k].retry);
    }
    if !SomeRejected(log) {
      forall k | 0 <= k < |log| ensures Processed(candidates, log[k]) {
        assert !log[k].result.Rejected?;
      }
    } else {
      var k :| 0 <= k < |log| && log[k].result.Rejected?;
      assert !Processed(candidates, log[k]);
    }
  }

  /** A run in which only processing can fail never aborts, so it can only end finished. */
  lemma CallbackNeverAborts(c: Config, run: seq<State>, candidates: seq<Candidate>)
    requires c.jobs > 0 && Run(c, run)
    requires Callback(candidates, run[|run| - 1].log) && OnlyProcessing(candidates, run[|run| - 1].log)
    ensures !run[|run| - 1].phase.Aborted?
  {
    CallbackSettles(candidates, run[|run| - 1].log);
    if run[|run| - 1].phase.Aborted? {
      AbortedRun(c, run);
    }
  }

  /** Event `k` of the log settles input `i`. */
  predicate SettledAt(log: seq<Event>, i: nat, k: nat) {
    k < |log| && log[k].index == i && log[k].result.Settled?
  }

  lemma {:induction false} VisitedAt(log: seq<Event>, retry: bool, i: nat) returns (k: nat)
    requires i in Visited(log, retry)
    ensures k < |log| && log[k].index == i && log[k].retry == retry
  {
    var n := |log| - 1;
    if log[n].index == i && log[n].retry == retry {
      k := n;
    } else {
      k := VisitedAt(log[..n], retry, i);
    }
  }

  lemma {:induction false} VisitedHas(log: seq<Event>, k: nat)
    requires k < |log|
    ensures log[k].index in Visited(log, log[k].retry)
    ensures !log[k].retry && log[k].result.Deferred? ==> log[k].index in DeferredBy(log)
  {
    if k < |log| - 1 {
      VisitedHas(log[..|log| - 1], k);
    }
  }

  /** Two visits of one input in the same pass are the same visit. */
  lemma {:induction false} VisitedOnce(log: seq<Event>, j: nat, k: nat)
    requires j < |log| && k < |log| && NoDup(Visited(log, log[k].retry))
    requires log[j].index == log[k].index && log[j].retry == log[k].retry
    ensures j == k
  {
    var n, retry := |log| - 1, log[k].retry;
    var init := Visited(log[..n], retry);
    NoDupSnoc(init, log[n].index);
    if j < n && k < n {
      assert init + [] == init;
      VisitedOnce(log[..n], j, k);
    } else if j < n {
      VisitedHas(log[..n], j);
    } else if k < n {
      VisitedHas(log[..n], k);
    }
  }

  lemma {:induction false} DeferredAt(log: seq<Event>, i: nat) returns (k: nat)
    requires i in DeferredBy(log)
    ensures k < |log| && log[k].index == i && !log[k].retry && log[k].result.Deferred?
  {
    var n := |log| - 1;
    if log[n].index == i && !log[n].retry && log[n].result.Deferred? {
      k := n;
    } else {
      k := DeferredAt(log[..n], i);
    }
  }

  lemma AscendingNoDup(s: seq<nat>)
    requires StrictlyAscending(s)
    ensures NoDup(s)
  {
  }

  /** Whatever the attempts come to and however they interleave, every input is settled by exactly one visit. */
  lemma EachSettledOnce(c: Config, run: seq<State>, candidates: seq<Candidate>, i: nat) returns (k: nat)
    requires c.jobs > 0 && Run(c, run) && run[|run| - 1].phase.Finished?
    requires Callback(candidates, run[|run| - 1].log) && i < c.count
    ensures var log := run[|run| - 1].log;
            SettledAt(log, i, k) && forall j | SettledAt(log, i, j) :: j == k
  {
    var log := run[|run| - 1].log;
    FinishedRun(c, run);
    CallbackSettles(candidates, log);
    AscendingNoDup(Visited(log, true));
    var first := VisitedAt(log, false, i);
    k := first;
    if log[first].result.Deferred? {
      VisitedHas(log, first);
      k := VisitedAt(log, true, i);
    }
    forall j | SettledAt(log, i, j) ensures j == k {
      OnlySettled(log, first, k, j);
    }
  }

  lemma OnlySettled(log: seq<Event>, first: nat, k: nat, j: nat)
    requires NoDup(Visited(log, false)) && NoDup(Visited(log, true))
    requires forall i :: i in Visited(log, true) <==> i in DeferredBy(log)
    requires first < |log| && k < |log| && j < |log| && !log[first].retry
    requires log[first].index == log[k].index == log[j].index && log[j].result.Settled?
    requires if log[first].result.Deferred? then log[k].retry else k == first
    ensures j == k
  {
    if log[j].retry {
      VisitedHas(log, j);
      var d := DeferredAt(log, log[j].index);
      VisitedOnce(log, d, first);
      VisitedOnce(log, j, k);
    } else {
      VisitedOnce(log, j, first);
    }
  }

  /** The totals of a finished migration add up to the number of discovered inputs. */
  lemma TotalsCoverInputs(c: Config, run: seq<State>, candidates: seq<Candidate>, totals: Counts)
    requires c.jobs > 0 && Run(c, run) && run[|run| - 1].phase.Finished?
    requires Callback(candidates, run[|run| - 1].log) && c.count == |candidates|
    requires Totals(Reported(run[|run| - 1].log), totals)
    ensures totals.converted + totals.alreadyV4 + totals.failed + totals.skipped == |candidates|
  {
    CallbackSettles(candidates, run[|run| - 1].log);
    OutcomesConserved(c, run, totals);
  }
}
