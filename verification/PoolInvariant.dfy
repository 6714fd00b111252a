/** What holds in every state of the pool, however its workers interleave. */
module PoolInvariant {
  import opened Sorting
  import opened MigrationPool

  ghost predicate Inv(c: Config, s: State) {
    && s.next <= c.count && |s.workers| == Workers(c)
    && s.deferred == DeferredBy(s.log)
    && Claims(s.next, Visited(s.log, false), s.workers)
    && InitialFirst(s.log)
    && (forall w | 0 <= w < |s.workers| && s.workers[w].Returned? :: s.next == c.count)
    && PhaseInv(c, s)
  }

  /** The claimed indices are the first `next`, each visited once already or held by one worker. */
  ghost predicate Claims(next: nat, visited: seq<nat>, workers: seq<Worker>) {
    && NoDup(visited)
    && (forall k | k in visited :: k < next)
    && (forall w | 0 <= w < |workers| && workers[w].Awaiting? ::
        workers[w].index < next && workers[w].index !in visited)
    && (forall v, w | 0 <= v < w < |workers| && workers[v].Awaiting? && workers[w].Awaiting? ::
        workers[v].index != workers[w].index)
    && (forall k: nat | k < next :: k in visited || HeldBy(workers, k))
  }

  /** Every initial visit completed before the first retried one. */
  predicate InitialFirst(log: seq<Event>) {
    forall i, j | 0 <= i < j < |log| && log[i].retry :: log[j].retry
  }

  predicate NoRetries(log: seq<Event>) {
    forall i | 0 <= i < |log| :: !log[i].retry
  }

  lemma InitialFirstSnoc(log: seq<Event>, e: Event)
    requires InitialFirst(log) && (e.retry || NoRetries(log))
    ensures InitialFirst(log + [e])
    ensures !e.retry ==> NoRetries(log + [e])
  {
  }

  lemma {:induction false} NothingRetried(log: seq<Event>)
    ensures NoRetries(log) <==> Visited(log, true) == []
  {
    if log != [] {
      var n := |log| - 1;
      NothingRetried(log[..n]);
      assert NoRetries(log) <==> NoRetries(log[..n]) && !log[n].retry;
    }
  }

  ghost predicate PhaseInv(c: Config, s: State) {
    match s.phase
    case Initial => NoRetries(s.log) && (AnyThrew(s.workers) <==> SomeRejected(s.log))
    case Retrying(order, done, active) =>
      && Drained(c, s) && !SomeRejected(s.log)
      && order == Sort(Ascending(), s.deferred)
      && done <= |order| && (active ==> done < |order|)
      && Visited(s.log, true) == order[..done]
    case Finished =>
      && Drained(c, s) && !SomeRejected(s.log)
      && Visited(s.log, true) == Sort(Ascending(), s.deferred)
    case Aborted =>
      && Settledness(s.workers) && SomeRejected(s.log)
      && (AnyThrew(s.workers) ==> NoRetries(s.log))
      && (!AnyThrew(s.workers) ==> Drained(c, s) && Visited(s.log, true) <= Sort(Ascending(), s.deferred))
  }

  /** The initial pass is over: every index was claimed and no visit is left running. */
  ghost predicate Drained(c: Config, s: State) {
    && Settledness(s.workers) && !AnyThrew(s.workers)
    && s.next == c.count
  }

  lemma VisitedSnoc(log: seq<Event>, e: Event, retry: bool)
    ensures Visited(log + [e], retry) == Visited(log, retry) + if e.retry == retry then [e.index] else []
    ensures DeferredBy(log + [e]) == DeferredBy(log) + if !e.retry && e.result.Deferred? then [e.index] else []
    ensures SomeRejected(log + [e]) <==> SomeRejected(log) || e.result.Rejected?
  {
    var more := log + [e];
    assert more[..|log|] == log;
    if SomeRejected(log) {
      var k :| 0 <= k < |log| && log[k].result.Rejected?;
      assert more[k].result.Rejected?;
    }
    if e.result.Rejected? {
      assert more[|log|].result.Rejected?;
    }
    if SomeRejected(more) {
      var k :| 0 <= k < |more| && more[k].result.Rejected?;
      assert k < |log| ==> log[k].result.Rejected?;
    }
  }

  /** Replacing worker `w` keeps who holds the other indices. */
  lemma HeldElsewhere(workers: seq<Worker>, w: nat, to: Worker, k: nat)
    requires w < |workers| && HeldBy(workers, k) && workers[w] != Awaiting(k)
    ensures HeldBy(workers[w := to], k)
  {
    var v :| 0 <= v < |workers| && workers[v] == Awaiting(k);
    assert workers[w := to][v] == Awaiting(k);
  }

  lemma ClaimNext(next: nat, visited: seq<nat>, workers: seq<Worker>, w: nat)
    requires Claims(next, visited, workers) && w < |workers| && workers[w].Looping?
    ensures Claims(next + 1, visited, workers[w := Awaiting(next)])
  {
    var now := workers[w := Awaiting(next)];
    assert now[w] == Awaiting(next);
    forall k: nat | k < next + 1 ensures k in visited || HeldBy(now, k) {
      if k < next && k !in visited {
        HeldElsewhere(workers, w, Awaiting(next), k);
      }
    }
  }

  lemma ClaimsIdle(next: nat, visited: seq<nat>, workers: seq<Worker>, w: nat)
    requires Claims(next, visited, workers) && w < |workers| && workers[w].Looping?
    ensures Claims(next, visited, workers[w := Returned])
  {
    forall k: nat | k < next ensures k in visited || HeldBy(workers[w := Returned], k) {
      if k !in visited {
        HeldElsewhere(workers, w, Returned, k);
      }
    }
  }

  lemma ClaimsVisited(next: nat, visited: seq<nat>, workers: seq<Worker>, w: nat, to: Worker)
    requires Claims(next, visited, workers) && w < |workers| && workers[w].Awaiting? && !to.Awaiting?
    ensures Claims(next, visited + [workers[w].index], workers[w := to])
  {
    var i := workers[w].index;
    forall k: nat | k < next ensures k in visited + [i] || HeldBy(workers[w := to], k) {
      if k !in visited && k != i {
        HeldElsewhere(workers, w, to, k);
      }
    }
  }

  lemma StartInv(c: Config)
    ensures Inv(c, Start(c))
  {
  }

  lemma ClaimInv(c: Config, s: State, t: State, w: nat)
    requires Inv(c, s) && Claim(c, s, t, w)
    ensures Inv(c, t)
  {
    ClaimNext(s.next, Visited(s.log, false), s.workers, w);
    Unchanged(s.workers, w, Awaiting(s.next));
  }

  lemma LeaveInv(c: Config, s: State, t: State, w: nat)
    requires Inv(c, s) && Leave(c, s, t, w)
    ensures Inv(c, t)
  {
    ClaimsIdle(s.next, Visited(s.log, false), s.workers, w);
    Unchanged(s.workers, w, Returned);
  }

  /** Replacing a worker that has not thrown by one that has not thrown hides no thrower. */
  lemma Unchanged(workers: seq<Worker>, w: nat, to: Worker)
    requires w < |workers| && !workers[w].Threw?
    ensures AnyThrew(workers[w := to]) <==> AnyThrew(workers) || to.Threw?
  {
    var now := workers[w := to];
    if AnyThrew(workers) {
      var k :| 0 <= k < |workers| && workers[k].Threw?;
      assert now[k].Threw?;
    }
    if to.Threw? {
      assert now[w].Threw?;
    }
    if AnyThrew(now) {
      var k :| 0 <= k < |now| && now[k].Threw?;
      assert k != w ==> workers[k].Threw?;
    }
  }

  lemma CompleteInv(c: Config, s: State, t: State, w: nat, r: VisitResult)
    requires Inv(c, s) && Complete(c, s, t, w, r)
    ensures Inv(c, t)
  {
    var to := if r.Rejected? then Threw else Looping;
    var e := Event(s.workers[w].index, false, r);
    ClaimsVisited(s.next, Visited(s.log, false), s.workers, w, to);
    InitialFirstSnoc(s.log, e);
    VisitedSnoc(s.log, e, false);
    CompletePhase(c, s, t, w, r);
  }

  lemma CompletePhase(c: Config, s: State, t: State, w: nat, r: VisitResult)
    requires PhaseInv(c, s) && Complete(c, s, t, w, r)
    ensures PhaseInv(c, t)
  {
    var e := Event(s.workers[w].index, false, r);
    InitialFirstSnoc(s.log, e);
    Unchanged(s.workers, w, if r.Rejected? then Threw else Looping);
    VisitedSnoc(s.log, e, false);
  }

  lemma TurnInv(c: Config, s: State, t: State)
    requires c.jobs > 0 && Inv(c, s) && Turn(c, s, t)
    ensures Inv(c, t)
  {
    NothingRetried(s.log);
    if !AnyThrew(s.workers) {
      AllClaimed(c, s);
    }
  }

  lemma AllClaimed(c: Config, s: State)
    requires c.jobs > 0 && Inv(c, s) && Settledness(s.workers) && !AnyThrew(s.workers)
    ensures s.next == c.count
  {
    if c.count > 0 {
      assert s.workers[0].Returned?;
    }
  }

  lemma RetryNextInv(c: Config, s: State, t: State)
    requires Inv(c, s) && RetryNext(c, s, t)
    ensures Inv(c, t)
  {
    assert s.phase.order[..|s.phase.order|] == s.phase.order;
  }

  lemma RetryCompleteInv(c: Config, s: State, t: State, r: VisitResult)
    requires Inv(c, s) && RetryComplete(c, s, t, r)
    ensures Inv(c, t)
  {
    RetryKeepsClaims(s.log, Event(s.phase.order[s.phase.done], true, r));
    InitialFirstSnoc(s.log, Event(s.phase.order[s.phase.done], true, r));
    RetryPhase(c, s, t, r);
  }

  /** A retried visit is none of the initial pass, and defers nothing. */
  lemma RetryKeepsClaims(log: seq<Event>, e: Event)
    requires e.retry
    ensures Visited(log + [e], false) == Visited(log, false) && DeferredBy(log + [e]) == DeferredBy(log)
  {
    VisitedSnoc(log, e, false);
  }

  lemma RetryPhase(c: Config, s: State, t: State, r: VisitResult)
    requires PhaseInv(c, s) && RetryComplete(c, s, t, r)
    ensures PhaseInv(c, t)
  {
    var order, done := s.phase.order, s.phase.done;
    VisitedSnoc(s.log, Event(order[done], true, r), true);
    PrefixOn(order, done);
  }

  /** The invariant holds in every state of every run. */
  lemma {:induction false} RunInv(c: Config, run: seq<State>, k: nat)
    requires c.jobs > 0 && Run(c, run) && k < |run|
    ensures Inv(c, run[k])
  {
    if k == 0 {
      StartInv(c);
    } else {
      RunInv(c, run, k - 1);
      assert Step(c, run[k - 1], run[k - 1 + 1]);
      var m :| Moves(c, run[k - 1], run[k], m);
      match m {
        case ByClaim(w) => ClaimInv(c, run[k - 1], run[k], w);
        case ByLeave(w) => LeaveInv(c, run[k - 1], run[k], w);
        case ByComplete(w, r) => CompleteInv(c, run[k - 1], run[k], w, r);
        case ByTurn => TurnInv(c, run[k - 1], run[k]);
        case ByRetryNext => RetryNextInv(c, run[k - 1], run[k]);
        case ByRetryComplete(r) => RetryCompleteInv(c, run[k - 1], run[k], r);
      }
    }
  }
}
