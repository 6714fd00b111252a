/** How runs of the pool end, and that they do. */
module PoolRuns {
  import opened Sorting
  import opened MigrationPool
  import opened PoolInvariant

  /** The indices that were deferred are among those the initial pass visited, each once. */
  lemma {:induction false} DeferredVisited(log: seq<Event>)
    requires NoDup(Visited(log, false))
    ensures NoDup(DeferredBy(log)) && forall k | k in DeferredBy(log) :: k in Visited(log, false)
  {
    if log != [] {
      var n := |log| - 1;
      var init, deferred, i := Visited(log[..n], false), DeferredBy(log[..n]), log[n].index;
      NoDupSnoc(init, i);
      NoDupSnoc(deferred, i);
      assert init + [] == init && deferred + [] == deferred;
      DeferredVisited(log[..n]);
    }
  }

  lemma AscendingPreorder()
    ensures TotalPreorder(Ascending())
  {
  }

  predicate StrictlyAscending(s: seq<nat>) {
    forall i, j | 0 <= i < j < |s| :: s[i] < s[j]
  }

  lemma SortedDeferred(log: seq<Event>)
    requires NoDup(Visited(log, false))
    ensures var order := Sort(Ascending(), DeferredBy(log));
            StrictlyAscending(order) && forall k :: k in order <==> k in DeferredBy(log)
  {
    DeferredVisited(log);
    AscendingPreorder();
    SortSorted(Ascending(), DeferredBy(log));
    SortNoDup(Ascending(), DeferredBy(log));
    SameElems(Sort(Ascending(), DeferredBy(log)), DeferredBy(log));
  }

  lemma NotHeld(workers: seq<Worker>, k: nat)
    requires Settledness(workers)
    ensures !HeldBy(workers, k)
  {
  }

  /**
   * A finished run rejected nothing, visited every input exactly once in the initial pass, and then
   * retried exactly the deferred inputs, once each, in ascending order, after all initial visits.
   */
  lemma FinishedRun(c: Config, run: seq<State>)
    requires c.jobs > 0 && Run(c, run) && run[|run| - 1].phase.Finished?
    ensures var log := run[|run| - 1].log;
            && !SomeRejected(log)
            && NoDup(Visited(log, false)) && (forall k: nat :: k in Visited(log, false) <==> k < c.count)
            && StrictlyAscending(Visited(log, true))
            && (forall k :: k in Visited(log, true) <==> k in DeferredBy(log))
            && InitialFirst(log)
  {
    var s := run[|run| - 1];
    RunInv(c, run, |run| - 1);
    SortedDeferred(s.log);
    forall k: nat ensures k in Visited(s.log, false) <==> k < c.count {
      NotHeld(s.workers, k);
    }
  }

  /**
   * An aborted run rejected something and left no visit running; a rejection in the initial pass
   * suppresses the retry pass altogether.
   */
  lemma AbortedRun(c: Config, run: seq<State>)
    requires c.jobs > 0 && Run(c, run) && run[|run| - 1].phase.Aborted?
    ensures var s := run[|run| - 1];
            && SomeRejected(s.log)
            && (forall k :: !HeldBy(s.workers, k))
            && ((exists i :: 0 <= i < |s.log| && !s.log[i].retry && s.log[i].result.Rejected?) ==> NoRetries(s.log))
  {
    var s := run[|run| - 1];
    RunInv(c, run, |run| - 1);
    RunThrown(c, run, |run| - 1);
    forall k ensures !HeldBy(s.workers, k) {
      NotHeld(s.workers, k);
    }
  }

  /** A rejected initial visit leaves a worker that threw. */
  ghost predicate Thrown(s: State) {
    (exists i :: 0 <= i < |s.log| && !s.log[i].retry && s.log[i].result.Rejected?) ==> AnyThrew(s.workers)
  }

  lemma ThrownStep(c: Config, s: State, t: State, m: Move)
    requires Inv(c, s) && Thrown(s) && Moves(c, s, t, m)
    ensures Thrown(t)
  {
    if i :| 0 <= i < |t.log| && !t.log[i].retry && t.log[i].result.Rejected? {
      if i < |s.log| {
        assert s.log[i] == t.log[i];
        var v :| 0 <= v < |s.workers| && s.workers[v].Threw?;
        assert t.workers[v].Threw?;
      } else {
        assert t.workers[m.w].Threw?;
      }
    }
  }

  lemma {:induction false} RunThrown(c: Config, run: seq<State>, k: nat)
    requires c.jobs > 0 && Run(c, run) && k < |run|
    ensures Thrown(run[k])
  {
    if k > 0 {
      RunThrown(c, run, k - 1);
      RunInv(c, run, k - 1);
      assert Step(c, run[k - 1], run[k - 1 + 1]);
      var m :| Moves(c, run[k - 1], run[k], m);
      ThrownStep(c, run[k - 1], run[k], m);
    }
  }

  // ----- every run ends, and never gets stuck

  function WorkLeft(workers: seq<Worker>): nat {
    if workers == [] then 0
    else
      WorkLeft(workers[..|workers| - 1])
      + match workers[|workers| - 1] case Looping => 1 case Awaiting(_) => 2 case Returned => 0 case Threw => 0
  }

  lemma {:induction false} WorkUpdate(workers: seq<Worker>, w: nat, to: Worker)
    requires w < |workers|
    ensures WorkLeft(workers[w := to]) + WorkLeft([workers[w]]) == WorkLeft(workers) + WorkLeft([to])
  {
    var n := |workers| - 1;
    if w == n {
      assert workers[w := to][..n] == workers[..n];
    } else {
      WorkUpdate(workers[..n], w, to);
      assert workers[w := to][..n] == workers[..n][w := to];
    }
  }

  /** An upper bound on the steps still to come. */
  function StepsLeft(c: Config, s: State): nat
    requires s.next <= c.count
  {
    match s.phase
    case Initial => 2 * (c.count - s.next) + WorkLeft(s.workers) + 2 * c.count + 2
    case Retrying(order, done, active) => if done <= |order| then 2 * (|order| - done) + if active then 0 else 1 else 1
    case Finished => 0
    case Aborted => 0
  }

  lemma {:induction false} DeferredFew(log: seq<Event>)
    ensures |DeferredBy(log)| <= |Visited(log, false)|
  {
    if log != [] {
      DeferredFew(log[..|log| - 1]);
    }
  }

  /** Each step brings the end nearer, so no run has more than StepsLeft(c, Start(c)) steps. */
  lemma StepsDecrease(c: Config, s: State, t: State, m: Move)
    requires c.jobs > 0 && Inv(c, s) && Moves(c, s, t, m)
    ensures t.next <= c.count && StepsLeft(c, t) < StepsLeft(c, s)
  {
    match m
    case ByClaim(w) => ClaimDecreases(c, s, t, w);
    case ByLeave(w) => LeaveDecreases(c, s, t, w);
    case ByComplete(w, r) => CompleteDecreases(c, s, t, w, r);
    case ByTurn => TurnDecreases(c, s, t);
    case _ =>
  }

  lemma ClaimDecreases(c: Config, s: State, t: State, w: nat)
    requires Claim(c, s, t, w)
    ensures StepsLeft(c, t) < StepsLeft(c, s)
  {
    WorkUpdate(s.workers, w, Awaiting(s.next));
  }

  lemma LeaveDecreases(c: Config, s: State, t: State, w: nat)
    requires Leave(c, s, t, w) && s.next <= c.count
    ensures StepsLeft(c, t) < StepsLeft(c, s)
  {
    WorkUpdate(s.workers, w, Returned);
  }

  lemma CompleteDecreases(c: Config, s: State, t: State, w: nat, r: VisitResult)
    requires Complete(c, s, t, w, r) && s.next <= c.count
    ensures StepsLeft(c, t) < StepsLeft(c, s)
  {
    WorkUpdate(s.workers, w, if r.Rejected? then Threw else Looping);
  }

  lemma TurnDecreases(c: Config, s: State, t: State)
    requires Inv(c, s) && Turn(c, s, t)
    ensures StepsLeft(c, t) < StepsLeft(c, s)
  {
    DeferredFew(s.log);
    FewBelow(Visited(s.log, false), c.count);
    SameElems(Sort(Ascending(), s.deferred), s.deferred);
  }

  /** So every run ends within that many steps. */
  lemma {:induction false} RunsAreShort(c: Config, run: seq<State>)
    requires c.jobs > 0 && Run(c, run)
    ensures run[|run| - 1].next <= c.count
    ensures |run| - 1 + StepsLeft(c, run[|run| - 1]) <= StepsLeft(c, Start(c))
    decreases |run|
  {
    if |run| > 1 {
      var n := |run| - 2;
      var init := run[..n + 1];
      forall k | 0 <= k < |init| - 1 ensures Step(c, init[k], init[k + 1]) {
        assert Step(c, run[k], run[k + 1]);
      }
      RunsAreShort(c, init);
      RunInv(c, run, n);
      assert Step(c, run[n], run[n + 1]);
      var m :| Moves(c, run[n], run[n + 1], m);
      StepsDecrease(c, run[n], run[n + 1], m);
    }
  }

  /**
   * In every state of every run the claimed inputs are exactly the first `next`, none of them claimed
   * twice, and there are no more workers than jobs or inputs.
   */
  lemma ClaimedPrefix(c: Config, run: seq<State>, k: nat)
    requires c.jobs > 0 && Run(c, run) && k < |run|
    ensures var s := run[k];
            && |s.workers| <= c.jobs && |s.workers| <= c.count && s.next <= c.count
            && NoDup(Visited(s.log, false))
            && (forall i: nat :: i < s.next <==> i in Visited(s.log, false) || HeldBy(s.workers, i))
            && (forall i: nat :: !(i in Visited(s.log, false) && HeldBy(s.workers, i)))
            && (forall v, w | 0 <= v < w < |s.workers| && s.workers[v].Awaiting? :: s.workers[w] != s.workers[v])
  {
    RunInv(c, run, k);
  }

  /** A state that has neither finished nor aborted can always take a step, once pending visits complete. */
  lemma NeverStuck(c: Config, s: State, r: VisitResult) returns (t: State)
    requires c.jobs > 0 && Inv(c, s) && !s.phase.Finished? && !s.phase.Aborted?
    ensures Step(c, s, t)
  {
    if s.phase.Retrying? {
      if s.phase.active {
        t := s.(phase := if r.Rejected? then Aborted else s.phase.(done := s.phase.done + 1, active := false),
                log := s.log + [Event(s.phase.order[s.phase.done], true, r)]);
        assert Moves(c, s, t, ByRetryComplete(r));
      } else {
        t := s.(phase := if s.phase.done >= |s.phase.order| then Finished else s.phase.(active := true));
        assert Moves(c, s, t, ByRetryNext);
      }
    } else if Settledness(s.workers) {
      t := s.(phase := if AnyThrew(s.workers) then Aborted else Retrying(Sort(Ascending(), s.deferred), 0, false));
      assert Moves(c, s, t, ByTurn);
    } else {
      var w: nat :| w < |s.workers| && !(s.workers[w].Returned? || s.workers[w].Threw?);
      if s.workers[w].Awaiting? {
        t := s.(workers := s.workers[w := if r.Rejected? then Threw else Looping],
                deferred := if r.Deferred? then s.deferred + [s.workers[w].index] else s.deferred,
                log := s.log + [Event(s.workers[w].index, false, r)]);
        assert Moves(c, s, t, ByComplete(w, r));
      } else if s.next < c.count {
        t := s.(next := s.next + 1, workers := s.workers[w := Awaiting(s.next)]);
        assert Moves(c, s, t, ByClaim(w));
      } else {
        t := s.(workers := s.workers[w := Returned]);
        assert Moves(c, s, t, ByLeave(w));
      }
    }
  }
}
