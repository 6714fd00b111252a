/**
 * The bounded worker pool of the session migration, as a state machine over every interleaving:
 * initial visits by concurrent workers, then one serial retry of the deferred inputs.
 */
module MigrationPool {
  import opened Sorting

  datatype Outcome = Converted | AlreadyV4 | Failed | Skipped

  /** The source version as a table key: a number, or `unknown`. */
  type Version = string

  /** One outcome reported for one input. */
  datatype Record = Record(version: Version, outcome: Outcome)

  /** How one call of the visit callback ended. */
  datatype VisitResult = Deferred | Settled(value: Record) | Rejected

  datatype Event = Event(index: nat, retry: bool, result: VisitResult)

  datatype Worker = Looping | Awaiting(index: nat) | Returned | Threw

  datatype Phase =
    | Initial
    | Retrying(order: seq<nat>, done: nat, active: bool)
    | Finished
    | Aborted

  datatype Config = Config(count: nat, jobs: nat)

  /** `log` records the completed visits in the order they completed. */
  datatype State = State(next: nat, deferred: seq<nat>, workers: seq<Worker>, phase: Phase, log: seq<Event>)

  function Workers(c: Config): nat {
    if c.jobs <= c.count then c.jobs else c.count
  }

  function Start(c: Config): State {
    State(0, [], seq(Workers(c), _ => Looping), Initial, [])
  }

  function Ascending(): (nat, nat) -> bool {
    (a: nat, b: nat) => a <= b
  }

  /** A worker finds an unclaimed index and starts visiting it. */
  ghost predicate Claim(c: Config, s: State, t: State, w: nat) {
    && s.phase.Initial? && w < |s.workers| && s.workers[w].Looping? && s.next < c.count
    && t == s.(next := s.next + 1, workers := s.workers[w := Awaiting(s.next)])
  }

  /** A worker finds nothing left to claim. */
  ghost predicate Leave(c: Config, s: State, t: State, w: nat) {
    && s.phase.Initial? && w < |s.workers| && s.workers[w].Looping? && s.next >= c.count
    && t == s.(workers := s.workers[w := Returned])
  }

  /** A worker's visit completes: it deferred the input, settled it, or rejected. */
  ghost predicate Complete(c: Config, s: State, t: State, w: nat, r: VisitResult) {
    && s.phase.Initial? && w < |s.workers| && s.workers[w].Awaiting?
    && var i := s.workers[w].index;
       t == s.(workers := s.workers[w := if r.Rejected? then Threw else Looping],
               deferred := if r.Deferred? then s.deferred + [i] else s.deferred,
               log := s.log + [Event(i, false, r)])
  }

  predicate Settledness(workers: seq<Worker>) {
    forall w | 0 <= w < |workers| :: workers[w].Returned? || workers[w].Threw?
  }

  predicate AnyThrew(workers: seq<Worker>) {
    exists w :: 0 <= w < |workers| && workers[w].Threw?
  }

  /** All workers have settled: abort if any of them threw, else turn to the deferred inputs in order. */
  ghost predicate Turn(c: Config, s: State, t: State) {
    && s.phase.Initial? && Settledness(s.workers)
    && t == s.(phase := if AnyThrew(s.workers) then Aborted else Retrying(Sort(Ascending(), s.deferred), 0, false))
  }

  /** The retry loop starts its next visit, or ends. */
  ghost predicate RetryNext(c: Config, s: State, t: State) {
    && s.phase.Retrying? && !s.phase.active
    && t == s.(phase := if s.phase.done >= |s.phase.order| then Finished else s.phase.(active := true))
  }

  /** A retried visit completes; only a rejection makes a difference to the loop. */
  ghost predicate RetryComplete(c: Config, s: State, t: State, r: VisitResult) {
    && s.phase.Retrying? && s.phase.active && s.phase.done < |s.phase.order|
    && t == s.(phase := if r.Rejected? then Aborted else s.phase.(done := s.phase.done + 1, active := false),
               log := s.log + [Event(s.phase.order[s.phase.done], true, r)])
  }

  /** Which worker or loop moves, and what its visit came to. */
  datatype Move =
    | ByClaim(w: nat)
    | ByLeave(w: nat)
    | ByComplete(w: nat, r: VisitResult)
    | ByTurn
    | ByRetryNext
    | ByRetryComplete(r: VisitResult)

  ghost predicate Moves(c: Config, s: State, t: State, m: Move) {
    match m
    case ByClaim(w) => Claim(c, s, t, w)
    case ByLeave(w) => Leave(c, s, t, w)
    case ByComplete(w, r) => Complete(c, s, t, w, r)
    case ByTurn => Turn(c, s, t)
    case ByRetryNext => RetryNext(c, s, t)
    case ByRetryComplete(r) => RetryComplete(c, s, t, r)
  }

  ghost predicate Step(c: Config, s: State, t: State) {
    exists m :: Moves(c, s, t, m)
  }

  /** A run: any sequence of steps from the start. */
  ghost predicate Run(c: Config, run: seq<State>) {
    && run != [] && run[0] == Start(c)
    && forall k | 0 <= k < |run| - 1 :: Step(c, run[k], run[k + 1])
  }

  // ----- what the log says

  /** Indices of the completed visits of one pass, in completion order. */
  function Visited(log: seq<Event>, retry: bool): seq<nat> {
    if log == [] then []
    else
      var e := log[|log| - 1];
      Visited(log[..|log| - 1], retry) + if e.retry == retry then [e.index] else []
  }

  /** Indices that the initial pass deferred, in completion order. */
  function DeferredBy(log: seq<Event>): seq<nat> {
    if log == [] then []
    else
      var e := log[|log| - 1];
      DeferredBy(log[..|log| - 1]) + if !e.retry && e.result.Deferred? then [e.index] else []
  }

  predicate SomeRejected(log: seq<Event>) {
    exists k :: 0 <= k < |log| && log[k].result.Rejected?
  }

  predicate HeldBy(workers: seq<Worker>, k: nat) {
    exists w :: 0 <= w < |workers| && workers[w] == Awaiting(k)
  }
}
