/**
 * Shutdown of the development stages: requests, early exits and the escalating stop, as a state
 * machine over every schedule of exits, signals and timers.
 */
module DevWebShutdown {
  import opened Sorting
  import opened Options

  type Stage = nat
  datatype Signal = SIGINT | SIGTERM | SIGKILL | OtherSignal(name: string)

  datatype Request = Request(code: int, signal: Option<Signal>)

  /** Where the stop routine stands. */
  datatype Stop =
    | Idle
    | Round(plan: seq<Option<Signal>>, k: nat)
    | Grace(plan: seq<Option<Signal>>, k: nat)
    | Reaping(plan: seq<Option<Signal>>, waiting: set<Stage>)
    | Resolved(plan: seq<Option<Signal>>)

  /**
   * `signal` is what the stop was begun with, and `requested` the record of the first shutdown request.
   * `requests`, `received` and `stale` are histories; `early` and `gone` are the stages added, and
   * the stages exited, when the stop began.
   */
  datatype State = State(
    added: set<Stage>,
    exited: set<Stage>,
    live: set<Stage>,
    stopping: bool,
    stop: Stop,
    signal: Option<Signal>,
    requested: Option<Request>,
    requests: seq<Request>,
    received: map<Stage, seq<Signal>>,
    stale: seq<Stage>,
    early: set<Stage>,
    gone: set<Stage>)

  const START := State({}, {}, {}, false, Idle, None, None, [], map[], [], {}, {})

  /** The signal of each escalation round; a round without one only waits. */
  function Plan(signal: Option<Signal>): seq<Option<Signal>> {
    if signal == Some(SIGTERM) then [signal] else [signal, Some(SIGTERM)]
  }

  /** The signals that rounds deliver. */
  function Delivered(plan: seq<Option<Signal>>): seq<Signal> {
    if plan == [] then []
    else Delivered(plan[..|plan| - 1]) + if plan[|plan| - 1].Some? then [plan[|plan| - 1].value] else []
  }

  /** A shutdown request: recorded unless one was before, as it is passed on only once. */
  function Asked(s: State, r: Request): State {
    if s.requested.Some? then s.(requests := s.requests + [r])
    else s.(requests := s.requests + [r], requested := Some(r))
  }

  function Kill(received: map<Stage, seq<Signal>>, live: set<Stage>, signal: Signal): map<Stage, seq<Signal>> {
    map p | p in received :: if p in live then received[p] + [signal] else received[p]
  }

  predicate Add(s: State, t: State, p: Stage) {
    p !in s.added && t == s.(added := s.added + {p}, live := s.live + {p}, received := s.received[p := []])
  }

  /** A stage exits; before the stop began this is reported and requests the shutdown of the others. */
  predicate Exit(s: State, t: State, p: Stage) {
    && p in s.live
    && var u := s.(live := s.live - {p}, exited := s.exited + {p});
       t == if s.stopping then u else Asked(u.(stale := s.stale + [p]), Request(1, Some(SIGTERM)))
  }

  predicate Interrupt(s: State, t: State) {
    t == Asked(s, Request(130, None))
  }

  predicate Terminate(s: State, t: State) {
    t == Asked(s, Request(0, Some(SIGTERM)))
  }

  /** The stop begins, with any initial signal or none. */
  predicate Begin(s: State, t: State, signal: Option<Signal>) {
    && s.stop.Idle?
    && t == s.(stopping := true, stop := Round(Plan(signal), 0), signal := signal, early := s.added, gone := s.exited)
  }

  /** The head of an escalation round, or the final kill after the last one. */
  predicate NextRound(s: State, t: State) {
    && s.stop.Round?
    && var plan, k := s.stop.plan, s.stop.k;
       t == if k >= |plan| then s.(received := Kill(s.received, s.live, SIGKILL), stop := Reaping(plan, s.live))
            else if s.live == {} then s.(stop := Resolved(plan))
            else s.(received := if plan[k].Some? then Kill(s.received, s.live, plan[k].value) else s.received,
                    stop := Grace(plan, k))
  }

  /** The grace period ends, at any moment: by the timer, or because everything waited for has exited. */
  predicate EndGrace(s: State, t: State) {
    s.stop.Grace? && t == s.(stop := Round(s.stop.plan, s.stop.k + 1))
  }

  predicate Reaped(s: State, t: State) {
    s.stop.Reaping? && s.stop.waiting <= s.exited && t == s.(stop := Resolved(s.stop.plan))
  }

  /** Every step but the beginning of the stop. */
  ghost predicate Turn(s: State, t: State) {
    || (exists p :: Add(s, t, p))
    || (exists p :: Exit(s, t, p))
    || Interrupt(s, t) || Terminate(s, t) || NextRound(s, t) || EndGrace(s, t) || Reaped(s, t)
  }

  ghost predicate Step(s: State, t: State) {
    Turn(s, t) || exists signal :: Begin(s, t, signal)
  }

  /** Any schedule, with the stop begun at any time and with any signal. */
  ghost predicate Run(run: seq<State>) {
    run != [] && run[0] == START && forall k | 0 <= k < |run| - 1 :: Step(run[k], run[k + 1])
  }

  /** The command itself begins the stop only once a shutdown was requested, with the recorded signal. */
  ghost predicate CommandStep(s: State, t: State) {
    Turn(s, t) || (s.requested.Some? && Begin(s, t, s.requested.value.signal))
  }

  ghost predicate CommandRun(run: seq<State>) {
    run != [] && run[0] == START && forall k | 0 <= k < |run| - 1 :: CommandStep(run[k], run[k + 1])
  }

  // ----- the invariant

  /** The signals every stage that was there from the beginning has been sent so far. */
  function Sent(stop: Stop): seq<Signal> {
    match stop
    case Idle => []
    case Round(plan, k) => if k <= |plan| then Delivered(plan[..k]) else []
    case Grace(plan, k) => if k < |plan| then Delivered(plan[..k + 1]) else []
    case Reaping(plan, _) => Delivered(plan) + [SIGKILL]
    case Resolved(plan) => Delivered(plan) + [SIGKILL]
  }

  predicate Tracking(s: State) {
    && s.exited <= s.added && s.live == s.added - s.exited && s.received.Keys == s.added
    && s.early <= s.added && s.gone <= s.exited
    && (s.stopping <==> !s.stop.Idle?)
    && s.requested == if s.requests == [] then None else Some(s.requests[0])
  }

  predicate Planned(s: State)
    requires Tracking(s)
  {
    match s.stop
    case Idle => true
    case Round(plan, k) => plan == Plan(s.signal) && k <= |plan|
    case Grace(plan, k) => plan == Plan(s.signal) && k < |plan|
    case Reaping(plan, waiting) => plan == Plan(s.signal) && s.early - s.exited <= waiting
    case Resolved(plan) => plan == Plan(s.signal) && s.early <= s.exited
  }

  /** Stages present from the beginning got everything sent while they were live, in order. */
  predicate Signalled(s: State)
    requires Tracking(s)
  {
    if s.stop.Idle? then forall p | p in s.added :: s.received[p] == []
    else forall p | p in s.early ::
           s.received[p] <= Sent(s.stop) && (p !in s.exited ==> s.received[p] == Sent(s.stop))
  }

  ghost predicate StaleExact(s: State) {
    NoDup(s.stale) && forall p :: p in s.stale <==> p in if s.stopping then s.gone else s.exited
  }

  ghost predicate Inv(s: State) {
    Tracking(s) && Planned(s) && Signalled(s) && StaleExact(s)
  }

  lemma DeliveredSnoc(plan: seq<Option<Signal>>, k: nat)
    requires k < |plan|
    ensures Delivered(plan[..k + 1]) == Delivered(plan[..k]) + if plan[k].Some? then [plan[k].value] else []
  {
    assert plan[..k + 1][..k] == plan[..k];
  }

  lemma {:induction false} DeliveredPrefix(plan: seq<Option<Signal>>, k: nat)
    requires k <= |plan|
    ensures Delivered(plan[..k]) <= Delivered(plan)
    decreases |plan|
  {
    if k < |plan| {
      DeliveredPrefix(plan[..|plan| - 1], k);
      assert plan[..|plan| - 1][..k] == plan[..k];
    } else {
      assert plan[..k] == plan;
    }
  }

  lemma AddInv(s: State, t: State, p: Stage)
    requires Inv(s) && Add(s, t, p)
    ensures Inv(t)
  {
  }

  lemma ExitInv(s: State, t: State, p: Stage)
    requires Inv(s) && Exit(s, t, p)
    ensures Inv(t)
  {
    NoDupSnoc(s.stale, p);
  }

  lemma RequestInv(s: State, t: State)
    requires Inv(s) && (Interrupt(s, t) || Terminate(s, t))
    ensures Inv(t)
  {
  }

  lemma BeginInv(s: State, t: State, signal: Option<Signal>)
    requires Inv(s) && Begin(s, t, signal)
    ensures Inv(t)
  {
    assert t.stop.plan[..0] == [];
  }

  lemma NextRoundInv(s: State, t: State)
    requires Inv(s) && NextRound(s, t)
    ensures Inv(t)
  {
    if s.stop.k < |s.stop.plan| {
      RoundInv(s, t);
    } else {
      assert s.stop.plan[..s.stop.k] == s.stop.plan;
    }
  }

  lemma RoundInv(s: State, t: State)
    requires Inv(s) && NextRound(s, t) && s.stop.k < |s.stop.plan|
    ensures Inv(t)
  {
    var plan, k := s.stop.plan, s.stop.k;
    DeliveredSnoc(plan, k);
    DeliveredPrefix(plan, k);
    assert s.added == s.live + s.exited;
  }

  lemma StopInv(s: State, t: State)
    requires Inv(s) && (EndGrace(s, t) || Reaped(s, t))
    ensures Inv(t)
  {
  }

  lemma {:induction false} RunInv(run: seq<State>, k: nat)
    requires Run(run) && k < |run|
    ensures Inv(run[k])
  {
    if k > 0 {
      RunInv(run, k - 1);
      var s, t := run[k - 1], run[k];
      assert Step(run[k - 1], run[k - 1 + 1]);
      if p :| Add(s, t, p) {
        AddInv(s, t, p);
      } else if p :| Exit(s, t, p) {
        ExitInv(s, t, p);
      } else if Interrupt(s, t) || Terminate(s, t) {
        RequestInv(s, t);
      } else if NextRound(s, t) {
        NextRoundInv(s, t);
      } else if signal :| Begin(s, t, signal) {
        BeginInv(s, t, signal);
      } else {
        StopInv(s, t);
      }
    }
  }

  // ----- what every schedule guarantees

  /** The stop resolves only once every stage that was added before it began has exited. */
  lemma ResolvedMeansExited(run: seq<State>, k: nat)
    requires Run(run) && k < |run| && run[k].stop.Resolved?
    ensures run[k].early <= run[k].exited
    ensures run[k].added == run[k].early ==> run[k].live == {}
  {
    RunInv(run, k);
  }

  /** The signals a stage can ever be sent by a stop, in order. */
  function FullPlan(signal: Option<Signal>): seq<Signal> {
    match signal
    case None => [SIGTERM, SIGKILL]
    case Some(first) => if first == SIGTERM then [SIGTERM, SIGKILL] else [first, SIGTERM, SIGKILL]
  }

  lemma PlanDelivers(signal: Option<Signal>)
    ensures Delivered(Plan(signal)) + [SIGKILL] == FullPlan(signal)
  {
    var plan := Plan(signal);
    assert Delivered([]) == [] && [signal][..0] == [];
    assert Delivered([signal]) == if signal.Some? then [signal.value] else [];
    if signal != Some(SIGTERM) {
      assert plan[..1] == [signal];
    }
  }

  /** Each such stage sees a prefix of: the initial signal if any, SIGTERM, SIGKILL. */
  lemma SignalsArePrefix(run: seq<State>, k: nat, p: Stage)
    requires Run(run) && k < |run| && run[k].stopping && p in run[k].early
    ensures p in run[k].received && run[k].received[p] <= FullPlan(run[k].signal)
  {
    RunInv(run, k);
    var s := run[k];
    PlanDelivers(s.signal);
    match s.stop {
      case Round(plan, i) => DeliveredPrefix(plan, i);
      case Grace(plan, i) => DeliveredPrefix(plan, i + 1);
      case _ =>
    }
  }

  /** A stage reaped by the final kill saw the whole plan. */
  lemma ReapedSawEverything(run: seq<State>, k: nat, p: Stage)
    requires Run(run) && k < |run| && run[k].stop.Reaping? && p in run[k].early && p !in run[k].exited
    ensures p in run[k].received && run[k].received[p] == FullPlan(run[k].signal)
  {
    RunInv(run, k);
    PlanDelivers(run[k].signal);
  }

  /** No stage gets a signal twice, except SIGKILL when it was already asked for and all three signals were sent. */
  lemma RepeatsIff(run: seq<State>, k: nat, p: Stage)
    requires Run(run) && k < |run| && run[k].stopping && p in run[k].early
    ensures p in run[k].received
    ensures !NoDup(run[k].received[p]) <==> run[k].signal == Some(SIGKILL) && |run[k].received[p]| == 3
  {
    SignalsArePrefix(run, k, p);
    PlanRepeatsIff(run[k].signal);
    PrefixRepeats(run[k].received[p], FullPlan(run[k].signal));
    if run[k].signal == Some(SIGKILL) {
      assert [SIGKILL, SIGTERM, SIGKILL][0] == [SIGKILL, SIGTERM, SIGKILL][2];
    }
  }

  lemma PrefixRepeats(s: seq<Signal>, all: seq<Signal>)
    requires s <= all
    ensures NoDup(all) ==> NoDup(s)
  {
  }

  /** A stop begun with SIGKILL and one stage that outlives it, with the signals that it has got so far. */
  function Killing(stop: Stop, got: seq<Signal>): State {
    State({0}, {}, {0}, true, stop, Some(SIGKILL), None, [], map[0 := got], [], {0}, {})
  }

  /** Three rounds of such a stop. */
  lemma KillingSteps()
    ensures
      var plan, one, two := [Some(SIGKILL), Some(SIGTERM)], [SIGKILL], [SIGKILL, SIGTERM];
      && NextRound(Killing(Round(plan, 0), []), Killing(Grace(plan, 0), one))
      && NextRound(Killing(Round(plan, 1), one), Killing(Grace(plan, 1), two))
      && NextRound(Killing(Round(plan, 2), two), Killing(Reaping(plan, {0}), [SIGKILL, SIGTERM, SIGKILL]))
  {
    var plan := [Some(SIGKILL), Some(SIGTERM)];
    assert [] + [SIGKILL] == [SIGKILL];
    KillingRound(plan, 0, SIGKILL, []);
    assert [SIGKILL] + [SIGTERM] == [SIGKILL, SIGTERM];
    KillingRound(plan, 1, SIGTERM, [SIGKILL]);
    assert [SIGKILL, SIGTERM] + [SIGKILL] == [SIGKILL, SIGTERM, SIGKILL];
    KillingReaps(plan, [SIGKILL, SIGTERM]);
  }

  lemma KillingRound(plan: seq<Option<Signal>>, k: nat, signal: Signal, got: seq<Signal>)
    requires k < |plan| && plan[k] == Some(signal)
    ensures NextRound(Killing(Round(plan, k), got), Killing(Grace(plan, k), got + [signal]))
  {
  }

  lemma KillingReaps(plan: seq<Option<Signal>>, got: seq<Signal>)
    ensures NextRound(Killing(Round(plan, |plan|), got), Killing(Reaping(plan, {0}), got + [SIGKILL]))
  {
  }

  lemma KillingBegins(s: State, t: State)
    requires s == START.(added := {0}, live := {0}, received := map[0 := []])
    requires t == Killing(Round([Some(SIGKILL), Some(SIGTERM)], 0), [])
    ensures Add(START, s, 0) && Begin(s, t, Some(SIGKILL))
  {
  }

  lemma RunOn(run: seq<State>, t: State)
    requires Run(run) && Step(run[|run| - 1], t)
    ensures Run(run + [t])
  {
    var more := run + [t];
    forall k | 0 <= k < |more| - 1 ensures Step(more[k], more[k + 1]) {
      assert k < |run| - 1 ==> Step(run[k], run[k + 1]);
    }
  }

  /** A round that sends a signal, and its grace period. */
  lemma RoundOn(run: seq<State>, plan: seq<Option<Signal>>, k: nat, got: seq<Signal>,
                more: seq<Signal>) returns (longer: seq<State>)
    requires Run(run) && run[|run| - 1] == Killing(Round(plan, k), got)
    requires NextRound(Killing(Round(plan, k), got), Killing(Grace(plan, k), more))
    ensures Run(longer) && longer[|longer| - 1] == Killing(Round(plan, k + 1), more)
  {
    RunOn(run, Killing(Grace(plan, k), more));
    longer := run + [Killing(Grace(plan, k), more)];
    assert EndGrace(Killing(Grace(plan, k), more), Killing(Round(plan, k + 1), more));
    RunOn(longer, Killing(Round(plan, k + 1), more));
    longer := longer + [Killing(Round(plan, k + 1), more)];
  }

  /** In such a run the stage gets SIGKILL twice. */
  lemma KilledTwice() returns (run: seq<State>)
    ensures Run(run) && run[|run| - 1].stopping && 0 in run[|run| - 1].early && 0 in run[|run| - 1].received
    ensures run[|run| - 1].received[0] == [SIGKILL, SIGTERM, SIGKILL]
  {
    var plan := [Some(SIGKILL), Some(SIGTERM)];
    var s1 := START.(added := {0}, live := {0}, received := map[0 := []]);
    KillingBegins(s1, Killing(Round(plan, 0), []));
    KillingSteps();
    RunOn([START], s1);
    RunOn([START] + [s1], Killing(Round(plan, 0), []));
    run := RoundOn([START] + [s1] + [Killing(Round(plan, 0), [])], plan, 0, [], [SIGKILL]);
    run := RoundOn(run, plan, 1, [SIGKILL], [SIGKILL, SIGTERM]);
    RunOn(run, Killing(Reaping(plan, {0}), [SIGKILL, SIGTERM, SIGKILL]));
    run := run + [Killing(Reaping(plan, {0}), [SIGKILL, SIGTERM, SIGKILL])];
  }

  /** No signal is repeated exactly when the requested one is not already the last resort. */
  lemma PlanRepeatsIff(signal: Option<Signal>)
    ensures NoDup(FullPlan(signal)) <==> signal != Some(SIGKILL)
    ensures signal.Some? ==> FullPlan(signal)[0] == signal.value
    ensures exists init :: FullPlan(signal) == init + [SIGTERM, SIGKILL]
  {
    var all := FullPlan(signal);
    if |all| == 3 {
      assert all == [all[0]] + [SIGTERM, SIGKILL];
      assert signal == Some(SIGKILL) ==> all[0] == all[2];
    } else {
      assert all == [] + [SIGTERM, SIGKILL];
    }
  }

  /** A stage is reported stale once if it exited before the stop began, and never otherwise. */
  lemma StaleReports(run: seq<State>, k: nat)
    requires Run(run) && k < |run|
    ensures NoDup(run[k].stale)
    ensures forall p :: p in run[k].stale <==> p in if run[k].stopping then run[k].gone else run[k].exited
  {
    RunInv(run, k);
  }

  /** Whatever is requested later, the recorded code and signal are those of the first request. */
  lemma {:induction false} FirstRequestWins(run: seq<State>, j: nat, k: nat)
    requires Run(run) && j <= k < |run| && run[j].requested.Some?
    ensures run[k].requested == run[j].requested
    ensures run[k].requests != [] && run[k].requested == Some(run[k].requests[0])
  {
    RunInv(run, k);
    if j < k {
      FirstRequestWins(run, j, k - 1);
      assert Step(run[k - 1], run[k - 1 + 1]);
    }
  }

  lemma CommandRuns(run: seq<State>)
    requires CommandRun(run)
    ensures Run(run)
  {
    forall k | 0 <= k < |run| - 1 ensures Step(run[k], run[k + 1]) {
      assert CommandStep(run[k], run[k + 1]);
    }
  }

  /** The command stops its stages with the signal of the first request, and never with SIGKILL. */
  lemma {:induction false} CommandStopsAsRequested(run: seq<State>, k: nat)
    requires CommandRun(run) && k < |run|
    ensures
      var s := run[k];
      && (s.stopping ==> s.requests != [] && s.requested == Some(s.requests[0]) && s.signal == s.requests[0].signal)
      && (s.requested.Some? ==> s.requested.value.signal in {None, Some(SIGTERM)})
  {
    CommandRuns(run);
    RunInv(run, k);
    if k > 0 {
      CommandStopsAsRequested(run, k - 1);
      RunInv(run, k - 1);
      assert CommandStep(run[k - 1], run[k - 1 + 1]);
    }
  }

  /** How often a request with this exit code was made. */
  function WithCode(requests: seq<Request>, code: int): nat {
    if requests == [] then 0
    else WithCode(requests[..|requests| - 1], code) + if requests[|requests| - 1].code == code then 1 else 0
  }

  lemma WithCodeSnoc(requests: seq<Request>, r: Request, code: int)
    ensures WithCode(requests + [r], code) == WithCode(requests, code) + if r.code == code then 1 else 0
  {
    assert (requests + [r])[..|requests|] == requests;
  }

  /** Code 130 comes without a signal, codes 0 and 1 with SIGTERM, and code 1 once for each stale stage. */
  ghost predicate ProperRequests(s: State) {
    && (forall r | r in s.requests :: r in [Request(130, None), Request(0, Some(SIGTERM)), Request(1, Some(SIGTERM))])
    && WithCode(s.requests, 1) == |s.stale|
  }

  lemma ProperExit(s: State, t: State, p: Stage)
    requires ProperRequests(s) && Exit(s, t, p)
    ensures ProperRequests(t)
  {
    WithCodeSnoc(s.requests, Request(1, Some(SIGTERM)), 1);
  }

  lemma ProperSignal(s: State, t: State)
    requires ProperRequests(s) && (Interrupt(s, t) || Terminate(s, t))
    ensures ProperRequests(t)
  {
    WithCodeSnoc(s.requests, Request(130, None), 1);
    WithCodeSnoc(s.requests, Request(0, Some(SIGTERM)), 1);
  }

  lemma OthersAskNothing(s: State, t: State)
    requires Step(s, t) && !Interrupt(s, t) && !Terminate(s, t) && forall p :: !Exit(s, t, p)
    ensures t.requests == s.requests && t.stale == s.stale
  {
  }

  lemma ProperNext(s: State, t: State)
    requires ProperRequests(s) && Step(s, t)
    ensures ProperRequests(t)
  {
    if p :| Exit(s, t, p) {
      ProperExit(s, t, p);
    } else if Interrupt(s, t) || Terminate(s, t) {
      ProperSignal(s, t);
    } else {
      OthersAskNothing(s, t);
    }
  }

  lemma {:induction false} RequestsAreProper(run: seq<State>, k: nat)
    requires Run(run) && k < |run|
    ensures ProperRequests(run[k])
  {
    if k > 0 {
      RequestsAreProper(run, k - 1);
      assert Step(run[k - 1], run[k - 1 + 1]);
      ProperNext(run[k - 1], run[k]);
    }
  }

  /** What the command ends with when this is the first thing to happen to it. */
  ghost predicate Causes(s: State, t: State, r: Request) {
    || (Interrupt(s, t) && r == Request(130, None))
    || (Terminate(s, t) && r == Request(0, Some(SIGTERM)))
    || ((exists p :: Exit(s, t, p)) && r == Request(1, Some(SIGTERM)))
  }

  /**
   * The first interrupt, termination or early exit decides: the exit code, and with which signals the stages are
   * stopped. An interrupt sends none of its own, for the terminal has sent it already.
   */
  lemma FirstCauseDecides(run: seq<State>, j: nat, k: nat, r: Request)
    requires CommandRun(run) && j < k < |run| && run[j].requests == [] && Causes(run[j], run[j + 1], r)
    ensures run[k].requested == Some(r)
    ensures run[k].stopping ==>
              && run[k].signal == r.signal
              && forall p | p in run[k].early && p in run[k].received :: run[k].received[p] <= [SIGTERM, SIGKILL]
  {
    CommandRuns(run);
    RunInv(run, j);
    NotStoppedUnasked(run, j);
    FirstRequestWins(run, j + 1, k);
    CommandStopsAsRequested(run, k);
    if run[k].stopping {
      forall p | p in run[k].early && p in run[k].received ensures run[k].received[p] <= [SIGTERM, SIGKILL] {
        SignalsArePrefix(run, k, p);
      }
    }
  }

  /** A run of the command in which it is interrupted, stops without a signal, and is told to terminate then. */
  lemma InterruptedRun() returns (run: seq<State>)
    ensures CommandRun(run) && run[|run| - 1].stopping
    ensures run[|run| - 1].requested == Some(Request(130, None)) && run[|run| - 1].signal == None
    ensures run[|run| - 1].requests == [Request(130, None), Request(0, Some(SIGTERM))]
  {
    var asked := START.(requests := [Request(130, None)], requested := Some(Request(130, None)));
    var begun := asked.(stopping := true, stop := Round([None, Some(SIGTERM)], 0));
    var told := begun.(requests := [Request(130, None), Request(0, Some(SIGTERM))]);
    assert START.requests + [Request(130, None)] == asked.requests && Interrupt(START, asked);
    assert Begin(asked, begun, None);
    assert begun.requests + [Request(0, Some(SIGTERM))] == told.requests && Terminate(begun, told);
    run := [START, asked, begun, told];
    assert CommandStep(START, asked) && CommandStep(asked, begun) && CommandStep(begun, told);
  }

  lemma NotStoppedUnasked(run: seq<State>, j: nat)
    requires CommandRun(run) && j < |run| && run[j].requests == []
    ensures !run[j].stopping
  {
    CommandStopsAsRequested(run, j);
  }

  /** The stop has begun in both states, with the same records. */
  predicate Frozen(s: State, t: State) {
    s.stopping && t.stopping && t.early == s.early && t.gone == s.gone && t.stale == s.stale && t.signal == s.signal
  }

  lemma TurnFreezes(s: State, t: State)
    requires Tracking(s) && s.stopping && Step(s, t)
    ensures Frozen(s, t)
  {
    assert !s.stop.Idle?;
  }

  lemma NextFreezes(run: seq<State>, k: nat)
    requires Run(run) && k + 1 < |run| && run[k].stopping
    ensures Frozen(run[k], run[k + 1])
  {
    RunInv(run, k);
    TurnFreezes(run[k], run[k + 1]);
  }

  /** What was recorded when the stop began does not change afterwards. */
  lemma {:induction false} StopIsFrozen(run: seq<State>, j: nat, k: nat)
    requires Run(run) && j <= k < |run| && run[j].stopping
    ensures Frozen(run[j], run[k])
  {
    if j < k {
      StopIsFrozen(run, j, k - 1);
      NextFreezes(run, k - 1);
    }
  }

  /** A begun stop can always go on, but for waiting on a live stage that has been sent SIGKILL. */
  lemma StopGoesOn(run: seq<State>, k: nat)
    requires Run(run) && k < |run| && run[k].stopping && !run[k].stop.Resolved?
    ensures var s := run[k];
            || (exists t :: NextRound(s, t) || EndGrace(s, t) || Reaped(s, t))
            || (s.stop.Reaping? && exists p :: p in s.stop.waiting && p !in s.exited)
  {
    RunInv(run, k);
    var s := run[k];
    match s.stop {
      case Round(plan, i) =>
        var t := if i >= |plan| then s.(received := Kill(s.received, s.live, SIGKILL), stop := Reaping(plan, s.live))
                 else if s.live == {} then s.(stop := Resolved(plan))
                 else s.(received := if plan[i].Some? then Kill(s.received, s.live, plan[i].value) else s.received,
                         stop := Grace(plan, i));
        assert NextRound(s, t);
      case Grace(plan, i) =>
        assert EndGrace(s, s.(stop := Round(plan, i + 1)));
      case Reaping(plan, waiting) =>
        if waiting <= s.exited {
          assert Reaped(s, s.(stop := Resolved(plan)));
        }
      case _ =>
    }
  }
}
