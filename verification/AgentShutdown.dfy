/**
 * The agent around its worker pool: main starts the pool, collects once, lets the poller and the
 * reporter run until the signal, joins them, submits one last batch and stops the pool.  A batch
 * is represented by the poll count it carries.
 */
module AgentShutdown {
  import opened Options
  import P = WorkerPool
  import Sums

  datatype ReporterPc = Idle | Built(poll: nat) | Submitting(call: nat) | Exited

  datatype MainPc =
    | Starting | Collecting | Serving | Joined | FinalBuilt(poll: nat) | FinalSubmitting(call: nat)
    | Stopping | Stopped

  /** `collects` counts the Collect calls of the run; `polls` records what each Submit call carried. */
  datatype Agent = Agent(
    pool: P.State, pollCount: nat, signalled: bool,
    main: MainPc, pollerAlive: bool, reporter: ReporterPc,
    collects: nat, polls: seq<nat>)

  function Launch(rateLimit: nat): Agent
  {
    Agent(P.New(rateLimit), 0, false, Starting, true, Idle, 0, [])
  }

  datatype Event =
    | Pool(e: P.Event)                      // a submitter, worker or stopper of the pool moves
    | StartWorker | Started | FirstCollect | Signal
    | PollTick | PollExit
    | ReportTick | ReportSubmit | ReportReturn | ReportExit
    | Join | FinalBuild | FinalSubmit | CallStop | Return

  function WithPool(a: Agent, next: Option<P.State>): Option<Agent>
  {
    if next.Some? then Some(a.(pool := next.value)) else None
  }

  function PoolNext(a: Agent, e: Event): Option<Agent>
  {
    match e
    case Pool(p) => if p.Submitter? || p.Worker? || p.Stopper? then WithPool(a, P.Next(a.pool, p)) else None
    case StartWorker => if a.main.Starting? then WithPool(a, P.Next(a.pool, P.Spawn)) else None
    case ReportSubmit =>
      if a.reporter.Built? && P.Next(a.pool, P.CallSubmit).Some? then
        Some(a.(pool := P.Next(a.pool, P.CallSubmit).value, polls := a.polls + [a.reporter.poll],
                  reporter := Submitting(|a.pool.subs|)))
      else None
    case FinalSubmit =>
      if a.main.FinalBuilt? && P.Next(a.pool, P.CallSubmit).Some? then
        Some(a.(pool := P.Next(a.pool, P.CallSubmit).value, polls := a.polls + [a.main.poll],
                  main := FinalSubmitting(|a.pool.subs|)))
      else None
    case CallStop =>
      if a.main.FinalSubmitting? && Returned(a.pool, a.main.call) && P.Next(a.pool, P.CallStop).Some? then
        Some(a.(pool := P.Next(a.pool, P.CallStop).value, main := Stopping))
      else None
    case _ => None
  }

  predicate Returned(pool: P.State, call: nat) { call < |pool.subs| && pool.subs[call].Left? }

  function AgentNext(a: Agent, e: Event): Option<Agent>
  {
    match e
    case Started => if a.main.Starting? && |a.pool.works| == a.pool.workers then Some(a.(main := Collecting)) else None
    case FirstCollect =>
      if a.main.Collecting? then Some(a.(main := Serving, pollCount := a.pollCount + 1, collects := a.collects + 1))
      else None
    case Signal => Some(a.(signalled := true))
    case PollTick =>
      if a.main.Serving? && a.pollerAlive then Some(a.(pollCount := a.pollCount + 1, collects := a.collects + 1))
      else None
    case PollExit => if a.main.Serving? && a.signalled && a.pollerAlive then Some(a.(pollerAlive := false)) else None
    case ReportTick => if a.main.Serving? && a.reporter.Idle? then Some(a.(reporter := Built(a.pollCount))) else None
    case ReportReturn =>
      if a.reporter.Submitting? && Returned(a.pool, a.reporter.call) then Some(a.(reporter := Idle)) else None
    case ReportExit => if a.main.Serving? && a.signalled && a.reporter.Idle? then Some(a.(reporter := Exited)) else None
    case Join =>
      if a.main.Serving? && a.signalled && !a.pollerAlive && a.reporter.Exited? then Some(a.(main := Joined)) else None
    case FinalBuild => if a.main.Joined? then Some(a.(main := FinalBuilt(a.pollCount))) else None
    case Return => if a.main.Stopping? && a.pool.stops == [P.Gone] then Some(a.(main := Stopped)) else None
    case _ => None
  }

  function Next(a: Agent, e: Event): Option<Agent>
  {
    match e
    case Pool(_) => PoolNext(a, e)
    case StartWorker => PoolNext(a, e)
    case ReportSubmit => PoolNext(a, e)
    case FinalSubmit => PoolNext(a, e)
    case CallStop => PoolNext(a, e)
    case _ => AgentNext(a, e)
  }

  // ---- the invariant -------------------------------------------------------------------

  predicate Shutting(m: MainPc) { !m.Starting? && !m.Collecting? && !m.Serving? }

  /** The one Submit call that may still be running. */
  predicate Current(reporter: ReporterPc, main: MainPc, call: nat)
  {
    (reporter.Submitting? && reporter.call == call) || (main.FinalSubmitting? && main.call == call)
  }

  /** Submit calls follow one another, so the accepted tasks are numbered in order. */
  ghost predicate CallsInv(a: Agent)
  {
    && |a.polls| == |a.pool.subs|
    && (forall c: nat | Current(a.reporter, a.main, c) :: c + 1 == |a.pool.subs|)
    && (forall c: nat | c < |a.pool.subs| && !Current(a.reporter, a.main, c) :: a.pool.subs[c].Left?)
    && (forall k: nat | k < |a.pool.accepted| :: a.pool.accepted[k] == k)
    && (a.main.Stopping? || a.main.Stopped? <==> a.pool.stops != [])
    && |a.pool.stops| <= 1
    && (a.pool.stops != [] ==> |a.pool.accepted| == |a.polls|)
    && (a.main.Stopped? ==> a.pool.stops == [P.Gone])
  }

  ghost predicate PollsInv(a: Agent)
  {
    && a.pollCount == a.collects
    && (forall k: nat | k < |a.polls| :: a.polls[k] <= a.pollCount)
    && (forall k: nat | k + 1 < |a.polls| :: a.polls[k] <= a.polls[k + 1])
    && (a.reporter.Built? ==> a.reporter.poll <= a.pollCount)
    && (a.reporter.Built? && a.polls != [] ==> a.polls[|a.polls| - 1] <= a.reporter.poll)
    && (a.main.FinalBuilt? ==> a.main.poll == a.pollCount)
    && (a.main.FinalSubmitting? || a.main.Stopping? || a.main.Stopped? ==>
          a.polls != [] && a.polls[|a.polls| - 1] == a.pollCount)
  }

  ghost predicate MainInv(a: Agent)
  {
    && (Shutting(a.main) ==> a.signalled && !a.pollerAlive && a.reporter.Exited?)
    && (a.main.Starting? || a.main.Collecting? ==> a.reporter.Idle? && a.pollerAlive)
    && (!a.main.Starting? ==> |a.pool.works| == a.pool.workers)
    && ((!a.pollerAlive || a.reporter.Exited?) ==> a.signalled)
  }

  ghost predicate Inv(a: Agent)
  {
    P.Inv(a.pool) && CallsInv(a) && PollsInv(a) && MainInv(a)
  }

  /** What a move inside the pool leaves alone, and the only way it accepts a task. */
  ghost predicate Moved(s: P.State, r: P.State, e: P.Event)
  {
    && r.workers == s.workers
    && |r.subs| == |s.subs| && |r.works| == |s.works| && |r.stops| == |s.stops|
    && (forall c: nat | c < |s.subs| && s.subs[c].Left? :: r.subs[c] == s.subs[c])
    && (forall t: nat | t < |s.stops| && s.stops[t].Gone? :: r.stops[t].Gone?)
    && (r.accepted == s.accepted
        || (e.Submitter? && e.i < |s.subs| && s.subs[e.i].Sending? && r.accepted == s.accepted + [e.i]))
  }

  lemma SubmitterMoves(s: P.State, i: nat, viaCtx: bool)
    requires i < |s.subs| && P.SubmitStep(s, i, viaCtx).Some?
    ensures Moved(s, P.SubmitStep(s, i, viaCtx).value, P.Submitter(i, viaCtx))
  {
    var r := P.SubmitStep(s, i, viaCtx).value;
    P.SubmitFrame(s, i, viaCtx);
    assert !s.subs[i].Left?;
    assert r.accepted == s.accepted || (s.subs[i].Sending? && r.accepted == s.accepted + [i]);
    hide P.SubmitStep;
  }

  lemma WorkerMoves(s: P.State, j: nat, viaCtx: bool)
    requires j < |s.works| && P.WorkerStep(s, j, viaCtx).Some?
    ensures Moved(s, P.WorkerStep(s, j, viaCtx).value, P.Worker(j, viaCtx))
  {}

  lemma StopperMoves(s: P.State, t: nat)
    requires t < |s.stops| && P.StopStep(s, t).Some?
    ensures Moved(s, P.StopStep(s, t).value, P.Stopper(t))
  {
    P.StopFrame(s, t);
    P.StopRankFalls(s, t);
    hide P.StopStep;
  }

  lemma PoolMoves(s: P.State, e: P.Event)
    requires P.Inv(s) && P.Next(s, e).Some? && (e.Submitter? || e.Worker? || e.Stopper?)
    ensures P.Inv(P.Next(s, e).value) && Moved(s, P.Next(s, e).value, e)
  {
    hide P.Inv, Moved, P.SubmitStep, P.WorkerStep, P.StopStep;
    P.NextKeepsInv(s, e);
    match e
    case Submitter(i, viaCtx) => SubmitterMoves(s, i, viaCtx);
    case Worker(j, viaCtx) => WorkerMoves(s, j, viaCtx);
    case Stopper(t) => StopperMoves(s, t);
  }

  /** Before Stop nothing is refused, so every returned call was accepted. */
  lemma NothingRefused(s: P.State, c: nat)
    requires P.Inv(s) && s.stops == [] && c < |s.subs| && s.subs[c].Left?
    ensures c in s.accepted
  {}

  /** A call still sending has not been accepted, and Stop has not begun its body. */
  lemma SendingIsNew(s: P.State, c: nat)
    requires P.Inv(s) && c < |s.subs| && s.subs[c].Sending?
    ensures c !in s.accepted && P.Phase(s) <= 2
  {}

  /** The call that is accepted next carries the next number. */
  lemma AcceptsInOrder(a: Agent, i: nat)
    requires Inv(a) && i < |a.pool.subs| && a.pool.subs[i].Sending?
    ensures |a.pool.accepted| == i && a.pool.stops == []
  {
    var s := a.pool;
    SendingIsNew(s, i);
    hide P.Inv, PollsInv, MainInv;
    assert Current(a.reporter, a.main, i);
    forall k: nat | k < |s.accepted| ensures k in s.accepted {
      assert s.accepted[k] == k;
    }
    if i > 0 {
      assert s.subs[i - 1].Left?;
      NothingRefused(s, i - 1);
    }
  }

  lemma PoolKeepsCalls(a: Agent, r: P.State, e: P.Event)
    requires CallsInv(a) && MainInv(a) && Moved(a.pool, r, e)
    requires r.accepted != a.pool.accepted ==> |a.pool.accepted| == e.i && a.pool.stops == []
    ensures CallsInv(a.(pool := r)) && MainInv(a.(pool := r))
  {}

  lemma PoolKeepsInv(a: Agent, e: P.Event)
    requires Inv(a) && Next(a, Pool(e)).Some?
    ensures Inv(Next(a, Pool(e)).value)
  {
    var r := P.Next(a.pool, e).value;
    PoolIsNext(a, e);
    hide Next, P.Next, P.Inv, CallsInv, MainInv, PollsInv;
    PoolMoves(a.pool, e);
    if r.accepted != a.pool.accepted {
      AcceptsInOrder(a, e.i);
    }
    hide Moved;
    PoolKeepsCalls(a, r, e);
    SamePolls(a, r);
  }

  lemma PoolIsNext(a: Agent, e: P.Event)
    requires Next(a, Pool(e)).Some?
    ensures (e.Submitter? || e.Worker? || e.Stopper?) && P.Next(a.pool, e).Some?
    ensures Next(a, Pool(e)).value == a.(pool := P.Next(a.pool, e).value)
  {
    hide P.Next;
  }

  lemma SamePolls(a: Agent, r: P.State)
    ensures PollsInv(a.(pool := r)) == PollsInv(a)
  {}

  lemma StartWorkerKeepsInv(a: Agent)
    requires Inv(a) && Next(a, StartWorker).Some?
    ensures Inv(Next(a, StartWorker).value)
  {
    P.NextKeepsInv(a.pool, P.Spawn);
    hide P.Inv;
    assert CallsInv(Next(a, StartWorker).value) && PollsInv(Next(a, StartWorker).value);
    hide CallsInv, PollsInv;
  }

  lemma SubmitCallKeepsInv(a: Agent, e: Event)
    requires Inv(a) && Next(a, e).Some? && (e.ReportSubmit? || e.FinalSubmit?)
    ensures Inv(Next(a, e).value)
  {
    P.NextKeepsInv(a.pool, P.CallSubmit);
    hide P.Inv;
    assert PollsInv(Next(a, e).value) && MainInv(Next(a, e).value);
    hide PollsInv, MainInv;
  }

  lemma CallStopKeepsInv(a: Agent)
    requires Inv(a) && Next(a, CallStop).Some?
    ensures Inv(Next(a, CallStop).value)
  {
    P.NextKeepsInv(a.pool, P.CallStop);
    NothingRefused(a.pool, a.main.call);
    hide P.Inv;
    assert Current(a.reporter, a.main, a.main.call);
    assert |a.pool.accepted| == |a.polls| by {
      AcceptedAreCalls(a.pool, |a.pool.accepted| - 1);
    }
  }

  lemma AcceptedAreCalls(s: P.State, k: nat)
    requires P.Inv(s) && k < |s.accepted|
    ensures s.accepted[k] < |s.subs|
  {
    assert s.accepted[k] in s.accepted;
  }

  lemma AgentKeepsPolls(a: Agent, e: Event)
    requires PollsInv(a) && MainInv(a) && AgentNext(a, e).Some?
    ensures PollsInv(AgentNext(a, e).value) && MainInv(AgentNext(a, e).value)
  {}

  lemma AgentKeepsInv(a: Agent, e: Event)
    requires Inv(a) && AgentNext(a, e).Some?
    ensures Inv(AgentNext(a, e).value)
  {
    AgentKeepsPolls(a, e);
    hide P.Inv, PollsInv;
  }

  lemma NextKeepsInv(a: Agent, e: Event)
    requires Inv(a) && Next(a, e).Some?
    ensures Inv(Next(a, e).value)
  {
    hide Inv, PoolNext, AgentNext;
    match e
    case Pool(p) => PoolKeepsInv(a, p);
    case StartWorker => StartWorkerKeepsInv(a);
    case ReportSubmit => SubmitCallKeepsInv(a, e);
    case FinalSubmit => SubmitCallKeepsInv(a, e);
    case CallStop => CallStopKeepsInv(a);
    case _ => AgentKeepsInv(a, e);
  }

  // ---- whole runs ----------------------------------------------------------------------

  ghost predicate IsRun(rateLimit: nat, states: seq<Agent>, run: seq<Event>)
  {
    && |states| == |run| + 1
    && states[0] == Launch(rateLimit)
    && forall k: nat | k < |run| :: Next(states[k], run[k]) == Some(states[k + 1])
  }

  lemma LaunchIsInv(rateLimit: nat)
    ensures Inv(Launch(rateLimit))
  {
    P.NewIsInv(rateLimit);
    hide P.Inv;
  }

  lemma {:induction false} RunKeepsInv(rateLimit: nat, states: seq<Agent>, run: seq<Event>, k: nat)
    requires IsRun(rateLimit, states, run) && k < |states|
    ensures Inv(states[k])
  {
    if k == 0 {
      LaunchIsInv(rateLimit);
      hide Inv, Next, Launch;
    } else {
      hide Inv, Next, Launch;
      RunKeepsInv(rateLimit, states, run, k - 1);
      assert Next(states[k - 1], run[k - 1]) == Some(states[k]);
      NextKeepsInv(states[k - 1], run[k - 1]);
    }
  }

  /**
   * When main returns, every batch the agent ever submitted was accepted in the order of
   * submission and handled, their poll counts never fall, and the last one, the final batch,
   * carries the number of Collect calls of the whole run.
   */
  lemma ShutdownDeliversEverything(rateLimit: nat, states: seq<Agent>, run: seq<Event>)
    requires IsRun(rateLimit, states, run) && states[|run|].main.Stopped?
    ensures var a := states[|run|]; var n := |a.polls|;
      && n >= 1
      && a.pool.accepted == a.pool.dequeued == seq(n, k => k)
      && a.pool.handled == Sums.Below(n)
      && (forall k: nat | k + 1 < n :: a.polls[k] <= a.polls[k + 1])
      && a.polls[n - 1] == a.collects
  {
    RunKeepsInv(rateLimit, states, run, |run|);
    hide IsRun;
    var a := states[|run|];
    assert a.pool.stops[0].Gone?;
    assert a.pool.once.Ran?;
    P.GoneMeansDrained(a.pool);
    hide P.Inv;
    assert a.pool.accepted == seq(|a.polls|, k => k);
  }

  lemma StopMoves(s: P.State) returns (e: P.Event)
    requires P.Inv(s) && s.workers >= 1 && |s.stops| == 1 && !s.stops[0].Gone?
    ensures P.Next(s, e).Some? && (e.Submitter? || e.Worker? || e.Stopper?)
  {
    if s.once.Ran? {
      assert !P.InBody(s.stops[0]);
      e := P.Stopper(0);
    } else {
      e := P.StopAdvances(s);
    }
  }

  /** A Submit call before Stop is never stuck: when the queue is full a worker is there to drain it. */
  lemma SubmitMoves(s: P.State, c: nat) returns (e: P.Event)
    requires P.Inv(s) && s.workers >= 1 && |s.works| == s.workers && s.stops == []
    requires c < |s.subs| && !s.subs[c].Left?
    ensures P.Next(s, e).Some? && (e.Submitter? || e.Worker? || e.Stopper?)
  {
    if s.subs[c].Sending? && |s.queue| == 2 * s.workers {
      e := P.SomeWorkerMoves(s, 0);
    } else {
      e := P.Submitter(c, false);
    }
  }

  /** Signals and ticks come from outside; everything else is the shutdown's own work. */
  predicate Own(e: Event) { !e.Signal? && !e.PollTick? && !e.ReportTick? }

  /** While main waits for a goroutine or the pool, one of them can move. */
  lemma CallAdvances(a: Agent, c: nat) returns (e: Event)
    requires Inv(a) && a.pool.workers >= 1 && Current(a.reporter, a.main, c)
    requires a.main.FinalSubmitting? || (a.main.Serving? && a.reporter.Submitting? && a.reporter.call == c)
    ensures Next(a, e).Some? && Own(e)
  {
    assert !a.pool.panicked;
    hide P.Inv, P.Next;
    if a.pool.subs[c].Left? {
      assert a.main.FinalSubmitting? ==> P.Next(a.pool, P.CallStop).Some? by { StopCanBeCalled(a.pool); }
      e := if a.main.Serving? then ReportReturn else CallStop;
    } else {
      var p := SubmitMoves(a.pool, c);
      e := Pool(p);
    }
  }

  lemma StopCanBeCalled(s: P.State)
    requires !s.panicked && |s.works| == s.workers
    ensures P.Next(s, P.CallStop).Some?
  {}

  lemma StoppingAdvances(a: Agent) returns (e: Event)
    requires Inv(a) && a.pool.workers >= 1 && a.main.Stopping?
    ensures Next(a, e).Some? && Own(e)
  {
    hide P.Inv, P.Next;
    if a.pool.stops[0].Gone? {
      e := Return;
    } else {
      var p := StopMoves(a.pool);
      e := Pool(p);
    }
  }

  /** After the signal the shutdown is never stuck: the pool, a goroutine or main can move. */
  lemma ShutdownAdvances(a: Agent) returns (e: Event)
    requires Inv(a) && a.pool.workers >= 1 && a.signalled && !a.main.Stopped?
    ensures Next(a, e).Some? && Own(e)
  {
    assert !a.pool.panicked;
    if a.main.Stopping? {
      e := StoppingAdvances(a);
    } else if a.main.FinalSubmitting? {
      e := CallAdvances(a, a.main.call);
    } else if a.main.Serving? && a.reporter.Submitting? {
      e := CallAdvances(a, a.reporter.call);
    } else {
      e := match a.main
        case Starting => if |a.pool.works| == a.pool.workers then Started else StartWorker
        case Collecting => FirstCollect
        case Joined => FinalBuild
        case FinalBuilt(_) => FinalSubmit
        case _ =>
          if a.pollerAlive then PollExit else if a.reporter.Built? then ReportSubmit
          else if a.reporter.Idle? then ReportExit else Join;
      hide P.Inv, PollsInv, CallsInv;
    }
  }

  // ---- main returns --------------------------------------------------------------------

  function ReporterRank(r: ReporterPc): nat
  {
    match r
    case Built(_) => 10 case Submitting(_) => 2 case Idle => 1 case Exited => 0
  }

  function MainRank(m: MainPc): nat
  {
    match m
    case Starting => 23 case Collecting => 22 case Serving => 21 case Joined => 20 case FinalBuilt(_) => 19
    case FinalSubmitting(_) => 11 case Stopping => 1 case Stopped => 0
  }

  /** The work left until main returns. */
  function Measure(a: Agent): int
  {
    P.Measure(a.pool) + ReporterRank(a.reporter) + MainRank(a.main) + (if a.pollerAlive then 1 else 0)
  }

  /** What a tick or a signal may add; a report tick brings one more batch. */
  function Cost(e: Event): nat { if e.ReportTick? then 10 else if Own(e) then 0 else 1 }

  /** The move of the pool that a step of the agent makes. */
  function PoolEvent(e: Event): P.Event
  {
    match e case Pool(p) => p case StartWorker => P.Spawn case CallStop => P.CallStop case _ => P.CallSubmit
  }

  lemma PoolEventHappens(a: Agent, e: Event)
    requires PoolNext(a, e).Some?
    ensures P.Next(a.pool, PoolEvent(e)).Some? && PoolNext(a, e).value.pool == P.Next(a.pool, PoolEvent(e)).value
    ensures PoolNext(a, e).value.pollerAlive == a.pollerAlive
    ensures ReporterRank(PoolNext(a, e).value.reporter) + MainRank(PoolNext(a, e).value.main) + P.Cost(PoolEvent(e))
      <= ReporterRank(a.reporter) + MainRank(a.main)
  {
    hide P.Next;
  }

  lemma PoolStepLowersMeasure(a: Agent, e: Event)
    requires Inv(a) && PoolNext(a, e).Some?
    ensures Measure(PoolNext(a, e).value) < Measure(a)
  {
    PoolEventHappens(a, e);
    hide P.Inv, P.Next, P.Measure, P.Cost, CallsInv, PollsInv, MainInv, PoolNext, PoolEvent, ReporterRank, MainRank;
    P.StepLowersMeasure(a.pool, PoolEvent(e));
  }

  /** Every step of the shutdown's own lowers the measure, whether the signal has come or not. */
  lemma StepLowersMeasure(a: Agent, e: Event)
    requires Inv(a) && Next(a, e).Some?
    ensures Measure(Next(a, e).value) < Measure(a) + Cost(e)
  {
    hide P.Measure, Inv, P.Next;
    if PoolNext(a, e).Some? {
      PoolStepLowersMeasure(a, e);
      hide PoolNext, Measure;
    }
  }

  /** A run is no longer than the shutdown's own work and the ticks and signals in it allow. */
  lemma {:induction false} RunIsBounded(rateLimit: nat, states: seq<Agent>, run: seq<Event>)
    requires IsRun(rateLimit, states, run)
    ensures |run| <= |run| + Measure(states[|run|]) <= 3 * rateLimit + 25 + Sums.Total(run, Cost)
  {
    hide Inv, Next, Cost, Measure;
    RunKeepsInv(rateLimit, states, run, |run|);
    MeasureIsNat(states[|run|]);
    if run == [] {
      LaunchMeasure(rateLimit);
    } else {
      var m := |run| - 1;
      RunIsBounded(rateLimit, states[..|run|], run[..m]);
      RunKeepsInv(rateLimit, states, run, m);
      assert Next(states[m], run[m]) == Some(states[m + 1]);
      StepLowersMeasure(states[m], run[m]);
      hide Sums.Total;
      assert run == run[..m] + [run[m]];
      Sums.TotalAppend(run[..m], Cost, run[m]);
    }
  }

  lemma MeasureIsNat(a: Agent)
    requires Inv(a)
    ensures Measure(a) >= 0
  {
    P.MeasureIsNat(a.pool);
    hide P.Inv, P.Measure;
  }

  lemma LaunchMeasure(rateLimit: nat)
    ensures Measure(Launch(rateLimit)) == 3 * rateLimit + 25
  {}

  /** With at least one worker, a signalled run that has no step of its own left has returned from main. */
  lemma MainReturns(rateLimit: nat, states: seq<Agent>, run: seq<Event>)
    requires rateLimit >= 1 && IsRun(rateLimit, states, run) && states[|run|].signalled
    requires forall e | Own(e) :: Next(states[|run|], e).None?
    ensures states[|run|].main.Stopped?
  {
    RunKeepsInv(rateLimit, states, run, |run|);
    RunKeepsWorkers(rateLimit, states, run, |run|);
    hide Inv, Next, IsRun;
    if !states[|run|].main.Stopped? {
      var e := ShutdownAdvances(states[|run|]);
    }
  }

  lemma {:induction false} RunKeepsWorkers(rateLimit: nat, states: seq<Agent>, run: seq<Event>, k: nat)
    requires IsRun(rateLimit, states, run) && k < |states|
    ensures states[k].pool.workers == rateLimit
  {
    if k > 0 {
      RunKeepsWorkers(rateLimit, states, run, k - 1);
      RunKeepsInv(rateLimit, states, run, k - 1);
      assert Next(states[k - 1], run[k - 1]) == Some(states[k]);
      NextKeepsWorkers(states[k - 1], run[k - 1]);
    }
    hide Inv, Next, IsRun;
  }

  lemma NextKeepsWorkers(a: Agent, e: Event)
    requires Inv(a) && Next(a, e).Some?
    ensures Next(a, e).value.pool.workers == a.pool.workers
  {
    if PoolNext(a, e).Some? {
      PoolEventHappens(a, e);
      P.NextKeepsInv(a.pool, PoolEvent(e));
      hide PoolNext, PoolEvent;
    }
    hide P.Inv, P.Next, CallsInv, PollsInv, MainInv;
  }

  // ---- what the batches carry ----------------------------------------------------------

  /** The Collect calls of a run, counted from its events alone. */
  function Collects(run: seq<Event>): nat
  {
    if run == [] then 0 else
    var e := run[|run| - 1];
    Collects(run[..|run| - 1]) + (if e.FirstCollect? || e.PollTick? then 1 else 0)
  }

  /** The Collect calls before the last report tick, or before the final batch was built. */
  function CollectsWhenBuilt(run: seq<Event>, final: bool): nat
  {
    if run == [] then 0 else
    var e, before := run[|run| - 1], run[..|run| - 1];
    if (if final then e.FinalBuild? else e.ReportTick?) then Collects(before) else CollectsWhenBuilt(before, final)
  }

  /** What the submitted batches should carry, one after the other. */
  function Carried(run: seq<Event>): seq<nat>
  {
    if run == [] then [] else
    var e, before := run[|run| - 1], run[..|run| - 1];
    Carried(before) + (if e.ReportSubmit? || e.FinalSubmit? then [CollectsWhenBuilt(before, e.FinalSubmit?)] else [])
  }

  ghost predicate CarryInv(a: Agent, run: seq<Event>)
  {
    && a.pollCount == a.collects == Collects(run)
    && a.polls == Carried(run)
    && (a.reporter.Built? ==> a.reporter.poll == CollectsWhenBuilt(run, false))
    && (a.main.FinalBuilt? ==> a.main.poll == CollectsWhenBuilt(run, true))
  }

  lemma CarryNext(a: Agent, run: seq<Event>, e: Event)
    requires CarryInv(a, run) && Next(a, e).Some?
    ensures CarryInv(Next(a, e).value, run + [e])
  {
    assert (run + [e])[..|run|] == run;
    hide P.Next;
  }

  /**
   * At every point of every run the poll count is the number of Collect calls so far, and each
   * submitted batch carries the number there was when it was built, periodic and final ones alike.
   */
  lemma {:induction false} BatchesCarryCollects(rateLimit: nat, states: seq<Agent>, run: seq<Event>, k: nat)
    requires IsRun(rateLimit, states, run) && k <= |run|
    ensures CarryInv(states[k], run[..k])
  {
    if k > 0 {
      BatchesCarryCollects(rateLimit, states, run, k - 1);
      assert Next(states[k - 1], run[k - 1]) == Some(states[k - 1 + 1]);
      CarryNext(states[k - 1], run[..k - 1], run[k - 1]);
      assert run[..k - 1] + [run[k - 1]] == run[..k];
      hide Next, CarryInv;
    }
  }

  /** When main returns every batch has been handled with what it should carry, the final one all calls. */
  lemma HandledBatchesCarryCollects(rateLimit: nat, states: seq<Agent>, run: seq<Event>)
    requires IsRun(rateLimit, states, run) && states[|run|].main.Stopped?
    ensures var a := states[|run|];
      && a.polls == Carried(run) && a.pool.handled == Sums.Below(|Carried(run)|)
      && Carried(run) != [] && Carried(run)[|Carried(run)| - 1] == Collects(run)
  {
    ShutdownDeliversEverything(rateLimit, states, run);
    BatchesCarryCollects(rateLimit, states, run, |run|);
    assert run[..|run|] == run;
    hide IsRun;
  }

  /** While the agent serves, no tick is lost and a built batch can be submitted. */
  lemma TicksAreTaken(a: Agent)
    requires Inv(a) && a.main.Serving?
    ensures a.pollerAlive ==> Next(a, PollTick).Some?
    ensures a.reporter.Idle? ==> Next(a, ReportTick).Some?
    ensures a.reporter.Built? ==> Next(a, ReportSubmit).Some?
    ensures Next(a, Signal).Some?
  {
    assert !a.pool.panicked;
    hide P.Inv, CallsInv, PollsInv, MainInv;
  }
}
