/**
 * The agent's worker pool as a protocol.  Any number of Submit calls, the workers and any
 * number of Stop calls run interleaved, one atomic action at a time; the scheduler is
 * arbitrary.  The state holds the pool's own fields (queue, closed channel, context, stopped
 * flag, read-write lock, once, wait group), a program counter for every goroutine, and three
 * histories: what was accepted, dequeued and handled.
 */
module WorkerPool {
  import opened Options
  import opened Sums

  /** How a Submit call ends: its task queued, refused by the stopped flag, or by the context. */
  datatype Outcome = Accepted | RefusedStopped | RefusedCtx

  datatype SubmitPc =
    | Calling               // waiting for the read lock
    | Locked                // holds the read lock, has not read `stopped`
    | Checked               // read stopped == false; first select next
    | Sending               // in the second select
    | Leaving(out: Outcome) // still holds the read lock, returns next
    | Left(out: Outcome)

  datatype WorkerPc =
    | Selecting
    | Handling(index: nat)  // sends the task dequeued as number `index`
    | Exiting               // left the loop, wg.Done next
    | Finished

  datatype StopPc =
    | Entering              // at stopOnce.Do
    | Began | Announced | LockHeld | FlagSet | ChanClosed | Waiting | Drained | Cancelled
    | Gone                  // Stop returned

  /** The write side of the RWMutex: a pending writer already shuts out new readers. */
  datatype Writer = NoWriter | Pending | Held

  datatype Once = NotRun | Running(runner: nat) | Ran

  /** A task is named by the Submit call that brings it. */
  datatype State = State(
    workers: nat,
    queue: seq<nat>, closed: bool, ctxDone: bool, stopped: bool,
    readers: int, writer: Writer, once: Once, wg: int,
    subs: seq<SubmitPc>, works: seq<WorkerPc>, stops: seq<StopPc>,
    accepted: seq<nat>, dequeued: seq<nat>, handled: set<nat>,
    panicked: bool)

  function New(workers: nat): State
  {
    State(workers, [], false, false, false, 0, NoWriter, NotRun, 0, [], [], [], [], [], {}, false)
  }

  /** What the scheduler may do next.  `viaCtx` is the select's choice of the context case. */
  datatype Event =
    | CallSubmit
    | CallStop
    | Spawn
    | Submitter(i: nat, viaCtx: bool)
    | Worker(j: nat, viaCtx: bool)
    | Stopper(t: nat)

  predicate Internal(e: Event) { !e.CallSubmit? && !e.CallStop? }

  // ---- the steps -----------------------------------------------------------------------

  function SubmitStep(s: State, i: nat, viaCtx: bool): Option<State>
    requires i < |s.subs|
  {
    match s.subs[i]
    case Calling =>
      if s.writer.NoWriter? then Some(s.(readers := s.readers + 1, subs := s.subs[i := Locked])) else None
    case Locked =>
      Some(s.(subs := s.subs[i := if s.stopped then Leaving(RefusedStopped) else Checked]))
    case Checked =>
      Some(s.(subs := s.subs[i := if s.ctxDone then Leaving(RefusedCtx) else Sending]))
    case Sending =>
      if viaCtx then
        if s.ctxDone then Some(s.(subs := s.subs[i := Leaving(RefusedCtx)])) else None
      else if s.closed then Some(s.(panicked := true))
      else if |s.queue| < 2 * s.workers then
        Some(s.(queue := s.queue + [i], accepted := s.accepted + [i], subs := s.subs[i := Leaving(Accepted)]))
      else None
    case Leaving(out) =>
      Some(s.(readers := s.readers - 1, subs := s.subs[i := Left(out)], panicked := s.readers <= 0))
    case Left(_) => None
  }

  function WorkerStep(s: State, j: nat, viaCtx: bool): Option<State>
    requires j < |s.works|
  {
    match s.works[j]
    case Selecting =>
      if viaCtx then
        if s.ctxDone then Some(s.(works := s.works[j := Exiting])) else None
      else if s.queue != [] then
        Some(s.(queue := s.queue[1..], dequeued := s.dequeued + [s.queue[0]],
                works := s.works[j := Handling(|s.dequeued|)]))
      else if s.closed then Some(s.(works := s.works[j := Exiting]))
      else None
    case Handling(k) => Some(s.(handled := s.handled + {k}, works := s.works[j := Selecting]))
    case Exiting => Some(s.(wg := s.wg - 1, works := s.works[j := Finished], panicked := s.wg <= 0))
    case Finished => None
  }

  function StopStep(s: State, t: nat): Option<State>
    requires t < |s.stops|
  {
    match s.stops[t]
    case Entering =>
      (match s.once
       case NotRun => Some(s.(once := Running(t), stops := s.stops[t := Began]))
       case Running(_) => None
       case Ran => Some(s.(stops := s.stops[t := Gone])))
    case Began =>
      if s.writer.NoWriter? then Some(s.(writer := Pending, stops := s.stops[t := Announced])) else None
    case Announced =>
      if s.readers == 0 then Some(s.(writer := Held, stops := s.stops[t := LockHeld])) else None
    case LockHeld => Some(s.(stopped := true, stops := s.stops[t := FlagSet]))
    case FlagSet => Some(s.(closed := true, panicked := s.closed, stops := s.stops[t := ChanClosed]))
    case ChanClosed => Some(s.(writer := NoWriter, panicked := !s.writer.Held?, stops := s.stops[t := Waiting]))
    case Waiting => if s.wg == 0 then Some(s.(stops := s.stops[t := Drained])) else None
    case Drained => Some(s.(ctxDone := true, stops := s.stops[t := Cancelled]))
    case Cancelled => Some(s.(once := Ran, stops := s.stops[t := Gone]))
    case Gone => None
  }

  /** One action, or None when it is not enabled.  Stop may be called once Start has run. */
  function Next(s: State, e: Event): Option<State>
  {
    if s.panicked then None else
    match e
    case CallSubmit => Some(s.(subs := s.subs + [Calling]))
    case CallStop => if |s.works| == s.workers then Some(s.(stops := s.stops + [Entering])) else None
    case Spawn =>
      if |s.works| < s.workers then Some(s.(wg := s.wg + 1, works := s.works + [Selecting])) else None
    case Submitter(i, viaCtx) => if i < |s.subs| then SubmitStep(s, i, viaCtx) else None
    case Worker(j, viaCtx) => if j < |s.works| then WorkerStep(s, j, viaCtx) else None
    case Stopper(t) => if t < |s.stops| then StopStep(s, t) else None
  }

  /** A run from a new pool: the states it goes through and the event that leads from each to the next. */
  ghost predicate IsRun(workers: nat, states: seq<State>, run: seq<Event>)
  {
    && |states| == |run| + 1
    && states[0] == New(workers)
    && forall k: nat | k < |run| :: Next(states[k], run[k]) == Some(states[k + 1])
  }

  // ---- the invariant -------------------------------------------------------------------

  predicate Holds(p: SubmitPc) { p.Locked? || p.Checked? || p.Sending? || p.Leaving? }

  /** The call has read stopped == false and has not unlocked yet. */
  predicate PastCheck(p: SubmitPc) { p.Checked? || p.Sending? || (p.Leaving? && p.out != RefusedStopped) }

  predicate Refused(p: SubmitPc) { (p.Leaving? || p.Left?) && p.out == RefusedStopped }

  predicate Queued(p: SubmitPc) { (p.Leaving? || p.Left?) && p.out == Accepted }

  function Holders(subs: seq<SubmitPc>): set<nat> { set i: nat | i < |subs| && Holds(subs[i]) }
  function Alive(works: seq<WorkerPc>): set<nat> { set j: nat | j < |works| && !works[j].Finished? }
  function Busy(works: seq<WorkerPc>): set<nat> { set j: nat | j < |works| && works[j].Handling? }

  predicate InBody(p: StopPc) { !p.Entering? && !p.Gone? }

  /** How far the one executed Stop body has come. */
  function Phase(s: State): nat
  {
    match s.once
    case NotRun => 0
    case Ran => 9
    case Running(t) =>
      if t >= |s.stops| then 0 else
      match s.stops[t]
      case Entering => 0 case Began => 1 case Announced => 2 case LockHeld => 3 case FlagSet => 4
      case ChanClosed => 5 case Waiting => 6 case Drained => 7 case Cancelled => 8 case Gone => 9
  }

  ghost predicate LockInv(readers: int, writer: Writer, subs: seq<SubmitPc>, phase: nat)
  {
    && readers == |Holders(subs)|
    && writer == (if phase == 2 then Pending else if 3 <= phase <= 5 then Held else NoWriter)
    && (writer.Held? ==> readers == 0)
  }

  ghost predicate OnceInv(once: Once, stops: seq<StopPc>)
  {
    && (once.Running? ==> once.runner < |stops|)
    && (forall t: nat | t < |stops| :: InBody(stops[t]) <==> once == Running(t))
    && (forall t: nat | t < |stops| && stops[t].Gone? :: once.Ran?)
    && (stops == [] ==> once.NotRun?)
  }

  ghost predicate FlagInv(stopped: bool, closed: bool, ctxDone: bool, phase: nat)
  {
    stopped == (phase >= 4) && closed == (phase >= 5) && ctxDone == (phase >= 8)
  }

  /**
   * Nobody is past the stopped check once Stop holds the lock, only a stopped pool has refused
   * anybody, and the context refuses nobody.
   */
  ghost predicate CheckInv(subs: seq<SubmitPc>, phase: nat)
  {
    && (forall i: nat | i < |subs| && PastCheck(subs[i]) :: phase <= 2)
    && (forall i: nat | i < |subs| && Refused(subs[i]) :: phase >= 4)
    && (forall i: nat | i < |subs| :: subs[i] != Leaving(RefusedCtx) && subs[i] != Left(RefusedCtx))
  }

  ghost predicate QueueInv(capacity: nat, queue: seq<nat>, dequeued: seq<nat>, accepted: seq<nat>)
  {
    dequeued + queue == accepted && |queue| <= capacity
  }

  ghost predicate AcceptInv(accepted: seq<nat>, subs: seq<SubmitPc>)
  {
    && (forall a, b | 0 <= a < b < |accepted| :: accepted[a] != accepted[b])
    && (forall i | i in accepted :: i < |subs| && Queued(subs[i]))
    && (forall i: nat | i < |subs| && Queued(subs[i]) :: i in accepted)
  }

  ghost predicate WorkerInv(works: seq<WorkerPc>, wg: int, taken: nat, handled: set<nat>)
  {
    && wg == |Alive(works)|
    && (forall k | k in handled :: k < taken)
    && (forall j: nat | j < |works| && works[j].Handling? :: works[j].index < taken && works[j].index !in handled)
    && (forall j: nat, l: nat | j < l < |works| && works[j].Handling? && works[l].Handling? ::
          works[j].index != works[l].index)
    && |handled| + |Busy(works)| == taken
  }

  /** A worker has left its loop only when the channel was closed and drained. */
  ghost predicate DrainInv(works: seq<WorkerPc>, drained: bool, phase: nat)
  {
    && (forall j: nat | j < |works| && (works[j].Exiting? || works[j].Finished?) :: drained)
    && (phase >= 7 ==> forall j: nat | j < |works| :: works[j].Finished?)
  }

  ghost predicate Inv(s: State)
  {
    && LockInv(s.readers, s.writer, s.subs, Phase(s))
    && OnceInv(s.once, s.stops)
    && FlagInv(s.stopped, s.closed, s.ctxDone, Phase(s))
    && CheckInv(s.subs, Phase(s))
    && QueueInv(2 * s.workers, s.queue, s.dequeued, s.accepted)
    && AcceptInv(s.accepted, s.subs)
    && WorkerInv(s.works, s.wg, |s.dequeued|, s.handled)
    && DrainInv(s.works, s.closed && s.queue == [], Phase(s))
    && |s.works| <= s.workers && (s.stops != [] ==> |s.works| == s.workers)
    && !s.panicked
  }

  // ---- every step keeps it -------------------------------------------------------------

  lemma HoldersUpdate(subs: seq<SubmitPc>, i: nat, p: SubmitPc)
    requires i < |subs|
    ensures Holders(subs[i := p]) == if Holds(p) then Holders(subs) + {i} else Holders(subs) - {i}
    ensures Holds(subs[i]) <==> i in Holders(subs)
  {}

  lemma AliveUpdate(works: seq<WorkerPc>, j: nat, p: WorkerPc)
    requires j < |works|
    ensures Alive(works[j := p]) == if p.Finished? then Alive(works) - {j} else Alive(works) + {j}
    ensures Busy(works[j := p]) == if p.Handling? then Busy(works) + {j} else Busy(works) - {j}
  {}

  /** A submitter moves without touching the lock: it holds it before and after. */
  lemma StayInside(s: State, i: nat, p: SubmitPc)
    requires Inv(s) && i < |s.subs| && Holds(s.subs[i]) && Holds(p)
    ensures LockInv(s.readers, s.writer, s.subs[i := p], Phase(s))
    ensures Phase(s) <= 2 || Phase(s) >= 6
  {
    HoldersUpdate(s.subs, i, p);
    assert i in Holders(s.subs);
    assert Holders(s.subs) + {i} == Holders(s.subs);
  }

  lemma AcceptUnmoved(accepted: seq<nat>, subs: seq<SubmitPc>, i: nat, p: SubmitPc)
    requires AcceptInv(accepted, subs) && i < |subs| && Queued(p) == Queued(subs[i])
    ensures AcceptInv(accepted, subs[i := p])
  {}

  lemma AcceptOne(accepted: seq<nat>, subs: seq<SubmitPc>, i: nat)
    requires AcceptInv(accepted, subs) && i < |subs| && !Queued(subs[i])
    ensures AcceptInv(accepted + [i], subs[i := Leaving(Accepted)])
  {
    assert i !in accepted;
  }

  lemma LockKeepsCheck(subs: seq<SubmitPc>, i: nat, phase: nat)
    requires CheckInv(subs, phase) && i < |subs|
    ensures CheckInv(subs[i := Locked], phase)
  {}

  lemma LockKeepsInv(s: State, i: nat, viaCtx: bool)
    requires Inv(s) && i < |s.subs| && s.subs[i].Calling? && SubmitStep(s, i, viaCtx).Some?
    ensures Inv(SubmitStep(s, i, viaCtx).value)
  {
    HoldersUpdate(s.subs, i, Locked);
    AcceptUnmoved(s.accepted, s.subs, i, Locked);
    LockKeepsCheck(s.subs, i, Phase(s));
    hide AcceptInv, WorkerInv, OnceInv, QueueInv, DrainInv, FlagInv, Holders, CheckInv;
  }

  lemma UnlockKeepsInv(s: State, i: nat, viaCtx: bool)
    requires Inv(s) && i < |s.subs| && s.subs[i].Leaving?
    ensures Inv(SubmitStep(s, i, viaCtx).value)
  {
    HoldersUpdate(s.subs, i, Left(s.subs[i].out));
    assert i in Holders(s.subs);
    AcceptUnmoved(s.accepted, s.subs, i, Left(s.subs[i].out));
    hide AcceptInv, WorkerInv, OnceInv, QueueInv, DrainInv;
  }

  lemma SendKeepsInv(s: State, i: nat)
    requires Inv(s) && i < |s.subs| && s.subs[i].Sending? && SubmitStep(s, i, false).Some?
    ensures Inv(SubmitStep(s, i, false).value)
  {
    assert PastCheck(s.subs[i]);
    StayInside(s, i, Leaving(Accepted));
    AcceptOne(s.accepted, s.subs, i);
    assert s.dequeued + (s.queue + [i]) == (s.dequeued + s.queue) + [i];
    hide AcceptInv, WorkerInv, OnceInv, LockInv;
  }

  lemma CheckKeepsInv(s: State, i: nat, viaCtx: bool)
    requires Inv(s) && i < |s.subs| && SubmitStep(s, i, viaCtx).Some?
    requires s.subs[i].Locked? || s.subs[i].Checked? || (s.subs[i].Sending? && viaCtx)
    ensures Inv(SubmitStep(s, i, viaCtx).value)
  {
    var p := SubmitStep(s, i, viaCtx).value.subs[i];
    assert s.subs[i].Locked? || PastCheck(s.subs[i]);
    StayInside(s, i, p);
    AcceptUnmoved(s.accepted, s.subs, i, p);
    hide AcceptInv, WorkerInv, OnceInv, QueueInv, DrainInv, LockInv;
  }

  lemma TakeKeepsWorkers(works: seq<WorkerPc>, wg: int, taken: nat, handled: set<nat>, j: nat)
    requires WorkerInv(works, wg, taken, handled) && j < |works| && works[j].Selecting?
    ensures WorkerInv(works[j := Handling(taken)], wg, taken + 1, handled)
  {
    AliveUpdate(works, j, Handling(taken));
    assert j in Alive(works);
    assert Alive(works) + {j} == Alive(works);
    hide Alive, Busy;
  }

  lemma HandleKeepsWorkers(works: seq<WorkerPc>, wg: int, taken: nat, handled: set<nat>, j: nat)
    requires WorkerInv(works, wg, taken, handled) && j < |works| && works[j].Handling?
    ensures WorkerInv(works[j := Selecting], wg, taken, handled + {works[j].index})
  {
    AliveUpdate(works, j, Selecting);
    assert j in Alive(works) && j in Busy(works);
    assert Alive(works) + {j} == Alive(works);
    hide Alive, Busy;
  }

  lemma LeaveKeepsWorkers(works: seq<WorkerPc>, wg: int, taken: nat, handled: set<nat>, j: nat)
    requires WorkerInv(works, wg, taken, handled) && j < |works| && works[j].Selecting?
    ensures WorkerInv(works[j := Exiting], wg, taken, handled)
  {
    AliveUpdate(works, j, Exiting);
    assert j in Alive(works) && Alive(works) + {j} == Alive(works) && Busy(works) - {j} == Busy(works);
    hide Alive, Busy;
  }

  lemma ExitKeepsWorkers(works: seq<WorkerPc>, wg: int, taken: nat, handled: set<nat>, j: nat)
    requires WorkerInv(works, wg, taken, handled) && j < |works| && works[j].Exiting?
    ensures wg > 0 && WorkerInv(works[j := Finished], wg - 1, taken, handled)
  {
    AliveUpdate(works, j, Finished);
    assert j in Alive(works) && Busy(works) - {j} == Busy(works);
    hide Alive, Busy;
  }

  lemma TakeKeepsInv(s: State, j: nat)
    requires Inv(s) && j < |s.works| && s.works[j].Selecting? && s.queue != []
    ensures Inv(WorkerStep(s, j, false).value)
  {
    TakeKeepsWorkers(s.works, s.wg, |s.dequeued|, s.handled, j);
    hide AcceptInv, CheckInv, OnceInv, FlagInv, LockInv, WorkerInv;
    assert s.dequeued + s.queue == (s.dequeued + [s.queue[0]]) + s.queue[1..];
  }

  lemma HandleKeepsInv(s: State, j: nat)
    requires Inv(s) && j < |s.works| && s.works[j].Handling?
    ensures Inv(WorkerStep(s, j, false).value)
  {
    HandleKeepsWorkers(s.works, s.wg, |s.dequeued|, s.handled, j);
    hide AcceptInv, CheckInv, OnceInv, FlagInv, LockInv, QueueInv, WorkerInv;
  }

  lemma ExitKeepsInv(s: State, j: nat, viaCtx: bool)
    requires Inv(s) && j < |s.works| && WorkerStep(s, j, viaCtx).Some?
    requires s.works[j].Exiting? || (s.works[j].Selecting? && WorkerStep(s, j, viaCtx).value.works[j].Exiting?)
    ensures Inv(WorkerStep(s, j, viaCtx).value)
  {
    if s.works[j].Exiting? {
      ExitKeepsWorkers(s.works, s.wg, |s.dequeued|, s.handled, j);
    } else {
      LeaveKeepsWorkers(s.works, s.wg, |s.dequeued|, s.handled, j);
    }
    hide AcceptInv, CheckInv, OnceInv, LockInv, QueueInv, WorkerInv;
  }

  lemma StopSetsOnce(s: State, t: nat)
    requires t < |s.stops| && StopStep(s, t).Some?
    ensures StopStep(s, t).value.once ==
      if s.stops[t].Entering? && s.once.NotRun? then Running(t) else if s.stops[t].Cancelled? then Ran else s.once
    ensures s.stops[t].Entering? ==> !s.once.Running?
  {}

  lemma TurnOnce(s: State, t: nat)
    requires OnceInv(s.once, s.stops) && t < |s.stops| && StopStep(s, t).Some?
    ensures OnceInv(StopStep(s, t).value.once, StopStep(s, t).value.stops)
  {
    StopSetsOnce(s, t);
    StopRankFalls(s, t);
    hide StopStep, StopRank;
    assert InBody(s.stops[t]) ==> s.once == Running(t);
  }

  lemma TurnPhase(s: State, t: nat)
    requires OnceInv(s.once, s.stops) && t < |s.stops| && StopStep(s, t).Some?
    ensures Phase(StopStep(s, t).value) == Phase(s) + (if s.stops[t].Entering? && s.once.Ran? then 0 else 1)
  {
    StopSetsOnce(s, t);
    StopRankFalls(s, t);
    hide StopStep, StopRank;
    assert InBody(s.stops[t]) ==> s.once == Running(t);
  }

  lemma StopKeepsInv(s: State, t: nat)
    requires Inv(s) && t < |s.stops| && StopStep(s, t).Some?
    ensures Inv(StopStep(s, t).value)
  {
    TurnOnce(s, t);
    TurnPhase(s, t);
    assert InBody(s.stops[t]) ==> s.once == Running(t);
    if s.stops[t].Announced? {
      forall i: nat | i < |s.subs| ensures !Holds(s.subs[i]) {
        assert i !in Holders(s.subs);
      }
    }
    if s.stops[t].Waiting? {
      forall j: nat | j < |s.works| ensures s.works[j].Finished? {
        assert j !in Alive(s.works);
      }
    }
    hide AcceptInv, OnceInv, QueueInv, WorkerInv, Alive, Holders;
  }

  lemma CallSubmitKeepsInv(s: State)
    requires Inv(s)
    ensures Inv(s.(subs := s.subs + [Calling]))
  {
    assert Holders(s.subs + [Calling]) == Holders(s.subs);
    hide OnceInv, QueueInv, WorkerInv, DrainInv, FlagInv, Holders;
  }

  lemma CallStopKeepsInv(s: State)
    requires Inv(s) && |s.works| == s.workers
    ensures Inv(s.(stops := s.stops + [Entering]))
  {
    hide AcceptInv, CheckInv, LockInv, QueueInv, WorkerInv, DrainInv, FlagInv;
  }

  lemma SpawnKeepsWorkers(works: seq<WorkerPc>, wg: int, taken: nat, handled: set<nat>)
    requires WorkerInv(works, wg, taken, handled)
    ensures WorkerInv(works + [Selecting], wg + 1, taken, handled)
  {
    assert Alive(works + [Selecting]) == Alive(works) + {|works|};
    assert Busy(works + [Selecting]) == Busy(works);
    hide Alive, Busy;
  }

  lemma SpawnKeepsInv(s: State)
    requires Inv(s) && |s.works| < s.workers
    ensures Inv(s.(wg := s.wg + 1, works := s.works + [Selecting]))
  {
    SpawnKeepsWorkers(s.works, s.wg, |s.dequeued|, s.handled);
    hide AcceptInv, CheckInv, LockInv, QueueInv, FlagInv, WorkerInv;
  }

  lemma NextKeepsInv(s: State, e: Event)
    requires Inv(s) && Next(s, e).Some?
    ensures Inv(Next(s, e).value) && Next(s, e).value.workers == s.workers
  {
    hide Inv;
    match e
    case Submitter(i, viaCtx) =>
      if s.subs[i].Calling? {
        LockKeepsInv(s, i, viaCtx);
      } else if s.subs[i].Leaving? {
        UnlockKeepsInv(s, i, viaCtx);
      } else if s.subs[i].Sending? && !viaCtx {
        SendKeepsInv(s, i);
      } else {
        CheckKeepsInv(s, i, viaCtx);
      }
    case Worker(j, viaCtx) =>
      if s.works[j].Handling? {
        HandleKeepsInv(s, j);
      } else if s.works[j].Exiting? || viaCtx || s.queue == [] {
        ExitKeepsInv(s, j, viaCtx);
      } else {
        TakeKeepsInv(s, j);
      }
    case Stopper(t) => StopKeepsInv(s, t);
    case CallSubmit => CallSubmitKeepsInv(s);
    case CallStop => CallStopKeepsInv(s);
    case Spawn => SpawnKeepsInv(s);
  }

  lemma NewIsInv(workers: nat)
    ensures Inv(New(workers))
  {}

  lemma {:induction false} RunKeepsInv(workers: nat, states: seq<State>, run: seq<Event>, k: nat)
    requires IsRun(workers, states, run) && k < |states|
    ensures Inv(states[k]) && states[k].workers == workers
  {
    hide Inv, Next;
    NewIsInv(workers);
    if k > 0 {
      RunKeepsInv(workers, states, run, k - 1);
      assert Next(states[k - 1], run[k - 1]) == Some(states[k]);
      NextKeepsInv(states[k - 1], run[k - 1]);
    }
  }

  // ---- what holds in every state of every run ------------------------------------------

  /**
   * At every point of every run, whatever the scheduling: no panic (no send on a closed channel,
   * no second close, no unlock of a free lock, no negative wait group); tasks are dequeued in the
   * order they were accepted and none is lost or repeated; the queue and the number of tasks
   * being sent are bounded.
   */
  lemma RunIsSafe(workers: nat, states: seq<State>, run: seq<Event>, k: nat)
    requires IsRun(workers, states, run) && k < |states|
    ensures var s := states[k];
      && !s.panicked
      && s.dequeued + s.queue == s.accepted
      && |s.queue| <= 2 * workers
      && (forall a, b | 0 <= a < b < |s.accepted| :: s.accepted[a] != s.accepted[b])
      && (forall n | n in s.handled :: n < |s.dequeued|)
      && |s.dequeued| - workers <= |s.handled| <= |s.dequeued|
  {
    RunKeepsInv(workers, states, run, k);
    var s := states[k];
    hide IsRun;
    var all := Below(|s.works|);
    assert all == Busy(s.works) + (all - Busy(s.works));
  }

  /**
   * The context branches never drop a task: once the context is done the pool is stopped, every
   * worker has exited and no submitter is past its stopped check.  A Submit that returned has its
   * task among the accepted ones, or the pool is stopped and the flag refused it.
   */
  lemma ContextDropsNothing(workers: nat, states: seq<State>, run: seq<Event>, k: nat)
    requires IsRun(workers, states, run) && k < |states|
    ensures var s := states[k];
      && (s.ctxDone ==>
            && s.stopped && s.closed && |s.works| == workers
            && (forall j: nat | j < |s.works| :: s.works[j].Finished?)
            && (forall i: nat | i < |s.subs| :: !PastCheck(s.subs[i])))
      && (forall i: nat | i < |s.subs| && s.subs[i].Left? :: s.subs[i].out != RefusedStopped <==> i in s.accepted)
      && (forall i: nat | i < |s.subs| && s.subs[i].Left? && i !in s.accepted :: s.stopped)
  {
    RunKeepsInv(workers, states, run, k);
    hide IsRun;
  }

  /** When any Stop has returned, the queue is empty and every accepted task was handled. */
  lemma StopReturnsAfterDrain(workers: nat, states: seq<State>, run: seq<Event>, k: nat, t: nat)
    requires IsRun(workers, states, run) && k < |states|
    requires t < |states[k].stops| && states[k].stops[t].Gone?
    ensures var s := states[k];
      && s.dequeued == s.accepted && s.handled == Below(|s.accepted|)
      && (forall j: nat | j < |s.works| :: s.works[j].Finished?)
  {
    RunKeepsInv(workers, states, run, k);
    GoneMeansDrained(states[k]);
  }

  lemma GoneMeansDrained(s: State)
    requires Inv(s) && s.once.Ran?
    ensures s.queue == [] && s.dequeued == s.accepted && s.handled == Below(|s.accepted|)
    ensures forall j: nat | j < |s.works| :: s.works[j].Finished?
  {
    if s.works != [] {
      assert s.works[0].Finished?;
    } else {
      assert s.stops != [];
    }
    assert Busy(s.works) == {};
    var all := Below(|s.accepted|);
    assert s.handled <= all;
    assert all == s.handled + (all - s.handled);
  }

  // ---- Stop returns --------------------------------------------------------------------

  function SubmitRank(p: SubmitPc): nat
  {
    match p
    case Calling => 7 case Locked => 6 case Checked => 5 case Sending => 4 case Leaving(_) => 1 case Left(_) => 0
  }

  function WorkerRank(p: WorkerPc): nat
  {
    match p
    case Handling(_) => 3 case Selecting => 2 case Exiting => 1 case Finished => 0
  }

  function StopRank(p: StopPc): nat
  {
    match p
    case Entering => 9 case Began => 8 case Announced => 7 case LockHeld => 6 case FlagSet => 5
    case ChanClosed => 4 case Waiting => 3 case Drained => 2 case Cancelled => 1 case Gone => 0
  }

  /** The work left: every action of the pool itself lowers it. */
  function Measure(s: State): int
  {
    Total(s.subs, SubmitRank) + 2 * |s.queue| + Total(s.works, WorkerRank)
      + 3 * (s.workers - |s.works|) + Total(s.stops, StopRank)
  }

  /** One program counter moved, and what it lost pays for what the queue gained. */
  lemma OneMoves(s: State, r: State, i: nat, j: nat, t: nat)
    requires r.workers == s.workers && |r.subs| == |s.subs| && |r.works| == |s.works| && |r.stops| == |s.stops|
    requires i <= |s.subs| && j <= |s.works| && t <= |s.stops|
    requires r.subs == (if i < |s.subs| then s.subs[i := r.subs[i]] else s.subs)
    requires r.works == (if j < |s.works| then s.works[j := r.works[j]] else s.works)
    requires r.stops == (if t < |s.stops| then s.stops[t := r.stops[t]] else s.stops)
    ensures Measure(r) - Measure(s) == 2 * (|r.queue| - |s.queue|)
      + (if i < |s.subs| then SubmitRank(r.subs[i]) - SubmitRank(s.subs[i]) else 0)
      + (if j < |s.works| then WorkerRank(r.works[j]) - WorkerRank(s.works[j]) else 0)
      + (if t < |s.stops| then StopRank(r.stops[t]) - StopRank(s.stops[t]) else 0)
  {
    hide Total, SubmitRank, WorkerRank, StopRank;
    if i < |s.subs| { TotalUpdate(s.subs, SubmitRank, i, r.subs[i]); }
    if j < |s.works| { TotalUpdate(s.works, WorkerRank, j, r.works[j]); }
    if t < |s.stops| { TotalUpdate(s.stops, StopRank, t, r.stops[t]); }
  }

  lemma SubmitLeavesOthers(s: State, i: nat, viaCtx: bool)
    requires i < |s.subs| && SubmitStep(s, i, viaCtx).Some?
    ensures var r := SubmitStep(s, i, viaCtx).value;
      r.workers == s.workers && r.works == s.works && r.stops == s.stops
  {}

  lemma SubmitMovesOne(s: State, i: nat, viaCtx: bool)
    requires i < |s.subs| && SubmitStep(s, i, viaCtx).Some?
    ensures var r := SubmitStep(s, i, viaCtx).value;
      |r.subs| == |s.subs| && r.subs == s.subs[i := r.subs[i]]
  {}

  /** A submitter moves its own program counter and nobody else's. */
  lemma SubmitFrame(s: State, i: nat, viaCtx: bool)
    requires i < |s.subs| && SubmitStep(s, i, viaCtx).Some?
    ensures var r := SubmitStep(s, i, viaCtx).value;
      && r.workers == s.workers && r.works == s.works && r.stops == s.stops
      && |r.subs| == |s.subs| && r.subs == s.subs[i := r.subs[i]]
  {
    hide SubmitStep;
    SubmitLeavesOthers(s, i, viaCtx);
    SubmitMovesOne(s, i, viaCtx);
  }

  lemma SubmitRankFalls(s: State, i: nat, viaCtx: bool)
    requires i < |s.subs| && SubmitStep(s, i, viaCtx).Some? && !SubmitStep(s, i, viaCtx).value.panicked
    ensures var r := SubmitStep(s, i, viaCtx).value;
      i < |r.subs| && SubmitRank(r.subs[i]) + 2 * |r.queue| < SubmitRank(s.subs[i]) + 2 * |s.queue|
  {}

  lemma SubmitLowersMeasure(s: State, i: nat, viaCtx: bool)
    requires i < |s.subs| && SubmitStep(s, i, viaCtx).Some? && !SubmitStep(s, i, viaCtx).value.panicked
    ensures Measure(SubmitStep(s, i, viaCtx).value) < Measure(s)
  {
    SubmitFrame(s, i, viaCtx);
    SubmitRankFalls(s, i, viaCtx);
    hide Measure, SubmitStep, SubmitRank;
    OneMoves(s, SubmitStep(s, i, viaCtx).value, i, |s.works|, |s.stops|);
  }

  lemma WorkerLowersMeasure(s: State, j: nat, viaCtx: bool)
    requires j < |s.works| && WorkerStep(s, j, viaCtx).Some?
    ensures Measure(WorkerStep(s, j, viaCtx).value) < Measure(s)
  {
    hide Measure;
    OneMoves(s, WorkerStep(s, j, viaCtx).value, |s.subs|, j, |s.stops|);
  }

  lemma StopFrame(s: State, t: nat)
    requires t < |s.stops| && StopStep(s, t).Some?
    ensures var r := StopStep(s, t).value;
      && r.workers == s.workers && r.subs == s.subs && r.works == s.works
      && r.queue == s.queue && r.accepted == s.accepted
  {}

  /** Where the stopper stands after its step. */
  function StopNext(p: StopPc): StopPc
  {
    match p
    case Entering => Began case Began => Announced case Announced => LockHeld case LockHeld => FlagSet
    case FlagSet => ChanClosed case ChanClosed => Waiting case Waiting => Drained case Drained => Cancelled
    case Cancelled => Gone case Gone => Gone
  }

  lemma StopRankFalls(s: State, t: nat)
    requires t < |s.stops| && StopStep(s, t).Some?
    ensures var p := if s.stops[t].Entering? && s.once.Ran? then Gone else StopNext(s.stops[t]);
      StopStep(s, t).value.stops == s.stops[t := p] && StopRank(p) < StopRank(s.stops[t])
  {}

  lemma StopLowersMeasure(s: State, t: nat)
    requires t < |s.stops| && StopStep(s, t).Some?
    ensures Measure(StopStep(s, t).value) < Measure(s)
  {
    StopFrame(s, t);
    StopRankFalls(s, t);
    hide Measure, StopStep, StopRank;
    OneMoves(s, StopStep(s, t).value, |s.subs|, |s.works|, t);
  }

  /** What a new call adds to the work left; every other action is free. */
  function Cost(e: Event): nat { if e.CallSubmit? then 8 else if e.CallStop? then 10 else 0 }

  /** Every action lowers the measure; a new call first pays in its cost. */
  lemma StepLowersMeasure(s: State, e: Event)
    requires Inv(s) && Next(s, e).Some?
    ensures Measure(Next(s, e).value) < Measure(s) + Cost(e)
  {
    NextKeepsInv(s, e);
    match e
    case CallSubmit => TotalAppend(s.subs, SubmitRank, Calling);
    case CallStop => TotalAppend(s.stops, StopRank, Entering);
    case Spawn => TotalAppend(s.works, WorkerRank, Selecting);
    case Submitter(i, viaCtx) => SubmitLowersMeasure(s, i, viaCtx); hide Measure, SubmitStep;
    case Worker(j, viaCtx) => WorkerLowersMeasure(s, j, viaCtx); hide Measure, WorkerStep;
    case Stopper(t) => StopLowersMeasure(s, t); hide Measure, StopStep;
  }

  /** With finitely many calls a run is finite: its length is bounded by the calls it contains. */
  lemma {:induction false} RunIsBounded(workers: nat, states: seq<State>, run: seq<Event>)
    requires IsRun(workers, states, run)
    ensures |run| <= |run| + Measure(states[|run|]) <= 3 * workers + Total(run, Cost)
  {
    hide Inv, Next, Cost;
    RunKeepsInv(workers, states, run, |run|);
    MeasureIsNat(states[|run|]);
    if run != [] {
      var m := |run| - 1;
      RunIsBounded(workers, states[..|run|], run[..m]);
      RunKeepsInv(workers, states, run, m);
      assert Next(states[m], run[m]) == Some(states[m + 1]);
      StepLowersMeasure(states[m], run[m]);
      hide Measure, Total;
      assert run == run[..m] + [run[m]];
      TotalAppend(run[..m], Cost, run[m]);
    }
  }

  lemma MeasureIsNat(s: State)
    requires Inv(s)
    ensures Measure(s) >= 0
  {}

  /** No action of the pool itself is enabled: only a new call could move it. */
  ghost predicate Quiescent(s: State)
  {
    forall e | Internal(e) :: Next(s, e).None?
  }

  /** While a worker is alive and either the channel is closed or a task is queued, one can move. */
  lemma SomeWorkerMoves(s: State, j: nat) returns (e: Event)
    requires Inv(s) && j < |s.works| && !s.works[j].Finished? && (s.closed || s.queue != [])
    ensures e.Worker? && Next(s, e).Some?
  {
    e := Worker(j, false);
  }

  /**
   * Once Stop has been called and not returned, something can move, even when submitters hold
   * the read lock while blocked on a full queue and the writer waits for them.
   */
  lemma StopAdvances(s: State) returns (e: Event)
    requires Inv(s) && s.workers >= 1 && s.stops != [] && !s.once.Ran?
    ensures (e.Submitter? || e.Worker? || e.Stopper?) && Next(s, e).Some?
  {
    if s.once.NotRun? {
      assert !InBody(s.stops[0]);
      return Stopper(0);
    }
    var t := s.once.runner;
    assert InBody(s.stops[t]);
    if s.stops[t].Announced? && s.readers != 0 {
      var i :| i in Holders(s.subs);
      if s.subs[i].Sending? && |s.queue| == 2 * s.workers {
        e := SomeWorkerMoves(s, 0);
      } else {
        e := Submitter(i, false);
      }
    } else if s.stops[t].Waiting? && s.wg != 0 {
      var j :| j in Alive(s.works);
      e := SomeWorkerMoves(s, j);
    } else {
      e := Stopper(t);
    }
  }

  lemma QuiescentStops(s: State)
    requires Inv(s) && s.workers >= 1 && Quiescent(s) && s.stops != []
    ensures s.once.Ran? && forall t: nat | t < |s.stops| :: s.stops[t].Gone?
  {
    if !s.once.Ran? {
      var e := StopAdvances(s);
      assert false;
    }
    forall t: nat | t < |s.stops| ensures s.stops[t].Gone? {
      assert Next(s, Stopper(t)).None?;
      assert !InBody(s.stops[t]);
    }
  }

  lemma QuiescentSubmits(s: State)
    requires Inv(s) && Quiescent(s) && s.once.Ran?
    ensures forall i: nat | i < |s.subs| :: s.subs[i].Left?
  {
    hide AcceptInv, OnceInv, QueueInv, WorkerInv, DrainInv;
    forall i: nat | i < |s.subs| ensures s.subs[i].Left? {
      assert Next(s, Submitter(i, false)).None?;
    }
  }

  lemma QuiescentIsFinished(s: State)
    requires Inv(s) && s.workers >= 1 && Quiescent(s) && s.stops != []
    ensures forall t: nat | t < |s.stops| :: s.stops[t].Gone?
    ensures forall i: nat | i < |s.subs| :: s.subs[i].Left?
    ensures forall j: nat | j < |s.works| :: s.works[j].Finished?
    ensures s.handled == Below(|s.accepted|)
  {
    hide Inv, Quiescent;
    QuiescentStops(s);
    QuiescentSubmits(s);
    GoneMeansDrained(s);
  }

  /**
   * A run that called Stop and cannot continue on its own has finished everything: every Stop and
   * every Submit returned, every worker exited, every accepted task was handled.
   */
  lemma MaximalRunFinishes(workers: nat, states: seq<State>, run: seq<Event>)
    requires workers >= 1 && IsRun(workers, states, run)
    requires Quiescent(states[|run|]) && states[|run|].stops != []
    ensures var s := states[|run|];
      && (forall t: nat | t < |s.stops| :: s.stops[t].Gone?)
      && (forall i: nat | i < |s.subs| :: s.subs[i].Left?)
      && (forall j: nat | j < |s.works| :: s.works[j].Finished?)
      && s.handled == Below(|s.accepted|)
  {
    RunKeepsInv(workers, states, run, |run|);
    QuiescentIsFinished(states[|run|]);
    hide Inv, Quiescent;
  }

  /**
   * A run without Stop that cannot continue on its own has sent everything: all workers were
   * started, the queue is empty, every Submit returned with its task accepted, and all are handled.
   */
  lemma IdlePoolHasSentEverything(workers: nat, states: seq<State>, run: seq<Event>)
    requires workers >= 1 && IsRun(workers, states, run)
    requires Quiescent(states[|run|]) && states[|run|].stops == []
    ensures var s := states[|run|];
      && |s.works| == workers && s.queue == []
      && (forall i: nat | i < |s.subs| :: s.subs[i] == Left(Accepted) && i in s.accepted)
      && s.handled == Below(|s.accepted|)
  {
    RunKeepsInv(workers, states, run, |run|);
    hide IsRun;
    IdleWorkers(states[|run|]);
    IdleSubmits(states[|run|]);
  }

  lemma NeverStopped(s: State)
    requires Inv(s) && s.stops == []
    ensures !s.closed && s.once.NotRun?
  {
    hide LockInv, CheckInv, AcceptInv;
  }

  lemma IdleWorkers(s: State)
    requires Inv(s) && Quiescent(s) && s.stops == [] && s.workers >= 1
    ensures |s.works| == s.workers && s.queue == [] && s.handled == Below(|s.accepted|)
  {
    hide LockInv, CheckInv, AcceptInv, FlagInv;
    assert Next(s, Spawn).None?;
    NeverStopped(s);
    forall j: nat | j < |s.works| ensures s.works[j].Selecting? && s.queue == [] {
      assert Next(s, Worker(j, false)).None?;
    }
    assert s.works[0].Selecting?;
    assert Busy(s.works) == {};
    var all := Below(|s.accepted|);
    assert s.handled <= all && all == s.handled + (all - s.handled);
  }

  lemma IdleSubmits(s: State)
    requires Inv(s) && Quiescent(s) && s.stops == [] && s.queue == [] && s.workers >= 1
    ensures forall i: nat | i < |s.subs| :: s.subs[i] == Left(Accepted) && i in s.accepted
  {
    assert s.once.NotRun?;
    forall i: nat | i < |s.subs| ensures s.subs[i] == Left(Accepted) && i in s.accepted {
      assert Next(s, Submitter(i, false)).None?;
      hide WorkerInv, DrainInv, OnceInv;
    }
  }

  // ---- the queue takes two tasks a worker ----------------------------------------------

  /** The pool after n Submit calls that nobody has received from. */
  function Filled(workers: nat, n: nat): State
  {
    New(workers).(queue := seq(n, k => k), accepted := seq(n, k => k), subs := seq(n, _ => Left(Accepted)))
  }

  function Fill(n: nat): seq<Event>
  {
    if n == 0 then []
    else Fill(n - 1) + [CallSubmit] + seq(5, _ => Submitter(n - 1, false))
  }

  lemma FillOne(workers: nat, n: nat) returns (states: seq<State>)
    requires n < 2 * workers
    ensures |states| == 7 && states[0] == Filled(workers, n) && states[6] == Filled(workers, n + 1)
    ensures Next(states[0], CallSubmit) == Some(states[1])
    ensures forall k | 1 <= k < 6 :: Next(states[k], Submitter(n, false)) == Some(states[k + 1])
  {
    var s0 := Filled(workers, n);
    var s1 := s0.(subs := s0.subs + [Calling]);
    var s2 := s1.(subs := s0.subs + [Locked], readers := 1);
    var s3 := s1.(subs := s0.subs + [Checked], readers := 1);
    var s4 := s1.(subs := s0.subs + [Sending], readers := 1);
    var s5 := s1.(subs := s0.subs + [Leaving(Accepted)], readers := 1,
                  queue := s0.queue + [n], accepted := s0.accepted + [n]);
    var s6 := s5.(subs := s0.subs + [Left(Accepted)], readers := 0);
    assert s0.queue + [n] == seq(n + 1, k => k);
    assert s0.subs + [Left(Accepted)] == seq(n + 1, _ => Left(Accepted));
    states := [s0, s1, s2, s3, s4, s5, s6];
    assert s1.subs[n := Locked] == s2.subs;
    assert s2.subs[n := Checked] == s3.subs;
    assert s3.subs[n := Sending] == s4.subs;
    assert s4.subs[n := Leaving(Accepted)] == s5.subs;
    assert s5.subs[n := Left(Accepted)] == s6.subs;
  }

  /** Before any worker has started, 2*workers Submit calls come back, all accepted ... */
  lemma {:induction false} QueueTakesTwoAWorker(workers: nat, n: nat) returns (states: seq<State>)
    requires n <= 2 * workers
    ensures IsRun(workers, states, Fill(n)) && states[|Fill(n)|] == Filled(workers, n)
  {
    if n == 0 {
      states := [New(workers)];
      assert Filled(workers, 0) == New(workers);
    } else {
      var front := QueueTakesTwoAWorker(workers, n - 1);
      var more := FillOne(workers, n - 1);
      states := front + more[1..];
      var m, run := |Fill(n - 1)|, Fill(n);
      hide Next, Filled;
      forall k: nat | k < |run| ensures Next(states[k], run[k]) == Some(states[k + 1]) {
        if k < m {
          assert run[k] == Fill(n - 1)[k];
          assert Next(front[k], Fill(n - 1)[k]) == Some(front[k + 1]);
        } else {
          assert states[k] == more[k - m] && states[k + 1] == more[k - m + 1];
        }
      }
    }
  }

  /** ... and the next one waits for a worker. */
  lemma FullQueueBlocks(s: State, i: nat)
    requires i < |s.subs| && s.subs[i].Sending? && !s.closed
    ensures Next(s, Submitter(i, false)).Some? <==> !s.panicked && |s.queue| < 2 * s.workers
  {}

  /** Stop was called, has not returned, and nothing can move. */
  ghost predicate StopStuck(s: State)
  {
    s.stops != [] && !s.once.Ran? && Quiescent(s)
  }

  const BLOCKED_RUN: seq<Event> :=
    [CallSubmit, CallStop, Submitter(0, false), Submitter(0, false), Submitter(0, false), Stopper(0), Stopper(0)]

  /** Without workers the channel has no buffer and no receiver: Submit blocks, and Stop behind it. */
  lemma NoWorkersBlocks() returns (states: seq<State>)
    ensures IsRun(0, states, BLOCKED_RUN) && StopStuck(states[|BLOCKED_RUN|])
  {
    var s0 := New(0);
    var s1 := Next(s0, CallSubmit).value;
    var s2 := Next(s1, CallStop).value;
    var s3 := Next(s2, Submitter(0, false)).value;
    var s4 := Next(s3, Submitter(0, false)).value;
    var s5 := Next(s4, Submitter(0, false)).value;
    var s6 := Next(s5, Stopper(0)).value;
    var s7 := Next(s6, Stopper(0)).value;
    assert s7.subs == [Sending] && s7.stops == [Announced] && s7.works == [] && s7.readers == 1;
    states := [s0, s1, s2, s3, s4, s5, s6, s7];
    hide Next;
    assert forall k: nat | k < 7 :: Next(states[k], BLOCKED_RUN[k]) == Some(states[k + 1]);
  }

  /** Stop always comes back, in every run, exactly when the pool has at least one worker. */
  lemma StopReturnsExactlyWithWorkers(workers: nat)
    ensures workers >= 1 <==>
      forall states, run :: IsRun(workers, states, run) ==> !StopStuck(states[|run|])
  {
    if workers >= 1 {
      forall states, run | IsRun(workers, states, run) ensures !StopStuck(states[|run|]) {
        RunKeepsInv(workers, states, run, |run|);
        if StopStuck(states[|run|]) {
          var e := StopAdvances(states[|run|]);
        }
      }
    } else {
      var states := NoWorkersBlocks();
    }
  }
}
