/**
 * What each save reads and when: the saver's at its tick, a handler's after its own request, main's
 * at the end.  With interval 0 every accepted request is followed by a save of its own.
 */
module SaverReads {
  import opened Options
  import opened Metrics
  import opened Sums
  import opened SaverProtocol

  /** Whose save it is. */
  datatype Who = Periodic | Final | Handler(i: nat)

  function PcOf(s: State, who: Who): SavePc
  {
    match who
    case Periodic => s.saverSave
    case Final => s.mainSave
    case Handler(i) => if i < |s.handlers| && s.handlers[i].Saving? then s.handlers[i].pc else Idle
  }

  /** An event that moves this save. */
  predicate Mine(e: Event, who: Who)
  {
    match who
    case Periodic => e.Tick? || e.SaverStep?
    case Final => e.MainStep?
    case Handler(i) => e.HandlerStep? && e.i == i
  }

  /** The save may begin. */
  predicate Ready(s: State, who: Who)
  {
    match who
    case Periodic => s.saverAlive && s.saverSave.Idle?
    case Final => s.main.FinalSave? && s.mainSave.Idle?
    case Handler(i) => i < |s.handlers| && s.handlers[i] == Saving(Idle)
  }

  /** Whether the file system takes what the event would write. */
  function WriteOk(e: Event): bool
  {
    match e case HandlerStep(_, ok) => ok case SaverStep(ok) => ok case MainStep(ok) => ok case _ => false
  }

  lemma SaveBegins(s: State, e: Event, who: Who)
    requires Inv(s) && Next(s, e).Some? && Mine(e, who) && Ready(s, who)
    ensures PcOf(Next(s, e).value, who) == HasGauges(Current(s).gauges, |s.history| - 1)
  {
    hide ReadInv, PhaseInv, FinalInv, OrderInv, AllAnswered, Wrote;
  }

  lemma SaveReadsCounters(s: State, e: Event, who: Who)
    requires Inv(s) && Next(s, e).Some? && Mine(e, who) && PcOf(s, who).HasGauges?
    ensures var pc := PcOf(s, who);
      PcOf(Next(s, e).value, who) == HasBoth(pc.gauges, pc.gaugesAt, Current(s).counters, |s.history| - 1)
  {
    hide ReadInv, FinalInv, OrderInv, AllAnswered, Wrote;
  }

  lemma SaveEnds(s: State, e: Event, who: Who)
    requires Inv(s) && Next(s, e).Some? && Mine(e, who) && PcOf(s, who).HasBoth?
    ensures var pc := PcOf(s, who);
      var end := SaveEnd(Saved(Store(pc.gauges, pc.counters), pc.gaugesAt, pc.countersAt), WriteOk(e));
      && Next(s, e).value.ended == s.ended + [end]
      && Next(s, e).value.files == s.files + (if Wrote(end) then [end.save] else [])
  {
    hide ReadInv, FinalInv, OrderInv, AllAnswered, Wrote;
  }

  lemma OthersLeaveIt(s: State, e: Event, who: Who)
    requires Inv(s) && Next(s, e).Some? && !Mine(e, who) && !PcOf(s, who).Idle?
    ensures PcOf(Next(s, e).value, who) == PcOf(s, who)
  {
    hide ReadInv, FinalInv, OrderInv, AllAnswered, Wrote, Serve, SaveStep;
  }

  lemma {:induction false} PcHolds(
      initial: Store, interval: int, states: seq<State>, run: seq<Event>, who: Who, a: nat, b: nat)
    requires IsRun(initial, interval, states, run) && a <= b <= |run| && !PcOf(states[a], who).Idle?
    requires forall j: nat | a <= j < b :: !Mine(run[j], who)
    ensures PcOf(states[b], who) == PcOf(states[a], who)
    decreases b
  {
    hide Next, Inv, Mine, PcOf;
    if a < b {
      PcHolds(initial, interval, states, run, who, a, b - 1);
      RunKeepsInv(initial, interval, states, run, b - 1);
      assert Next(states[b - 1], run[b - 1]) == Some(states[b - 1 + 1]);
      OthersLeaveIt(states[b - 1], run[b - 1], who);
    }
  }

  /** The save begins at t, reads the counters at c and ends at k, and does nothing in between. */
  ghost predicate IsSave(states: seq<State>, run: seq<Event>, who: Who, t: nat, c: nat, k: nat)
    requires |states| == |run| + 1
  {
    && t < c < k < |run| && Ready(states[t], who)
    && Mine(run[t], who) && Mine(run[c], who) && Mine(run[k], who)
    && forall j: nat | t < j < k && j != c :: !Mine(run[j], who)
  }

  /**
   * Every save of every run takes the gauges of the store as it is when the save begins and the
   * counters as they are at its second read, and writes them if they are finite and the write works:
   * so the file of a tick holds all requests accepted before the tick, and that of a handler its own.
   */
  lemma SaveIsFresh(
      initial: Store, interval: int, states: seq<State>, run: seq<Event>, who: Who, t: nat, c: nat, k: nat)
    requires IsRun(initial, interval, states, run) && IsSave(states, run, who, t, c, k)
    ensures var save := Saved(Store(Current(states[t]).gauges, Current(states[c]).counters),
                              |states[t].history| - 1, |states[c].history| - 1);
      var end := SaveEnd(save, WriteOk(run[k]));
      && states[k + 1].ended == states[k].ended + [end]
      && states[k + 1].files == states[k].files + (if Wrote(end) then [save] else [])
  {
    hide Next, Inv, Mine, PcOf, Ready, Wrote, WriteOk;
    RunKeepsInv(initial, interval, states, run, t);
    RunKeepsInv(initial, interval, states, run, c);
    RunKeepsInv(initial, interval, states, run, k);
    assert Next(states[t], run[t]) == Some(states[t + 1]);
    assert Next(states[c], run[c]) == Some(states[c + 1]);
    assert Next(states[k], run[k]) == Some(states[k + 1]);
    SaveBegins(states[t], run[t], who);
    PcHolds(initial, interval, states, run, who, t + 1, c);
    SaveReadsCounters(states[c], run[c], who);
    PcHolds(initial, interval, states, run, who, c + 1, k);
    SaveEnds(states[k], run[k], who);
  }

  // ---- nothing is put off --------------------------------------------------------------

  lemma SaverStaysAlive(s: State, e: Event)
    requires s.history != [] && Next(s, e).Some?
    requires s.main.Serving? || s.main.HandlersDone? ==> s.saverAlive
    ensures var r := Next(s, e).value; r.main.Serving? || r.main.HandlersDone? ==> r.saverAlive
  {
    hide Serve, Wrote, AllAnswered;
  }

  lemma {:induction false} SaverLives(initial: Store, interval: int, states: seq<State>, run: seq<Event>, k: nat)
    requires IsRun(initial, interval, states, run) && interval > 0 && k < |states|
    ensures states[k].main.Serving? || states[k].main.HandlersDone? ==> states[k].saverAlive
  {
    if k > 0 {
      SaverLives(initial, interval, states, run, k - 1);
      assert Next(states[k - 1], run[k - 1]) == Some(states[k - 1 + 1]);
      SaverStaysAlive(states[k - 1], run[k - 1]);
      hide Next;
    }
  }

  /**
   * While the server serves every request is taken; with a positive interval every tick that does
   * not come during a save begins one, and a save that has begun can go on.
   */
  lemma NothingIsPutOff(
      initial: Store, interval: int, states: seq<State>, run: seq<Event>, k: nat, metrics: seq<Metric>)
    requires IsRun(initial, interval, states, run) && k < |states| && states[k].main.Serving?
    ensures Next(states[k], Request(metrics)).Some?
    ensures interval > 0 && states[k].saverSave.Idle? ==> Next(states[k], Tick).Some?
    ensures interval > 0 && !states[k].saverSave.Idle? ==> Next(states[k], SaverStep(true)).Some?
    ensures forall i: nat | i < |states[k].handlers| && states[k].handlers[i].Saving? ::
      Next(states[k], HandlerStep(i, true)).Some?
  {
    if interval > 0 {
      SaverLives(initial, interval, states, run, k);
    }
    hide IsRun, Serve, SavesAfter, SaveStep, Record;
  }

  /** Nothing but main ever saves. */
  ghost predicate OnlyFinal(s: State)
  {
    !s.syncMode && !s.saverAlive && s.handlers == [] && |s.ended| == (if s.main.Done? then 1 else 0)
  }

  lemma OnlyFinalNext(s: State, e: Event)
    requires s.history != [] && OnlyFinal(s) && Next(s, e).Some?
    ensures OnlyFinal(Next(s, e).value)
  {}

  /** With a negative interval there is no save but the final one. */
  lemma {:induction false} NegativeIntervalSavesOnce(
      initial: Store, interval: int, states: seq<State>, run: seq<Event>, k: nat)
    requires IsRun(initial, interval, states, run) && interval < 0 && k < |states|
    ensures OnlyFinal(states[k])
  {
    hide Next;
    if k > 0 {
      NegativeIntervalSavesOnce(initial, interval, states, run, k - 1);
      assert Next(states[k - 1], run[k - 1]) == Some(states[k - 1 + 1]);
      OnlyFinalNext(states[k - 1], run[k - 1]);
    }
  }

  // ---- interval 0: a save for every accepted request -----------------------------------

  /** The request is answered with success and so, with interval 0, saved. */
  predicate IsAccepted(e: Event) { e.Request? && e.metrics != [] && Valid(e.metrics) }

  function AcceptedRequests(run: seq<Event>): nat
  {
    if run == [] then 0
    else AcceptedRequests(run[..|run| - 1]) + (if IsAccepted(run[|run| - 1]) then 1 else 0)
  }

  function Settled(h: HandlerPc): nat { if h.Answered? then 1 else 0 }

  ghost predicate SyncInv(s: State, run: seq<Event>)
  {
    && |s.handlers| == AcceptedRequests(run)
    && |s.ended| == Total(s.handlers, Settled) + (if s.main.Done? then 1 else 0)
  }

  lemma SyncRequest(s: State, run: seq<Event>, metrics: seq<Metric>)
    requires s.history != [] && s.syncMode && SyncInv(s, run) && Next(s, Request(metrics)).Some?
    ensures SyncInv(Next(s, Request(metrics)).value, run + [Request(metrics)])
  {
    assert (run + [Request(metrics)])[..|run|] == run;
    TotalAppend(s.handlers, Settled, Saving(Idle));
    assert s.handlers + [] == s.handlers;
    hide Serve, Total, Valid;
  }

  lemma SyncHandler(s: State, run: seq<Event>, i: nat, writeOk: bool)
    requires s.history != [] && SyncInv(s, run) && HandlerNext(s, i, writeOk).Some?
    ensures SyncInv(HandlerNext(s, i, writeOk).value, run + [HandlerStep(i, writeOk)])
  {
    assert (run + [HandlerStep(i, writeOk)])[..|run|] == run;
    var r := HandlerNext(s, i, writeOk).value;
    assert r.handlers == s.handlers[i := r.handlers[i]];
    TotalUpdate(s.handlers, Settled, i, r.handlers[i]);
    hide Total, Wrote;
  }

  lemma SyncMain(s: State, run: seq<Event>, writeOk: bool)
    requires s.history != [] && SyncInv(s, run) && MainNext(s, writeOk).Some?
    ensures SyncInv(MainNext(s, writeOk).value, run + [MainStep(writeOk)])
  {
    assert (run + [MainStep(writeOk)])[..|run|] == run;
    hide Total, Wrote, AllAnswered;
  }

  lemma SyncNext(s: State, run: seq<Event>, e: Event)
    requires Inv(s) && s.syncMode && SyncInv(s, run) && Next(s, e).Some?
    ensures SyncInv(Next(s, e).value, run + [e])
  {
    hide ReadInv, FinalInv, OrderInv, HandlerNext, MainNext, SyncInv, Serve;
    match e
    case Request(metrics) => SyncRequest(s, run, metrics); hide Next;
    case HandlerStep(i, writeOk) => SyncHandler(s, run, i, writeOk);
    case MainStep(writeOk) => SyncMain(s, run, writeOk);
    case _ => assert false;
  }

  lemma {:induction false} SyncRun(initial: Store, states: seq<State>, run: seq<Event>, k: nat)
    requires IsRun(initial, 0, states, run) && k <= |run|
    ensures SyncInv(states[k], run[..k])
  {
    if k > 0 {
      SyncRun(initial, states, run, k - 1);
      RunKeepsInv(initial, 0, states, run, k - 1);
      assert Next(states[k - 1], run[k - 1]) == Some(states[k - 1 + 1]);
      SyncNext(states[k - 1], run[..k - 1], run[k - 1]);
      assert run[..k - 1] + [run[k - 1]] == run[..k];
      hide Next, Inv, SyncInv;
    }
  }

  lemma {:induction false} AllSettled(handlers: seq<HandlerPc>)
    requires AllAnswered(handlers)
    ensures Total(handlers, Settled) == |handlers|
  {
    if handlers != [] {
      assert AllAnswered(handlers[1..]);
      AllSettled(handlers[1..]);
    }
  }

  /** The i-th handler's save, once begun, and once over, read no store older than h. */
  ghost predicate HandlerFresh(s: State, i: nat, h: nat)
  {
    && i < |s.handlers| && h < |s.history|
    && (s.handlers[i].Saving? && !s.handlers[i].pc.Idle? ==> s.handlers[i].pc.gaugesAt >= h)
    && (s.handlers[i].Answered? ==> SomeSaveSince(s.ended, h))
  }

  ghost predicate SomeSaveSince(ended: seq<SaveEnd>, h: nat) { exists e :: e in ended && e.save.gaugesAt >= h }

  /** Steps only add to the history and to the saves that are over. */
  lemma LogsGrow(s: State, e: Event)
    requires s.history != [] && Next(s, e).Some?
    ensures s.history <= Next(s, e).value.history && s.ended <= Next(s, e).value.ended
    ensures |s.handlers| <= |Next(s, e).value.handlers|
  {
    hide Serve, Wrote, AllAnswered, SavesAfter;
  }

  lemma MoreSaves(ended: seq<SaveEnd>, more: seq<SaveEnd>, h: nat)
    requires ended <= more && SomeSaveSince(ended, h)
    ensures SomeSaveSince(more, h)
  {
    var e :| e in ended && e.save.gaugesAt >= h;
    assert e in more;
  }

  lemma OwnStepIsFresh(s: State, i: nat, writeOk: bool, h: nat)
    requires s.history != [] && HandlerFresh(s, i, h) && HandlerNext(s, i, writeOk).Some?
    ensures HandlerFresh(HandlerNext(s, i, writeOk).value, i, h)
  {
    var r := HandlerNext(s, i, writeOk).value;
    if s.handlers[i].pc.HasBoth? {
      assert r.ended[|s.ended|] in r.ended && r.ended[|s.ended|].save.gaugesAt >= h;
    }
    hide Wrote;
  }

  lemma OtherStepsLeaveHandler(s: State, e: Event, i: nat)
    requires s.history != [] && i < |s.handlers| && Next(s, e).Some? && !(e.HandlerStep? && e.i == i)
    ensures i < |Next(s, e).value.handlers| && Next(s, e).value.handlers[i] == s.handlers[i]
  {
    hide Serve, Wrote, AllAnswered, SavesAfter, SaveStep;
  }

  lemma FreshNext(s: State, e: Event, i: nat, h: nat)
    requires s.history != [] && HandlerFresh(s, i, h) && Next(s, e).Some?
    ensures HandlerFresh(Next(s, e).value, i, h)
  {
    if e.HandlerStep? && e.i == i {
      OwnStepIsFresh(s, i, e.writeOk, h);
      hide HandlerNext, HandlerFresh;
    } else {
      hide Next, SomeSaveSince;
      LogsGrow(s, e);
      OtherStepsLeaveHandler(s, e, i);
      if s.handlers[i].Answered? {
        MoreSaves(s.ended, Next(s, e).value.ended, h);
      }
    }
  }

  lemma {:induction false} FreshSince(
      initial: Store, states: seq<State>, run: seq<Event>, q: nat, k: nat)
    requires IsRun(initial, 0, states, run) && q < k <= |run| && IsAccepted(run[q])
    ensures HandlerFresh(states[k], |states[q].handlers|, |states[q].history|)
  {
    assert Next(states[k - 1], run[k - 1]) == Some(states[k - 1 + 1]);
    if k == q + 1 {
      RunKeepsInv(initial, 0, states, run, q);
      hide Serve, Valid, Inv;
    } else {
      FreshSince(initial, states, run, q, k - 1);
      FreshNext(states[k - 1], run[k - 1], |states[q].handlers|, |states[q].history|);
      hide Next, HandlerFresh;
    }
  }

  /**
   * With interval 0, when main is done there was one save for every accepted request and the final
   * one, and after each of those requests one that read a store with it.
   */
  lemma EveryRequestIsSaved(initial: Store, states: seq<State>, run: seq<Event>)
    requires IsRun(initial, 0, states, run) && states[|run|].main.Done?
    ensures |states[|run|].ended| == AcceptedRequests(run) + 1
    ensures forall q: nat | q < |run| && IsAccepted(run[q]) :: SomeSaveSince(states[|run|].ended, |states[q].history|)
  {
    var n := |run|;
    SyncRun(initial, states, run, n);
    assert run[..n] == run;
    OneSaverAtATime(initial, 0, states, run, n);
    AllSettled(states[n].handlers);
    forall q: nat | q < n && IsAccepted(run[q]) ensures SomeSaveSince(states[n].ended, |states[q].history|) {
      FreshSince(initial, states, run, q, n);
    }
    hide IsRun, SomeSaveSince, AcceptedRequests, Total;
  }
}
