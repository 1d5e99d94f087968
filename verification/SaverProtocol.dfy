/**
 * Saving while the store changes.  With a positive store interval a periodic saver runs beside the
 * request handlers; with interval 0 every handler saves after its request; with a negative one
 * neither does.  At shutdown main waits for the handlers, stops the saver, waits for it, and saves
 * once more.  A save reads the gauges and the counters in two separate critical sections and then
 * writes the file.
 */
module SaverProtocol {
  import opened Options
  import opened Metrics
  import opened Sums

  /** A save on its way: `gaugesAt` and `countersAt` are the moments its two reads happened. */
  datatype SavePc =
    | Idle
    | HasGauges(gauges: map<string, Float64>, gaugesAt: nat)
    | HasBoth(gauges: map<string, Float64>, gaugesAt: nat, counters: map<string, Int64>, countersAt: nat)

  datatype Saved = Saved(content: Store, gaugesAt: nat, countersAt: nat)

  /** A save that is over: what it read, and whether the file system would take the write. */
  datatype SaveEnd = SaveEnd(save: Saved, writeOk: bool)

  /** It wrote the file: JSON takes finite gauges only. */
  predicate Wrote(e: SaveEnd) { e.writeOk && IsStorable(e.save.content.gauges) }

  predicate IsStorable(gauges: map<string, Float64>) { forall n | n in gauges :: IsFinite(gauges[n]) }

  datatype MainPc = Serving | HandlersDone | StopClosed | FinalSave | Done(saved: bool)

  /** A handler that has updated the store and saves before it answers. */
  datatype HandlerPc = Saving(pc: SavePc) | Answered

  /**
   * `history` lists every store of the run so far, the current one last; `ended` every save that is
   * over and `files` every file written.
   */
  datatype State = State(
    history: seq<Store>, ended: seq<SaveEnd>, files: seq<Saved>,
    main: MainPc, mainSave: SavePc,
    syncMode: bool, handlers: seq<HandlerPc>,
    saverAlive: bool, saverSave: SavePc, wg: int)

  function Start(initial: Store, storeInterval: int): State
  {
    State([initial], [], [], Serving, Idle, storeInterval == 0, [],
      storeInterval > 0, Idle, if storeInterval > 0 then 1 else 0)
  }

  function Current(s: State): Store
    requires s.history != []
  {
    s.history[|s.history| - 1]
  }

  datatype Event =
    | Request(metrics: seq<Metric>)
    | HandlerStep(i: nat, writeOk: bool)
    | Tick                       // the saver's ticker fires and its save begins
    | SaverStep(writeOk: bool)   // that save goes on
    | SaverExit
    | MainStep(writeOk: bool)

  /** One step of a save, and its end when this was the last. */
  function SaveStep(s: State, pc: SavePc, writeOk: bool): (SavePc, Option<SaveEnd>)
    requires s.history != []
  {
    match pc
    case Idle => (HasGauges(Current(s).gauges, |s.history| - 1), None)
    case HasGauges(g, at) => (HasBoth(g, at, Current(s).counters, |s.history| - 1), None)
    case HasBoth(g, at, c, cat) => (Idle, Some(SaveEnd(Saved(Store(g, c), at, cat), writeOk)))
  }

  function Record(s: State, end: Option<SaveEnd>): State
  {
    if end.None? then s
    else s.(ended := s.ended + [end.value], files := s.files + (if Wrote(end.value) then [end.value.save] else []))
  }

  /** A request that is accepted makes its handler save when the interval is 0. */
  predicate SavesAfter(s: State, metrics: seq<Metric>) { s.syncMode && metrics != [] && Valid(metrics) }

  predicate AllAnswered(handlers: seq<HandlerPc>) { forall i :: 0 <= i < |handlers| ==> handlers[i].Answered? }

  function HandlerNext(s: State, i: nat, writeOk: bool): Option<State>
    requires s.history != []
  {
    if i < |s.handlers| && s.handlers[i].Saving? then
      var (pc, end) := SaveStep(s, s.handlers[i].pc, writeOk);
      Some(Record(s, end).(handlers := s.handlers[i := if end.Some? then Answered else Saving(pc)]))
    else None
  }

  function MainNext(s: State, writeOk: bool): Option<State>
    requires s.history != []
  {
    match s.main
    case Serving => if AllAnswered(s.handlers) then Some(s.(main := HandlersDone)) else None
    case HandlersDone => Some(s.(main := StopClosed))
    case StopClosed => if s.wg == 0 then Some(s.(main := FinalSave)) else None
    case FinalSave =>
      var (pc, end) := SaveStep(s, s.mainSave, writeOk);
      Some(Record(s, end).(mainSave := pc, main := if end.Some? then Done(Wrote(end.value)) else FinalSave))
    case Done(_) => None
  }

  function Next(s: State, e: Event): Option<State>
    requires s.history != []
  {
    match e
    case Request(metrics) =>
      if s.main.Serving? then
        Some(s.(history := s.history + [Serve(Current(s), metrics)],
                handlers := s.handlers + (if SavesAfter(s, metrics) then [Saving(Idle)] else [])))
      else None
    case HandlerStep(i, writeOk) => HandlerNext(s, i, writeOk)
    case Tick =>
      if s.saverAlive && s.saverSave.Idle? then Some(s.(saverSave := SaveStep(s, Idle, true).0)) else None
    case SaverStep(writeOk) =>
      if s.saverAlive && !s.saverSave.Idle? then
        var (pc, end) := SaveStep(s, s.saverSave, writeOk);
        Some(Record(s, end).(saverSave := pc))
      else None
    case SaverExit =>
      if s.saverAlive && s.saverSave.Idle? && (s.main.StopClosed? || s.main.FinalSave?) then
        Some(s.(saverAlive := false, wg := s.wg - 1))
      else None
    case MainStep(writeOk) => MainNext(s, writeOk)
  }

  ghost predicate IsRun(initial: Store, storeInterval: int, states: seq<State>, run: seq<Event>)
  {
    && |states| == |run| + 1
    && states[0] == Start(initial, storeInterval)
    && (forall k: nat | k < |states| :: states[k].history != [])
    && forall k: nat | k < |run| :: Next(states[k], run[k]) == Some(states[k + 1])
  }

  // ---- the invariant -------------------------------------------------------------------

  /** What a save in progress has read was the store's at those moments. */
  ghost predicate SaveInv(history: seq<Store>, pc: SavePc)
  {
    && (!pc.Idle? ==> pc.gaugesAt < |history| && pc.gauges == history[pc.gaugesAt].gauges)
    && (pc.HasBoth? ==> pc.gaugesAt <= pc.countersAt < |history| && pc.counters == history[pc.countersAt].counters)
  }

  ghost predicate FileInv(history: seq<Store>, f: Saved)
  {
    && f.gaugesAt <= f.countersAt < |history|
    && f.content.gauges == history[f.gaugesAt].gauges
    && f.content.counters == history[f.countersAt].counters
  }

  /** The files are what the saves that wrote had read. */
  function Written(ended: seq<SaveEnd>): seq<Saved>
  {
    if ended == [] then [] else
    var e := ended[|ended| - 1];
    Written(ended[..|ended| - 1]) + (if Wrote(e) then [e.save] else [])
  }

  ghost predicate ReadInv(s: State)
  {
    && SaveInv(s.history, s.saverSave) && SaveInv(s.history, s.mainSave)
    && (forall i | 0 <= i < |s.handlers| && s.handlers[i].Saving? :: SaveInv(s.history, s.handlers[i].pc))
    && (forall k | 0 <= k < |s.files| :: FileInv(s.history, s.files[k]))
    && s.files == Written(s.ended)
  }

  ghost predicate PhaseInv(s: State)
  {
    && s.wg == (if s.saverAlive then 1 else 0)
    && (!s.saverAlive ==> s.saverSave.Idle?)
    && (s.syncMode ==> !s.saverAlive) && (!s.syncMode ==> s.handlers == [])
    && (s.main.FinalSave? || s.main.Done? ==> !s.saverAlive)
    && (!s.main.FinalSave? ==> s.mainSave.Idle?)
    && (!s.main.Serving? ==> AllAnswered(s.handlers))
  }

  /** The final save reads the store as it stays. */
  ghost predicate FinalInv(s: State)
    requires s.history != []
  {
    && (!s.mainSave.Idle? ==> s.mainSave.gauges == Current(s).gauges)
    && (s.mainSave.HasBoth? ==> s.mainSave.counters == Current(s).counters)
    && (s.main == Done(true) ==> s.files != [] && s.files[|s.files| - 1].content == Current(s))
    && (s.main.Done? ==> s.ended != [] && s.main.saved == Wrote(s.ended[|s.ended| - 1]))
  }

  /** The saves of the files in order, and one save on its way after them. */
  ghost predicate SavesInOrder(files: seq<Saved>, pc: SavePc)
  {
    && (forall k | 0 <= k < |files| - 1 :: files[k].countersAt <= files[k + 1].gaugesAt)
    && (!pc.Idle? && files != [] ==> files[|files| - 1].countersAt <= pc.gaugesAt)
  }

  /** With an interval other than 0 saves do not overlap. */
  ghost predicate OrderInv(files: seq<Saved>, saverSave: SavePc, mainSave: SavePc)
  {
    SavesInOrder(files, saverSave) && SavesInOrder(files, mainSave)
  }

  ghost predicate Inv(s: State)
  {
    && s.history != [] && ReadInv(s) && PhaseInv(s) && FinalInv(s)
    && (!s.syncMode ==> OrderInv(s.files, s.saverSave, s.mainSave))
  }

  lemma WrittenNext(ended: seq<SaveEnd>, e: SaveEnd)
    ensures Written(ended + [e]) == Written(ended) + (if Wrote(e) then [e.save] else [])
  {
    assert (ended + [e])[..|ended|] == ended;
  }

  /** A step of a save reads the store as it is, and ends with a file of states. */
  lemma SaveStepReads(s: State, pc: SavePc, writeOk: bool)
    requires s.history != [] && SaveInv(s.history, pc)
    ensures SaveInv(s.history, SaveStep(s, pc, writeOk).0)
    ensures var end := SaveStep(s, pc, writeOk).1; end.Some? ==> FileInv(s.history, end.value.save)
  {}

  lemma RecordKeepsFiles(s: State, end: Option<SaveEnd>)
    requires s.history != [] && ReadInv(s) && (end.Some? ==> FileInv(s.history, end.value.save))
    ensures ReadInv(Record(s, end))
  {
    hide Written, Wrote, SaveInv, FileInv;
    if end.Some? {
      WrittenNext(s.ended, end.value);
    }
  }

  /** What the end of a save leaves: a file of states, and the other saves as they were. */
  lemma RecordKeepsReads(s: State, pc: SavePc, writeOk: bool)
    requires s.history != [] && ReadInv(s) && SaveInv(s.history, pc)
    ensures ReadInv(Record(s, SaveStep(s, pc, writeOk).1)) && SaveInv(s.history, SaveStep(s, pc, writeOk).0)
  {
    hide ReadInv, SaveInv, FileInv, Record, SaveStep;
    SaveStepReads(s, pc, writeOk);
    RecordKeepsFiles(s, SaveStep(s, pc, writeOk).1);
  }

  lemma RequestKeepsReads(s: State, metrics: seq<Metric>)
    requires s.history != [] && ReadInv(s) && s.main.Serving?
    ensures ReadInv(Next(s, Request(metrics)).value)
  {
    hide Serve, Written, SavesAfter;
  }

  lemma HandlerKeepsReads(s: State, i: nat, writeOk: bool)
    requires s.history != [] && ReadInv(s) && HandlerNext(s, i, writeOk).Some?
    ensures ReadInv(HandlerNext(s, i, writeOk).value)
  {
    RecordKeepsReads(s, s.handlers[i].pc, writeOk);
    RecordFrame(s, SaveStep(s, s.handlers[i].pc, writeOk).1);
    hide SaveStep, Record, Written, SaveInv, FileInv;
  }

  lemma SaverKeepsReads(s: State, writeOk: bool)
    requires s.history != [] && ReadInv(s) && Next(s, SaverStep(writeOk)).Some?
    ensures ReadInv(Next(s, SaverStep(writeOk)).value)
  {
    RecordKeepsReads(s, s.saverSave, writeOk);
    RecordFrame(s, SaveStep(s, s.saverSave, writeOk).1);
    hide SaveStep, Record, Written, SaveInv, FileInv;
  }

  lemma MainKeepsReads(s: State, writeOk: bool)
    requires s.history != [] && ReadInv(s) && MainNext(s, writeOk).Some?
    ensures ReadInv(MainNext(s, writeOk).value)
  {
    hide SaveStep, Record, Written, SaveInv, FileInv, AllAnswered;
    if s.main.FinalSave? {
      FinalKeepsReads(s, writeOk);
    }
  }

  lemma FinalKeepsReads(s: State, writeOk: bool)
    requires s.history != [] && ReadInv(s) && s.main.FinalSave?
    ensures ReadInv(MainNext(s, writeOk).value)
  {
    RecordKeepsReads(s, s.mainSave, writeOk);
    RecordFrame(s, SaveStep(s, s.mainSave, writeOk).1);
    hide SaveStep, Record, Written, SaveInv, FileInv, AllAnswered;
  }

  lemma TickKeepsReads(s: State)
    requires s.history != [] && ReadInv(s) && Next(s, Tick).Some?
    ensures ReadInv(Next(s, Tick).value)
  {
    RecordKeepsReads(s, Idle, true);
    hide Written, FileInv;
  }

  lemma NextKeepsReads(s: State, e: Event)
    requires s.history != [] && ReadInv(s) && Next(s, e).Some?
    ensures ReadInv(Next(s, e).value)
  {
    hide HandlerNext, MainNext, SaveInv, FileInv, Written;
    match e
    case Request(metrics) => RequestKeepsReads(s, metrics); hide Next;
    case HandlerStep(i, writeOk) => HandlerKeepsReads(s, i, writeOk);
    case Tick => TickKeepsReads(s); hide Next;
    case SaverStep(writeOk) => SaverKeepsReads(s, writeOk); hide Next;
    case SaverExit =>
    case MainStep(writeOk) => MainKeepsReads(s, writeOk);
  }

  lemma RecordFrame(s: State, end: Option<SaveEnd>)
    ensures Record(s, end).history == s.history && Record(s, end).handlers == s.handlers
    ensures Record(s, end).saverSave == s.saverSave && Record(s, end).mainSave == s.mainSave
    ensures Record(s, end).saverAlive == s.saverAlive && Record(s, end).main == s.main
  {}

  lemma NextKeepsPhases(s: State, e: Event)
    requires s.history != [] && PhaseInv(s) && Next(s, e).Some?
    ensures Next(s, e).value.history != [] && PhaseInv(Next(s, e).value)
  {
    hide Serve, Wrote;
  }

  lemma NextKeepsFinal(s: State, e: Event)
    requires s.history != [] && PhaseInv(s) && FinalInv(s) && Next(s, e).Some?
    ensures Next(s, e).value.history != [] && FinalInv(Next(s, e).value)
  {
    hide Serve, Wrote;
  }

  lemma SaveStepInOrder(s: State, pc: SavePc, writeOk: bool)
    requires s.history != [] && SavesInOrder(s.files, pc)
    requires s.files != [] ==> s.files[|s.files| - 1].countersAt < |s.history|
    ensures SavesInOrder(Record(s, SaveStep(s, pc, writeOk).1).files, SaveStep(s, pc, writeOk).0)
  {
    hide Wrote;
  }

  lemma LastFileIsPast(s: State)
    requires s.history != [] && ReadInv(s)
    ensures s.files != [] ==> s.files[|s.files| - 1].countersAt < |s.history|
  {
    hide SaveInv, Written;
  }

  lemma SaverKeepsOrder(s: State, writeOk: bool)
    requires s.history != [] && ReadInv(s) && PhaseInv(s) && s.saverAlive && OrderInv(s.files, s.saverSave, s.mainSave)
    ensures var (pc, end) := SaveStep(s, s.saverSave, writeOk); OrderInv(Record(s, end).files, pc, s.mainSave)
  {
    assert s.mainSave.Idle?;
    LastFileIsPast(s);
    SaveStepInOrder(s, s.saverSave, writeOk);
    hide SaveStep, Record, ReadInv, PhaseInv;
  }

  lemma FinalKeepsOrder(s: State, writeOk: bool)
    requires s.history != [] && ReadInv(s) && PhaseInv(s) && s.main.FinalSave?
    requires OrderInv(s.files, s.saverSave, s.mainSave)
    ensures var (pc, end) := SaveStep(s, s.mainSave, writeOk); OrderInv(Record(s, end).files, s.saverSave, pc)
  {
    assert s.saverSave.Idle?;
    LastFileIsPast(s);
    SaveStepInOrder(s, s.mainSave, writeOk);
    hide SaveStep, Record, ReadInv, PhaseInv;
  }

  lemma NextKeepsOrder(s: State, e: Event)
    requires s.history != [] && ReadInv(s) && PhaseInv(s) && !s.syncMode && OrderInv(s.files, s.saverSave, s.mainSave)
    requires Next(s, e).Some?
    ensures var r := Next(s, e).value; OrderInv(r.files, r.saverSave, r.mainSave)
  {
    hide ReadInv, OrderInv, Serve, SavesAfter, AllAnswered;
    match e
    case HandlerStep(_, _) => assert false;
    case Tick =>
      SaverKeepsOrder(s, true);
      hide PhaseInv;
    case SaverStep(writeOk) =>
      SaverKeepsOrder(s, writeOk);
      RecordFrame(s, SaveStep(s, s.saverSave, writeOk).1);
      hide SaveStep, Record, PhaseInv;
    case MainStep(writeOk) =>
      if s.main.FinalSave? {
        FinalKeepsOrder(s, writeOk);
        RecordFrame(s, SaveStep(s, s.mainSave, writeOk).1);
      }
      hide SaveStep, Record, PhaseInv;
    case _ => hide PhaseInv;
  }

  lemma NextKeepsInv(s: State, e: Event)
    requires Inv(s) && Next(s, e).Some?
    ensures Inv(Next(s, e).value)
  {
    NextKeepsReads(s, e);
    NextKeepsPhases(s, e);
    NextKeepsFinal(s, e);
    ModeStays(s, e);
    if !s.syncMode {
      NextKeepsOrder(s, e);
    }
    hide ReadInv, PhaseInv, FinalInv, OrderInv, Next;
  }

  lemma ModeStays(s: State, e: Event)
    requires s.history != [] && Next(s, e).Some?
    ensures Next(s, e).value.syncMode == s.syncMode
  {
    hide Serve, Wrote;
  }

  lemma {:induction false} RunKeepsInv(initial: Store, storeInterval: int, states: seq<State>, run: seq<Event>, k: nat)
    requires IsRun(initial, storeInterval, states, run) && k < |states|
    ensures Inv(states[k]) && states[k].syncMode == (storeInterval == 0)
  {
    hide Inv, Next;
    if k == 0 {
      StartIsInv(initial, storeInterval);
    } else {
      RunKeepsInv(initial, storeInterval, states, run, k - 1);
      assert Next(states[k - 1], run[k - 1]) == Some(states[k]);
      NextKeepsInv(states[k - 1], run[k - 1]);
      ModeStays(states[k - 1], run[k - 1]);
    }
  }

  lemma StartIsInv(initial: Store, storeInterval: int)
    ensures Inv(Start(initial, storeInterval))
  {}

  // ---- what is in the files ------------------------------------------------------------

  /** With an interval other than 0 at most one save is in progress at any time. */
  lemma OneSaverAtATime(initial: Store, storeInterval: int, states: seq<State>, run: seq<Event>, k: nat)
    requires IsRun(initial, storeInterval, states, run) && k < |states|
    ensures states[k].saverSave.Idle? || states[k].mainSave.Idle?
    ensures storeInterval != 0 ==> states[k].handlers == []
    ensures states[k].main.Done? ==>
      states[k].wg == 0 && !states[k].saverAlive && AllAnswered(states[k].handlers) && states[k].mainSave.Idle?
  {
    RunKeepsInv(initial, storeInterval, states, run, k);
  }

  /**
   * Every file holds the gauges of one state of the run and the counters of that or a later one.
   * With an interval other than 0 saves do not overlap: the next file's gauges are no older than
   * this file's counters.
   */
  lemma FilesAreStates(initial: Store, storeInterval: int, states: seq<State>, run: seq<Event>, k: nat, f: nat)
    requires IsRun(initial, storeInterval, states, run) && k < |states| && f < |states[k].files|
    ensures FileInv(states[k].history, states[k].files[f])
    ensures storeInterval != 0 && f > 0 ==> states[k].files[f - 1].countersAt <= states[k].files[f].gaugesAt
  {
    RunKeepsInv(initial, storeInterval, states, run, k);
  }

  /** When the final save reports success, the file is the store the server ended with. */
  lemma FinalFileIsCurrent(initial: Store, storeInterval: int, states: seq<State>, run: seq<Event>, k: nat)
    requires IsRun(initial, storeInterval, states, run) && k < |states| && states[k].main == Done(true)
    ensures states[k].files != [] && states[k].files[|states[k].files| - 1].content == Current(states[k])
  {
    RunKeepsInv(initial, storeInterval, states, run, k);
  }

  lemma {:induction false} NoneWritten(ended: seq<SaveEnd>)
    ensures Written(ended) == [] <==> forall e | e in ended :: !Wrote(e)
  {
    if ended != [] {
      var front, last := ended[..|ended| - 1], ended[|ended| - 1];
      NoneWritten(front);
      assert ended == front + [last];
      hide Wrote;
    }
  }

  /** Nothing was written exactly when every save read a non-finite gauge or failed to write. */
  lemma NothingWrittenExactly(initial: Store, storeInterval: int, states: seq<State>, run: seq<Event>, k: nat)
    requires IsRun(initial, storeInterval, states, run) && k < |states|
    ensures states[k].files == [] <==>
      forall e | e in states[k].ended :: !e.writeOk || !IsStorable(e.save.content.gauges)
  {
    RunKeepsInv(initial, storeInterval, states, run, k);
    NoneWritten(states[k].ended);
    hide Written, IsRun;
  }

  // ---- the shutdown ends ---------------------------------------------------------------

  function SaveRank(pc: SavePc): nat { if pc.HasGauges? then 2 else if pc.HasBoth? then 1 else 0 }

  function HandlerRank(h: HandlerPc): nat
  {
    if h.Answered? then 0 else if h.pc.Idle? then 3 else SaveRank(h.pc)
  }

  function MainRank(main: MainPc, mainSave: SavePc): nat
  {
    match main
    case Serving => 6 case HandlersDone => 5 case StopClosed => 4
    case FinalSave => if mainSave.Idle? then 3 else SaveRank(mainSave)
    case Done(_) => 0
  }

  /** The work left until main is done. */
  function Rank(s: State): nat
  {
    SaveRank(s.saverSave) + (if s.saverAlive then 1 else 0)
      + Total(s.handlers, HandlerRank) + MainRank(s.main, s.mainSave)
  }

  /** Requests and ticks come from outside; everything else is the server's own work. */
  predicate Own(e: Event) { !e.Request? && !e.Tick? }

  function Cost(e: Event): nat { if e.Tick? then 3 else if e.Request? then 4 else 0 }

  lemma RequestRank(s: State, metrics: seq<Metric>)
    requires s.history != [] && Next(s, Request(metrics)).Some?
    ensures Rank(Next(s, Request(metrics)).value) <= Rank(s) + 3
  {
    TotalAppend(s.handlers, HandlerRank, Saving(Idle));
    assert s.handlers + [] == s.handlers;
    hide Serve, Total, SavesAfter;
  }

  lemma HandlerRankFalls(s: State, i: nat, writeOk: bool)
    requires s.history != [] && HandlerNext(s, i, writeOk).Some?
    ensures Rank(HandlerNext(s, i, writeOk).value) < Rank(s)
  {
    var r := HandlerNext(s, i, writeOk).value;
    RecordFrame(s, SaveStep(s, s.handlers[i].pc, writeOk).1);
    hide Record, Total;
    TotalUpdate(s.handlers, HandlerRank, i, r.handlers[i]);
  }

  lemma SaveRankFalls(s: State, pc: SavePc, writeOk: bool)
    requires s.history != []
    ensures !pc.Idle? ==> SaveRank(SaveStep(s, pc, writeOk).0) < SaveRank(pc)
    ensures pc.Idle? ==> SaveStep(s, pc, writeOk).0.HasGauges? && SaveStep(s, pc, writeOk).1.None?
    ensures SaveStep(s, pc, writeOk).0.Idle? <==> SaveStep(s, pc, writeOk).1.Some?
  {}

  lemma MainRankFalls(s: State, writeOk: bool)
    requires s.history != [] && MainNext(s, writeOk).Some? && (!s.main.FinalSave? ==> s.mainSave.Idle?)
    ensures Rank(MainNext(s, writeOk).value) < Rank(s)
  {
    RecordFrame(s, SaveStep(s, s.mainSave, writeOk).1);
    SaveRankFalls(s, s.mainSave, writeOk);
    hide Record, SaveStep, Total, AllAnswered, Wrote;
  }

  lemma StepLowersRank(s: State, e: Event)
    requires Inv(s) && Next(s, e).Some?
    ensures Rank(Next(s, e).value) < Rank(s) + Cost(e)
  {
    assert !s.main.FinalSave? ==> s.mainSave.Idle?;
    hide ReadInv, PhaseInv, FinalInv, OrderInv, HandlerNext, MainNext, Total, MainRank, Serve;
    match e
    case Request(metrics) => RequestRank(s, metrics); hide Rank, Next;
    case HandlerStep(i, writeOk) => HandlerRankFalls(s, i, writeOk); hide Rank;
    case SaverStep(writeOk) =>
      RecordFrame(s, SaveStep(s, s.saverSave, writeOk).1);
      SaveRankFalls(s, s.saverSave, writeOk);
      hide Record, SaveStep;
    case MainStep(writeOk) => MainRankFalls(s, writeOk); hide Rank;
    case _ =>
  }

  /** Main's waits end: until main is done the server has a step of its own. */
  lemma ShutdownAdvances(s: State) returns (e: Event)
    requires Inv(s) && !s.main.Done?
    ensures Own(e) && Next(s, e).Some?
  {
    if s.main.StopClosed? && s.wg != 0 {
      e := if s.saverSave.Idle? then SaverExit else SaverStep(true);
    } else if s.main.Serving? && !AllAnswered(s.handlers) {
      var i: nat :| i < |s.handlers| && !s.handlers[i].Answered?;
      e := HandlerStep(i, true);
    } else {
      e := MainStep(true);
    }
  }

  /** A run is no longer than its requests and ticks allow. */
  lemma {:induction false} RunIsBounded(initial: Store, storeInterval: int, states: seq<State>, run: seq<Event>)
    requires IsRun(initial, storeInterval, states, run)
    ensures |run| + Rank(states[|run|]) <= 7 + Total(run, Cost)
  {
    hide Inv, Next, Cost, Rank;
    if run == [] {
      StartRank(initial, storeInterval);
    } else {
      var m := |run| - 1;
      RunIsBounded(initial, storeInterval, states[..|run|], run[..m]);
      RunKeepsInv(initial, storeInterval, states, run, m);
      assert Next(states[m], run[m]) == Some(states[m + 1]);
      StepLowersRank(states[m], run[m]);
      hide Total;
      assert run == run[..m] + [run[m]];
      TotalAppend(run[..m], Cost, run[m]);
    }
  }

  lemma StartRank(initial: Store, storeInterval: int)
    ensures Rank(Start(initial, storeInterval)) <= 7
  {}

  /** A run that has no step of its own left has ended every save and finished with the final one. */
  lemma MainReturns(initial: Store, storeInterval: int, states: seq<State>, run: seq<Event>)
    requires IsRun(initial, storeInterval, states, run)
    requires forall e | Own(e) :: Next(states[|run|], e).None?
    ensures states[|run|].main.Done? && !states[|run|].saverAlive && AllAnswered(states[|run|].handlers)
  {
    RunKeepsInv(initial, storeInterval, states, run, |run|);
    if !states[|run|].main.Done? {
      var e := ShutdownAdvances(states[|run|]);
    }
    hide IsRun, Next;
  }

  // ---- counters in successive files ----------------------------------------------------

  /** One request whose sums stay within int64 leads from one store to the other. */
  ghost predicate Grows(before: Store, after: Store)
  {
    exists request :: after == Serve(before, request) && NoOverflow(before, request)
  }

  ghost predicate AllGrow(history: seq<Store>)
  {
    forall a: nat | a < |history| - 1 :: Grows(history[a], history[a + 1])
  }

  ghost predicate NoOverflow(st: Store, request: seq<Metric>)
  {
    forall n :: Count(st.counters, n) + Accepted(request, n) <= MAX64
  }

  lemma {:induction false} HistoryGrows(history: seq<Store>, a: nat, b: nat, name: string)
    requires AllGrow(history) && a <= b < |history|
    ensures Count(history[a].counters, name) <= Count(history[b].counters, name)
    decreases b - a
  {
    if a < b {
      HistoryGrows(history, a, b - 1, name);
      assert Grows(history[b - 1], history[b - 1 + 1]);
      var request :| history[b] == Serve(history[b - 1], request) && NoOverflow(history[b - 1], request);
      ServeCounts(history[b - 1], request, name);
      hide Serve, Accepted;
    }
  }

  /** The requests of a run never overflow a counter. */
  ghost predicate RunFits(states: seq<State>, run: seq<Event>)
    requires |states| == |run| + 1
  {
    forall k: nat | k < |run| && run[k].Request? ::
      states[k].history != [] && NoOverflow(Current(states[k]), run[k].metrics)
  }

  lemma {:induction false} RunGrows(initial: Store, storeInterval: int, states: seq<State>, run: seq<Event>, k: nat)
    requires IsRun(initial, storeInterval, states, run) && RunFits(states, run) && k < |states|
    ensures AllGrow(states[k].history)
  {
    if k > 0 {
      RunGrows(initial, storeInterval, states, run, k - 1);
      assert Next(states[k - 1], run[k - 1]) == Some(states[k]);
      var before, after := states[k - 1].history, states[k].history;
      hide Serve, NoOverflow;
      forall a: nat | a < |after| - 1 ensures Grows(after[a], after[a + 1]) {
        if a < |before| - 1 {
          assert Grows(before[a], before[a + 1]);
        } else {
          assert after[a + 1] == Serve(after[a], run[k - 1].metrics);
        }
      }
    }
  }

  /** No counter is smaller in a later file than in an earlier one. */
  lemma SavedCountersNeverDecrease(initial: Store, storeInterval: int, states: seq<State>, run: seq<Event>,
      k: nat, f: nat, name: string)
    requires IsRun(initial, storeInterval, states, run) && RunFits(states, run) && storeInterval != 0
    requires k < |states| && f + 1 < |states[k].files|
    ensures Count(states[k].files[f].content.counters, name) <= Count(states[k].files[f + 1].content.counters, name)
  {
    FilesAreStates(initial, storeInterval, states, run, k, f);
    FilesAreStates(initial, storeInterval, states, run, k, f + 1);
    RunGrows(initial, storeInterval, states, run, k);
    HistoryGrows(states[k].history, states[k].files[f].countersAt, states[k].files[f + 1].countersAt, name);
    hide IsRun, RunFits;
  }

  const ONE: seq<Metric> := [CounterOf("c", 1)]

  /** Two requests whose handlers save in the other order. */
  const OVERTAKEN: seq<Event> := [
    Request(ONE), HandlerStep(0, true), HandlerStep(0, true),
    Request(ONE), HandlerStep(1, true), HandlerStep(1, true), HandlerStep(1, true), HandlerStep(0, true)]

  function Counted(n: Int64): Store { Store(map[], map["c" := n]) }

  lemma CountOne(n: Int64)
    requires 0 <= n < MAX64
    ensures Serve(EMPTY, ONE) == Counted(1) && Serve(Counted(n), ONE) == Counted(n + 1)
  {
    assert ONE[..0] == [] && Valid(ONE);
    assert ApplyBatch(EMPTY, ONE) == Apply(EMPTY, ONE[0]);
    assert ApplyBatch(Counted(n), ONE) == Apply(Counted(n), ONE[0]);
  }

  /** With interval 0 the file can go back: a slow handler overwrites what a later one saved. */
  lemma SyncSavesOvertake() returns (states: seq<State>)
    ensures IsRun(EMPTY, 0, states, OVERTAKEN) && RunFits(states, OVERTAKEN)
    ensures |states[8].files| == 2
    ensures states[8].files[0].content == Counted(2) && states[8].files[1].content == Counted(1)
  {
    CountOne(1);
    OneFits();
    hide Serve, NoOverflow;
    assert Valid(ONE);
    hide Valid;
    var s0 := Start(EMPTY, 0);
    var s1 := Next(s0, Request(ONE)).value;
    var s2 := Next(s1, HandlerStep(0, true)).value;
    var s3 := Next(s2, HandlerStep(0, true)).value;
    var s4 := Next(s3, Request(ONE)).value;
    var s5 := Next(s4, HandlerStep(1, true)).value;
    var s6 := Next(s5, HandlerStep(1, true)).value;
    var s7 := Next(s6, HandlerStep(1, true)).value;
    var s8 := Next(s7, HandlerStep(0, true)).value;
    states := [s0, s1, s2, s3, s4, s5, s6, s7, s8];
  }

  lemma OneFits()
    ensures NoOverflow(EMPTY, ONE) && NoOverflow(Counted(1), ONE)
  {
    forall n ensures Accepted(ONE, n) <= 1 {
      assert Sum(ONE[..0], n) == 0;
    }
    hide Accepted;
  }

  /** No counter is smaller in a file than in the one before. */
  ghost predicate FilesGrow(files: seq<Saved>)
  {
    forall f: nat, name | f + 1 < |files| ::
      Count(files[f].content.counters, name) <= Count(files[f + 1].content.counters, name)
  }

  ghost predicate AllRunsGrow(storeInterval: int)
  {
    forall initial: Store, states: seq<State>, run: seq<Event> |
      IsRun(initial, storeInterval, states, run) && RunFits(states, run) :: FilesGrow(states[|run|].files)
  }

  /** Saved counters never fall, in any run without overflow, exactly when the interval is not 0. */
  lemma FilesGrowExactlyWithoutSync(storeInterval: int)
    ensures AllRunsGrow(storeInterval) <==> storeInterval != 0
  {
    hide RunFits, Next;
    if storeInterval == 0 {
      var states := SyncSavesOvertake();
      var files := states[|OVERTAKEN|].files;
      assert Count(files[0].content.counters, "c") > Count(files[0 + 1].content.counters, "c");
    } else {
      forall initial: Store, states: seq<State>, run: seq<Event> |
        IsRun(initial, storeInterval, states, run) && RunFits(states, run)
        ensures FilesGrow(states[|run|].files)
      {
        RunFilesGrow(initial, storeInterval, states, run);
      }
    }
  }

  lemma RunFilesGrow(initial: Store, storeInterval: int, states: seq<State>, run: seq<Event>)
    requires IsRun(initial, storeInterval, states, run) && RunFits(states, run) && storeInterval != 0
    ensures FilesGrow(states[|run|].files)
  {
    forall f: nat, name | f + 1 < |states[|run|].files|
      ensures Count(states[|run|].files[f].content.counters, name)
        <= Count(states[|run|].files[f + 1].content.counters, name)
    {
      SavedCountersNeverDecrease(initial, storeInterval, states, run, |run|, f, name);
    }
    hide IsRun, RunFits;
  }
}
