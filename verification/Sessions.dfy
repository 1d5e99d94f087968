/**
 * Server lives one after the other on the same file.  In each the restore may fail, handlers, the
 * periodic saver and main interleave as in SaverProtocol, for any store interval, and every write
 * may fail.
 */
module Sessions {
  import opened Options
  import opened Metrics
  import opened Persistence
  import opened SaverProtocol
  import opened SaverReads

  /** One life: whether its restore succeeded, its store interval, and its run. */
  datatype Life = Life(restored: bool, interval: int, states: seq<State>, run: seq<Event>)

  /** What the file holds after a run that found `content` in it; no file counts as an empty store. */
  function FileAfter(content: Store, files: seq<Saved>): Store
  {
    if files == [] then content else files[|files| - 1].content
  }

  /** The store a life starts with: a restore that fails is only logged. */
  function StartOf(content: Store, l: Life): Store { if l.restored then content else EMPTY }

  /** A whole life on a file with this content, up to main's return. */
  ghost predicate IsLife(content: Store, l: Life)
  {
    && IsRun(StartOf(content, l), l.interval, l.states, l.run)
    && l.states[|l.run|].main.Done?
  }

  /** The store a life ends with. */
  function EndOf(l: Life): Store
    requires |l.states| == |l.run| + 1 && l.states[|l.run|].history != []
  {
    Current(l.states[|l.run|])
  }

  /** The requests of a run, in the order they were served. */
  function Requests(run: seq<Event>): seq<seq<Metric>>
  {
    if run == [] then [] else
    var e := run[|run| - 1];
    Requests(run[..|run| - 1]) + (if e.Request? then [e.metrics] else [])
  }

  lemma OnlyRequestsServe(s: State, e: Event)
    requires s.history != [] && Next(s, e).Some? && Next(s, e).value.history != []
    ensures Current(Next(s, e).value) == if e.Request? then Serve(Current(s), e.metrics) else Current(s)
  {
    hide Serve, Wrote, SavesAfter, AllAnswered;
  }

  lemma ServedNext(initial: Store, run: seq<Event>, k: nat)
    requires k < |run|
    ensures ServeAll(initial, Requests(run[..k + 1])) ==
      if run[k].Request? then Serve(ServeAll(initial, Requests(run[..k])), run[k].metrics)
      else ServeAll(initial, Requests(run[..k]))
  {
    assert run[..k + 1][..k] == run[..k];
    var before := Requests(run[..k]);
    if run[k].Request? {
      assert (before + [run[k].metrics])[..|before|] == before;
    } else {
      assert before + [] == before;
    }
    hide Serve;
  }

  /** At every point of a run the store is what the requests so far made of the first one. */
  lemma {:induction false} StoreIsServed(initial: Store, interval: int, states: seq<State>, run: seq<Event>, k: nat)
    requires IsRun(initial, interval, states, run) && k <= |run|
    ensures Current(states[k]) == ServeAll(initial, Requests(run[..k]))
  {
    hide Next, Serve, ServeAll, Requests;
    if k == 0 {
      NothingServed(initial, run);
    } else {
      StoreIsServed(initial, interval, states, run, k - 1);
      assert Next(states[k - 1], run[k - 1]) == Some(states[k - 1 + 1]);
      OnlyRequestsServe(states[k - 1], run[k - 1]);
      ServedNext(initial, run, k - 1);
    }
  }

  lemma NothingServed(initial: Store, run: seq<Event>)
    ensures ServeAll(initial, Requests(run[..0])) == initial
  {}

  lemma EndIsServed(content: Store, l: Life)
    requires IsLife(content, l)
    ensures EndOf(l) == ServeAll(StartOf(content, l), Requests(l.run))
  {
    StoreIsServed(StartOf(content, l), l.interval, l.states, l.run, |l.run|);
    assert l.run[..|l.run|] == l.run;
    hide Next, ServeAll, Requests;
  }

  /**
   * The file of a save holds the gauges all requests before its beginning have left, and the counters
   * all requests before its second read have.
   */
  lemma SaveHoldsRequests(
      initial: Store, interval: int, states: seq<State>, run: seq<Event>, who: Who, t: nat, c: nat, k: nat)
    requires IsRun(initial, interval, states, run) && IsSave(states, run, who, t, c, k)
    requires |states[k + 1].files| > |states[k].files|
    ensures var file := states[k + 1].files[|states[k].files|].content;
      && file.gauges == ServeAll(initial, Requests(run[..t])).gauges
      && file.counters == ServeAll(initial, Requests(run[..c])).counters
  {
    SaveIsFresh(initial, interval, states, run, who, t, c, k);
    StoreIsServed(initial, interval, states, run, t);
    StoreIsServed(initial, interval, states, run, c);
    hide Next, ServeAll, Requests, Wrote;
  }

  // ---- one life ------------------------------------------------------------------------

  /** Every save of the life read a non-finite gauge or could not write. */
  ghost predicate NoSaveWorked(l: Life)
    requires |l.states| == |l.run| + 1
  {
    forall e | e in l.states[|l.run|].ended :: !e.writeOk || !IsStorable(e.save.content.gauges)
  }

  /**
   * What was in the file survives a life, whether its restore failed or not, exactly when no save
   * of it worked, or the last one that did wrote that very content.
   */
  lemma ContentSurvivesExactly(content: Store, l: Life)
    requires IsLife(content, l)
    ensures var files := l.states[|l.run|].files;
      && (FileAfter(content, files) == content <==>
            NoSaveWorked(l) || (files != [] && files[|files| - 1].content == content))
      && (files == [] <==> NoSaveWorked(l))
  {
    NothingWrittenExactly(StartOf(content, l), l.interval, l.states, l.run, |l.run|);
    hide IsRun, IsStorable;
  }

  /** A life whose final save worked leaves its last store, so after a failed restore only its own counts. */
  lemma FinalSaveDecides(content: Store, l: Life, name: string)
    requires IsLife(content, l) && l.states[|l.run|].main == Done(true)
    ensures FileAfter(content, l.states[|l.run|].files) == EndOf(l) == ServeAll(StartOf(content, l), Requests(l.run))
    ensures !l.restored ==> Count(EndOf(l).counters, name) == Wrap(AllAccepted(Requests(l.run), name))
  {
    FinalFileIsCurrent(StartOf(content, l), l.interval, l.states, l.run, |l.run|);
    EndIsServed(content, l);
    CountersAreTotals(Requests(l.run), name);
    hide IsRun, ServeAll, Requests, AllAccepted, Wrap;
  }

  // ---- a life that loses the file although its final save fails ------------------------

  const OLD := Store(map[], map["c" := 1])
  const COUNT_D: seq<Metric> := [CounterOf("d", 1)]
  const GAUGE_NAN: seq<Metric> := [GaugeOf("g", NaN)]

  /** One request, one tick whose save works, a NaN gauge, and a final save that therefore fails. */
  const TICKED: seq<Event> := [
    Request(COUNT_D), Tick, SaverStep(true), SaverStep(true), Request(GAUGE_NAN),
    MainStep(true), MainStep(true), SaverExit, MainStep(true), MainStep(true), MainStep(true), MainStep(true)]

  const WITH_D := Store(map[], map["d" := 1])
  const WITH_NAN := Store(map["g" := NaN], map["d" := 1])
  const TICK_FILE := Saved(WITH_D, 1, 1)

  lemma ServeTicked()
    ensures Serve(EMPTY, COUNT_D) == WITH_D && Serve(WITH_D, GAUGE_NAN) == WITH_NAN
  {
    assert ApplyBatch(EMPTY, COUNT_D[..0]) == EMPTY && ApplyBatch(WITH_D, GAUGE_NAN[..0]) == WITH_D;
    assert Valid(COUNT_D) && Valid(GAUGE_NAN);
    assert ApplyBatch(EMPTY, COUNT_D) == Apply(EMPTY, COUNT_D[0]);
    assert ApplyBatch(WITH_D, GAUGE_NAN) == Apply(WITH_D, GAUGE_NAN[0]);
  }

  /** After the tick's save. */
  const TICK_SAVED := State(
    [EMPTY, WITH_D], [SaveEnd(TICK_FILE, true)], [TICK_FILE], Serving, Idle, false, [], true, Idle, 1)

  /** When main begins its final save. */
  const AT_FINAL := State(
    [EMPTY, WITH_D, WITH_NAN], [SaveEnd(TICK_FILE, true)], [TICK_FILE], FinalSave, Idle, false, [], false, Idle, 0)

  ghost predicate Steps(states: seq<State>, run: seq<Event>)
  {
    && |states| == |run| + 1 && (forall k: nat | k < |states| :: states[k].history != [])
    && forall k: nat | k < |run| :: Next(states[k], run[k]) == Some(states[k + 1])
  }

  lemma StepsToTick() returns (states: seq<State>)
    ensures |states| == 5 && Steps(states, TICKED[..4]) && states[0] == Start(EMPTY, 300) && states[4] == TICK_SAVED
  {
    ServeTicked();
    hide Serve, Valid;
    var s0 := Start(EMPTY, 300);
    var s1 := Next(s0, TICKED[0]).value;
    var s2 := Next(s1, TICKED[1]).value;
    var s3 := Next(s2, TICKED[2]).value;
    var s4 := Next(s3, TICKED[3]).value;
    states := [s0, s1, s2, s3, s4];
  }

  lemma StepsToFinal() returns (states: seq<State>)
    ensures |states| == 6 && Steps(states, TICKED[4..9]) && states[0] == TICK_SAVED && states[5] == AT_FINAL
  {
    ServeTicked();
    hide Serve, Valid;
    var s4 := TICK_SAVED;
    var s5 := Next(s4, TICKED[4]).value;
    var s6 := Next(s5, TICKED[5]).value;
    var s7 := Next(s6, TICKED[6]).value;
    var s8 := Next(s7, TICKED[7]).value;
    var s9 := Next(s8, TICKED[8]).value;
    states := [s4, s5, s6, s7, s8, s9];
  }

  lemma StepsToEnd() returns (states: seq<State>)
    ensures |states| == 4 && Steps(states, TICKED[9..]) && states[0] == AT_FINAL
    ensures states[3].main == Done(false) && states[3].files == [TICK_FILE]
  {
    hide Serve, Valid;
    var s10 := Next(AT_FINAL, TICKED[9]).value;
    var s11 := Next(s10, TICKED[10]).value;
    var s12 := Next(s11, TICKED[11]).value;
    assert "g" in s11.mainSave.gauges && !IsStorable(s11.mainSave.gauges);
    states := [AT_FINAL, s10, s11, s12];
  }

  /** Two stretches of a run make one. */
  lemma JoinSteps(a: seq<State>, p: seq<Event>, b: seq<State>, q: seq<Event>)
    requires Steps(a, p) && Steps(b, q) && a[|p|] == b[0]
    ensures Steps(a + b[1..], p + q) && (a + b[1..])[|p| + |q|] == b[|q|]
  {
    var s, r := a + b[1..], p + q;
    assert forall k: nat | |p| <= k < |s| :: s[k] == b[k - |p|];
    forall k: nat | k < |r| ensures Next(s[k], r[k]) == Some(s[k + 1]) {
      if k < |p| {
        assert Next(a[k], p[k]) == Some(a[k + 1]);
      } else {
        assert Next(b[k - |p|], q[k - |p|]) == Some(b[k - |p| + 1]);
      }
      hide Next;
    }
    hide Next;
  }

  /** After a failed restore a tick alone loses the old file, even when the final save fails. */
  lemma TickLosesContent() returns (l: Life)
    ensures !l.restored && l.interval == 300 && l.run == TICKED && IsLife(OLD, l)
    ensures l.states[|l.run|].main == Done(false)
    ensures FileAfter(OLD, l.states[|l.run|].files) == WITH_D != OLD
  {
    var a := StepsToTick();
    var b := StepsToFinal();
    var c := StepsToEnd();
    hide Next, Steps;
    JoinSteps(a, TICKED[..4], b, TICKED[4..9]);
    var ab := a + b[1..];
    assert TICKED[..4] + TICKED[4..9] == TICKED[..9];
    JoinSteps(ab, TICKED[..9], c, TICKED[9..]);
    assert TICKED[..9] + TICKED[9..] == TICKED;
    l := Life(false, 300, ab + c[1..], TICKED);
    StepsAreRun(l.states, TICKED);
    assert "c" in OLD.counters && "c" !in WITH_D.counters;
  }

  lemma StepsAreRun(states: seq<State>, run: seq<Event>)
    requires Steps(states, run) && states[0] == Start(EMPTY, 300)
    ensures IsRun(EMPTY, 300, states, run)
  {
    hide Next;
  }

  // ---- many lives ----------------------------------------------------------------------

  /** Lives one after the other: `contents` is what each finds in the file, and what the last leaves. */
  ghost predicate IsHistory(contents: seq<Store>, lives: seq<Life>)
  {
    && |contents| == |lives| + 1
    && forall i: nat | i < |lives| :: FollowsFrom(contents[i], contents[i + 1], lives[i])
  }

  ghost predicate FollowsFrom(content: Store, next: Store, l: Life)
  {
    IsLife(content, l) && next == FileAfter(content, l.states[|l.run|].files)
  }

  /** The restore worked, and so did the final save. */
  ghost predicate Clean(l: Life)
    requires |l.states| == |l.run| + 1
  {
    l.restored && l.states[|l.run|].main == Done(true)
  }

  ghost predicate AllClean(lives: seq<Life>)
  {
    forall l | l in lives :: |l.states| == |l.run| + 1 && Clean(l)
  }

  function AllRequests(lives: seq<Life>): seq<seq<Metric>>
  {
    if lives == [] then [] else AllRequests(lives[..|lives| - 1]) + Requests(lives[|lives| - 1].run)
  }

  /** A clean life starts with what it found and leaves what it ended with. */
  lemma CleanLife(content: Store, next: Store, l: Life)
    requires FollowsFrom(content, next, l) && Clean(l)
    ensures StartOf(content, l) == content && next == EndOf(l) == ServeAll(content, Requests(l.run))
  {
    FinalSaveDecides(content, l, "");
    hide IsRun, ServeAll, Requests;
  }

  /** Over any number of clean lives each starts where the last one ended. */
  lemma LivesContinue(contents: seq<Store>, lives: seq<Life>, i: nat)
    requires IsHistory(contents, lives) && AllClean(lives) && i + 1 < |lives|
    ensures IsLife(contents[i], lives[i]) && StartOf(contents[i + 1], lives[i + 1]) == EndOf(lives[i])
  {
    assert lives[i] in lives && lives[i + 1] in lives;
    assert FollowsFrom(contents[i], contents[i + 1], lives[i]);
    CleanLife(contents[i], contents[i + 1], lives[i]);
    hide IsRun;
  }

  /** Together clean lives serve all their requests to the store the first one found. */
  lemma {:induction false} LivesServeAll(contents: seq<Store>, lives: seq<Life>, n: nat)
    requires IsHistory(contents, lives) && AllClean(lives) && n <= |lives|
    ensures contents[n] == ServeAll(contents[0], AllRequests(lives[..n]))
  {
    if n > 0 {
      LivesServeAll(contents, lives, n - 1);
      assert lives[n - 1] in lives;
      assert FollowsFrom(contents[n - 1], contents[n - 1 + 1], lives[n - 1]);
      hide IsLife, FileAfter, Clean, ServeAll, Requests;
      CleanLife(contents[n - 1], contents[n], lives[n - 1]);
      assert lives[..n][..n - 1] == lives[..n - 1];
      ServeAllConcat(contents[0], AllRequests(lives[..n - 1]), Requests(lives[n - 1].run));
    }
  }

  /** From no file, after any number of clean lives, each counter is the sum of all deltas ever accepted. */
  lemma CountersOfAllLives(contents: seq<Store>, lives: seq<Life>, name: string)
    requires IsHistory(contents, lives) && AllClean(lives) && contents[0] == EMPTY
    ensures Count(contents[|lives|].counters, name) == Wrap(AllAccepted(AllRequests(lives), name))
    ensures AllAccepted(AllRequests(lives), name) <= MAX64 ==>
      Count(contents[|lives|].counters, name) == AllAccepted(AllRequests(lives), name)
  {
    LivesServeAll(contents, lives, |lives|);
    assert lives[..|lives|] == lives;
    CountersAreTotals(AllRequests(lives), name);
    hide *;
  }
}
