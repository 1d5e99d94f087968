/**
 * The PostgreSQL side: a connection with one transaction at a time, the two repositories' batch
 * upserts, and WithTransaction, which retries the whole body.
 *
 * Driver calls are numbered; `faults` says which of them report an error and `lost` which commits,
 * of a transaction or of a single statement, take effect although they report one.  `unheard` counts
 * those; `applied` counts the commits of a call that took effect.
 */
module Database {
  import opened Options
  import opened Metrics
  import opened Retry

  /** None of the calls numbered from `from` on, before `until`, is in the map. */
  predicate Quiet(faults: map<nat, Error>, from: nat, until: nat)
  {
    forall c | from <= c < until :: c !in faults
  }

  /**
   * A stretch of driver calls outside any commit: it ends at its first fault, reporting it, or at a
   * sum outside BIGINT, or goes through.
   */
  predicate EndsAtFault(faults: map<nat, Error>, from: nat, until: nat, err: Option<Error>)
  {
    if err.None? then from <= until && Quiet(faults, from, until)
    else
      && from < until && Quiet(faults, from, until - 1)
      && (if until - 1 in faults then err.value == faults[until - 1] else err.value.OutOfRange?)
  }

  /** The error is the one the call reports, or no fault but a sum outside BIGINT. */
  predicate Reports(faults: map<nat, Error>, lost: map<nat, Error>, c: nat, err: Option<Error>)
  {
    if err.None? then c !in faults
    else
      || (c in lost && err.value == lost[c])
      || (c in faults && err.value == faults[c])
      || (c !in faults && err.value.OutOfRange?)
  }

  /** The same for an attempt that may end with a commit, whose call may be lost. */
  predicate AttemptEnds(faults: map<nat, Error>, lost: map<nat, Error>, from: nat, until: nat, err: Option<Error>)
  {
    from < until && Quiet(faults, from, until - 1) && Reports(faults, lost, until - 1, err)
  }

  /** The row stays in BIGINT. */
  predicate RowFits(counters: map<string, Int64>, m: Metric)
    requires Carries(m)
  {
    IsGauge(m) || Fits64(Count(counters, m.id) + m.delta.value)
  }

  class Connection {
    var committed: Store
    var work: Store
    var calls: nat
    var unheard: nat
    const faults: map<nat, Error>
    const lost: map<nat, Error>

    constructor (faults: map<nat, Error>, lost: map<nat, Error>)
      ensures committed == work == EMPTY && calls == unheard == 0 && this.faults == faults && this.lost == lost
    {
      committed, work, calls, unheard := EMPTY, EMPTY, 0, 0;
      this.faults, this.lost := faults, lost;
    }

    /** Any driver call that only talks: BeginTx without its snapshot, PrepareContext. */
    method Call() returns (err: Option<Error>)
      modifies this`calls
      ensures calls == old(calls) + 1 && err == Lookup(faults, old(calls))
    {
      err := Lookup(faults, calls);
      calls := calls + 1;
    }

    method BeginTx() returns (err: Option<Error>)
      modifies this`calls, this`work
      ensures calls == old(calls) + 1 && err == Lookup(faults, old(calls))
      ensures err.None? ==> work == committed
    {
      err := Call();
      if err.None? {
        work := committed;
      }
    }

    /** INSERT ... ON CONFLICT DO UPDATE on the gauges table. */
    method ExecUpsertGauge(name: string, value: Float64) returns (err: Option<Error>)
      modifies this`calls, this`work
      ensures calls == old(calls) + 1 && err == Lookup(faults, old(calls)) && (err.Some? ==> work == old(work))
      ensures err.None? ==> work == old(work).(gauges := old(work).gauges[name := value])
    {
      err := Call();
      if err.None? {
        work := work.(gauges := work.gauges[name := value]);
      }
    }

    /** The counters upsert adds to the row; BIGINT does not wrap, it reports an error. */
    method ExecAddCounter(name: string, delta: Int64) returns (err: Option<Error>)
      modifies this`calls, this`work
      ensures calls == old(calls) + 1 && (err.Some? ==> work == old(work))
      ensures EndsAtFault(faults, old(calls), calls, err)
      ensures err.None? ==> Fits64(Count(old(work).counters, name) + delta)
      ensures err.None? ==>
        work == old(work).(counters := old(work).counters[name := Count(old(work).counters, name) + delta])
      ensures err.Some? && old(calls) !in faults ==>
        err.value == OutOfRange(name) && !Fits64(Count(old(work).counters, name) + delta)
    {
      err := Call();
      if err.None? {
        var sum := Count(work.counters, name) + delta;
        if Fits64(sum) {
          work := work.(counters := work.counters[name := sum]);
        } else {
          err := Some(OutOfRange(name));
        }
      }
    }

    /** Discards the transaction; after a commit there is nothing left to discard. */
    method Rollback()
      modifies this`work
      ensures work == committed
    {
      work := committed;
    }

    /** A commit that reports an error may still have taken effect. */
    method Commit() returns (err: Option<Error>, ghost effective: bool)
      modifies this`calls, this`committed, this`unheard
      ensures calls == old(calls) + 1
      ensures err == if old(calls) in lost then Some(lost[old(calls)]) else Lookup(faults, old(calls))
      ensures committed == if effective then work else old(committed)
      ensures err.None? ==> effective
      ensures unheard == old(unheard) + (if effective && err.Some? then 1 else 0)
      ensures lost == map[] && err.Some? ==> !effective && err.value in faults.Values
    {
      if calls in lost {
        err, effective := Some(lost[calls]), true;
        committed := work;
        unheard := unheard + 1;
        calls := calls + 1;
      } else {
        err := Call();
        effective := err.None?;
        if err.None? {
          committed := work;
        }
      }
    }

    /** One statement outside a transaction: it begins, runs and commits by itself. */
    method ExecAlone(m: Metric) returns (err: Option<Error>, ghost effective: bool)
      requires Carries(m)
      modifies this`calls, this`work, this`committed, this`unheard
      ensures AttemptEnds(faults, lost, old(calls), calls, err)
      ensures committed == if effective then Apply(old(committed), m) else old(committed)
      ensures err.None? ==> effective
      ensures unheard == old(unheard) + (if effective && err.Some? then 1 else 0)
      ensures lost == map[] ==> (effective <==> err.None?)
      ensures lost == map[] && faults == map[] ==>
        (err.None? <==> RowFits(old(committed).counters, m))
      ensures lost == map[] && faults == map[] ==> !IsRetriable(err)
    {
      work, effective := committed, false;
      if IsGauge(m) {
        err := ExecUpsertGauge(m.id, m.value.value);
      } else {
        err := ExecAddCounter(m.id, m.delta.value);
      }
      if err.None? {
        err, effective := Commit();
      }
    }
  }

  // ---- the repositories ----------------------------------------------------------------

  /** The row values after adding every entry, in exact arithmetic. */
  predicate AddsFit(rows: map<string, Int64>, deltas: map<string, Int64>)
  {
    forall n | n in deltas :: Fits64(Count(rows, n) + deltas[n])
  }

  function AddAll(rows: map<string, Int64>, deltas: map<string, Int64>): map<string, Int64>
    requires AddsFit(rows, deltas)
  {
    map n | n in rows.Keys + deltas.Keys :: if n in deltas then Count(rows, n) + deltas[n] else rows[n]
  }

  /** UpsertBatch: one statement per entry, in any order of the map. */
  method UpsertBatch(db: Connection, gauges: map<string, Float64>) returns (err: Option<Error>)
    modifies db`calls, db`work
    ensures EndsAtFault(db.faults, old(db.calls), db.calls, err) && db.calls > old(db.calls)
    ensures err.Some? ==> db.calls - 1 in db.faults
    ensures err.None? ==> db.work == Store(old(db.work).gauges + gauges, old(db.work).counters)
  {
    err := db.Call();
    if err.Some? { return; }
    var rest := gauges.Keys;
    while rest != {}
      invariant rest <= gauges.Keys && err.None? && db.calls > old(db.calls)
      invariant Quiet(db.faults, old(db.calls), db.calls)
      invariant db.work == Store(old(db.work).gauges + (gauges - rest), old(db.work).counters)
    {
      var name :| name in rest;
      err := db.ExecUpsertGauge(name, gauges[name]);
      if err.Some? { return; }
      rest := rest - {name};
    }
    assert gauges - {} == gauges;
  }

  /** The rows with every entry added except those still to come. */
  ghost predicate Added(
      rows: map<string, Int64>, deltas: map<string, Int64>, rest: set<string>, counters: map<string, Int64>)
  {
    rest <= deltas.Keys && AddsFit(rows, deltas - rest) && counters == AddAll(rows, deltas - rest)
  }

  lemma AddedAtFirst(rows: map<string, Int64>, deltas: map<string, Int64>)
    ensures Added(rows, deltas, deltas.Keys, rows)
  {
    assert deltas - deltas.Keys == map[];
  }

  lemma AddedNext(
      rows: map<string, Int64>, deltas: map<string, Int64>, rest: set<string>, counters: map<string, Int64>,
      name: string)
    requires Added(rows, deltas, rest, counters) && name in rest
    ensures name in deltas && Count(counters, name) == Count(rows, name)
    ensures Fits64(Count(rows, name) + deltas[name]) ==>
      Added(rows, deltas, rest - {name}, counters[name := Count(rows, name) + deltas[name]])
    ensures AddsFit(rows, deltas) ==> Fits64(Count(rows, name) + deltas[name])
  {}

  lemma AddedAtLast(rows: map<string, Int64>, deltas: map<string, Int64>, counters: map<string, Int64>)
    requires Added(rows, deltas, {}, counters)
    ensures AddsFit(rows, deltas) && counters == AddAll(rows, deltas)
  {
    assert deltas - {} == deltas;
  }

  /** AddBatch: whichever order the map is ranged over, the same rows or an error. */
  method AddBatch(db: Connection, deltas: map<string, Int64>) returns (err: Option<Error>)
    modifies db`calls, db`work
    ensures EndsAtFault(db.faults, old(db.calls), db.calls, err) && db.calls > old(db.calls)
    ensures err.None? ==> AddsFit(old(db.work).counters, deltas)
    ensures err.None? ==> db.work == Store(old(db.work).gauges, AddAll(old(db.work).counters, deltas))
    ensures err.Some? && db.calls - 1 !in db.faults ==> !AddsFit(old(db.work).counters, deltas)
  {
    hide Added, AddsFit, AddAll, Count;
    ghost var rows := db.work.counters;
    err := db.Call();
    if err.Some? { return; }
    var rest := deltas.Keys;
    AddedAtFirst(rows, deltas);
    while rest != {}
      invariant err.None? && db.calls > old(db.calls) && Quiet(db.faults, old(db.calls), db.calls)
      invariant db.work.gauges == old(db.work).gauges && Added(rows, deltas, rest, db.work.counters)
    {
      var name :| name in rest;
      AddedNext(rows, deltas, rest, db.work.counters, name);
      err := db.ExecAddCounter(name, deltas[name]);
      if err.Some? { return; }
      rest := rest - {name};
    }
    AddedAtLast(rows, deltas, db.work.counters);
  }

  // ---- aggregate, then commit ----------------------------------------------------------

  /** The upserts of a batch aggregated from scratch. */
  function Upserted(rows: Store, sums: Store): Store
    requires AddsFit(rows.counters, sums.counters)
  {
    Store(rows.gauges + sums.gauges, AddAll(rows.counters, sums.counters))
  }

  /**
   * Aggregating a batch into maps and upserting them is the fold itself, for every batch and all
   * rows, whenever no row leaves BIGINT: what Go's sums lost to wrap-around, the fold lost too.
   */
  lemma AggregateIsFold(rows: Store, ms: seq<Metric>)
    requires AddsFit(rows.counters, ApplyBatch(EMPTY, ms).counters)
    ensures Upserted(rows, ApplyBatch(EMPTY, ms)) == ApplyBatch(rows, ms)
  {
    var sums := ApplyBatch(EMPTY, ms);
    var r := Upserted(rows, sums);
    forall n ensures Lookup(r.gauges, n) == Lookup(ApplyBatch(rows, ms).gauges, n)
             ensures Lookup(r.counters, n) == Lookup(ApplyBatch(rows, ms).counters, n) {
      AggregateAt(rows, ms, n);
    }
    SameStore(r, ApplyBatch(rows, ms));
  }

  lemma AggregateAt(rows: Store, ms: seq<Metric>, n: string)
    requires AddsFit(rows.counters, ApplyBatch(EMPTY, ms).counters)
    ensures var r, folded := Upserted(rows, ApplyBatch(EMPTY, ms)), ApplyBatch(rows, ms);
      Lookup(r.gauges, n) == Lookup(folded.gauges, n) && Lookup(r.counters, n) == Lookup(folded.counters, n)
  {
    BatchMeaning(rows, ms, n);
    BatchMeaning(EMPTY, ms, n);
    NoAddsNoSum(ms, n);
    WrapAdd(Sum(ms, n), Count(rows.counters, n));
    hide ApplyBatch, Sum, Last, Adds, Wrap;
  }

  /** Non-negative deltas on non-negative rows, with every total within int64, always fit. */
  lemma TotalsFit(rows: Store, ms: seq<Metric>)
    requires Valid(ms)
    requires forall n | n in rows.counters :: rows.counters[n] >= 0
    requires forall n | Adds(ms, n) :: Count(rows.counters, n) + Sum(ms, n) <= MAX64
    ensures AddsFit(rows.counters, ApplyBatch(EMPTY, ms).counters)
  {
    forall n | n in ApplyBatch(EMPTY, ms).counters
      ensures Fits64(Count(rows.counters, n) + ApplyBatch(EMPTY, ms).counters[n])
    {
      BatchMeaning(EMPTY, ms, n);
      ValidSumIsNonNegative(ms, n);
      assert Adds(ms, n);
    }
  }

  /** Every counter is its old row plus the exact sum of the batch's deltas. */
  ghost predicate ExactTotals(rows: Store, ms: seq<Metric>, after: map<string, Int64>)
  {
    forall n :: Count(after, n) == Count(rows.counters, n) + Sum(ms, n)
  }

  /** The batch commits, and what it commits are the exact totals. */
  ghost predicate CommitsExactly(rows: Store, ms: seq<Metric>)
  {
    && AddsFit(rows.counters, ApplyBatch(EMPTY, ms).counters)
    && ExactTotals(rows, ms, Upserted(rows, ApplyBatch(EMPTY, ms)).counters)
  }

  /** Neither the sum of a name's deltas nor its new total is above int64. */
  ghost predicate SumsFit(rows: Store, ms: seq<Metric>)
  {
    forall n :: Sum(ms, n) <= MAX64 && Count(rows.counters, n) + Sum(ms, n) <= MAX64
  }

  lemma FoldName(rows: Store, ms: seq<Metric>, n: string)
    ensures Count(ApplyBatch(rows, ms).counters, n) == Wrap(Count(rows.counters, n) + Sum(ms, n))
  {
    BatchMeaning(rows, ms, n);
    NoAddsNoSum(ms, n);
    hide ApplyBatch, Sum, Last, Adds;
  }

  lemma ExactName(rows: Store, ms: seq<Metric>, n: string)
    requires AddsFit(rows.counters, ApplyBatch(EMPTY, ms).counters)
    ensures Count(Upserted(rows, ApplyBatch(EMPTY, ms)).counters, n) == Wrap(Count(rows.counters, n) + Sum(ms, n))
  {
    AggregateIsFold(rows, ms);
    FoldName(rows, ms, n);
    hide ApplyBatch, Upserted, Sum, Wrap;
  }

  /** The row of a name is the old row plus the sum as Go wrapped it. */
  lemma UpsertedName(rows: Store, ms: seq<Metric>, n: string)
    requires AddsFit(rows.counters, ApplyBatch(EMPTY, ms).counters)
    ensures Count(Upserted(rows, ApplyBatch(EMPTY, ms)).counters, n) == Count(rows.counters, n) + Wrap(Sum(ms, n))
  {
    FoldName(EMPTY, ms, n);
    hide ApplyBatch, Sum, Wrap;
  }

  lemma ExactSumFits(rows: Store, ms: seq<Metric>, n: string)
    requires CommitsExactly(rows, ms)
    ensures Sum(ms, n) <= MAX64 && Count(rows.counters, n) + Sum(ms, n) <= MAX64
  {
    UpsertedName(rows, ms, n);
    hide ApplyBatch, Sum, AddsFit, Upserted;
  }

  lemma SumsAreAccepted(rows: Store, ms: seq<Metric>)
    requires Valid(ms) && SumsFit(rows, ms)
    ensures AddsFit(rows.counters, ApplyBatch(EMPTY, ms).counters)
  {
    forall n | n in ApplyBatch(EMPTY, ms).counters
      ensures Fits64(Count(rows.counters, n) + ApplyBatch(EMPTY, ms).counters[n])
    {
      FoldName(EMPTY, ms, n);
      ValidSumIsNonNegative(ms, n);
      assert Wrap(Sum(ms, n)) == Sum(ms, n);
    }
    hide ApplyBatch, Sum;
  }

  /**
   * Valid deltas commit as exact totals exactly when no name's deltas add up to more than int64,
   * and no row does with them.
   */
  lemma CommitsExactlyWhenSumsFit(rows: Store, ms: seq<Metric>)
    requires Valid(ms)
    ensures CommitsExactly(rows, ms) <==> SumsFit(rows, ms)
  {
    if CommitsExactly(rows, ms) {
      forall n ensures Sum(ms, n) <= MAX64 && Count(rows.counters, n) + Sum(ms, n) <= MAX64 {
        ExactSumFits(rows, ms, n);
      }
    }
    if SumsFit(rows, ms) {
      SumsAreAccepted(rows, ms);
      forall n
        ensures Count(Upserted(rows, ApplyBatch(EMPTY, ms)).counters, n) == Count(rows.counters, n) + Sum(ms, n)
      {
        ExactName(rows, ms, n);
        ValidSumIsNonNegative(ms, n);
        assert Fits64(Count(rows.counters, n) + Sum(ms, n));
      }
    }
    hide ApplyBatch, Upserted, Sum, AddsFit, Wrap;
  }

  /** On non-negative rows the totals alone decide. */
  lemma CommitsExactlyWhenTotalsFit(rows: Store, ms: seq<Metric>)
    requires Valid(ms)
    requires forall n | n in rows.counters :: rows.counters[n] >= 0
    ensures CommitsExactly(rows, ms) <==> forall n :: Count(rows.counters, n) + Sum(ms, n) <= MAX64
  {
    CommitsExactlyWhenSumsFit(rows, ms);
    hide CommitsExactly, Sum;
    assert forall n :: Count(rows.counters, n) >= 0;
    if forall n :: Count(rows.counters, n) + Sum(ms, n) <= MAX64 {
      forall n ensures Sum(ms, n) <= MAX64 && Count(rows.counters, n) + Sum(ms, n) <= MAX64 {
        assert Count(rows.counters, n) + Sum(ms, n) <= MAX64;
      }
    }
  }

  /** A commit does not prove that nothing overflowed: the Go sum wraps before the database sees it. */
  lemma OverflowCanCommit(name: string)
    ensures var ms := [CounterOf(name, MAX64), CounterOf(name, 1)];
      && Valid(ms)
      && AddsFit(EMPTY.counters, ApplyBatch(EMPTY, ms).counters)
      && Upserted(EMPTY, ApplyBatch(EMPTY, ms)).counters == map[name := MIN64]
  {
    var ms := [CounterOf(name, MAX64), CounterOf(name, 1)];
    assert ApplyBatch(EMPTY, []) == EMPTY;
    BatchConcat(EMPTY, [], [ms[0]]);
    BatchConcat(EMPTY, [ms[0]], [ms[1]]);
    assert [] + [ms[0]] == [ms[0]] && [ms[0]] + [ms[1]] == ms;
    assert ApplyBatch(EMPTY, [ms[0]]) == Apply(EMPTY, ms[0]);
    assert ApplyBatch(EMPTY, ms) == Apply(Apply(EMPTY, ms[0]), ms[1]);
    assert ApplyBatch(EMPTY, ms).counters == map[name := MIN64];
  }

  /** The two maps of a batch: last gauge values and wrapped counter sums. */
  method Aggregate(metrics: seq<Metric>) returns (gauges: map<string, Float64>, counters: map<string, Int64>)
    ensures Store(gauges, counters) == ApplyBatch(EMPTY, metrics)
  {
    gauges, counters := map[], map[];
    for i := 0 to |metrics|
      invariant Store(gauges, counters) == ApplyBatch(EMPTY, metrics[..i])
    {
      var m := metrics[i];
      if m.mtype == GAUGE {
        if m.value.Some? {
          gauges := gauges[m.id := m.value.value];
        }
      } else if m.mtype == COUNTER {
        if m.delta.Some? {
          counters := counters[m.id := Wrap(Count(counters, m.id) + m.delta.value)];
        }
      }
      assert metrics[..i + 1][..i] == metrics[..i];
    }
    assert metrics[..|metrics|] == metrics;
  }

  /** The transaction body: the maps are rebuilt from the batch on every attempt. */
  method BatchBody(db: Connection, metrics: seq<Metric>) returns (err: Option<Error>)
    modifies db`calls, db`work
    ensures EndsAtFault(db.faults, old(db.calls), db.calls, err)
    ensures err.None? ==> AddsFit(old(db.work).counters, ApplyBatch(EMPTY, metrics).counters)
    ensures err.None? ==> db.work == ApplyBatch(old(db.work), metrics)
    ensures err.Some? && db.calls - 1 !in db.faults ==>
      !AddsFit(old(db.work).counters, ApplyBatch(EMPTY, metrics).counters)
  {
    hide Quiet, ApplyBatch, AddsFit, AddAll;
    var gauges, counters := Aggregate(metrics);
    ghost var rows, from := db.work, db.calls;
    assert EndsAtFault(db.faults, from, from, None) by { NoCallYet(db.faults, from); }
    err := None;
    if |gauges| > 0 {
      err := UpsertBatch(db, gauges);
      if err.Some? { return; }
    }
    assert db.work == Store(rows.gauges + gauges, rows.counters);
    if |counters| > 0 {
      ghost var mid := db.calls;
      err := AddBatch(db, counters);
      JoinCalls(db.faults, from, mid, db.calls, err);
      if err.Some? { return; }
    } else {
      AddNothing(rows.counters, counters);
    }
    AggregateIsFold(rows, metrics);
  }

  lemma NoCallYet(faults: map<nat, Error>, from: nat)
    ensures EndsAtFault(faults, from, from, None)
  {}

  lemma JoinCalls(faults: map<nat, Error>, from: nat, mid: nat, until: nat, err: Option<Error>)
    requires EndsAtFault(faults, from, mid, None) && EndsAtFault(faults, mid, until, err)
    ensures EndsAtFault(faults, from, until, err)
  {}

  lemma AddNothing(rows: map<string, Int64>, deltas: map<string, Int64>)
    requires |deltas| == 0
    ensures AddsFit(rows, deltas) && AddAll(rows, deltas) == rows
  {}

  // ---- retries -------------------------------------------------------------------------

  /** The call reports, or may report, an error that is retried. */
  predicate MayRetry(faults: map<nat, Error>, lost: map<nat, Error>, c: nat)
  {
    (c in faults && IsRetriable(Some(faults[c]))) || (c in lost && IsRetriable(Some(lost[c])))
  }

  function RetryCalls(faults: map<nat, Error>, lost: map<nat, Error>, from: nat, until: nat): nat
    requires from <= until
    decreases until
  {
    if from == until then 0
    else RetryCalls(faults, lost, from, until - 1) + (if MayRetry(faults, lost, until - 1) then 1 else 0)
  }

  function FaultCalls(faults: map<nat, Error>, from: nat, until: nat): nat
    requires from <= until
    decreases until
  {
    if from == until then 0 else FaultCalls(faults, from, until - 1) + (if until - 1 in faults then 1 else 0)
  }

  /**
   * The runs of a retried operation between two calls: every fault but one at the very end was
   * retried, one more run follows each of them, and no run follows any other outcome.
   */
  ghost predicate RunsFollow(faults: map<nat, Error>, lost: map<nat, Error>, from: nat, until: nat, runs: nat)
  {
    && from < until && runs >= 1
    && (forall c | from <= c < until - 1 && c in faults :: MayRetry(faults, lost, c))
    && FaultCalls(faults, from, until - 1) <= runs - 1 <= RetryCalls(faults, lost, from, until - 1)
  }

  /** Every run so far ended with an error that is retried. */
  ghost predicate AllRetried(faults: map<nat, Error>, lost: map<nat, Error>, from: nat, until: nat, runs: nat)
  {
    && from <= until
    && (forall c | from <= c < until && c in faults :: MayRetry(faults, lost, c))
    && FaultCalls(faults, from, until) <= runs <= RetryCalls(faults, lost, from, until)
  }

  lemma {:induction false} QuietCalls(faults: map<nat, Error>, lost: map<nat, Error>, from: nat, mid: nat, until: nat)
    requires from <= mid <= until && Quiet(faults, mid, until)
    ensures FaultCalls(faults, from, until) == FaultCalls(faults, from, mid)
    ensures RetryCalls(faults, lost, from, until) >= RetryCalls(faults, lost, from, mid)
    decreases until
  {
    if mid < until {
      QuietCalls(faults, lost, from, mid, until - 1);
    }
  }

  lemma OneMoreRun(
      faults: map<nat, Error>, lost: map<nat, Error>, from: nat, mid: nat, until: nat, runs: nat, err: Option<Error>)
    requires AllRetried(faults, lost, from, mid, runs) && AttemptEnds(faults, lost, mid, until, err)
    ensures RunsFollow(faults, lost, from, until, runs + 1)
    ensures IsRetriable(err) ==> AllRetried(faults, lost, from, until, runs + 1)
  {
    QuietCalls(faults, lost, from, mid, until - 1);
  }

  lemma {:induction false} NeverRetried(faults: map<nat, Error>, lost: map<nat, Error>, from: nat, until: nat)
    requires from <= until && forall c | from <= c < until :: !MayRetry(faults, lost, c)
    ensures RetryCalls(faults, lost, from, until) == 0
    decreases until
  {
    if from < until {
      NeverRetried(faults, lost, from, until - 1);
    }
  }

  lemma {:induction false} RetriedFaults(faults: map<nat, Error>, from: nat, until: nat)
    requires from <= until
    ensures RetryCalls(faults, map[], from, until) <= FaultCalls(faults, from, until)
    decreases until
  {
    if from < until {
      RetriedFaults(faults, from, until - 1);
    }
  }

  /**
   * So without an error that is retried there is one run; and when no commit is lost the runs are
   * one more than the faults before the last call, all of them retried.
   */
  lemma RunsAreDecided(faults: map<nat, Error>, lost: map<nat, Error>, from: nat, until: nat, runs: nat)
    requires RunsFollow(faults, lost, from, until, runs)
    ensures (forall c: nat :: !MayRetry(faults, lost, c)) ==> runs == 1
    ensures lost == map[] ==> runs == 1 + FaultCalls(faults, from, until - 1)
    ensures lost == map[] ==> forall c | from <= c < until - 1 && c in faults :: IsRetriable(Some(faults[c]))
    ensures from in faults && !MayRetry(faults, lost, from) ==> until == from + 1 && runs == 1
  {
    if forall c: nat :: !MayRetry(faults, lost, c) {
      NeverRetried(faults, lost, from, until - 1);
    }
    if lost == map[] {
      RetriedFaults(faults, from, until - 1);
    }
  }

  /** Upsert and Add, the retried single statements behind UpdateGauge and UpdateCounter. */
  method ExecRetried(db: Connection, m: Metric) returns (err: Option<Error>, runs: nat, ghost applied: nat)
    requires Carries(m)
    modifies db`calls, db`work, db`committed, db`unheard
    ensures 1 <= runs <= 4 && applied <= runs
    ensures RunsFollow(db.faults, db.lost, old(db.calls), db.calls, runs) && (IsRetriable(err) ==> runs == 4)
    ensures db.calls > 0 && Reports(db.faults, db.lost, db.calls - 1, err)
    ensures db.committed == ApplyTimes(old(db.committed), [m], applied)
    ensures applied == db.unheard - old(db.unheard) + (if err.None? then 1 else 0)
    ensures db.lost == map[] ==> applied == if err.None? then 1 else 0
    ensures db.lost == map[] && db.faults == map[] ==>
      (err.None? <==> RowFits(old(db.committed).counters, m))
  {
    runs, applied := 0, 0;
    ghost var first := db.calls;
    hide Apply, ApplyBatch, AllRetried, RunsFollow, Quiet, Reports, AttemptEnds, RowFits, Carries;
    assert AllRetried(db.faults, db.lost, first, first, 0) by { NoRunYet(db.faults, db.lost, first); }
    while true
      invariant runs <= 3 && applied <= runs && first <= db.calls
      invariant AllRetried(db.faults, db.lost, first, db.calls, runs)
      invariant db.committed == ApplyTimes(old(db.committed), [m], applied)
      invariant applied == db.unheard - old(db.unheard)
      invariant db.lost == map[] ==> applied == 0
      invariant db.lost == map[] && db.faults == map[] ==> runs == 0
      decreases 4 - runs
    {
      ghost var effective;
      ghost var mid := db.calls;
      ApplyOne(db.committed, m);
      err, effective := db.ExecAlone(m);
      OneMoreRun(db.faults, db.lost, first, mid, db.calls, runs, err);
      runs := runs + 1;
      if effective {
        applied := applied + 1;
      }
      if !WithRetryGoesOn(runs, err) { return; }
    }
  }

  lemma NoRunYet(faults: map<nat, Error>, lost: map<nat, Error>, from: nat)
    ensures AllRetried(faults, lost, from, from, 0)
  {}

  lemma ApplyOne(st: Store, m: Metric)
    ensures ApplyBatch(st, [m]) == Apply(st, m)
  {
    assert [m][..0] == [] && ApplyBatch(st, []) == st;
  }

  /** One attempt of a transaction: begin, body, commit, with the rollback deferred. */
  method TransactionOnce(db: Connection, metrics: seq<Metric>) returns (err: Option<Error>, ghost effective: bool)
    modifies db`calls, db`work, db`committed, db`unheard
    ensures AttemptEnds(db.faults, db.lost, old(db.calls), db.calls, err)
    ensures old(db.calls) in db.faults ==> !effective && db.calls == old(db.calls) + 1
    ensures old(db.calls) in db.faults ==> err == Some(db.faults[old(db.calls)])
    ensures db.committed == if effective then ApplyBatch(old(db.committed), metrics) else old(db.committed)
    ensures err.None? ==> effective
    ensures db.unheard == old(db.unheard) + (if effective && err.Some? then 1 else 0)
    ensures db.lost == map[] && err.Some? ==> !effective
    ensures db.lost == map[] && db.faults == map[] ==>
      (err.None? <==> AddsFit(old(db.committed).counters, ApplyBatch(EMPTY, metrics).counters))
    ensures db.lost == map[] && db.faults == map[] ==> !IsRetriable(err)
  {
    effective := false;
    err := db.BeginTx();
    if err.None? {
      err := BatchBody(db, metrics);
      if err.None? {
        err, effective := db.Commit();
      }
      db.Rollback();
    }
  }

  /**
   * WithTransaction around the batch body: the attempt, retried.  `applied` is how many commits took
   * effect: those that reported an error, and on nil the last one.
   */
  method WithTransaction(db: Connection, metrics: seq<Metric>)
    returns (err: Option<Error>, runs: nat, ghost applied: nat)
    modifies db`calls, db`work, db`committed, db`unheard
    ensures 1 <= runs <= 4 && applied <= runs
    // Every run but the last reported an error that is retried, and the last one's is returned.
    ensures RunsFollow(db.faults, db.lost, old(db.calls), db.calls, runs) && (IsRetriable(err) ==> runs == 4)
    ensures db.calls > 0 && Reports(db.faults, db.lost, db.calls - 1, err)
    ensures old(db.calls) in db.faults && !MayRetry(db.faults, db.lost, old(db.calls)) ==>
      err == Some(db.faults[old(db.calls)]) && runs == 1 && db.committed == old(db.committed)
    ensures db.committed == ApplyTimes(old(db.committed), metrics, applied)
    ensures applied == db.unheard - old(db.unheard) + (if err.None? then 1 else 0)
    // An attempt that reports an error commits nothing: applied exactly once on nil, never on error.
    ensures db.lost == map[] ==> applied == if err.None? then 1 else 0
    // Without faults the outcome is decided by the rows alone.
    ensures db.lost == map[] && db.faults == map[] ==>
      (err.None? <==> AddsFit(old(db.committed).counters, ApplyBatch(EMPTY, metrics).counters))
  {
    runs, applied := 0, 0;
    ghost var first := db.calls;
    hide Apply, ApplyBatch, AllRetried, RunsFollow, Quiet, Reports, AddsFit;
    assert AllRetried(db.faults, db.lost, first, first, 0) by { NoRunYet(db.faults, db.lost, first); }
    while true
      invariant runs <= 3 && applied <= runs && first <= db.calls
      invariant AllRetried(db.faults, db.lost, first, db.calls, runs)
      invariant first in db.faults && !MayRetry(db.faults, db.lost, first) ==> runs == 0 && db.calls == first
      invariant db.committed == ApplyTimes(old(db.committed), metrics, applied)
      invariant applied == db.unheard - old(db.unheard)
      invariant db.lost == map[] ==> applied == 0
      invariant db.lost == map[] && db.faults == map[] ==> runs == 0
      decreases 4 - runs
    {
      ghost var effective;
      ghost var mid := db.calls;
      err, effective := TransactionOnce(db, metrics);
      OneMoreRun(db.faults, db.lost, first, mid, db.calls, runs, err);
      runs := runs + 1;
      if effective {
        applied := applied + 1;
      }
      if !WithRetryGoesOn(runs, err) { return; }
    }
  }
}
