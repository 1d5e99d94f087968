/** The metrics service: validation, and the three ways a batch reaches a storage. */
module Service {
  import opened Options
  import opened Metrics
  import opened Storage
  import opened Database

  /** err reports the first negative metric of the batch. */
  predicate ReportsFirstNegative(ms: seq<Metric>, err: Option<Error>)
  {
    exists k :: 0 <= k < |ms| && IsNegative(ms[k]) && Valid(ms[..k]) && err == Some(NegativeError(ms[k]))
  }

  /** How many update calls the fallback makes for these metrics: one for each that carries its field. */
  function Calls(ms: seq<Metric>): nat
  {
    if ms == [] then 0 else Calls(ms[..|ms| - 1]) + (if Carries(ms[|ms| - 1]) then 1 else 0)
  }

  /** None of `count` calls from number `first` on fails. */
  predicate NoFault(faults: map<nat, Error>, first: nat, count: nat)
  {
    forall c | first <= c < first + count :: c !in faults
  }

  /** The call for ms[k] is the first that fails. */
  predicate FailsFirst(calls: nat, faults: map<nat, Error>, ms: seq<Metric>, k: nat)
  {
    && k < |ms| && Carries(ms[k])
    && calls + Calls(ms[..k]) in faults && NoFault(faults, calls, Calls(ms[..k]))
  }

  /** The store holds exactly the metrics before the failed call, and its error is the one reported. */
  ghost predicate StoppedThere(
      before: Store, after: Store, calls: nat, faults: map<nat, Error>, ms: seq<Metric>, err: Error)
  {
    exists k :: FailsFirst(calls, faults, ms, k) && Stopped(before, after, calls, faults, ms, err, k)
  }

  predicate Stopped(
      before: Store, after: Store, calls: nat, faults: map<nat, Error>, ms: seq<Metric>, err: Error, k: nat)
    requires FailsFirst(calls, faults, ms, k)
  {
    after == ApplyBatch(before, ms[..k]) && err == faults[calls + Calls(ms[..k])]
  }

  lemma {:induction false} PrefixCalls(ms: seq<Metric>, k: nat)
    requires k <= |ms|
    ensures Calls(ms[..k]) <= Calls(ms)
    ensures k < |ms| && Carries(ms[k]) ==> Calls(ms[..k]) < Calls(ms)
    decreases |ms|
  {
    if k < |ms| {
      PrefixCalls(ms[..|ms| - 1], k);
      assert ms[..|ms| - 1][..k] == ms[..k];
    } else {
      assert ms[..k] == ms;
    }
  }

  /**
   * The storage is the in-memory one, which takes whole batches, or one that does not; where neither
   * is set it is the database's, on the tables the transaction manager writes.
   */
  class MetricsService {
    const mem: MemStorage?
    const plain: PlainStorage?
    const tx: Connection?

    constructor (mem: MemStorage?, plain: PlainStorage?, tx: Connection?)
      requires mem != null || plain != null || tx != null
      ensures this.mem == mem && this.plain == plain && this.tx == tx
    {
      this.mem, this.plain, this.tx := mem, plain, tx;
    }

    predicate HasStorage() { mem != null || plain != null || tx != null }

    /** The store behind the service: the committed rows, or what the storage holds. */
    function Current(): Store
      requires HasStorage()
      reads mem, plain, tx
    {
      if tx != null then tx.committed else if mem != null then mem.View() else plain.store
    }

    /** The database loses no commit, and a storage without batches does not fail. */
    predicate Steady()
      requires HasStorage()
    {
      if tx != null then tx.lost == map[] else mem != null || plain.faults == map[]
    }

    method UpdateGauge(name: string, value: Float64) returns (err: Option<Error>)
      requires HasStorage()
      modifies mem, plain, tx
      ensures IsNeg(value) ==> err == Some(NegativeGauge(name))
      ensures IsNeg(value) && mem != null ==> unchanged(mem)
      ensures IsNeg(value) || mem != null ==> (plain != null ==> unchanged(plain))
      ensures IsNeg(value) || mem != null || plain != null ==> (tx != null ==> unchanged(tx))
      ensures mem != null ==> (err.Some? <==> IsNeg(value))
      ensures mem != null ==>
        mem.View() == if err.None? then Apply(old(mem.View()), GaugeOf(name, value)) else old(mem.View())
      ensures mem == null && plain != null && !(IsNeg(value)) ==> err == Lookup(plain.faults, old(plain.calls))
      ensures mem == null && plain != null ==>
        plain.store == if err.None? then Apply(old(plain.store), GaugeOf(name, value)) else old(plain.store)
      ensures mem == null && plain == null && tx.lost == map[] ==>
        tx.committed == if err.None? then Apply(old(tx.committed), GaugeOf(name, value)) else old(tx.committed)
      ensures mem == null && plain == null && !(IsNeg(value)) && tx.lost == map[] && tx.faults == map[] ==>
        err.None?
    {
      if IsNeg(value) { return Some(NegativeGauge(name)); }
      err := None;
      if mem != null {
        mem.UpdateGauge(name, value);
      } else if plain != null {
        err := plain.UpdateGauge(name, value);
      } else {
        ghost var before, m := tx.committed, GaugeOf(name, value);
        var runs;
        ghost var applied;
        err, runs, applied := ExecRetried(tx, GaugeOf(name, value));
        OnceOrNever(before, m);
      }
    }

    method UpdateCounter(name: string, value: Int64) returns (err: Option<Error>)
      requires HasStorage()
      modifies mem, plain, tx
      ensures value < 0 ==> err == Some(NegativeCounter(name))
      ensures value < 0 && mem != null ==> unchanged(mem)
      ensures value < 0 || mem != null ==> (plain != null ==> unchanged(plain))
      ensures value < 0 || mem != null || plain != null ==> (tx != null ==> unchanged(tx))
      ensures mem != null ==> (err.Some? <==> value < 0)
      ensures mem != null ==>
        mem.View() == if err.None? then Apply(old(mem.View()), CounterOf(name, value)) else old(mem.View())
      ensures mem == null && plain != null && !(value < 0) ==> err == Lookup(plain.faults, old(plain.calls))
      ensures mem == null && plain != null ==>
        plain.store == if err.None? then Apply(old(plain.store), CounterOf(name, value)) else old(plain.store)
      ensures mem == null && plain == null && tx.lost == map[] ==>
        tx.committed == if err.None? then Apply(old(tx.committed), CounterOf(name, value)) else old(tx.committed)
      ensures mem == null && plain == null && !(value < 0) && tx.lost == map[] && tx.faults == map[] ==>
        (err.None? <==> Fits64(Count(old(tx.committed).counters, name) + value))
    {
      if value < 0 { return Some(NegativeCounter(name)); }
      err := None;
      if mem != null {
        mem.UpdateCounter(name, value);
      } else if plain != null {
        err := plain.UpdateCounter(name, value);
      } else {
        ghost var before, m := tx.committed, CounterOf(name, value);
        var runs;
        ghost var applied;
        err, runs, applied := ExecRetried(tx, CounterOf(name, value));
        OnceOrNever(before, m);
      }
    }

    /**
     * All or nothing on validation; on success every path leaves the fold of the batch.  The
     * fallback keeps exactly the metrics before the first failed call, the transaction none.
     */
    method UpdateMetricsBatch(metrics: seq<Metric>) returns (err: Option<Error>)
      requires HasStorage()
      modifies mem, plain, tx
      ensures !Valid(metrics) ==> ReportsFirstNegative(metrics, err)
      ensures !Valid(metrics) && mem != null ==> unchanged(mem)
      ensures !Valid(metrics) && plain != null ==> unchanged(plain)
      ensures !Valid(metrics) && tx != null ==> unchanged(tx)
      ensures Valid(metrics) && tx == null && mem != null ==>
        err.None? && mem.View() == ApplyBatch(old(mem.View()), metrics)
      ensures Valid(metrics) && tx == null && mem == null ==>
        (err.None? <==> NoFault(plain.faults, old(plain.calls), Calls(metrics)))
      ensures Valid(metrics) && tx == null && mem == null && err.None? ==>
        plain.store == ApplyBatch(old(plain.store), metrics)
      ensures Valid(metrics) && tx == null && mem == null && err.Some? ==>
        StoppedThere(old(plain.store), plain.store, old(plain.calls), plain.faults, metrics, err.value)
      ensures tx != null && mem != null ==> unchanged(mem)
      ensures Valid(metrics) && tx != null && tx.lost == map[] ==>
        tx.committed == if err.None? then ApplyBatch(old(tx.committed), metrics) else old(tx.committed)
      ensures Valid(metrics) && tx != null && tx.lost == map[] && tx.faults == map[] ==>
        (err.None? <==> AddsFit(old(tx.committed).counters, ApplyBatch(EMPTY, metrics).counters))
    {
      for i := 0 to |metrics|
        invariant Valid(metrics[..i])
      {
        var m := metrics[i];
        if m.mtype == GAUGE {
          if m.value.Some? && IsNeg(m.value.value) { return Some(NegativeGauge(m.id)); }
        } else if m.mtype == COUNTER {
          if m.delta.Some? && m.delta.value < 0 { return Some(NegativeCounter(m.id)); }
        }
      }
      assert metrics[..|metrics|] == metrics;
      err := None;
      if mem != null && tx == null {
        mem.UpdateMetricsBatch(metrics);
      } else if tx == null {
        err := UpdateOneByOne(plain, metrics);
      } else {
        ghost var before := tx.committed;
        var runs;
        ghost var applied;
        err, runs, applied := WithTransaction(tx, metrics);
        assert ApplyTimes(before, metrics, 0) == before;
        assert ApplyTimes(before, metrics, 1) == ApplyBatch(before, metrics);
      }
    }
  }

  lemma OnceOrNever(st: Store, m: Metric)
    ensures ApplyTimes(st, [m], 0) == st && ApplyTimes(st, [m], 1) == Apply(st, m)
  {
    ApplyOne(st, m);
    assert ApplyTimes(st, [m], 1) == ApplyBatch(ApplyTimes(st, [m], 0), [m]);
  }

  lemma NextMetric(st: Store, ms: seq<Metric>, i: nat)
    requires i < |ms|
    ensures ApplyBatch(st, ms[..i + 1]) == Apply(ApplyBatch(st, ms[..i]), ms[i])
    ensures Calls(ms[..i + 1]) == Calls(ms[..i]) + (if Carries(ms[i]) then 1 else 0)
  {
    assert ms[..i + 1][..i] == ms[..i];
  }

  lemma StopsHere(before: Store, calls: nat, faults: map<nat, Error>, ms: seq<Metric>, i: nat)
    requires i < |ms| && Carries(ms[i]) && calls + Calls(ms[..i]) in faults && NoFault(faults, calls, Calls(ms[..i]))
    ensures StoppedThere(before, ApplyBatch(before, ms[..i]), calls, faults, ms, faults[calls + Calls(ms[..i])])
    ensures !NoFault(faults, calls, Calls(ms))
  {
    PrefixCalls(ms, i);
    assert FailsFirst(calls, faults, ms, i);
    assert Stopped(before, ApplyBatch(before, ms[..i]), calls, faults, ms, faults[calls + Calls(ms[..i])], i);
  }

  /** The fallback: one update call per metric, stopping at the first that fails. */
  method UpdateOneByOne(storage: PlainStorage, metrics: seq<Metric>) returns (err: Option<Error>)
    modifies storage
    ensures err.None? <==> NoFault(storage.faults, old(storage.calls), Calls(metrics))
    ensures err.None? ==>
      storage.store == ApplyBatch(old(storage.store), metrics) && storage.calls == old(storage.calls) + Calls(metrics)
    ensures err.Some? ==>
      StoppedThere(old(storage.store), storage.store, old(storage.calls), storage.faults, metrics, err.value)
  {
    hide ApplyBatch, Calls, StoppedThere;
    err := None;
    ghost var before, first := storage.store, storage.calls;
    assert metrics[..0] == [] && ApplyBatch(before, []) == before && Calls([]) == 0 by { NothingYet(before); }
    for i := 0 to |metrics|
      invariant err.None? && storage.store == ApplyBatch(before, metrics[..i])
      invariant storage.calls == first + Calls(metrics[..i]) && NoFault(storage.faults, first, Calls(metrics[..i]))
    {
      var m := metrics[i];
      NextMetric(before, metrics, i);
      if m.mtype == GAUGE {
        if m.value.Some? {
          err := storage.UpdateGauge(m.id, m.value.value);
        }
      } else if m.mtype == COUNTER {
        if m.delta.Some? {
          err := storage.UpdateCounter(m.id, m.delta.value);
        }
      }
      if err.Some? {
        StopsHere(before, first, storage.faults, metrics, i);
        return;
      }
    }
    assert metrics[..|metrics|] == metrics;
  }

  lemma NothingYet(st: Store)
    ensures ApplyBatch(st, []) == st && Calls([]) == 0
  {}

  /**
   * A failed batch leaves the store as it was exactly when the metrics before the failed call
   * repeat what the store holds; so it does when the very first call fails.
   */
  lemma FailureChangesNothingExactly(before: Store, after: Store, calls: nat, faults: map<nat, Error>, ms: seq<Metric>,
      err: Error, k: nat)
    requires FailsFirst(calls, faults, ms, k) && Stopped(before, after, calls, faults, ms, err, k)
    ensures after == before <==> RepeatsStore(before, ms[..k])
    ensures calls in faults ==> after == before
  {
    BatchChangesNothingExactly(before, ms[..k]);
    if calls in faults {
      NoCallsNoChange(before, ms[..k]);
    }
    hide RepeatsStore, ApplyBatch;
  }

  lemma {:induction false} NoCallsNoChange(st: Store, ms: seq<Metric>)
    requires Calls(ms) == 0
    ensures ApplyBatch(st, ms) == st
  {
    if ms != [] {
      NoCallsNoChange(st, ms[..|ms| - 1]);
    }
  }

  /** Two gauges, and a storage whose second call fails: the first stays, the second is missing. */
  method HalfApplied() returns (storage: PlainStorage, err: Option<Error>)
    ensures err.Some? && storage.store == Store(map["a" := Finite(1.0)], map[])
  {
    storage := new PlainStorage(map[1 := Failure(false, "storage")]);
    var ms := [GaugeOf("a", Finite(1.0)), GaugeOf("b", Finite(1.0))];
    assert Calls(ms[..0]) == 0 && ms[..1][..0] == ms[..0] && ms[..2][..1] == ms[..1] && ms[..2] == ms;
    assert Calls(ms[..1]) == 1 && Calls(ms) == 2;
    assert ApplyBatch(EMPTY, ms[..0]) == EMPTY;
    assert ApplyBatch(EMPTY, ms[..1]) == Apply(EMPTY, ms[0]);
    assert 1 in storage.faults;
    err := UpdateOneByOne(storage, ms);
  }
}
