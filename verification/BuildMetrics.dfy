/** The agent's report: runtime gauges, then system gauges, then the poll counter. */
module BuildMetrics {
  import opened Options
  import opened Metrics

  const POLL_COUNT := "PollCount"

  /** What a report does to a store, without reference to any order. */
  function Reported(
      st: Store, runtimeGauges: map<string, Float64>, systemGauges: map<string, Float64>, pollCount: Int64): Store
  {
    Store(st.gauges + runtimeGauges + systemGauges,
          st.counters[POLL_COUNT := Wrap(Count(st.counters, POLL_COUNT) + pollCount)])
  }

  /** The metrics are gauges, and the last value they give each name is the map's. */
  ghost predicate Overwrites(metrics: seq<Metric>, gauges: map<string, Float64>)
  {
    && (forall i :: 0 <= i < |metrics| ==> IsGauge(metrics[i]))
    && forall n :: Last(metrics, n) == Lookup(gauges, n)
  }

  lemma OverwritesOneMore(metrics: seq<Metric>, gauges: map<string, Float64>, name: string, value: Float64)
    requires Overwrites(metrics, gauges)
    ensures Overwrites(metrics + [GaugeOf(name, value)], gauges[name := value])
  {
    var longer := metrics + [GaugeOf(name, value)];
    assert longer[..|longer| - 1] == metrics;
    forall n ensures Last(longer, n) == Lookup(gauges[name := value], n) {
      assert Last(metrics, n) == Lookup(gauges, n);
    }
  }

  /** The metrics so far overwrite with everything except the entries still to come. */
  ghost predicate Appended(
      metrics: seq<Metric>, sofar: map<string, Float64>, gauges: map<string, Float64>, rest: set<string>)
  {
    rest <= gauges.Keys && Overwrites(metrics, sofar + (gauges - rest))
  }

  lemma AppendedAtFirst(metrics: seq<Metric>, sofar: map<string, Float64>, gauges: map<string, Float64>)
    requires Overwrites(metrics, sofar)
    ensures Appended(metrics, sofar, gauges, gauges.Keys)
  {
    assert sofar + (gauges - gauges.Keys) == sofar;
    hide Overwrites;
  }

  lemma AppendedNext(
      metrics: seq<Metric>, sofar: map<string, Float64>, gauges: map<string, Float64>, rest: set<string>, name: string)
    requires Appended(metrics, sofar, gauges, rest) && name in rest
    ensures name in gauges && Appended(metrics + [GaugeOf(name, gauges[name])], sofar, gauges, rest - {name})
  {
    OverwritesOneMore(metrics, sofar + (gauges - rest), name, gauges[name]);
    assert (sofar + (gauges - rest))[name := gauges[name]] == sofar + (gauges - (rest - {name}));
    hide Overwrites;
  }

  lemma AppendedAtLast(metrics: seq<Metric>, sofar: map<string, Float64>, gauges: map<string, Float64>)
    requires Appended(metrics, sofar, gauges, {})
    ensures Overwrites(metrics, sofar + gauges)
  {
    assert gauges - {} == gauges;
    hide Overwrites;
  }

  /** Appends one gauge per entry, in whatever order the map is ranged over. */
  method AppendGauges(metrics: seq<Metric>, ghost sofar: map<string, Float64>, gauges: map<string, Float64>)
    returns (result: seq<Metric>)
    requires Overwrites(metrics, sofar)
    ensures Overwrites(result, sofar + gauges)
    ensures |result| == |metrics| + |gauges|
  {
    hide Overwrites, Appended;
    result := metrics;
    var rest := gauges.Keys;
    AppendedAtFirst(metrics, sofar, gauges);
    while rest != {}
      invariant |result| == |metrics| + |gauges| - |rest| && Appended(result, sofar, gauges, rest)
    {
      var name :| name in rest;
      AppendedNext(result, sofar, gauges, rest, name);
      result := result + [GaugeOf(name, gauges[name])];
      rest := rest - {name};
    }
    AppendedAtLast(result, sofar, gauges);
  }

  lemma GaugesEffectAt(st: Store, gauges: seq<Metric>, values: map<string, Float64>, n: string)
    requires Overwrites(gauges, values)
    ensures Lookup(ApplyBatch(st, gauges).gauges, n) == Lookup(st.gauges + values, n)
    ensures Lookup(ApplyBatch(st, gauges).counters, n) == Lookup(st.counters, n)
  {
    BatchMeaning(st, gauges, n);
    NoAddsNoSum(gauges, n);
    assert !Adds(gauges, n);
    hide ApplyBatch, Last, Sum;
  }

  lemma GaugesEffect(st: Store, gauges: seq<Metric>, values: map<string, Float64>)
    requires Overwrites(gauges, values)
    ensures ApplyBatch(st, gauges) == Store(st.gauges + values, st.counters)
  {
    hide Overwrites, ApplyBatch, Lookup;
    var target := Store(st.gauges + values, st.counters);
    forall n ensures Lookup(ApplyBatch(st, gauges).gauges, n) == Lookup(target.gauges, n)
             ensures Lookup(ApplyBatch(st, gauges).counters, n) == Lookup(target.counters, n) {
      GaugesEffectAt(st, gauges, values, n);
    }
    SameStore(ApplyBatch(st, gauges), target);
  }

  lemma ReportEffect(
      st: Store, gauges: seq<Metric>, runtimeGauges: map<string, Float64>, systemGauges: map<string, Float64>,
      pollCount: Int64)
    requires Overwrites(gauges, runtimeGauges + systemGauges)
    ensures ApplyBatch(st, gauges + [CounterOf(POLL_COUNT, pollCount)]) ==
      Reported(st, runtimeGauges, systemGauges, pollCount)
  {
    hide Overwrites;
    GaugesEffect(st, gauges, runtimeGauges + systemGauges);
    assert (gauges + [CounterOf(POLL_COUNT, pollCount)])[..|gauges|] == gauges;
    assert st.gauges + (runtimeGauges + systemGauges) == st.gauges + runtimeGauges + systemGauges;
  }

  /**
   * Whatever orders the two ranges take, the report has the same effect on every store: system
   * values win over runtime values, runtime values over the store, and PollCount grows by pollCount.
   */
  method Build(runtimeGauges: map<string, Float64>, systemGauges: map<string, Float64>, pollCount: Int64)
    returns (metrics: seq<Metric>)
    ensures forall st :: ApplyBatch(st, metrics) == Reported(st, runtimeGauges, systemGauges, pollCount)
    ensures |metrics| == |runtimeGauges| + |systemGauges| + 1
    ensures metrics[|metrics| - 1] == Metric("PollCount", "counter", Some(pollCount), None)
    ensures forall i :: 0 <= i < |metrics| - 1 ==> metrics[i].mtype == "gauge" && metrics[i].value.Some?
  {
    var runtime := AppendGauges([], map[], runtimeGauges);
    assert map[] + runtimeGauges == runtimeGauges;
    var gauges := AppendGauges(runtime, runtimeGauges, systemGauges);
    metrics := gauges + [CounterOf(POLL_COUNT, pollCount)];
    hide *;
    forall st ensures ApplyBatch(st, metrics) == Reported(st, runtimeGauges, systemGauges, pollCount) {
      ReportEffect(st, gauges, runtimeGauges, systemGauges, pollCount);
    }
  }
}
