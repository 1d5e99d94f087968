/**
 * The in-memory storage.  Every method is one critical section of the mutex, so it is one atomic
 * action; View is the store it guards.
 */
module Storage {
  import opened Options
  import opened Metrics

  class MemStorage {
    var gauges: map<string, Float64>
    var counters: map<string, Int64>

    function View(): Store
      reads this
    {
      Store(gauges, counters)
    }

    constructor ()
      ensures View() == EMPTY
    {
      gauges := map[];
      counters := map[];
    }

    method UpdateGauge(name: string, value: Float64)
      modifies this
      ensures View() == Apply(old(View()), GaugeOf(name, value))
    {
      gauges := gauges[name := value];
    }

    method UpdateCounter(name: string, value: Int64)
      modifies this
      ensures View() == Apply(old(View()), CounterOf(name, value))
    {
      counters := counters[name := Wrap(Count(counters, name) + value)];
    }

    /** Copies the map entry by entry, in whatever order the range takes. */
    method GetAllGauges() returns (result: map<string, Float64>)
      ensures result == gauges
    {
      result := CopyEntries(map[], gauges);
    }

    method GetAllCounters() returns (result: map<string, Int64>)
      ensures result == counters
    {
      result := CopyEntries(map[], counters);
    }

    method SetGauges(updates: map<string, Float64>)
      modifies this
      ensures View() == Store(old(gauges) + updates, old(counters))
    {
      gauges := CopyEntries(gauges, updates);
    }

    method SetCounters(updates: map<string, Int64>)
      modifies this
      ensures View() == Store(old(gauges), old(counters) + updates)
    {
      counters := CopyEntries(counters, updates);
    }

    /** The batch under one lock. */
    method UpdateMetricsBatch(metrics: seq<Metric>)
      modifies this
      ensures View() == ApplyBatch(old(View()), metrics)
    {
      for i := 0 to |metrics|
        invariant View() == ApplyBatch(old(View()), metrics[..i])
      {
        var m := metrics[i];
        if m.mtype == GAUGE {
          if m.value.Some? {
            gauges := gauges[m.id := m.value.value];
          }
        } else if m.mtype == COUNTER {
          if m.delta.Some? {
            counters := counters[m.id := Wrap(Count(counters, m.id) + m.delta.value)];
          }
        }
        assert metrics[..i + 1][..i] == metrics[..i];
      }
      assert metrics[..|metrics|] == metrics;
    }
  }

  /** A range over `source` that writes every entry into `target`; the order is Go's choice. */
  method CopyEntries<V>(target: map<string, V>, source: map<string, V>) returns (result: map<string, V>)
    ensures result == target + source
  {
    result := target;
    var rest := source.Keys;
    while rest != {}
      invariant rest <= source.Keys
      invariant result == target + (source - rest)
    {
      var name :| name in rest;
      result := result[name := source[name]];
      rest := rest - {name};
    }
    assert source - {} == source;
  }

  /**
   * A storage without batch support, whose update calls may fail: `faults` says which ones do,
   * counting every call.  A failed call changes nothing.
   */
  class PlainStorage {
    var store: Store
    var calls: nat
    const faults: map<nat, Error>

    constructor (faults: map<nat, Error>)
      ensures store == EMPTY && calls == 0 && this.faults == faults
    {
      store := EMPTY;
      calls := 0;
      this.faults := faults;
    }

    method UpdateGauge(name: string, value: Float64) returns (err: Option<Error>)
      modifies this
      ensures calls == old(calls) + 1 && err == Lookup(faults, old(calls))
      ensures store == if err.None? then Apply(old(store), GaugeOf(name, value)) else old(store)
    {
      err := Lookup(faults, calls);
      calls := calls + 1;
      if err.None? {
        store := store.(gauges := store.gauges[name := value]);
      }
    }

    method UpdateCounter(name: string, value: Int64) returns (err: Option<Error>)
      modifies this
      ensures calls == old(calls) + 1 && err == Lookup(faults, old(calls))
      ensures store == if err.None? then Apply(old(store), CounterOf(name, value)) else old(store)
    {
      err := Lookup(faults, calls);
      calls := calls + 1;
      if err.None? {
        store := store.(counters := store.counters[name := Wrap(Count(store.counters, name) + value)]);
      }
    }
  }
}
