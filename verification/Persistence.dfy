/**
 * The file behind the in-memory storage, and whole sessions of a server that saves only at shutdown:
 * its store interval is negative, or its ticker never fires.  Sessions has the servers that save in
 * between.  A file holds a list of records; writing it is atomic; JSON is faithful on finite numbers
 * and refuses all others.
 */
module Persistence {
  import opened Options
  import opened Metrics
  import opened Storage
  import opened Service

  /** What loadFromFile reads out of the records: later ones win, counters are set, not added. */
  function Decoded(records: seq<Metric>): Store
  {
    if records == [] then EMPTY else
    var before, m := Decoded(records[..|records| - 1]), records[|records| - 1];
    if IsGauge(m) then before.(gauges := before.gauges[m.id := m.value.value])
    else if IsCounter(m) then before.(counters := before.counters[m.id := m.delta.value])
    else before
  }

  predicate AllFinite(st: Store) { forall n | n in st.gauges :: IsFinite(st.gauges[n]) }

  /** The file system: `faults` says which operations fail, counting reads and writes together. */
  class Disk {
    var file: Option<seq<Metric>>
    var operations: nat
    const faults: map<nat, Error>

    constructor (faults: map<nat, Error>)
      ensures file == None && operations == 0 && this.faults == faults
    {
      file, operations := None, 0;
      this.faults := faults;
    }

    /** What a storage restored from this file holds. */
    function Content(): Store
      reads this
    {
      if file.None? then EMPTY else Decoded(file.value)
    }

    method WriteFile(records: seq<Metric>) returns (err: Option<Error>)
      modifies this
      ensures operations == old(operations) + 1 && err == Lookup(faults, old(operations))
      ensures file == if err.None? then Some(records) else old(file)
    {
      err := Lookup(faults, operations);
      operations := operations + 1;
      if err.None? { file := Some(records); }
    }

    /** A missing file is not an error. */
    method ReadFile() returns (err: Option<Error>, records: Option<seq<Metric>>)
      modifies this
      ensures operations == old(operations) + 1 && file == old(file)
      ensures err == Lookup(faults, old(operations))
      ensures err.None? ==> records == file
    {
      err := Lookup(faults, operations);
      operations := operations + 1;
      records := file;
    }
  }

  class Persister {
    const storage: MemStorage
    const disk: Disk

    constructor (storage: MemStorage, disk: Disk)
      ensures this.storage == storage && this.disk == disk
    {
      this.storage, this.disk := storage, disk;
    }

    /** Saves iff every gauge is finite and the write succeeds; otherwise the file stays as it was. */
    method SaveToFile() returns (err: Option<Error>)
      modifies disk
      ensures err.None? <==> AllFinite(storage.View()) && old(disk.operations) !in disk.faults
      ensures disk.Content() == if err.None? then storage.View() else old(disk.Content())
      ensures disk.operations == old(disk.operations) + (if AllFinite(storage.View()) then 1 else 0)
    {
      var gauges := storage.GetAllGauges();
      var counters := storage.GetAllCounters();
      var metrics := EncodeStore(gauges, counters);
      var finite := Marshals(gauges);
      if !finite {
        return Some(Failure(false, "unsupported value"));
      }
      err := disk.WriteFile(metrics);
    }

    /** Puts the file's content over the storage; an unreadable file changes nothing. */
    method LoadFromFile() returns (err: Option<Error>)
      modifies disk, storage
      ensures err == Lookup(disk.faults, old(disk.operations))
      ensures disk.operations == old(disk.operations) + 1 && disk.file == old(disk.file)
      ensures err.Some? ==> storage.View() == old(storage.View())
      ensures err.None? ==> storage.gauges == old(storage.gauges) + disk.Content().gauges
      ensures err.None? ==> storage.counters == old(storage.counters) + disk.Content().counters
    {
      var records;
      err, records := disk.ReadFile();
      if err.Some? { return; }
      if records.None? {
        assert storage.gauges + map[] == storage.gauges && storage.counters + map[] == storage.counters;
        return;
      }
      var gauges, counters := DecodeStore(records.value);
      storage.SetGauges(gauges);
      storage.SetCounters(counters);
    }
  }

  method Marshals(gauges: map<string, Float64>) returns (ok: bool)
    ensures ok <==> forall n | n in gauges :: IsFinite(gauges[n])
  {
    var rest := gauges.Keys;
    while rest != {}
      invariant rest <= gauges.Keys && forall n | n in gauges && n !in rest :: IsFinite(gauges[n])
    {
      var name :| name in rest;
      if !IsFinite(gauges[name]) { return false; }
      rest := rest - {name};
    }
    ok := true;
  }

  lemma DecodedMore(records: seq<Metric>, m: Metric)
    ensures IsGauge(m) ==>
      Decoded(records + [m]) == Decoded(records).(gauges := Decoded(records).gauges[m.id := m.value.value])
    ensures !IsGauge(m) && IsCounter(m) ==>
      Decoded(records + [m]) == Decoded(records).(counters := Decoded(records).counters[m.id := m.delta.value])
  {
    assert (records + [m])[..|records|] == records;
  }

  lemma KeepOne<V>(m: map<string, V>, rest: set<string>, name: string)
    requires name in rest && rest <= m.Keys
    ensures (m - rest)[name := m[name]] == m - (rest - {name})
  {}

  method EncodeGauges(gauges: map<string, Float64>) returns (records: seq<Metric>)
    ensures Decoded(records) == Store(gauges, map[]) && |records| == |gauges|
  {
    records := [];
    var rest := gauges.Keys;
    assert gauges - rest == map[];
    while rest != {}
      invariant rest <= gauges.Keys && |records| == |gauges| - |rest|
      invariant Decoded(records) == Store(gauges - rest, map[])
    {
      hide Decoded;
      var name :| name in rest;
      DecodedMore(records, GaugeOf(name, gauges[name]));
      KeepOne(gauges, rest, name);
      records := records + [GaugeOf(name, gauges[name])];
      rest := rest - {name};
    }
    assert gauges - {} == gauges;
  }

  method EncodeCounters(metrics: seq<Metric>, counters: map<string, Int64>) returns (records: seq<Metric>)
    requires Decoded(metrics).counters == map[]
    ensures Decoded(records) == Store(Decoded(metrics).gauges, counters) && |records| == |metrics| + |counters|
  {
    hide Decoded;
    records := metrics;
    var rest := counters.Keys;
    assert counters - rest == map[];
    while rest != {}
      invariant rest <= counters.Keys && |records| == |metrics| + |counters| - |rest|
      invariant Decoded(records) == Store(Decoded(metrics).gauges, counters - rest)
    {
      var name :| name in rest;
      DecodedMore(records, CounterOf(name, counters[name]));
      KeepOne(counters, rest, name);
      records := records + [CounterOf(name, counters[name])];
      rest := rest - {name};
    }
    assert counters - {} == counters;
  }

  /** One record per entry, in whatever order the maps are ranged over. */
  method EncodeStore(gauges: map<string, Float64>, counters: map<string, Int64>) returns (records: seq<Metric>)
    ensures Decoded(records) == Store(gauges, counters) && |records| == |gauges| + |counters|
  {
    records := EncodeGauges(gauges);
    records := EncodeCounters(records, counters);
  }

  method DecodeStore(records: seq<Metric>) returns (gauges: map<string, Float64>, counters: map<string, Int64>)
    ensures Store(gauges, counters) == Decoded(records)
  {
    gauges, counters := map[], map[];
    for i := 0 to |records|
      invariant Store(gauges, counters) == Decoded(records[..i])
    {
      var m := records[i];
      if m.mtype == GAUGE {
        if m.value.Some? { gauges := gauges[m.id := m.value.value]; }
      } else if m.mtype == COUNTER {
        if m.delta.Some? { counters := counters[m.id := m.delta.value]; }
      }
      assert records[..i + 1][..i] == records[..i];
    }
    assert records[..|records|] == records;
  }

  // ---- sessions ------------------------------------------------------------------------

  /** The file after a session whose one save is the final one, by whether restore and write succeed. */
  function AfterSession(content: Store, requests: seq<seq<Metric>>, restored: bool, written: bool): Store
  {
    var end := ServeAll(if restored then content else EMPTY, requests);
    if AllFinite(end) && written then end else content
  }

  /**
   * One life of a server with restore on that saves only at shutdown: restore into a new storage (a
   * failed restore is only logged), serve the requests, shut down cleanly with the final save.
   */
  method Session(disk: Disk, requests: seq<seq<Metric>>) returns (start: Store, end: Store)
    modifies disk
    ensures start == if old(disk.operations) in disk.faults then EMPTY else old(disk.Content())
    ensures end == ServeAll(start, requests)
    ensures disk.Content() == AfterSession(
        old(disk.Content()), requests, old(disk.operations) !in disk.faults, old(disk.operations) + 1 !in disk.faults)
    ensures disk.operations == old(disk.operations) + (if AllFinite(end) then 2 else 1)
  {
    var storage := new MemStorage();
    var persister := new Persister(storage, disk);
    var restored := persister.LoadFromFile();
    assert map[] + disk.Content().gauges == disk.Content().gauges;
    assert map[] + disk.Content().counters == disk.Content().counters;
    start := storage.View();
    var service := new MetricsService(storage, null, null);
    for i := 0 to |requests|
      invariant storage.View() == ServeAll(start, requests[..i])
      invariant disk.Content() == old(disk.Content()) && disk.operations == old(disk.operations) + 1
    {
      var err := service.UpdateMetricsBatch(requests[i]);
      assert requests[..i + 1][..i] == requests[..i];
    }
    assert requests[..|requests|] == requests;
    end := storage.View();
    var saved := persister.SaveToFile();
  }

  function Concat(sessions: seq<seq<seq<Metric>>>): seq<seq<Metric>>
  {
    if sessions == [] then [] else Concat(sessions[..|sessions| - 1]) + sessions[|sessions| - 1]
  }

  lemma {:induction false} ServeAllConcat(st: Store, a: seq<seq<Metric>>, b: seq<seq<Metric>>)
    ensures ServeAll(st, a + b) == ServeAll(ServeAll(st, a), b)
  {
    if b == [] {
      assert a + b == a;
    } else {
      assert (a + b)[..|a + b| - 1] == a + b[..|b| - 1];
      ServeAllConcat(st, a, b[..|b| - 1]);
    }
  }

  lemma ConcatNext(st: Store, sessions: seq<seq<seq<Metric>>>, i: nat)
    requires i < |sessions|
    ensures ServeAll(st, Concat(sessions[..i + 1])) == ServeAll(ServeAll(st, Concat(sessions[..i])), sessions[i])
  {
    assert sessions[..i + 1][..i] == sessions[..i];
    ServeAllConcat(st, Concat(sessions[..i]), sessions[i]);
  }

  /**
   * Any number of sessions on the same file, no file-system error, finite gauges at every
   * shutdown: each session starts with the store the last one ended with, so the file ends with
   * everything any session accepted.
   */
  method RunSessions(disk: Disk, sessions: seq<seq<seq<Metric>>>) returns (starts: seq<Store>, ends: seq<Store>)
    requires disk.faults == map[]
    requires forall i :: 0 <= i <= |sessions| ==> AllFinite(ServeAll(disk.Content(), Concat(sessions[..i])))
    modifies disk
    ensures |starts| == |ends| == |sessions|
    ensures forall i :: 0 <= i < |sessions| ==> ends[i] == ServeAll(starts[i], sessions[i])
    ensures sessions != [] ==> starts[0] == old(disk.Content())
    ensures forall i :: 0 <= i < |sessions| - 1 ==> starts[i + 1] == ends[i]
    ensures disk.Content() == ServeAll(old(disk.Content()), Concat(sessions))
  {
    starts, ends := [], [];
    ghost var first := disk.Content();
    for i := 0 to |sessions|
      invariant |starts| == |ends| == i
      invariant forall k :: 0 <= k < i ==> ends[k] == ServeAll(starts[k], sessions[k])
      invariant i > 0 ==> starts[0] == first && disk.Content() == ends[i - 1]
      invariant forall k :: 0 <= k < i - 1 ==> starts[k + 1] == ends[k]
      invariant disk.Content() == ServeAll(first, Concat(sessions[..i]))
    {
      hide ServeAll, AllFinite, Concat;
      var start, end := Session(disk, sessions[i]);
      ConcatNext(first, sessions, i);
      starts, ends := starts + [start], ends + [end];
    }
    assert sessions[..|sessions|] == sessions;
  }

  /** The sum of the deltas of all accepted requests. */
  function AllAccepted(requests: seq<seq<Metric>>, name: string): nat
  {
    if requests == [] then 0
    else AllAccepted(requests[..|requests| - 1], name) + Accepted(requests[|requests| - 1], name)
  }

  /** From no file, each counter is the sum of all deltas ever accepted, as long as that fits int64. */
  lemma {:induction false} CountersAreTotals(requests: seq<seq<Metric>>, name: string)
    ensures Count(ServeAll(EMPTY, requests).counters, name) == Wrap(AllAccepted(requests, name))
    ensures AllAccepted(requests, name) <= MAX64 ==>
      Count(ServeAll(EMPTY, requests).counters, name) == AllAccepted(requests, name)
  {
    if requests != [] {
      var front, last := requests[..|requests| - 1], requests[|requests| - 1];
      CountersAreTotals(front, name);
      ServeCounts(ServeAll(EMPTY, front), last, name);
      WrapAdd(AllAccepted(front, name), Accepted(last, name));
      hide Serve, Accepted;
    }
  }

  /**
   * When the one save is the final one: after a failed restore it overwrites the file, so every
   * counter is what this session accepted; the old content survives exactly when nothing can be
   * written, or the session happens to end with that very content.
   */
  lemma FailedRestoreForgets(content: Store, requests: seq<seq<Metric>>, written: bool, name: string)
    ensures var after := AfterSession(content, requests, false, written);
      && (after == content <==>
            !written || !AllFinite(ServeAll(EMPTY, requests)) || ServeAll(EMPTY, requests) == content)
      && (written && AllFinite(ServeAll(EMPTY, requests)) ==>
            Count(after.counters, name) == Wrap(AllAccepted(requests, name)))
  {
    CountersAreTotals(requests, name);
    hide ServeAll, AllAccepted, AllFinite, Wrap;
  }

  /** A counter saved by one session is gone after the next, idle one, whose restore failed. */
  method ContentLost() returns (disk: Disk, before: Store)
    ensures before == Store(map[], map["c" := 1]) && disk.Content() == EMPTY
  {
    disk := new Disk(map[2 := Failure(false, "read")]);
    var requests := [[CounterOf("c", 1)]];
    OneCount();
    var start, end := Session(disk, requests);
    before := disk.Content();
    start, end := Session(disk, []);
    assert ServeAll(EMPTY, []) == EMPTY;
  }

  lemma OneCount()
    ensures ServeAll(EMPTY, [[CounterOf("c", 1)]]) == Store(map[], map["c" := 1])
  {
    var ms := [CounterOf("c", 1)];
    assert ApplyBatch(EMPTY, ms[..0]) == EMPTY;
    assert ApplyBatch(EMPTY, ms) == Apply(EMPTY, ms[0]);
    assert ServeAll(EMPTY, [ms][..0]) == EMPTY;
    assert ServeAll(EMPTY, [ms]) == Serve(EMPTY, ms);
  }

  /** JSON has the finite numbers, the negative zero with them, and neither infinities nor NaN. */
  lemma SavableValues(name: string, v: Float64, counters: map<string, Int64>)
    ensures AllFinite(Store(map[name := v], counters)) <==>
      match v
      case Finite(_) => true
      case NegativeZero => true
      case PosInf => false
      case NegInf => false
      case NaN => false
  {
    var st := Store(map[name := v], counters);
    assert AllFinite(st) <==> IsFinite(st.gauges[name]);
  }

  /** A restore sets counters: of two records of one name the later stands. */
  lemma RestoreExample()
    ensures Decoded([
      Metric("Alloc", "gauge", None, Some(Finite(1.5))), Metric("PollCount", "counter", Some(5), None),
      Metric("PollCount", "counter", Some(7), None)]) == Store(map["Alloc" := Finite(1.5)], map["PollCount" := 7])
  {
    var ms := [Metric("Alloc", "gauge", None, Some(Finite(1.5))), Metric("PollCount", "counter", Some(5), None),
               Metric("PollCount", "counter", Some(7), None)];
    assert ms[..2][..1] == ms[..1] && ms[..1][..0] == [];
    assert Decoded(ms[..0]) == EMPTY && Decoded(ms[..1]) == Store(map["Alloc" := Finite(1.5)], map[]);
    assert "counter" != GAUGE;
    assert Decoded(ms[..2]) == Store(map["Alloc" := Finite(1.5)], map["PollCount" := 5]);
    assert Decoded(ms) == Store(map["Alloc" := Finite(1.5)], map["PollCount" := 7]);
  }

  /** The gauge a request leaves under a name. */
  function GaugeServed(st: Store, request: seq<Metric>, name: string): Option<Float64>
  {
    if Valid(request) then GaugeAfter(st, request, name) else Lookup(st.gauges, name)
  }

  /** The store can be saved after a request exactly when every gauge it then holds is finite. */
  lemma SavableExactly(st: Store, request: seq<Metric>)
    ensures AllFinite(Serve(st, request)) <==>
      forall n | GaugeServed(st, request, n).Some? :: IsFinite(GaugeServed(st, request, n).value)
  {
    var after := Serve(st, request);
    forall n ensures Lookup(after.gauges, n) == GaugeServed(st, request, n) {
      BatchMeaning(st, request, n);
    }
    hide Serve, GaugeServed;
    assert forall n | n in after.gauges :: GaugeServed(st, request, n) == Some(after.gauges[n]);
  }

  /** None of the requests is accepted and gives the gauge a value. */
  predicate LeavesGauge(requests: seq<seq<Metric>>, name: string)
  {
    forall i | 0 <= i < |requests| && Valid(requests[i]) :: Last(requests[i], name).None?
  }

  lemma {:induction false} GaugeStays(st: Store, requests: seq<seq<Metric>>, name: string)
    requires LeavesGauge(requests, name)
    ensures Lookup(ServeAll(st, requests).gauges, name) == Lookup(st.gauges, name)
  {
    if requests != [] {
      var front, last := requests[..|requests| - 1], requests[|requests| - 1];
      GaugeStays(st, front, name);
      BatchMeaning(ServeAll(st, front), last, name);
      hide ApplyBatch, Last;
    }
  }

  /**
   * A NaN gauge passes validation and blocks saving; so it stays, however many requests follow,
   * until one of them gives that gauge another value.
   */
  lemma NaNBlocksSaving(st: Store, name: string, later: seq<seq<Metric>>)
    ensures var blocked := Serve(st, [GaugeOf(name, NaN)]);
      && Valid([GaugeOf(name, NaN)]) && !AllFinite(blocked)
      && (LeavesGauge(later, name) ==> !AllFinite(ServeAll(blocked, later)))
  {
    var ms := [GaugeOf(name, NaN)];
    assert ms[..0] == [];
    assert ApplyBatch(st, ms) == Apply(st, ms[0]);
    var blocked := Serve(st, ms);
    assert Lookup(blocked.gauges, name) == Some(NaN);
    if LeavesGauge(later, name) {
      GaugeStays(blocked, later, name);
      assert name in ServeAll(blocked, later).gauges;
    }
    hide Serve, ServeAll, ApplyBatch, LeavesGauge;
  }
}
