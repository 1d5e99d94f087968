/**
 * Delivery of a batch from the agent to the server, over HTTP or gRPC, through a network that may
 * lose requests and replies.  A request that arrives is applied within its attempt.
 */
module Delivery {
  import opened Options
  import opened Metrics
  import opened Retry
  import opened Database
  import opened Service

  // ---- the two wire forms --------------------------------------------------------------

  datatype Kind = GaugeKind | CounterKind | OtherKind

  /** pb.Metric: plain fields, zero when unset. */
  datatype ProtoMetric = ProtoMetric(id: string, kind: Kind, delta: Int64, value: Float64)

  /** A request body.  JSON is taken as faithful on what it can encode: finite numbers. */
  datatype Wire = Json(metrics: seq<Metric>) | Proto(protos: seq<ProtoMetric>)

  predicate JsonEncodes(m: Metric) { m.value.Some? ==> IsFinite(m.value.value) }

  const MARSHAL_ERROR := Failure(false, "unsupported value")

  method EncodeJson(metrics: seq<Metric>) returns (wire: Option<Wire>)
    ensures wire == if AllEncode(metrics) then Some(Json(metrics)) else None
  {
    for i := 0 to |metrics|
      invariant forall k :: 0 <= k < i ==> JsonEncodes(metrics[k])
    {
      if metrics[i].value.Some? && !IsFinite(metrics[i].value.value) { return None; }
    }
    wire := Some(Json(metrics));
  }

  predicate Typed(m: Metric) { m.mtype == GAUGE || m.mtype == COUNTER }

  const ZERO := Finite(0.0)

  function ToProto(m: Metric): ProtoMetric
  {
    if m.mtype == GAUGE then ProtoMetric(m.id, GaugeKind, 0, if m.value.Some? then m.value.value else ZERO)
    else ProtoMetric(m.id, CounterKind, if m.delta.Some? then m.delta.value else 0, ZERO)
  }

  function ProtoWire(ms: seq<Metric>): Wire
  {
    Proto(seq(|ms|, i requires 0 <= i < |ms| => ToProto(ms[i])))
  }

  predicate AllTyped(ms: seq<Metric>) { forall i :: 0 <= i < |ms| ==> Typed(ms[i]) }

  predicate AllEncode(ms: seq<Metric>) { forall i :: 0 <= i < |ms| ==> JsonEncodes(ms[i]) }

  /** The request body of a batch, None when the agent cannot encode it. */
  function Encoded(ms: seq<Metric>, useGRPC: bool): Option<Wire>
  {
    if useGRPC then (if AllTyped(ms) then Some(ProtoWire(ms)) else None)
    else if AllEncode(ms) then Some(Json(ms)) else None
  }

  ghost predicate FirstUntyped(ms: seq<Metric>, mtype: string)
  {
    exists i :: 0 <= i < |ms| && !Typed(ms[i]) && ms[i].mtype == mtype && forall k :: 0 <= k < i ==> Typed(ms[k])
  }

  /** sendMetricsBatchGRPC's conversion: the first unknown type refuses the whole batch. */
  method EncodeProto(metrics: seq<Metric>) returns (wire: Option<Wire>, unknown: string)
    ensures wire.None? ==> FirstUntyped(metrics, unknown)
    ensures wire == if AllTyped(metrics) then Some(ProtoWire(metrics)) else None
  {
    var protos: seq<ProtoMetric> := [];
    unknown := "";
    for i := 0 to |metrics|
      invariant forall k :: 0 <= k < i ==> Typed(metrics[k])
      invariant protos == seq(i, k requires 0 <= k < i => ToProto(metrics[k]))
    {
      var m := metrics[i];
      if m.mtype == GAUGE {
        var value := ZERO;
        if m.value.Some? { value := m.value.value; }
        protos := protos + [ProtoMetric(m.id, GaugeKind, 0, value)];
      } else if m.mtype == COUNTER {
        var delta: Int64 := 0;
        if m.delta.Some? { delta := m.delta.value; }
        protos := protos + [ProtoMetric(m.id, CounterKind, delta, ZERO)];
      } else {
        return None, m.mtype;
      }
    }
    wire := Some(Proto(protos));
  }

  function FromProto(p: ProtoMetric): Metric
  {
    if p.kind.GaugeKind? then GaugeOf(p.id, p.value) else CounterOf(p.id, p.delta)
  }

  /** What the server reads out of a request, None when it refuses it as malformed. */
  function Received(w: Wire): Option<seq<Metric>>
  {
    match w
    case Json(ms) => Some(ms)
    case Proto(ps) =>
      if exists i :: 0 <= i < |ps| && ps[i].kind.OtherKind? then None
      else Some(seq(|ps|, i requires 0 <= i < |ps| => FromProto(ps[i])))
  }

  // ---- the server ----------------------------------------------------------------------

  /** The request is well formed, not empty, and without a negative value. */
  predicate Acceptable(w: Wire)
  {
    Received(w).Some? && Received(w).value != [] && Valid(Received(w).value)
  }

  /** Whether the server accepts the request, and the store it leaves. */
  function Effect(st: Store, w: Wire): (bool, Store)
  {
    if Acceptable(w) then (true, ApplyBatch(st, Received(w).value)) else (false, st)
  }

  /** MetricsServer.UpdateMetrics reads the metrics out of a request, None when one is malformed. */
  method Receive(protos: seq<ProtoMetric>) returns (metrics: Option<seq<Metric>>)
    ensures metrics == Received(Proto(protos))
  {
    var sofar: seq<Metric> := [];
    for i := 0 to |protos|
      invariant forall k :: 0 <= k < i ==> !protos[k].kind.OtherKind?
      invariant sofar == seq(i, k requires 0 <= k < i => FromProto(protos[k]))
    {
      match protos[i].kind
      case GaugeKind => sofar := sofar + [GaugeOf(protos[i].id, protos[i].value)];
      case CounterKind => sofar := sofar + [CounterOf(protos[i].id, protos[i].delta)];
      case OtherKind => return None;
    }
    metrics := Some(sofar);
  }

  /** No driver call fails and no commit is lost. */
  predicate Faultless(service: MetricsService)
  {
    service.tx != null ==> service.tx.lost == map[] && service.tx.faults == map[]
  }

  /**
   * The request is acceptable, and the storage takes it: the database when no row leaves BIGINT, a
   * storage without batches when none of its calls fails, the in-memory one always.
   */
  predicate Accepts(service: MetricsService, w: Wire)
    requires service.HasStorage()
    reads service.plain, service.tx
  {
    && Acceptable(w)
    && (if service.tx != null then AddsFit(service.tx.committed.counters, ApplyBatch(EMPTY, Received(w).value).counters)
        else service.mem != null || NoFault(service.plain.faults, service.plain.calls, Calls(Received(w).value)))
  }

  /** The HTTP handler and MetricsServer.UpdateMetrics, on any storage. */
  method Handle(service: MetricsService, w: Wire) returns (ok: bool)
    requires service.HasStorage()
    modifies service.mem, service.plain, service.tx
    ensures ok ==> Acceptable(w)
    ensures !Acceptable(w) ==> service.Current() == old(service.Current())
    ensures service.Steady() ==>
      service.Current() == if ok then Effect(old(service.Current()), w).1 else old(service.Current())
    ensures Faultless(service) ==> ok == old(Accepts(service, w))
  {
    var metrics;
    match w {
      case Json(ms) => metrics := Some(ms);
      case Proto(protos) => metrics := Receive(protos);
    }
    if metrics.None? || |metrics.value| == 0 { return false; }
    var err := service.UpdateMetricsBatch(metrics.value);
    ok := err.None?;
  }

  // ---- the transports have one effect ---------------------------------------------------

  /** A metric that carries its field means the same after the trip through pb.Metric. */
  lemma TripKeepsMetric(st: Store, m: Metric)
    requires Carries(m)
    ensures Apply(st, FromProto(ToProto(m))) == Apply(st, m)
    ensures IsNegative(FromProto(ToProto(m))) == IsNegative(m)
  {}

  lemma {:induction false} TripKeepsBatch(st: Store, ms: seq<Metric>, trip: seq<Metric>)
    requires |trip| == |ms|
    requires forall i :: 0 <= i < |ms| ==> Carries(ms[i]) && trip[i] == FromProto(ToProto(ms[i]))
    ensures ApplyBatch(st, trip) == ApplyBatch(st, ms)
  {
    if ms != [] {
      TripKeepsBatch(st, ms[..|ms| - 1], trip[..|ms| - 1]);
      TripKeepsMetric(ApplyBatch(st, ms[..|ms| - 1]), ms[|ms| - 1]);
    }
  }

  lemma CarriedTrip(st: Store, ms: seq<Metric>)
    requires forall i :: 0 <= i < |ms| ==> Carries(ms[i])
    ensures Effect(st, Json(ms)) == Effect(st, ProtoWire(ms))
  {
    var trip := Received(ProtoWire(ms)).value;
    TripKeepsBatch(st, ms, trip);
    forall i | 0 <= i < |ms| ensures IsNegative(trip[i]) == IsNegative(ms[i]) {
      TripKeepsMetric(st, ms[i]);
    }
    assert Valid(trip) <==> Valid(ms) by {
      assert forall i :: 0 <= i < |ms| ==> IsNegative(trip[i]) == IsNegative(ms[i]);
    }
  }

  /** What sending a batch once does to the server's store, and whether the agent reports success. */
  function Sending(st: Store, ms: seq<Metric>, useGRPC: bool): (bool, Store)
  {
    if ms == [] then (true, st)
    else if Encoded(ms, useGRPC).None? then (false, st)
    else Effect(st, Encoded(ms, useGRPC).value)
  }

  /** Finite metrics that carry their fields do the same to any store over HTTP and over gRPC. */
  lemma TransportsAgree(st: Store, ms: seq<Metric>)
    requires forall i :: 0 <= i < |ms| ==> Carries(ms[i]) && JsonEncodes(ms[i])
    ensures Sending(st, ms, false) == Sending(st, ms, true)
  {
    CarriedTrip(st, ms);
  }

  /** A missing field tells them apart: JSON skips the metric, gRPC sends a zero that is stored. */
  lemma MissingFieldDiffers(name: string)
    ensures var ms := [Metric(name, COUNTER, None, None)];
      && Effect(EMPTY, Json(ms)) == (true, EMPTY)
      && Effect(EMPTY, ProtoWire(ms)) == (true, Store(map[], map[name := 0]))
  {
    var ms := [Metric(name, COUNTER, None, None)];
    var trip := Received(ProtoWire(ms)).value;
    assert trip == [CounterOf(name, 0)];
    assert ApplyBatch(EMPTY, ms[..0]) == EMPTY && ApplyBatch(EMPTY, trip[..0]) == EMPTY;
    assert ApplyBatch(EMPTY, ms) == Apply(EMPTY, ms[0]);
    assert ApplyBatch(EMPTY, trip) == Apply(EMPTY, trip[0]);
  }

  // ---- the agent -----------------------------------------------------------------------

  datatype Fate = RequestLost | ReplyLost | Answered

  /** How many of the first n attempts reached the server. */
  function Arrivals(network: nat -> Fate, n: nat): nat
  {
    if n == 0 then 0 else Arrivals(network, n - 1) + (if network(n - 1).RequestLost? then 0 else 1)
  }

  function EffectTimes(st: Store, w: Wire, k: nat): Store
  {
    if k == 0 then st else Effect(EffectTimes(st, w, k - 1), w).1
  }

  method Encode(metrics: seq<Metric>, useGRPC: bool) returns (wire: Option<Wire>, err: Option<Error>)
    ensures wire == Encoded(metrics, useGRPC) && (err.Some? <==> wire.None?)
  {
    err := None;
    if useGRPC {
      var unknown;
      wire, unknown := EncodeProto(metrics);
      if wire.None? { err := Some(UnknownType(unknown)); }
    } else {
      wire := EncodeJson(metrics);
      if wire.None? { err := Some(MARSHAL_ERROR); }
    }
  }

  /** One attempt: the request may be lost, refused, or its reply lost. */
  method Attempt(service: MetricsService, w: Wire, fate: Fate) returns (err: Option<Error>, ghost applied: bool)
    requires service.HasStorage()
    modifies service.mem, service.plain, service.tx
    ensures applied ==> !fate.RequestLost? && Acceptable(w)
    ensures err.None? <==> applied && fate.Answered?
    ensures service.Steady() ==>
      service.Current() == if applied then Effect(old(service.Current()), w).1 else old(service.Current())
    ensures Faultless(service) ==> applied == (!fate.RequestLost? && old(Accepts(service, w)))
    ensures service.tx == null && service.mem != null ==> applied == (!fate.RequestLost? && Acceptable(w))
    // A faultless server that did not take the request has not changed its mind.
    ensures Faultless(service) && !applied && (service.tx != null || old(Accepts(service, w))) ==>
      Accepts(service, w) == old(Accepts(service, w))
  {
    applied := false;
    if fate.RequestLost? { return Some(Failure(true, "failed to send metrics batch")), false; }
    var ok := Handle(service, w);
    applied := ok;
    if !ok {
      err := Some(Failure(true, "unexpected status code"));
    } else if fate.ReplyLost? {
      err := Some(Failure(true, "failed to send metrics batch"));
    } else {
      err := None;
    }
  }

  /** What is known after `runs` attempts; a sure server applies whatever it finds acceptable. */
  predicate Tally(w: Wire, network: nat -> Fate, runs: nat, applied: nat, sure: bool)
  {
    && applied <= Arrivals(network, runs)
    && (sure ==> applied == if Acceptable(w) then Arrivals(network, runs) else 0)
  }

  predicate AnsweredAt(network: nat -> Fate, k: nat) { network(k).Answered? }

  /** None of the first n attempts was answered. */
  predicate NoneAnswered(network: nat -> Fate, n: nat)
  {
    forall k: nat | k < n :: !network(k).Answered?
  }

  /**
   * The server of a request: `sure` applies whatever it finds acceptable, `faultless` has no fault
   * and `takes` this request at first, `database` is one.
   */
  datatype Server = Server(sure: bool, faultless: bool, takes: bool, database: bool)

  /** How a retried request ends after `runs` attempts, with nil or with an error. */
  ghost predicate Ends(server: Server, w: Wire, network: nat -> Fate, runs: nat, applied: nat, success: bool)
  {
    && 1 <= runs <= 3 && (success || runs == 3) && Tally(w, network, runs, applied, server.sure)
    && (success ==> AnsweredAt(network, runs - 1) && applied >= 1)
    && (server.sure ==> (success <==> Acceptable(w) && AnsweredAt(network, runs - 1)))
    && (server.sure && Acceptable(w) ==> NoneAnswered(network, runs - 1))
    && (server.faultless && server.takes ==> (applied >= 1 <==> Arrivals(network, runs) >= 1))
    && (server.faultless && server.takes && AnsweredAt(network, 0) ==> success && runs == 1 && applied == 1)
    && (server.faultless && server.database && !server.takes ==> !success && applied == 0)
  }

  /** Before another attempt; `takes` says whether the server takes the request now. */
  ghost predicate GoesOn(server: Server, w: Wire, network: nat -> Fate, runs: nat, applied: nat, takes: bool)
  {
    && Tally(w, network, runs, applied, server.sure)
    && (server.sure && Acceptable(w) ==> NoneAnswered(network, runs))
    && (server.faultless && server.takes ==>
          && (applied >= 1 <==> Arrivals(network, runs) >= 1) && (applied == 0 ==> takes)
          && (runs > 0 ==> !AnsweredAt(network, 0)))
    && (server.faultless && server.database && !server.takes ==> applied == 0 && !takes)
  }

  lemma AttemptMade(
      server: Server, w: Wire, network: nat -> Fate, runs: nat, applied: nat, takes: bool, ok: bool, next: bool)
    requires GoesOn(server, w, network, runs, applied, takes) && (ok ==> !network(runs).RequestLost?)
    requires server.sure ==> ok == (!network(runs).RequestLost? && Acceptable(w))
    requires server.faultless ==> ok == (!network(runs).RequestLost? && takes)
    requires server.faultless && !ok && (server.database || takes) ==> next == takes
    ensures var success := ok && network(runs).Answered?;
      var total := if ok then applied + 1 else applied;
      && (runs <= 2 && (success || runs == 2) ==> Ends(server, w, network, runs + 1, total, success))
      && (!success ==> GoesOn(server, w, network, runs + 1, total, next))
  {
    hide Acceptable;
  }

  lemma {:induction false} ArrivalsAtMost(network: nat -> Fate, n: nat)
    ensures Arrivals(network, n) <= n
  {
    if n > 0 {
      ArrivalsAtMost(network, n - 1);
    }
  }

  ghost function ServerOf(service: MetricsService, w: Wire): Server
    requires service.HasStorage()
    reads service.plain, service.tx
  {
    Server(service.tx == null && service.mem != null, Faultless(service), Accepts(service, w), service.tx != null)
  }

  /**
   * The retried request: at most three attempts, and the store ends with its effect applied once
   * for every attempt the server accepted, which for the in-memory storage is every attempt that
   * arrived; no attempt follows one that was accepted and answered.  What a faultless server takes
   * is applied when it arrives, and a database refuses the rest.
   */
  method SendWithRetries(service: MetricsService, w: Wire, network: nat -> Fate)
    returns (err: Option<Error>, runs: nat, ghost applied: nat)
    requires service.HasStorage()
    modifies service.mem, service.plain, service.tx
    ensures service.Steady() ==> service.Current() == EffectTimes(old(service.Current()), w, applied)
    ensures Ends(old(ServerOf(service, w)), w, network, runs, applied, err.None?)
  {
    hide Effect, Acceptable, GoesOn, Ends, Accepts, Faultless;
    runs, applied := 0, 0;
    err := None;
    ghost var before, server := service.Current(), ServerOf(service, w);
    assert EffectTimes(before, w, 0) == before;
    AtFirst(server, w, network);
    while true
      invariant runs <= 2 && GoesOn(server, w, network, runs, applied, Accepts(service, w))
      invariant service.Steady() ==> service.Current() == EffectTimes(before, w, applied)
      decreases 3 - runs
    {
      ghost var ok, takes := false, Accepts(service, w);
      err, ok := Attempt(service, w, network(runs));
      AttemptMade(server, w, network, runs, applied, takes, ok, Accepts(service, w));
      applied := if ok then applied + 1 else applied;
      runs := runs + 1;
      if !DoGoesOn(runs, err) { break; }
    }
  }

  lemma AtFirst(server: Server, w: Wire, network: nat -> Fate)
    ensures GoesOn(server, w, network, 0, 0, server.takes)
  {}

  /** SendMetricsBatch from a lone sender: nothing to send, nothing that can be sent, or the retried request. */
  method SendMetricsBatch(service: MetricsService, useGRPC: bool, metrics: seq<Metric>, network: nat -> Fate)
    returns (err: Option<Error>, runs: nat, ghost applied: nat)
    requires service.HasStorage()
    modifies service.mem, service.plain, service.tx
    ensures metrics == [] ==> err.None? && runs == 0
    ensures applied <= Arrivals(network, runs) <= runs <= 3
    ensures metrics != [] ==> (runs > 0 <==> Encoded(metrics, useGRPC).Some?)
    ensures runs == 0 ==> service.Current() == old(service.Current())
    ensures runs == 0 && metrics != [] ==> err.Some?
    ensures runs > 0 && service.Steady() ==>
      service.Current() == EffectTimes(old(service.Current()), Encoded(metrics, useGRPC).value, applied)
    ensures runs > 0 && err.None? ==> network(runs - 1).Answered? && applied >= 1
    ensures runs > 0 && err.Some? ==> runs == 3
    ensures runs > 0 && service.tx == null && service.mem != null ==>
      var accepted := Acceptable(Encoded(metrics, useGRPC).value);
      && applied == (if accepted then Arrivals(network, runs) else 0)
      && (err.None? <==> accepted && network(runs - 1).Answered?)
      && (accepted ==> forall k: nat | k < runs - 1 :: !network(k).Answered?)
    ensures runs > 0 && Faultless(service) && old(Accepts(service, Encoded(metrics, useGRPC).value)) ==>
      && (applied >= 1 <==> Arrivals(network, runs) >= 1)
      && (network(0).Answered? ==> err.None? && runs == 1 && applied == 1)
    ensures runs > 0 && Faultless(service) && service.tx != null ==>
      old(Accepts(service, Encoded(metrics, useGRPC).value)) || (err.Some? && applied == 0)
  {
    hide Accepts;
    hide Encoded, Acceptable, EffectTimes;
    if |metrics| == 0 { return None, 0, 0; }
    var wire;
    wire, err := Encode(metrics, useGRPC);
    if wire.None? { return err, 0, 0; }
    err, runs, applied := SendWithRetries(service, wire.value, network);
    ArrivalsAtMost(network, runs);
  }

  /** On the in-memory storage, over a network that loses nothing, a batch is sent once. */
  method SendOverGoodNetwork(service: MetricsService, useGRPC: bool, metrics: seq<Metric>) returns (err: Option<Error>)
    requires service.mem != null && service.tx == null
    modifies service.mem, service.plain
    ensures (err.None?, service.mem.View()) == Sending(old(service.mem.View()), metrics, useGRPC)
  {
    var runs;
    ghost var applied;
    ghost var before := service.mem.View();
    var network: nat -> Fate := _ => Answered;
    err, runs, applied := SendMetricsBatch(service, useGRPC, metrics, network);
    hide Encoded, Acceptable;
    if runs > 0 {
      var w := Encoded(metrics, useGRPC).value;
      assert runs > 1 ==> network(0).Answered?;
      assert Arrivals(network, 0) == 0 && Arrivals(network, 1) == 1;
      assert EffectTimes(before, w, 0) == before;
      assert EffectTimes(before, w, 1) == Effect(before, w).1;
    }
  }

  lemma {:induction false} EffectTimesIsRepeat(st: Store, ms: seq<Metric>, w: Wire, k: nat)
    requires ms != [] && Valid(ms)
    requires w == Json(ms) || (w == ProtoWire(ms) && forall i :: 0 <= i < |ms| ==> Carries(ms[i]))
    ensures EffectTimes(st, w, k) == ApplyTimes(st, ms, k)
  {
    if k > 0 {
      EffectTimesIsRepeat(st, ms, w, k - 1);
      if w != Json(ms) {
        CarriedTrip(ApplyTimes(st, ms, k - 1), ms);
      }
    }
  }

  lemma ArrivalsBounds(network: nat -> Fate, n: nat)
    ensures Arrivals(network, n) <= n
    ensures n > 0 && network(n - 1).Answered? ==> Arrivals(network, n) >= 1
  {
    ArrivalsAtMost(network, n);
  }

  /** A valid batch delivered k >= 1 times: gauges as after once, counters grown by k batch sums. */
  lemma DeliveredTimes(st: Store, ms: seq<Metric>, useGRPC: bool, k: nat, name: string)
    requires ms != [] && Valid(ms) && Encoded(ms, useGRPC).Some? && k >= 1
    requires useGRPC ==> forall i :: 0 <= i < |ms| ==> Carries(ms[i])
    ensures var after := EffectTimes(st, Encoded(ms, useGRPC).value, k);
      && Lookup(after.gauges, name) == GaugeAfter(st, ms, name)
      && (Adds(ms, name) ==> Lookup(after.counters, name) == Some(Wrap(Count(st.counters, name) + k * Sum(ms, name))))
  {
    EffectTimesIsRepeat(st, ms, Encoded(ms, useGRPC).value, k);
    RepeatMeaning(st, ms, k, name);
    hide *;
  }

  /**
   * Delivery is at least once and at most three times: after SendMetricsBatch ran `runs` attempts
   * on a valid batch, gauges are as after one application (if any arrived) and every counter has
   * grown by k batch sums, where 1 <= k <= 3 when it reported success and 0 <= k <= 3 otherwise.
   */
  lemma DeliveredAtLeastOnce(st: Store, ms: seq<Metric>, useGRPC: bool, network: nat -> Fate, runs: nat, name: string)
    requires ms != [] && Valid(ms) && 1 <= runs <= 3 && Encoded(ms, useGRPC).Some?
    requires useGRPC ==> forall i :: 0 <= i < |ms| ==> Carries(ms[i])
    ensures var k := Arrivals(network, runs);
      var after := EffectTimes(st, Encoded(ms, useGRPC).value, k);
      && k <= 3 && (network(runs - 1).Answered? ==> k >= 1)
      && (k == 0 ==> after == st)
      && (k >= 1 ==> Lookup(after.gauges, name) == GaugeAfter(st, ms, name))
      && (k >= 1 && Adds(ms, name) ==>
            Lookup(after.counters, name) == Some(Wrap(Count(st.counters, name) + k * Sum(ms, name))))
  {
    hide *;
    var k := Arrivals(network, runs);
    ArrivalsBounds(network, runs);
    if k == 0 {
      NeverApplied(st, Encoded(ms, useGRPC).value);
    } else {
      DeliveredTimes(st, ms, useGRPC, k, name);
    }
  }

  lemma NeverApplied(st: Store, w: Wire)
    ensures EffectTimes(st, w, 0) == st
  {}
}
