/**
 * HTTP and gRPC compared on every batch.  A metric that lacks its field is skipped over HTTP and
 * sent as a zero over gRPC; JSON refuses non-finite values, gRPC refuses unknown types.
 */
module Transports {
  import opened Options
  import opened Metrics
  import opened Delivery

  /** The batch as it comes out of pb.Metric. */
  function Trip(ms: seq<Metric>): seq<Metric>
  {
    seq(|ms|, i requires 0 <= i < |ms| => FromProto(ToProto(ms[i])))
  }

  /** The last gauge metric of that name, with or without a value. */
  function LastEntry(ms: seq<Metric>, name: string): Option<Metric>
  {
    if ms == [] then None else
    var m := ms[|ms| - 1];
    if m.mtype == GAUGE && m.id == name then Some(m) else LastEntry(ms[..|ms| - 1], name)
  }

  /** The last metric of every gauge carries a value, or repeats the zero the batch gave the gauge before. */
  predicate GaugesCarry(ms: seq<Metric>)
  {
    forall i | 0 <= i < |ms| && ms[i].mtype == GAUGE :: CarriesLast(ms, ms[i].id)
  }

  predicate CarriesLast(ms: seq<Metric>, name: string)
  {
    (LastEntry(ms, name).Some? && LastEntry(ms, name).value.value.Some?) || Last(ms, name) == Some(ZERO)
  }

  /** Every counter the batch names gets a delta somewhere in it. */
  predicate CountersCarry(ms: seq<Metric>)
  {
    forall i | 0 <= i < |ms| && ms[i].mtype == COUNTER :: Adds(ms, ms[i].id)
  }

  lemma TripOfPrefix(ms: seq<Metric>)
    requires ms != []
    ensures Trip(ms)[..|ms| - 1] == Trip(ms[..|ms| - 1])
  {}

  lemma {:induction false} LastOfTrip(ms: seq<Metric>, name: string)
    requires AllTyped(ms)
    ensures var e := LastEntry(ms, name);
      && (e.None? ==> Last(ms, name).None? && Last(Trip(ms), name).None?)
      && (e.Some? && e.value.value.Some? ==> Last(ms, name) == Last(Trip(ms), name) == e.value.value)
      && (e.Some? && e.value.value.None? ==> Last(Trip(ms), name) == Some(ZERO))
  {
    if ms != [] {
      TripOfPrefix(ms);
      LastOfTrip(ms[..|ms| - 1], name);
    }
  }

  lemma {:induction false} SumOfTrip(ms: seq<Metric>, name: string)
    requires AllTyped(ms)
    ensures Sum(Trip(ms), name) == Sum(ms, name)
  {
    if ms != [] {
      TripOfPrefix(ms);
      SumOfTrip(ms[..|ms| - 1], name);
    }
  }

  lemma TripIsValid(ms: seq<Metric>)
    requires AllTyped(ms)
    ensures Valid(Trip(ms)) <==> Valid(ms)
  {
    assert forall i :: 0 <= i < |ms| ==> IsNegative(Trip(ms)[i]) == IsNegative(ms[i]);
  }

  lemma ReceivedTrip(ms: seq<Metric>)
    requires AllTyped(ms)
    ensures Received(ProtoWire(ms)) == Some(Trip(ms))
  {
    var received := Received(ProtoWire(ms));
    assert forall i :: 0 <= i < |ms| ==> ProtoWire(ms).protos[i] == ToProto(ms[i]);
    assert received.Some? && received.value == Trip(ms);
  }

  lemma NamedIsEntered(ms: seq<Metric>, i: nat)
    requires i < |ms| && ms[i].mtype == GAUGE
    ensures LastEntry(ms, ms[i].id).Some?
  {
    if i < |ms| - 1 {
      NamedIsEntered(ms[..|ms| - 1], i);
    }
  }

  lemma {:induction false} EntryIsNamed(ms: seq<Metric>, name: string) returns (i: nat)
    requires LastEntry(ms, name).Some?
    ensures i < |ms| && ms[i].mtype == GAUGE && ms[i].id == name
  {
    i := |ms| - 1;
    if !(ms[i].mtype == GAUGE && ms[i].id == name) {
      i := EntryIsNamed(ms[..|ms| - 1], name);
    }
  }

  lemma SameGauge(st: Store, ms: seq<Metric>, name: string)
    requires AllTyped(ms) && GaugesCarry(ms)
    ensures Lookup(ApplyBatch(st, Trip(ms)).gauges, name) == Lookup(ApplyBatch(st, ms).gauges, name)
  {
    LastOfTrip(ms, name);
    BatchMeaning(st, ms, name);
    BatchMeaning(st, Trip(ms), name);
    if LastEntry(ms, name).Some? {
      var i := EntryIsNamed(ms, name);
      assert CarriesLast(ms, name);
    }
    hide ApplyBatch, Last, LastEntry, GaugesCarry;
  }

  lemma SameCounter(st: Store, ms: seq<Metric>, name: string)
    requires AllTyped(ms) && CountersCarry(ms)
    ensures Lookup(ApplyBatch(st, Trip(ms)).counters, name) == Lookup(ApplyBatch(st, ms).counters, name)
  {
    SumOfTrip(ms, name);
    BatchMeaning(st, ms, name);
    BatchMeaning(st, Trip(ms), name);
    assert Adds(Trip(ms), name) <==> Adds(ms, name) by {
      if i :| 0 <= i < |ms| && IsCounter(ms[i]) && ms[i].id == name {
        assert IsCounter(Trip(ms)[i]) && Trip(ms)[i].id == name;
      }
      if i :| 0 <= i < |ms| && IsCounter(Trip(ms)[i]) && Trip(ms)[i].id == name {
        assert ms[i].mtype == COUNTER && ms[i].id == name;
      }
    }
    hide ApplyBatch, Sum, Adds, CountersCarry, Wrap;
  }

  lemma AgreeWhenCarried(st: Store, ms: seq<Metric>)
    requires AllTyped(ms) && (!Valid(ms) || (GaugesCarry(ms) && CountersCarry(ms)))
    ensures Effect(st, Json(ms)) == Effect(st, ProtoWire(ms))
  {
    ReceivedTrip(ms);
    TripIsValid(ms);
    if Valid(ms) {
      forall n ensures Lookup(ApplyBatch(st, Trip(ms)).gauges, n) == Lookup(ApplyBatch(st, ms).gauges, n)
               ensures Lookup(ApplyBatch(st, Trip(ms)).counters, n) == Lookup(ApplyBatch(st, ms).counters, n) {
        SameGauge(st, ms, n);
        SameCounter(st, ms, n);
      }
      SameStore(ApplyBatch(st, Trip(ms)), ApplyBatch(st, ms));
    }
    hide Received, ApplyBatch, GaugesCarry, CountersCarry, Trip;
  }

  /** A store on which the two transports leave different values under the name of ms[i]. */
  lemma DifferWhenNotCarried(ms: seq<Metric>, i: nat) returns (st: Store)
    requires AllTyped(ms) && Valid(ms) && i < |ms|
    requires if ms[i].mtype == GAUGE then !CarriesLast(ms, ms[i].id) else !Adds(ms, ms[i].id)
    ensures Effect(st, Json(ms)) != Effect(st, ProtoWire(ms))
  {
    var name := ms[i].id;
    st := Store(map[name := Finite(1.0)], map[]);
    ReceivedTrip(ms);
    TripIsValid(ms);
    BatchMeaning(st, ms, name);
    BatchMeaning(st, Trip(ms), name);
    if ms[i].mtype == GAUGE {
      NamedIsEntered(ms, i);
      LastOfTrip(ms, name);
    } else {
      assert IsCounter(Trip(ms)[i]) && Trip(ms)[i].id == name;
    }
    hide ApplyBatch, Last, LastEntry, Sum, Received, Wrap;
  }

  /**
   * Sending a batch over HTTP and over gRPC does the same to every store exactly when the batch is
   * empty or refused for a negative value, or both transports refuse to encode it, or both encode it,
   * every counter it names gets a delta and the last word on every gauge is a value.
   */
  lemma TransportsAgreeExactly(ms: seq<Metric>)
    ensures (forall st :: Sending(st, ms, false) == Sending(st, ms, true)) <==>
      || ms == [] || !Valid(ms)
      || (!AllEncode(ms) && !AllTyped(ms))
      || (AllEncode(ms) && AllTyped(ms) && GaugesCarry(ms) && CountersCarry(ms))
  {
    if ms != [] && AllTyped(ms) && AllEncode(ms) {
      TypedAgreeExactly(ms);
      assert forall st :: Sending(st, ms, false) == Effect(st, Json(ms));
      assert forall st :: Sending(st, ms, true) == Effect(st, ProtoWire(ms));
    } else if ms != [] {
      if AllTyped(ms) {
        ReceivedTrip(ms);
        TripIsValid(ms);
      }
      OneSideRefuses(ms);
    }
    hide Effect, GaugesCarry, CountersCarry, Valid, AllEncode, AllTyped;
  }

  /** A batch one side cannot encode: the other side's success is what tells them apart. */
  lemma OneSideRefuses(ms: seq<Metric>)
    requires ms != [] && !(AllTyped(ms) && AllEncode(ms))
    ensures (forall st :: Sending(st, ms, false) == Sending(st, ms, true)) <==>
      !Valid(ms) || (!AllEncode(ms) && !AllTyped(ms))
  {
    if AllTyped(ms) {
      ReceivedTrip(ms);
      TripIsValid(ms);
    }
    hide GaugesCarry, CountersCarry, ApplyBatch, Received, Trip;
    assert Received(Json(ms)) == Some(ms);
    assert Sending(EMPTY, ms, false).0 == (AllEncode(ms) && Valid(ms));
    assert Sending(EMPTY, ms, true).0 == (AllTyped(ms) && Valid(ms));
  }

  lemma TypedAgreeExactly(ms: seq<Metric>)
    requires AllTyped(ms)
    ensures (forall st :: Effect(st, Json(ms)) == Effect(st, ProtoWire(ms))) <==>
      !Valid(ms) || (GaugesCarry(ms) && CountersCarry(ms))
  {
    hide Effect, CarriesLast, Adds;
    if !Valid(ms) || (GaugesCarry(ms) && CountersCarry(ms)) {
      forall st ensures Effect(st, Json(ms)) == Effect(st, ProtoWire(ms)) {
        AgreeWhenCarried(st, ms);
      }
    } else if !GaugesCarry(ms) {
      var i :| 0 <= i < |ms| && ms[i].mtype == GAUGE && !CarriesLast(ms, ms[i].id);
      var st := DifferWhenNotCarried(ms, i);
    } else {
      var i :| 0 <= i < |ms| && ms[i].mtype == COUNTER && !Adds(ms, ms[i].id);
      var st := DifferWhenNotCarried(ms, i);
    }
  }

  /** A NaN gauge: HTTP cannot send it, gRPC stores it. */
  lemma NaNDiffers(name: string)
    ensures var ms := [GaugeOf(name, NaN)];
      && Sending(EMPTY, ms, false) == (false, EMPTY)
      && Sending(EMPTY, ms, true) == (true, Store(map[name := NaN], map[]))
  {
    var ms := [GaugeOf(name, NaN)];
    assert !JsonEncodes(ms[0]);
    ReceivedTrip(ms);
    assert Trip(ms) == ms;
    assert ApplyBatch(EMPTY, ms[..0]) == EMPTY;
    assert ApplyBatch(EMPTY, ms) == Apply(EMPTY, ms[0]);
  }
}
