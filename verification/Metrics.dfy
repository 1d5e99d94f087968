/**
 * Metrics, the store they update, and the meaning of a batch: a gauge overwrites, a counter adds
 * with Go's int64 wrap-around.  As in Go, a string is a sequence of bytes, one char a byte.
 */
module Metrics {
  import opened Options

  const MIN64: int := -0x8000_0000_0000_0000
  const MAX64: int := 0x7FFF_FFFF_FFFF_FFFF

  type Int64 = x: int | MIN64 <= x <= MAX64

  predicate Fits64(x: int) { MIN64 <= x <= MAX64 }

  /** Go's conversion of an exact result to int64. */
  function Wrap(x: int): (r: Int64)
    ensures Fits64(x) ==> r == x
    ensures (r - x) % 0x1_0000_0000_0000_0000 == 0
  {
    (x - MIN64) % 0x1_0000_0000_0000_0000 + MIN64
  }

  lemma WrapAdd(x: int, y: int)
    ensures Wrap(Wrap(x) + y) == Wrap(x + y)
  {}

  /** A float64 as far as the program tells values apart: by sign test and finiteness. */
  datatype Float64 = Finite(r: real) | NegativeZero | PosInf | NegInf | NaN

  /** Go's `value < 0`: false for NaN and for the negative zero. */
  predicate IsNeg(f: Float64) { (f.Finite? && f.r < 0.0) || f.NegInf? }

  predicate IsFinite(f: Float64) { f.Finite? || f.NegativeZero? }

  const GAUGE := "gauge"
  const COUNTER := "counter"

  /** model.Metrics: `delta` and `value` are pointers, None when nil. */
  datatype Metric = Metric(id: string, mtype: string, delta: Option<Int64>, value: Option<Float64>)

  function GaugeOf(id: string, v: Float64): Metric { Metric(id, GAUGE, None, Some(v)) }
  function CounterOf(id: string, d: Int64): Metric { Metric(id, COUNTER, Some(d), None) }

  datatype Store = Store(gauges: map<string, Float64>, counters: map<string, Int64>)

  const EMPTY := Store(map[], map[])

  /** The Go map read `m[k]`, zero for a missing key. */
  function Count(counters: map<string, Int64>, name: string): Int64
  {
    if name in counters then counters[name] else 0
  }

  predicate IsGauge(m: Metric) { m.mtype == GAUGE && m.value.Some? }
  predicate IsCounter(m: Metric) { m.mtype == COUNTER && m.delta.Some? }

  /** A gauge with its value or a counter with its delta. */
  predicate Carries(m: Metric) { IsGauge(m) || IsCounter(m) }

  function Apply(st: Store, m: Metric): Store
  {
    if IsGauge(m) then st.(gauges := st.gauges[m.id := m.value.value])
    else if IsCounter(m) then st.(counters := st.counters[m.id := Wrap(Count(st.counters, m.id) + m.delta.value)])
    else st
  }

  /** The fold every batch path has to agree with. */
  function ApplyBatch(st: Store, ms: seq<Metric>): Store
  {
    if ms == [] then st else Apply(ApplyBatch(st, ms[..|ms| - 1]), ms[|ms| - 1])
  }

  // ---- what the fold means, name by name -----------------------------------------------

  /** The exact sum of the batch's deltas for a counter. */
  function Sum(ms: seq<Metric>, name: string): int
  {
    if ms == [] then 0 else
    var m := ms[|ms| - 1];
    Sum(ms[..|ms| - 1], name) + (if IsCounter(m) && m.id == name then m.delta.value else 0)
  }

  predicate Adds(ms: seq<Metric>, name: string)
  {
    exists i :: 0 <= i < |ms| && IsCounter(ms[i]) && ms[i].id == name
  }

  /** The last value the batch gives a gauge. */
  function Last(ms: seq<Metric>, name: string): Option<Float64>
  {
    if ms == [] then None else
    var m := ms[|ms| - 1];
    if IsGauge(m) && m.id == name then m.value else Last(ms[..|ms| - 1], name)
  }

  function GaugeAfter(st: Store, ms: seq<Metric>, name: string): Option<Float64>
  {
    if Last(ms, name).Some? then Last(ms, name) else Lookup(st.gauges, name)
  }

  function CounterAfter(st: Store, ms: seq<Metric>, name: string): Option<Int64>
  {
    if Adds(ms, name) || name in st.counters then Some(Wrap(Count(st.counters, name) + Sum(ms, name))) else None
  }

  lemma AddsSplit(ms: seq<Metric>, m: Metric, name: string)
    ensures Adds(ms + [m], name) <==> Adds(ms, name) || (IsCounter(m) && m.id == name)
  {
    if Adds(ms, name) {
      var i :| 0 <= i < |ms| && IsCounter(ms[i]) && ms[i].id == name;
      assert (ms + [m])[i] == ms[i];
    }
    assert (ms + [m])[|ms|] == m;
  }

  lemma {:induction false} BatchGauges(st: Store, ms: seq<Metric>, name: string)
    ensures Lookup(ApplyBatch(st, ms).gauges, name) == GaugeAfter(st, ms, name)
  {
    if ms != [] {
      BatchGauges(st, ms[..|ms| - 1], name);
    }
  }

  lemma {:induction false} BatchCounters(st: Store, ms: seq<Metric>, name: string)
    ensures Lookup(ApplyBatch(st, ms).counters, name) == CounterAfter(st, ms, name)
  {
    if ms != [] {
      var front, m := ms[..|ms| - 1], ms[|ms| - 1];
      BatchCounters(st, front, name);
      assert ms == front + [m];
      AddsSplit(front, m, name);
      if IsCounter(m) && m.id == name {
        WrapAdd(Count(st.counters, name) + Sum(front, name), m.delta.value);
        NoAddsNoSum(front, name);
      }
      hide Adds, Wrap;
    }
  }

  /** A batch leaves every gauge at its last value and every counter at its old value plus the deltas. */
  lemma BatchMeaning(st: Store, ms: seq<Metric>, name: string)
    ensures Lookup(ApplyBatch(st, ms).gauges, name) == GaugeAfter(st, ms, name)
    ensures Lookup(ApplyBatch(st, ms).counters, name) == CounterAfter(st, ms, name)
  {
    BatchGauges(st, ms, name);
    BatchCounters(st, ms, name);
  }

  lemma {:induction false} NoAddsNoSum(ms: seq<Metric>, name: string)
    ensures !Adds(ms, name) ==> Sum(ms, name) == 0
  {
    if ms != [] {
      var front, m := ms[..|ms| - 1], ms[|ms| - 1];
      assert ms == front + [m];
      AddsSplit(front, m, name);
      NoAddsNoSum(front, name);
    }
  }

  /** Two stores are the same when every name reads the same. */
  lemma SameStore(a: Store, b: Store)
    requires forall n :: Lookup(a.gauges, n) == Lookup(b.gauges, n)
    requires forall n :: Lookup(a.counters, n) == Lookup(b.counters, n)
    ensures a == b
  {
    assert forall n :: (n in a.gauges <==> Lookup(a.gauges, n).Some?) && (n in b.gauges <==> Lookup(b.gauges, n).Some?);
    assert forall n :: n in a.counters <==> Lookup(a.counters, n).Some?;
    assert forall n :: n in b.counters <==> Lookup(b.counters, n).Some?;
    assert forall n | n in a.gauges :: Lookup(a.gauges, n) == Some(a.gauges[n]);
    assert forall n | n in a.counters :: Lookup(a.counters, n) == Some(a.counters[n]);
    assert forall n | n in b.gauges :: Lookup(b.gauges, n) == Some(b.gauges[n]);
    assert forall n | n in b.counters :: Lookup(b.counters, n) == Some(b.counters[n]);
    assert a.gauges == b.gauges;
    assert a.counters == b.counters;
  }

  lemma {:induction false} BatchConcat(st: Store, a: seq<Metric>, b: seq<Metric>)
    ensures ApplyBatch(st, a + b) == ApplyBatch(ApplyBatch(st, a), b)
    ensures forall n :: Sum(a + b, n) == Sum(a, n) + Sum(b, n)
  {
    if b == [] {
      assert a + b == a;
    } else {
      var front := b[..|b| - 1];
      assert (a + b)[..|a + b| - 1] == a + front;
      BatchConcat(st, a, front);
    }
  }

  // ---- batches that change nothing -----------------------------------------------------

  const TWO64: int := 0x1_0000_0000_0000_0000

  lemma WrapStays(x: Int64, d: int)
    ensures Wrap(x + d) == x <==> d % TWO64 == 0
  {}

  /** The gauges the batch gives a value have it already, and its deltas cancel out in int64. */
  ghost predicate RepeatsStore(st: Store, ms: seq<Metric>)
  {
    && (forall n | Last(ms, n).Some? :: Lookup(st.gauges, n) == Last(ms, n))
    && (forall n | Adds(ms, n) :: n in st.counters && Sum(ms, n) % TWO64 == 0)
  }

  lemma RepeatsName(st: Store, ms: seq<Metric>, n: string)
    ensures Lookup(ApplyBatch(st, ms).gauges, n) == Lookup(st.gauges, n) <==>
      (Last(ms, n).Some? ==> Lookup(st.gauges, n) == Last(ms, n))
    ensures Lookup(ApplyBatch(st, ms).counters, n) == Lookup(st.counters, n) <==>
      (Adds(ms, n) ==> n in st.counters && Sum(ms, n) % TWO64 == 0)
  {
    BatchMeaning(st, ms, n);
    NoAddsNoSum(ms, n);
    WrapStays(Count(st.counters, n), Sum(ms, n));
    hide ApplyBatch, Last, Sum, Adds, Wrap;
  }

  lemma BatchChangesNothingExactly(st: Store, ms: seq<Metric>)
    ensures ApplyBatch(st, ms) == st <==> RepeatsStore(st, ms)
  {
    forall n
      ensures Lookup(ApplyBatch(st, ms).gauges, n) == Lookup(st.gauges, n) <==>
        (Last(ms, n).Some? ==> Lookup(st.gauges, n) == Last(ms, n))
      ensures Lookup(ApplyBatch(st, ms).counters, n) == Lookup(st.counters, n) <==>
        (Adds(ms, n) ==> n in st.counters && Sum(ms, n) % TWO64 == 0)
    {
      RepeatsName(st, ms, n);
    }
    hide ApplyBatch, Last, Sum, Adds, Lookup;
    if RepeatsStore(st, ms) {
      SameStore(ApplyBatch(st, ms), st);
    }
  }

  // ---- a batch applied several times ---------------------------------------------------

  function ApplyTimes(st: Store, ms: seq<Metric>, k: nat): Store
  {
    if k == 0 then st else ApplyBatch(ApplyTimes(st, ms, k - 1), ms)
  }

  lemma WrapRepeat(x: int, y: int, k: nat)
    requires k >= 1
    ensures Wrap(Wrap(x + (k - 1) * y) + y) == Wrap(x + k * y)
  {
    assert k * y == (k - 1) * y + y;
    WrapAdd(x + (k - 1) * y, y);
  }

  /** Applied k >= 1 times, gauges end as if applied once and counters grow k times. */
  lemma {:induction false} RepeatMeaning(st: Store, ms: seq<Metric>, k: nat, name: string)
    requires k >= 1
    ensures Lookup(ApplyTimes(st, ms, k).gauges, name) == GaugeAfter(st, ms, name)
    ensures Lookup(ApplyTimes(st, ms, k).counters, name) ==
      if Adds(ms, name) || name in st.counters then Some(Wrap(Count(st.counters, name) + k * Sum(ms, name))) else None
  {
    hide Sum, Adds, ApplyBatch, Last, Wrap;
    var before := ApplyTimes(st, ms, k - 1);
    BatchMeaning(before, ms, name);
    NoAddsNoSum(ms, name);
    var y := Sum(ms, name);
    if k == 1 {
      assert before == st;
      assert k * y == y;
    } else {
      RepeatMeaning(st, ms, k - 1, name);
      WrapRepeat(Count(st.counters, name), y, k);
      assert Adds(ms, name) || name in st.counters ==>
        Count(before.counters, name) == Wrap(Count(st.counters, name) + (k - 1) * y);
    }
  }

  // ---- validation ----------------------------------------------------------------------

  datatype Error =
    | NegativeGauge(id: string)
    | NegativeCounter(id: string)
    | EmptyBatch
    | UnknownType(mtype: string)
    | OutOfRange(name: string)
    | Failure(retriable: bool, detail: string)   // reported by a driver, a network or a file system

  /** A typed metric with a negative value. */
  predicate IsNegative(m: Metric)
  {
    (IsGauge(m) && IsNeg(m.value.value)) || (IsCounter(m) && m.delta.value < 0)
  }

  predicate Valid(ms: seq<Metric>) { forall i :: 0 <= i < |ms| ==> !IsNegative(ms[i]) }

  /** Refused are the finite values below zero and minus infinity; NaN and the negative zero are not. */
  lemma RefusedValues(name: string, v: Float64, d: Int64)
    ensures Valid([Metric(name, "gauge", None, Some(v))]) <==>
      match v
      case Finite(r) => r >= 0.0
      case NegativeZero => true
      case PosInf => true
      case NegInf => false
      case NaN => true
    ensures Valid([Metric(name, "counter", Some(d), None)]) <==> d >= 0
  {
    var g, c := [Metric(name, "gauge", None, Some(v))], [Metric(name, "counter", Some(d), None)];
    assert IsGauge(g[0]) && IsCounter(c[0]) && !IsGauge(c[0]);
    assert Valid(g) <==> !IsNegative(g[0]);
    assert Valid(c) <==> !IsNegative(c[0]);
  }

  /** A gauge overwrites, a counter adds and wraps, and a metric of another type does nothing. */
  lemma BatchExample()
    ensures ApplyBatch(
        Store(map["Alloc" := Finite(1.0)], map["PollCount" := 0x7FFF_FFFF_FFFF_FFFF]),
        [Metric("Alloc", "gauge", None, Some(Finite(2.5))), Metric("PollCount", "counter", Some(1), None),
         Metric("x", "histogram", Some(1), Some(Finite(1.0)))]) ==
      Store(map["Alloc" := Finite(2.5)], map["PollCount" := -0x8000_0000_0000_0000])
  {
    var st := Store(map["Alloc" := Finite(1.0)], map["PollCount" := 0x7FFF_FFFF_FFFF_FFFF]);
    var ms := [Metric("Alloc", "gauge", None, Some(Finite(2.5))), Metric("PollCount", "counter", Some(1), None),
               Metric("x", "histogram", Some(1), Some(Finite(1.0)))];
    assert ms[..2][..1] == ms[..1] && ms[..1][..0] == [];
    var st1 := Apply(st, ms[0]);
    assert ApplyBatch(st, ms[..0]) == st && ApplyBatch(st, ms[..1]) == st1;
    var st2 := Apply(st1, ms[1]);
    assert ApplyBatch(st, ms[..2]) == st2;
    assert "counter" != GAUGE && "histogram"[0] == 'h';
    assert ApplyBatch(st, ms) == st2;
  }

  function NegativeError(m: Metric): Error { if m.mtype == GAUGE then NegativeGauge(m.id) else NegativeCounter(m.id) }

  lemma {:induction false} ValidSumIsNonNegative(ms: seq<Metric>, name: string)
    requires Valid(ms)
    ensures Sum(ms, name) >= 0
  {
    if ms != [] {
      ValidSumIsNonNegative(ms[..|ms| - 1], name);
    }
  }

  /** One request through the service on a storage: a refused one leaves the store alone. */
  function Serve(st: Store, request: seq<Metric>): Store
  {
    if Valid(request) then ApplyBatch(st, request) else st
  }

  function ServeAll(st: Store, requests: seq<seq<Metric>>): Store
  {
    if requests == [] then st else Serve(ServeAll(st, requests[..|requests| - 1]), requests[|requests| - 1])
  }

  /** What a request adds to a counter: nothing when it is refused. */
  function Accepted(request: seq<Metric>, name: string): nat
  {
    if Valid(request) then ValidSumIsNonNegative(request, name); Sum(request, name) else 0
  }

  lemma ServeCounts(st: Store, request: seq<Metric>, name: string)
    ensures Count(Serve(st, request).counters, name) == Wrap(Count(st.counters, name) + Accepted(request, name))
  {
    BatchCounters(st, request, name);
    NoAddsNoSum(request, name);
    hide Sum, Adds, ApplyBatch, Wrap;
  }
}
