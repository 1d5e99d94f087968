/**
 * Concurrent updates of one in-memory storage.  Each client sends its requests in order; the mutex
 * makes every accepted request one critical section; the scheduler interleaves clients freely.
 */
module Interleaving {
  import opened Options
  import opened Sums
  import opened Metrics

  type Client = seq<seq<Metric>>   // the requests a client has still to send

  datatype State = State(store: Store, rest: seq<Client>)

  ghost predicate Next(s: State, r: State, i: nat)
  {
    && i < |s.rest| && s.rest[i] != []
    && r == State(Serve(s.store, s.rest[i][0]), s.rest[i := s.rest[i][1..]])
  }

  ghost predicate IsRun(states: seq<State>, schedule: seq<nat>)
  {
    && |states| == |schedule| + 1
    && forall k: nat | k < |schedule| :: Next(states[k], states[k + 1], schedule[k])
  }

  /** The sum of all deltas of a client that will be accepted. */
  function Due(name: string): Client -> nat
  {
    (c: Client) => Total(c, (request: seq<Metric>) => Accepted(request, name))
  }

  /** What all clients together still have to add to a counter. */
  function AllDue(s: State, name: string): nat { Total(s.rest, Due(name)) }

  lemma StepPays(s: State, r: State, i: nat, name: string)
    requires Next(s, r, i)
    ensures AllDue(s, name) == AllDue(r, name) + Accepted(s.rest[i][0], name)
    ensures Count(r.store.counters, name) == Wrap(Count(s.store.counters, name) + Accepted(s.rest[i][0], name))
  {
    TotalUpdate(s.rest, Due(name), i, s.rest[i][1..]);
    ServeCounts(s.store, s.rest[i][0], name);
    hide Wrap, Accepted, Serve;
  }

  /** Whatever the interleaving, a counter plus what is still due is the initial value plus everything due. */
  lemma {:induction false} NothingIsLost(states: seq<State>, schedule: seq<nat>, k: nat, name: string)
    requires IsRun(states, schedule) && k <= |schedule|
    ensures Count(states[k].store.counters, name)
      == Wrap(Count(states[0].store.counters, name) + AllDue(states[0], name) - AllDue(states[k], name))
    ensures AllDue(states[k], name) <= AllDue(states[0], name)
  {
    if k > 0 {
      NothingIsLost(states, schedule, k - 1, name);
      StepPays(states[k - 1], states[k], schedule[k - 1], name);
      var a := Accepted(states[k - 1].rest[schedule[k - 1]][0], name);
      WrapAdd(Count(states[0].store.counters, name) + AllDue(states[0], name) - AllDue(states[k - 1], name), a);
      hide Wrap, AllDue, Accepted;
    }
  }

  /** The store holds no negative number. */
  ghost predicate NonNegative(st: Store)
  {
    && (forall n | n in st.gauges :: !IsNeg(st.gauges[n]))
    && (forall n | n in st.counters :: st.counters[n] >= 0)
  }

  /** Every counter's total over all clients stays within int64. */
  ghost predicate TotalsFit(s: State)
  {
    forall n :: Count(s.store.counters, n) + AllDue(s, n) <= MAX64
  }

  /**
   * From a non-negative store, with totals within int64: at every point of every interleaving each
   * counter is its initial value plus exactly what has been accepted of it, it never decreases,
   * and nothing stored is negative; when all requests are served every counter has its full total.
   */
  lemma CountersAreExact(states: seq<State>, schedule: seq<nat>, k: nat, name: string)
    requires IsRun(states, schedule) && k <= |schedule|
    requires NonNegative(states[0].store) && TotalsFit(states[0])
    ensures Count(states[k].store.counters, name)
      == Count(states[0].store.counters, name) + AllDue(states[0], name) - AllDue(states[k], name)
    ensures k > 0 ==> Count(states[k - 1].store.counters, name) <= Count(states[k].store.counters, name)
    ensures (forall i: nat | i < |states[k].rest| :: states[k].rest[i] == []) ==>
      Count(states[k].store.counters, name) == Count(states[0].store.counters, name) + AllDue(states[0], name)
  {
    NothingIsLost(states, schedule, k, name);
    if k > 0 {
      NothingIsLost(states, schedule, k - 1, name);
      StepPays(states[k - 1], states[k], schedule[k - 1], name);
    }
    if forall i: nat | i < |states[k].rest| :: states[k].rest[i] == [] {
      NothingDue(states[k].rest, name);
    }
    hide AllDue, Wrap, IsRun;
  }

  lemma {:induction false} NothingDue(rest: seq<Client>, name: string)
    requires forall i: nat | i < |rest| :: rest[i] == []
    ensures Total(rest, Due(name)) == 0
  {
    if rest != [] {
      NothingDue(rest[1..], name);
    }
  }

  lemma {:induction false} NothingNegative(states: seq<State>, schedule: seq<nat>, k: nat)
    requires IsRun(states, schedule) && k <= |schedule|
    requires NonNegative(states[0].store) && TotalsFit(states[0])
    ensures NonNegative(states[k].store)
  {
    if k > 0 {
      NothingNegative(states, schedule, k - 1);
      assert Next(states[k - 1], states[k], schedule[k - 1]);
      var request := states[k - 1].rest[schedule[k - 1]][0];
      if Valid(request) {
        forall n | n in states[k].store.gauges ensures !IsNeg(states[k].store.gauges[n]) {
          BatchMeaning(states[k - 1].store, request, n);
          LastIsValid(request, n);
        }
      }
      forall n | n in states[k].store.counters ensures states[k].store.counters[n] >= 0 {
        CountersAreExact(states, schedule, k, n);
        assert Count(states[0].store.counters, n) >= 0;
        NothingIsLost(states, schedule, k, n);
      }
    }
  }

  lemma {:induction false} LastIsValid(ms: seq<Metric>, name: string)
    requires Valid(ms)
    ensures Last(ms, name).Some? ==> !IsNeg(Last(ms, name).value)
  {
    if ms != [] {
      LastIsValid(ms[..|ms| - 1], name);
    }
  }
}
