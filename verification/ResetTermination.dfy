/**
 * When the generated Reset methods return: exactly when no marked struct behind the receiver's
 * pointers leads back to itself.
 */
module ResetTermination {
  import opened Options
  import opened GoTypes
  import opened ResetGen
  import opened ResetSemantics
  import opened ResetCorrect

  /** A chain of marked structs behind pointers, from the start, has at most n of them. */
  ghost predicate Bounded(env: Env, types: Types, h: Heap, start: set<Ref>, n: nat)
    requires WellFormedEnv(env)
    decreases n
  {
    forall r | r in start && Followed(env, types, r) :: n > 0 && Bounded(env, types, h, Out(env, types, h, r), n - 1)
  }

  /** No marked struct that is reached leads back to itself. */
  ghost predicate Acyclic(env: Env, types: Types, h: Heap, start: set<Ref>)
    requires WellFormedEnv(env)
  {
    forall r | r in Reached(env, types, h, start) && Followed(env, types, r) ::
      r !in Reached(env, types, h, Out(env, types, h, r))
  }

  lemma {:induction false} BoundedMore(env: Env, types: Types, h: Heap, start: set<Ref>, n: nat, m: nat)
    requires WellFormedEnv(env) && Bounded(env, types, h, start, n) && n <= m
    ensures Bounded(env, types, h, start, m)
    decreases n
  {
    forall r | r in start && Followed(env, types, r)
      ensures m > 0 && Bounded(env, types, h, Out(env, types, h, r), m - 1)
    {
      BoundedMore(env, types, h, Out(env, types, h, r), n - 1, m - 1);
    }
  }

  lemma {:induction false} BoundedSame(env: Env, types: Types, h: Heap, g: Heap, start: set<Ref>, n: nat)
    requires WellFormedEnv(env) && forall r :: Out(env, types, g, r) == Out(env, types, h, r)
    ensures Bounded(env, types, g, start, n) == Bounded(env, types, h, start, n)
    decreases n
  {
    if n > 0 {
      forall r | r in start && Followed(env, types, r)
        ensures Bounded(env, types, g, Out(env, types, g, r), n - 1) ==
                Bounded(env, types, h, Out(env, types, h, r), n - 1)
      {
        BoundedSame(env, types, h, g, Out(env, types, h, r), n - 1);
      }
    }
    hide Out;
  }

  lemma BoundedUnion(env: Env, types: Types, h: Heap, a: set<Ref>, b: set<Ref>, n: nat)
    requires WellFormedEnv(env)
    ensures Bounded(env, types, h, a + b, n) <==> Bounded(env, types, h, a, n) && Bounded(env, types, h, b, n)
  {
    hide Out, Followed;
  }

  // ---- bounded is acyclic --------------------------------------------------------------

  /** Along a path the bound goes down. */
  lemma {:induction false} BoundAlongPath(env: Env, types: Types, h: Heap, start: set<Ref>, p: seq<Ref>, n: nat)
    requires WellFormedEnv(env) && Bounded(env, types, h, start, n)
    requires p != [] && p[0] in start && Path(env, types, h, p) && Followed(env, types, p[|p| - 1])
    ensures |p| <= n && Bounded(env, types, h, Out(env, types, h, p[|p| - 1]), n - |p|)
    decreases |p|
  {
    if |p| > 1 {
      var q := p[1..];
      assert p[0 + 1] in Out(env, types, h, p[0]);
      assert Path(env, types, h, q) by {
        forall i | 0 <= i < |q| - 1 ensures q[i + 1] in Out(env, types, h, q[i]) {
          assert p[(i + 1) + 1] in Out(env, types, h, p[i + 1]);
        }
      }
      BoundAlongPath(env, types, h, Out(env, types, h, p[0]), q, n - 1);
    }
  }

  lemma BoundBeyond(env: Env, types: Types, h: Heap, start: set<Ref>, r: Ref, n: nat) returns (m: nat)
    requires WellFormedEnv(env) && Bounded(env, types, h, start, n)
    requires r in Reached(env, types, h, start) && Followed(env, types, r)
    ensures m < n && Bounded(env, types, h, Out(env, types, h, r), m)
  {
    hide Bounded, Out, Path, Followed;
    var p :| p != [] && p[0] in start && p[|p| - 1] == r && Path(env, types, h, p);
    BoundAlongPath(env, types, h, start, p, n);
    m := n - |p|;
  }

  lemma {:induction false} NoBoundOnCycle(env: Env, types: Types, h: Heap, r: Ref, n: nat)
    requires WellFormedEnv(env) && Followed(env, types, r) && r in Reached(env, types, h, Out(env, types, h, r))
    ensures !Bounded(env, types, h, Out(env, types, h, r), n)
    decreases n
  {
    hide Bounded, Out, Reached, Followed, WellFormedEnv;
    if Bounded(env, types, h, Out(env, types, h, r), n) {
      var m := BoundBeyond(env, types, h, Out(env, types, h, r), r, n);
      NoBoundOnCycle(env, types, h, r, m);
    }
  }

  lemma BoundedIsAcyclic(env: Env, types: Types, h: Heap, start: set<Ref>, n: nat)
    requires WellFormedEnv(env) && Bounded(env, types, h, start, n)
    ensures Acyclic(env, types, h, start)
  {
    hide Bounded, Out, Reached, Followed, WellFormedEnv;
    forall r | r in Reached(env, types, h, start) && Followed(env, types, r)
      ensures r !in Reached(env, types, h, Out(env, types, h, r))
    {
      var m := BoundBeyond(env, types, h, start, r, n);
      if r in Reached(env, types, h, Out(env, types, h, r)) {
        NoBoundOnCycle(env, types, h, r, m);
      }
    }
  }

  // ---- acyclic is bounded --------------------------------------------------------------

  /** What a member of the start leads to is reached from the start. */
  lemma ReachedThrough(env: Env, types: Types, h: Heap, start: set<Ref>, r: Ref)
    requires WellFormedEnv(env) && r in start
    ensures r in Reached(env, types, h, start)
    ensures Reached(env, types, h, Out(env, types, h, r)) <= Reached(env, types, h, start)
  {
    assert start == (start - {r}) + {r};
    ReachUnion(env, types, h, start - {r}, {r});
    ReachOne(env, types, h, r);
    hide Reached, Out;
  }

  /** Every marked struct that is reached is one of the free cells, so a chain is no longer than those. */
  lemma {:induction false} AcyclicIsBounded(env: Env, types: Types, h: Heap, start: set<Ref>, free: set<Ref>)
    requires WellFormedEnv(env) && Acyclic(env, types, h, start)
    requires forall r | r in Reached(env, types, h, start) && Followed(env, types, r) :: r in free
    ensures Bounded(env, types, h, start, |free|)
    decreases |free|
  {
    forall r | r in start && Followed(env, types, r)
      ensures |free| > 0 && Bounded(env, types, h, Out(env, types, h, r), |free| - 1)
    {
      ReachedThrough(env, types, h, start, r);
      hide Reached, Out, Followed, Bounded;
      assert r in free && |free - {r}| == |free| - 1;
      AcyclicIsBounded(env, types, h, Out(env, types, h, r), free - {r});
    }
  }

  lemma BoundedExactlyWhenAcyclic(env: Env, types: Types, h: Heap, start: set<Ref>)
    requires WellFormedEnv(env)
    ensures (exists n :: Bounded(env, types, h, start, n)) <==> Acyclic(env, types, h, start)
  {
    if Acyclic(env, types, h, start) {
      var cells := set l | l in types :: ToCell(l);
      assert forall r | Followed(env, types, r) :: r == ToCell(r.loc) && r in cells;
      AcyclicIsBounded(env, types, h, start, cells);
    }
    if n :| Bounded(env, types, h, start, n) {
      BoundedIsAcyclic(env, types, h, start, n);
    }
  }

  // ---- how much fuel a run needs -------------------------------------------------------

  ghost predicate DepthAtMost(env: Env, most: nat)
  {
    forall s | s in env.depth :: env.depth[s] <= most
  }

  lemma {:induction false} SomeDepth(depth: map<string, nat>) returns (most: nat)
    ensures forall s | s in depth :: depth[s] <= most
    decreases |depth|
  {
    if depth == map[] {
      most := 0;
    } else {
      var s :| s in depth;
      var rest := depth - {s};
      assert rest.Keys == depth.Keys - {s};
      most := SomeDepth(rest);
      assert forall t | t in depth && t != s :: t in rest;
      most := if depth[s] > most then depth[s] else most;
    }
  }

  /** Enough fuel for a struct nesting d deep whose chains have at most n marked structs. */
  function Need(most: nat, n: nat, d: nat): nat
  {
    (if n == 0 then 0 else Need(most, n - 1, most)) + d + 1
  }

  /** The two directions, for a piece of code with the given result on the given references. */
  ghost predicate FuelFacts(
      env: Env, types: Types, h: Heap, start: set<Ref>, out: bool, fuel: nat, most: nat, n: nat, d: nat)
    requires WellFormedEnv(env)
  {
    && (!out ==> Bounded(env, types, h, start, fuel))
    && (Bounded(env, types, h, start, n) && fuel >= Need(most, n, d) ==> !out)
  }

  lemma {:induction false} RunFuel(
      env: Env, types: Types, s: string, h: Heap, vs: seq<Value>, fuel: nat, most: nat, n: nat)
    requires WellFormedEnv(env) && Good(env, types, h) && s in env.marked && DepthAtMost(env, most)
    requires Fits(env, s, 0, vs) && ShapesFrom(env, types, s, 0, vs)
    ensures FuelFacts(env, types, h, TouchesFrom(env, s, 0, vs),
      Run(env, s, h, vs, fuel).OutOfFuel?, fuel, most, n, env.depth[s])
    decreases fuel, 2, 0
  {
    if fuel > 0 {
      BodyFuel(env, types, s, 0, h, vs, fuel, most, n);
    }
    hide RunBody, ShapesFrom, TouchesFrom, Bounded, Good, WellFormedEnv, DepthAtMost;
  }

  lemma {:induction false} BodyFuel(
      env: Env, types: Types, s: string, i: nat, h: Heap, vs: seq<Value>, fuel: nat, most: nat, n: nat)
    requires WellFormedEnv(env) && Good(env, types, h) && s in env.marked && DepthAtMost(env, most)
    requires Fits(env, s, i, vs) && ShapesFrom(env, types, s, i, vs) && fuel > 0
    ensures FuelFacts(env, types, h, TouchesFrom(env, s, i, vs),
      RunBody(env, s, i, h, vs, fuel).OutOfFuel?, fuel, most, n, env.depth[s])
    decreases fuel, 1, |vs| - i
  {
    hide RunBody, FieldRun, Touches, TouchesFrom, ResetValue, ResetFrom, HeapOk, Sweep, HasShape, ShapesFrom;
    hide AllCompile, Compiles, Need, DepthAtMost, Out, Bounded;
    BodyStep(env, s, i, h, vs, fuel);
    if i == |vs| {
      NoFieldsLeft(env, types, s, h, vs, fuel);
      hide WellFormedEnv;
    } else {
      FieldIsAddressed(env, s, i, vs);
      SplitFields(env, types, s, i, vs);
      var f := env.structs[s][i];
      assert Depth(env, f.typ) <= env.depth[s];
      hide WellFormedEnv;
      FieldFuel(env, types, Receiver(s), env.structs[s], i, h, vs, fuel, most, n, env.depth[s]);
      var a, vs1 := Touches(env, f.typ, vs[i]), vs[i := ResetValue(env, f.typ, vs[i])];
      var b := TouchesFrom(env, s, i + 1, vs1);
      BoundedUnion(env, types, h, a, b, fuel);
      BoundedUnion(env, types, h, a, b, n);
      if !FieldRun(env, Receiver(s), env.structs[s], i, h, vs, fuel).OutOfFuel? {
        FieldCorrect(env, types, Receiver(s), env.structs[s], i, h, vs, fuel);
        SweepThenSweep(env, types, h, a, b);
        BodyFuel(env, types, s, i + 1, Sweep(env, types, h, a), vs1, fuel, most, n);
        BoundedSame(env, types, h, Sweep(env, types, h, a), b, fuel);
        BoundedSame(env, types, h, Sweep(env, types, h, a), b, n);
      }
    }
  }

  lemma NoFieldsLeft(env: Env, types: Types, s: string, h: Heap, vs: seq<Value>, fuel: nat)
    requires WellFormedEnv(env) && Fits(env, s, |vs|, vs)
    ensures Bounded(env, types, h, TouchesFrom(env, s, |vs|, vs), fuel)
  {}

  /** Enough fuel for the code of one field, and no more than its chains account for. */
  ghost predicate FieldFuelFacts(
      env: Env, types: Types, recv: string, fs: seq<Field>, i: nat, h: Heap, vs: seq<Value>,
      fuel: nat, most: nat, n: nat, d: nat)
    requires Ready(env, types, recv, fs, i, h, vs) && fuel > 0
  {
    FuelFacts(env, types, h, Touches(env, fs[i].typ, vs[i]),
      FieldRun(env, recv, fs, i, h, vs, fuel).OutOfFuel?, fuel, most, n, d)
  }

  lemma {:induction false} FieldFuel(
      env: Env, types: Types, recv: string, fs: seq<Field>, i: nat, h: Heap, vs: seq<Value>,
      fuel: nat, most: nat, n: nat, d: nat)
    requires Ready(env, types, recv, fs, i, h, vs) && fuel > 0 && DepthAtMost(env, most) && Depth(env, fs[i].typ) <= d
    ensures FieldFuelFacts(env, types, recv, fs, i, h, vs, fuel, most, n, d)
    decreases fuel, 0, 2
  {
    hide HeapOk, AllCompile, FieldFuelFacts, HasShape, WellFormedEnv, DepthAtMost, Depth, Compiles;
    if IsMarked(env, fs[i].typ) {
      StructFieldFuel(env, types, recv, fs, i, h, vs, fuel, most, n, d);
    } else if fs[i].typ.Star? {
      PointerFieldFuel(env, types, recv, fs, i, h, vs, fuel, most, n, d);
    } else {
      PlainFieldFuel(env, types, recv, fs, i, h, vs, fuel, most, n, d);
    }
  }

  lemma PlainFieldFuel(
      env: Env, types: Types, recv: string, fs: seq<Field>, i: nat, h: Heap, vs: seq<Value>,
      fuel: nat, most: nat, n: nat, d: nat)
    requires Ready(env, types, recv, fs, i, h, vs) && fuel > 0 && !IsMarked(env, fs[i].typ) && !fs[i].typ.Star?
    ensures FieldFuelFacts(env, types, recv, fs, i, h, vs, fuel, most, n, d)
  {
    hide HeapOk, AllCompile, FuelFacts, FieldRun, HasShape, WellFormedEnv, Sweep, Compiles, Touches;
    PlainField(env, types, recv, fs, i, h, vs, fuel);
    PlainTouches(env, types, fs[i].typ, vs[i]);
    FuelFree(env, types, h, Touches(env, fs[i].typ, vs[i]), fuel, most, n, d);
  }

  lemma PlainTouches(env: Env, types: Types, t: Expr, v: Value)
    requires WellFormedEnv(env) && !IsMarked(env, t) && !t.Star?
    ensures forall r | r in Touches(env, t, v) :: !Followed(env, types, r)
  {
    hide WellFormedEnv;
  }

  lemma {:induction false} StructFieldFuel(
      env: Env, types: Types, recv: string, fs: seq<Field>, i: nat, h: Heap, vs: seq<Value>,
      fuel: nat, most: nat, n: nat, d: nat)
    requires i < |fs| == |vs| && WellFormedEnv(env)
    requires Ready(env, types, recv, fs, i, h, vs) && fuel > 0 && DepthAtMost(env, most) && Depth(env, fs[i].typ) <= d
    requires IsMarked(env, fs[i].typ)
    ensures FieldFuelFacts(env, types, recv, fs, i, h, vs, fuel, most, n, d)
    decreases fuel, 0, 1
  {
    hide FieldRun, Good, Run, ResetFrom, TouchesFrom, ShapesFrom, Touches, ResetValue, HasShape, WellFormedEnv;
    hide Compiles, IsMarked, Fits, Depth, FuelFacts, DepthAtMost;
    var t, v := fs[i].typ, vs[i];
    StructShape(env, types, t, v);
    CallOnField(env, recv, fs, i, h, vs, fuel);
    RunFuel(env, types, t.name, h, v.fields, fuel - 1, most, n);
    OneFuelMore(env, types, h, Touches(env, t, v), Run(env, t.name, h, v.fields, fuel - 1).OutOfFuel?,
      fuel, most, n, env.depth[t.name], d);
  }

  lemma {:induction false} PointerFieldFuel(
      env: Env, types: Types, recv: string, fs: seq<Field>, i: nat, h: Heap, vs: seq<Value>,
      fuel: nat, most: nat, n: nat, d: nat)
    requires Ready(env, types, recv, fs, i, h, vs) && fuel > 0 && DepthAtMost(env, most) && fs[i].typ.Star?
    ensures FieldFuelFacts(env, types, recv, fs, i, h, vs, fuel, most, n, d)
    decreases fuel, 0, 1
  {
    var x, v := fs[i].typ.x, vs[i];
    hide AllCompile, FuelFacts, FieldRun, PointeeRun, WellFormedEnv, DepthAtMost, Compiles, Sweep;
    PointerField(env, recv, fs, i, h, vs, fuel);
    FieldOfPointee(env, recv, fs[i]);
    if v.to.None? {
      FuelFree(env, types, h, {}, fuel, most, n, d);
    } else if IsMarked(env, x) {
      PtrFuel(env, types, recv, x, h, vs, v.to.value, fuel, most, n, d);
    } else {
      PlainPointee(env, types, recv, x, h, vs, v.to.value, fuel);
      FuelFree(env, types, h, {ToCell(v.to.value)}, fuel, most, n, d);
    }
  }

  lemma {:induction false} PtrFuel(
      env: Env, types: Types, recv: string, x: Expr, h: Heap, vs: seq<Value>, l: nat,
      fuel: nat, most: nat, n: nat, d: nat)
    requires WellFormedEnv(env) && Good(env, types, h) && DepthAtMost(env, most) && fuel > 0
    requires IsMarked(env, x) && l in types && types[l] == x && l in h.cells
    ensures FuelFacts(env, types, h, {ToCell(l)}, PointeeRun(env, recv, x, h, vs, l, fuel).OutOfFuel?, fuel, most, n, d)
    decreases fuel, 0, 0
  {
    hide HeapOk, AllCompile, ShapesFrom, TouchesFrom, FuelFacts, PointeeRun, Run, WellFormedEnv, ResetCell, Out;
    hide DepthAtMost, ResetFrom;
    CellShape(env, types, h, l);
    CallOnPointee(env, recv, x, h, vs, l, fuel);
    RunFuel(env, types, x.name, h, h.cells[l].fields, fuel - 1, most, if n == 0 then 0 else n - 1);
    FuelOfCell(env, types, h, l, Run(env, x.name, h, h.cells[l].fields, fuel - 1).OutOfFuel?, fuel, most, n, d);
  }

  lemma FuelOfCell(env: Env, types: Types, h: Heap, l: nat, out: bool, fuel: nat, most: nat, n: nat, d: nat)
    requires WellFormedEnv(env) && Followed(env, types, ToCell(l)) && DepthAtMost(env, most) && fuel > 0
    requires FuelFacts(env, types, h, Out(env, types, h, ToCell(l)), out, fuel - 1, most,
      if n == 0 then 0 else n - 1, env.depth[types[l].name])
    ensures FuelFacts(env, types, h, {ToCell(l)}, out, fuel, most, n, d)
  {
    BoundedCell(env, types, h, l, fuel);
    BoundedCell(env, types, h, l, n);
    var depth := env.depth[types[l].name];
    if n > 0 {
      assert Need(most, n, d) == Need(most, n - 1, most) + d + 1;
      NeedMore(most, n - 1, depth, most);
    }
    hide Bounded, Out, Need;
  }

  lemma NeedMore(most: nat, n: nat, d: nat, e: nat)
    requires d <= e
    ensures Need(most, n, d) <= Need(most, n, e)
  {}

  lemma BoundedCell(env: Env, types: Types, h: Heap, l: nat, n: nat)
    requires WellFormedEnv(env) && Followed(env, types, ToCell(l))
    ensures Bounded(env, types, h, {ToCell(l)}, n) <==>
      n > 0 && Bounded(env, types, h, Out(env, types, h, ToCell(l)), n - 1)
  {
    assert ToCell(l) in {ToCell(l)};
    hide Out, Followed;
  }

  /** Code that enters no marked struct needs no fuel of its own. */
  lemma FuelFree(env: Env, types: Types, h: Heap, start: set<Ref>, fuel: nat, most: nat, n: nat, d: nat)
    requires WellFormedEnv(env) && forall r | r in start :: !Followed(env, types, r)
    ensures FuelFacts(env, types, h, start, false, fuel, most, n, d)
  {
    hide Out;
  }

  /** A struct inside another by value: one call deeper. */
  lemma OneFuelMore(
      env: Env, types: Types, h: Heap, start: set<Ref>, out: bool, fuel: nat, most: nat, n: nat, inner: nat, d: nat)
    requires WellFormedEnv(env) && fuel > 0 && inner + 1 <= d
    requires FuelFacts(env, types, h, start, out, fuel - 1, most, n, inner)
    ensures FuelFacts(env, types, h, start, out, fuel, most, n, d)
  {
    if !out {
      BoundedMore(env, types, h, start, fuel - 1, fuel);
    }
    hide Bounded;
  }

  // ---- main results --------------------------------------------------------------------

  /** Some amount of fuel is enough: the Reset method returns. */
  ghost predicate Returns(env: Env, s: string, h: Heap, vs: seq<Value>)
    requires WellFormedEnv(env)
  {
    exists fuel :: !Run(env, s, h, vs, fuel).OutOfFuel?
  }

  lemma ReturningIsBounded(env: Env, types: Types, s: string, h: Heap, vs: seq<Value>) returns (n: nat)
    requires WellFormedEnv(env) && Good(env, types, h) && s in env.marked
    requires Fits(env, s, 0, vs) && ShapesFrom(env, types, s, 0, vs) && Returns(env, s, h, vs)
    ensures Bounded(env, types, h, TouchesFrom(env, s, 0, vs), n)
  {
    hide TouchesFrom, ShapesFrom, Run, Bounded, Good, WellFormedEnv, Need;
    var most := SomeDepth(env.depth);
    n :| !Run(env, s, h, vs, n).OutOfFuel?;
    RunFuel(env, types, s, h, vs, n, most, 0);
  }

  lemma BoundedReturns(env: Env, types: Types, s: string, h: Heap, vs: seq<Value>, n: nat)
    requires WellFormedEnv(env) && Good(env, types, h) && s in env.marked
    requires Fits(env, s, 0, vs) && ShapesFrom(env, types, s, 0, vs)
    requires Bounded(env, types, h, TouchesFrom(env, s, 0, vs), n)
    ensures Returns(env, s, h, vs)
  {
    hide TouchesFrom, ShapesFrom, Run, Bounded, Good, Need;
    var most := SomeDepth(env.depth);
    RunFuel(env, types, s, h, vs, Need(most, n, env.depth[s]), most, n);
  }

  /** Reset returns exactly when no marked struct behind the receiver's pointers leads back to itself. */
  lemma ReturnsExactlyWhenAcyclic(env: Env, types: Types, s: string, h: Heap, vs: seq<Value>)
    requires WellFormedEnv(env) && Good(env, types, h) && s in env.marked
    requires Fits(env, s, 0, vs) && ShapesFrom(env, types, s, 0, vs)
    ensures Returns(env, s, h, vs) <==> Acyclic(env, types, h, TouchesFrom(env, s, 0, vs))
  {
    var start := TouchesFrom(env, s, 0, vs);
    hide TouchesFrom, ShapesFrom, Returns, Bounded, Acyclic, Good;
    BoundedExactlyWhenAcyclic(env, types, h, start);
    if Returns(env, s, h, vs) {
      var n := ReturningIsBounded(env, types, s, h, vs);
    }
    if n :| Bounded(env, types, h, start, n) {
      BoundedReturns(env, types, s, h, vs, n);
    }
  }

  /** What a Reset leaves: every field, cell and map in its reset form, and all else as it was. */
  ghost predicate Resets(env: Env, types: Types, s: string, h: Heap, vs: seq<Value>, after: Outcome)
    requires WellFormedEnv(env) && HeapOk(env, types, h) && Fits(env, s, 0, vs)
  {
    var reached := Reached(env, types, h, TouchesFrom(env, s, 0, vs));
    && after.Done? && |after.vs| == |vs|
    && after.h.cells.Keys == h.cells.Keys && after.h.maps.Keys == h.maps.Keys
    && (forall i | 0 <= i < |vs| :: after.vs[i] == ResetValue(env, env.structs[s][i].typ, vs[i]))
    && (forall l | l in h.cells :: after.h.cells[l] ==
          if ToCell(l) in reached then ResetCell(env, types[l], h.cells[l]) else h.cells[l])
    && (forall m | m in h.maps :: after.h.maps[m] == if ToMap(m) in reached then map[] else h.maps[m])
  }

  lemma SweptResets(env: Env, types: Types, s: string, h: Heap, vs: seq<Value>)
    requires WellFormedEnv(env) && HeapOk(env, types, h) && Fits(env, s, 0, vs)
    ensures Resets(env, types, s, h, vs,
      Done(Sweep(env, types, h, TouchesFrom(env, s, 0, vs)), ResetFrom(env, s, 0, vs)))
  {
    hide Reached, ResetValue, ResetCell, WellFormedEnv, HasShape, TouchesFrom;
    assert env.structs[s][0..] == env.structs[s] && vs[0..] == vs;
  }

  /** On a receiver no marked struct of which leads back to itself, Reset returns and has reset it. */
  lemma ResetIsCorrect(env: Env, types: Types, s: string, h: Heap, vs: seq<Value>)
    requires WellFormedEnv(env) && Good(env, types, h) && s in env.marked
    requires Fits(env, s, 0, vs) && ShapesFrom(env, types, s, 0, vs)
    requires Acyclic(env, types, h, TouchesFrom(env, s, 0, vs))
    ensures Returns(env, s, h, vs)
    ensures forall fuel | !Run(env, s, h, vs, fuel).OutOfFuel? :: Resets(env, types, s, h, vs, Run(env, s, h, vs, fuel))
  {
    ReturnsExactlyWhenAcyclic(env, types, s, h, vs);
    SweptResets(env, types, s, h, vs);
    hide Returns, Run, Resets, Acyclic, TouchesFrom, ShapesFrom, ResetFrom, Sweep, WellFormedEnv;
    forall fuel | !Run(env, s, h, vs, fuel).OutOfFuel?
      ensures Resets(env, types, s, h, vs, Run(env, s, h, vs, fuel))
    {
      RunCorrect(env, types, s, h, vs, fuel);
    }
  }

  /** The receiver after a Reset has the shape and the links it had, and is its own reset form. */
  lemma ReceiverAfter(env: Env, types: Types, s: string, vs: seq<Value>)
    requires WellFormedEnv(env) && s in env.marked && Fits(env, s, 0, vs) && ShapesFrom(env, types, s, 0, vs)
    ensures var ws := ResetFrom(env, s, 0, vs);
      && Fits(env, s, 0, ws) && ShapesFrom(env, types, s, 0, ws)
      && TouchesFrom(env, s, 0, ws) == TouchesFrom(env, s, 0, vs) && ResetFrom(env, s, 0, ws) == ws
  {
    var ws := ResetFrom(env, s, 0, vs);
    WholeReceiver(env, types, s, vs);
    WholeReceiver(env, types, s, ws);
    ResetFacts(env, types, Ident(s), StructV(vs));
    hide TouchesFrom, ShapesFrom, ResetFrom, ResetValue, Touches, HasShape;
  }

  /** A second Reset returns too and changes nothing. */
  lemma ResetTwice(env: Env, types: Types, s: string, h: Heap, vs: seq<Value>, once: nat, again: nat)
    requires WellFormedEnv(env) && Good(env, types, h) && s in env.marked
    requires Fits(env, s, 0, vs) && ShapesFrom(env, types, s, 0, vs)
    requires Run(env, s, h, vs, once).Done?
    ensures var first := Run(env, s, h, vs, once);
      && Returns(env, s, first.h, first.vs)
      && (Run(env, s, first.h, first.vs, again).OutOfFuel? || Run(env, s, first.h, first.vs, again) == first)
  {
    var start := TouchesFrom(env, s, 0, vs);
    var h1, ws := Sweep(env, types, h, start), ResetFrom(env, s, 0, vs);
    RunCorrect(env, types, s, h, vs, once);
    ReceiverAfter(env, types, s, vs);
    assert Good(env, types, h1) && Sweep(env, types, h1, start) == h1 by {
      SweepThenSweep(env, types, h, start, start);
      assert start + start == start;
      hide Sweep, TouchesFrom, HeapOk, ShapesFrom, ResetFrom, Run, Reached;
    }
    ReturnsAgain(env, types, s, h, vs, once);
    hide Sweep, TouchesFrom, Good, ShapesFrom, ResetFrom, Run, Returns, WellFormedEnv;
    if !Run(env, s, h1, ws, again).OutOfFuel? {
      RunCorrect(env, types, s, h1, ws, again);
    }
  }

  lemma ReturnsAgain(env: Env, types: Types, s: string, h: Heap, vs: seq<Value>, once: nat)
    requires WellFormedEnv(env) && Good(env, types, h) && s in env.marked
    requires Fits(env, s, 0, vs) && ShapesFrom(env, types, s, 0, vs)
    requires Run(env, s, h, vs, once).Done?
    ensures Returns(env, s, Sweep(env, types, h, TouchesFrom(env, s, 0, vs)), ResetFrom(env, s, 0, vs))
  {
    var start := TouchesFrom(env, s, 0, vs);
    var h1 := Sweep(env, types, h, start);
    assert Returns(env, s, h, vs);
    hide TouchesFrom, ShapesFrom, ResetFrom, Run, Returns, WellFormedEnv, HeapOk;
    ReturnsExactlyWhenAcyclic(env, types, s, h, vs);
    ReceiverAfter(env, types, s, vs);
    SweepThenSweep(env, types, h, start, start);
    AcyclicSame(env, types, h, h1, start);
    hide Acyclic, Sweep, AllCompile;
    ReturnsExactlyWhenAcyclic(env, types, s, h1, ResetFrom(env, s, 0, vs));
  }

  lemma AcyclicSame(env: Env, types: Types, h: Heap, g: Heap, start: set<Ref>)
    requires WellFormedEnv(env) && forall r :: Out(env, types, g, r) == Out(env, types, h, r)
    ensures Acyclic(env, types, g, start) == Acyclic(env, types, h, start)
  {
    hide Out, Reached, Followed;
    ReachSame(env, types, h, g, start);
    forall r ensures Reached(env, types, g, Out(env, types, g, r)) == Reached(env, types, h, Out(env, types, h, r)) {
      ReachSame(env, types, h, g, Out(env, types, h, r));
    }
  }

  // ---- a receiver that leads back to itself --------------------------------------------

  /** type Node struct { next *Node }, marked. */
  const NODE := Env(
    map["Node" := [Field("next", Star(Ident("Node")))]], map[], {}, {"Node"}, {}, {}, map["Node" := 0], map[], map[])

  /** One node whose next is itself. */
  const LOOP := Heap(map[0 := StructV([PtrV(Some(0))])], map[])

  lemma {:induction false} LoopNeverReturns(fuel: nat)
    ensures WellFormedEnv(NODE) && AllCompile(NODE)
    ensures Run(NODE, "Node", LOOP, [PtrV(Some(0))], fuel) == OutOfFuel
  {
    NodeIsPackage();
    NodeCompiles();
    hide WellFormedEnv, AllCompile;
    if fuel > 0 {
      LoopNeverReturns(fuel - 1);
      LoopStep([PtrV(Some(0))], fuel);
    }
  }

  lemma NodeIsPackage()
    ensures WellFormedEnv(NODE)
  {}

  lemma NodeCompiles()
    ensures WellFormedEnv(NODE) && AllCompile(NODE)
  {
    NodeIsPackage();
    hide WellFormedEnv;
    assert Receiver("Node") == "n";
  }

  lemma LoopStep(vs: seq<Value>, fuel: nat)
    requires WellFormedEnv(NODE) && fuel > 0 && vs == [PtrV(Some(0))]
    requires Run(NODE, "Node", LOOP, vs, fuel - 1) == OutOfFuel
    ensures Run(NODE, "Node", LOOP, vs, fuel) == OutOfFuel
  {
    var fs := NODE.structs["Node"];
    hide WellFormedEnv;
    assert Compile("next", Star(Ident("Node")), NODE.marked) == IfNotNil("next", CallPtrReset);
    assert Index(fs, "next") == 0;
    assert ExecPtr(NODE, Receiver("Node"), Ident("Node"), CallPtrReset, LOOP, vs, 0, fuel) == OutOfFuel;
    assert Exec(NODE, Receiver("Node"), fs, IfNotNil("next", CallPtrReset), LOOP, vs, fuel) == OutOfFuel;
    assert RunBody(NODE, "Node", 0, LOOP, vs, fuel) == OutOfFuel;
  }
}
