/**
 * The generated Reset methods are correct: whenever a run returns, every field of the receiver and
 * every cell and map it reaches is in its reset form and nothing else has changed, whatever the
 * pointers look like.  When a run returns is the subject of ResetTermination.
 */
module ResetCorrect {
  import opened Options
  import opened GoTypes
  import opened ResetGen
  import opened ResetSemantics

  /** The types of the fields nest at most d deep. */
  ghost predicate Nested(env: Env, fs: seq<Field>, d: nat)
  {
    forall i :: 0 <= i < |fs| ==> Depth(env, fs[i].typ) <= d
  }

  // ---- the reset form ------------------------------------------------------------------

  /** What a field of type t holding v holds afterwards. */
  function ResetValue(env: Env, t: Expr, v: Value): Value
    requires WellFormedEnv(env)
    decreases Depth(env, t), 0, 0
  {
    match t
    case Ident(n) =>
      if n in env.marked then
        if v.StructV? && |v.fields| == |env.structs[n]| then
          StructV(ResetFields(env, env.structs[n], v.fields, env.depth[n]))
        else v
      else Fresh(env, t)
    case Slice(_) => if v.SliceV? then SliceV(v.base, 0, v.cap) else v
    case Array(_, _) => Zero(env, t)
    case Selector(_, _) => if t in env.foreign then ExtV(env.foreign[t]) else v
    case Interface(_) => RefV(None)
    case Func => RefV(None)
    case Chan => RefV(None)
    case _ => v      // pointers and maps are kept, and so is what the generator does not support
  }

  function ResetFields(env: Env, fs: seq<Field>, vs: seq<Value>, d: nat): (r: seq<Value>)
    requires WellFormedEnv(env) && |fs| == |vs| && Nested(env, fs, d)
    ensures |r| == |fs| && forall i :: 0 <= i < |fs| ==> r[i] == ResetValue(env, fs[i].typ, vs[i])
    decreases d, 1, |fs|
  {
    if fs == [] then [] else [ResetValue(env, fs[0].typ, vs[0])] + ResetFields(env, fs[1..], vs[1..], d)
  }

  /** What a cell of type t behind a pointer field holds afterwards. */
  function ResetCell(env: Env, t: Expr, v: Value): Value
    requires WellFormedEnv(env)
  {
    if t.Slice? || t.Map? then Fresh(env, t) else ResetValue(env, t, v)
  }

  // ---- what a receiver reaches ---------------------------------------------------------

  /** A cell of the heap, or a map object. */
  datatype Ref = ToCell(loc: nat) | ToMap(loc: nat)

  /** The cells and maps the fields of a value lead to; only marked structs are entered. */
  function Touches(env: Env, t: Expr, v: Value): set<Ref>
    requires WellFormedEnv(env)
    decreases Depth(env, t), 0, 0
  {
    match t
    case Ident(n) =>
      if n in env.marked && v.StructV? && |v.fields| == |env.structs[n]| then
        TouchesFields(env, env.structs[n], v.fields, env.depth[n])
      else {}
    case Star(_) => if v.PtrV? && v.to.Some? then {ToCell(v.to.value)} else {}
    case Map(_, _) => if v.MapV? && v.ref.MapAt? then {ToMap(v.ref.loc)} else {}
    case _ => {}
  }

  function TouchesFields(env: Env, fs: seq<Field>, vs: seq<Value>, d: nat): (r: set<Ref>)
    requires WellFormedEnv(env) && |fs| == |vs| && Nested(env, fs, d)
    ensures forall i :: 0 <= i < |fs| ==> Touches(env, fs[i].typ, vs[i]) <= r
    ensures forall x | x in r :: exists i :: 0 <= i < |fs| && x in Touches(env, fs[i].typ, vs[i])
    decreases d, 1, |fs|
  {
    if fs == [] then {} else Touches(env, fs[0].typ, vs[0]) + TouchesFields(env, fs[1..], vs[1..], d)
  }

  type Types = map<nat, Expr>   // the type of every cell

  /** A cell holding a marked struct: its own fields are reset in turn. */
  predicate Followed(env: Env, types: Types, r: Ref)
  {
    r.ToCell? && r.loc in types && IsMarked(env, types[r.loc])
  }

  function Out(env: Env, types: Types, h: Heap, r: Ref): set<Ref>
    requires WellFormedEnv(env)
  {
    if Followed(env, types, r) && r.loc in h.cells then Touches(env, types[r.loc], h.cells[r.loc]) else {}
  }

  ghost predicate Path(env: Env, types: Types, h: Heap, p: seq<Ref>)
    requires WellFormedEnv(env)
  {
    forall i :: 0 <= i < |p| - 1 ==> p[i + 1] in Out(env, types, h, p[i])
  }

  ghost predicate Reach(env: Env, types: Types, h: Heap, start: set<Ref>, r: Ref)
    requires WellFormedEnv(env)
  {
    exists p :: p != [] && p[0] in start && p[|p| - 1] == r && Path(env, types, h, p)
  }

  ghost function Reached(env: Env, types: Types, h: Heap, start: set<Ref>): iset<Ref>
    requires WellFormedEnv(env)
  {
    iset r | Reach(env, types, h, start, r)
  }

  /** The heap with every cell of d in its reset form and every map of d empty, all else as it was. */
  ghost function Swept(env: Env, types: Types, h: Heap, d: iset<Ref>): Heap
    requires WellFormedEnv(env) && h.cells.Keys <= types.Keys
  {
    Heap(map l | l in h.cells :: if ToCell(l) in d then ResetCell(env, types[l], h.cells[l]) else h.cells[l],
         map m | m in h.maps :: if ToMap(m) in d then map[] else h.maps[m])
  }

  // ---- well-typed values ---------------------------------------------------------------

  /** What Go's types say about a field the generated code looks at. */
  predicate HasShape(env: Env, types: Types, t: Expr, v: Value)
    requires WellFormedEnv(env)
    decreases Depth(env, t), 0, 0
  {
    match t
    case Ident(n) => n in env.marked ==>
      v.StructV? && |v.fields| == |env.structs[n]| && HasShapes(env, types, env.structs[n], v.fields, env.depth[n])
    case Star(x) => v.PtrV? && (v.to.Some? ==> v.to.value in types && types[v.to.value] == x)
    case Slice(_) => v.SliceV?
    case Map(_, _) => v.MapV?
    case _ => true
  }

  predicate HasShapes(env: Env, types: Types, fs: seq<Field>, vs: seq<Value>, d: nat)
    requires WellFormedEnv(env) && |fs| == |vs| && Nested(env, fs, d)
    decreases d, 1, 0
  {
    forall i :: 0 <= i < |fs| ==> HasShape(env, types, fs[i].typ, vs[i])
  }

  ghost predicate HeapOk(env: Env, types: Types, h: Heap)
    requires WellFormedEnv(env)
  {
    && h.cells.Keys == types.Keys
    && forall l | l in types && IsMarked(env, types[l]) :: HasShape(env, types, types[l], h.cells[l])
  }

  // ---- resetting keeps shapes and links, and is idempotent -----------------------------

  lemma {:induction false} ResetFacts(env: Env, types: Types, t: Expr, v: Value)
    requires WellFormedEnv(env) && HasShape(env, types, t, v)
    ensures HasShape(env, types, t, ResetValue(env, t, v))
    ensures Touches(env, t, ResetValue(env, t, v)) == Touches(env, t, v)
    ensures ResetValue(env, t, ResetValue(env, t, v)) == ResetValue(env, t, v)
    decreases Depth(env, t), 0, 0
  {
    if IsMarked(env, t) {
      var fs, vs, d := env.structs[t.name], v.fields, env.depth[t.name];
      var ws := ResetFields(env, fs, vs, d);
      ResetFieldsFacts(env, types, fs, vs, d);
    }
  }

  lemma {:induction false} ResetFieldsFacts(env: Env, types: Types, fs: seq<Field>, vs: seq<Value>, d: nat)
    requires WellFormedEnv(env) && |fs| == |vs| && Nested(env, fs, d)
    requires HasShapes(env, types, fs, vs, d)
    ensures var ws := ResetFields(env, fs, vs, d);
      && HasShapes(env, types, fs, ws, d)
      && TouchesFields(env, fs, ws, d) == TouchesFields(env, fs, vs, d)
      && ResetFields(env, fs, ws, d) == ws
    decreases d, 1, |fs|
  {
    var ws := ResetFields(env, fs, vs, d);
    forall i | 0 <= i < |fs|
      ensures HasShape(env, types, fs[i].typ, ws[i])
      ensures Touches(env, fs[i].typ, ws[i]) == Touches(env, fs[i].typ, vs[i])
      ensures ResetValue(env, fs[i].typ, ws[i]) == ws[i]
    {
      ResetFacts(env, types, fs[i].typ, vs[i]);
    }
    assert ResetFields(env, fs, ws, d) == ws;
  }

  lemma ResetCellFacts(env: Env, types: Types, t: Expr, v: Value)
    requires WellFormedEnv(env) && (IsMarked(env, t) ==> HasShape(env, types, t, v))
    ensures ResetCell(env, t, ResetCell(env, t, v)) == ResetCell(env, t, v)
    ensures IsMarked(env, t) ==> HasShape(env, types, t, ResetCell(env, t, v))
    ensures IsMarked(env, t) ==> Touches(env, t, ResetCell(env, t, v)) == Touches(env, t, v)
  {
    if IsMarked(env, t) {
      ResetFacts(env, types, t, v);
    }
    hide HasShape, Touches;
  }

  lemma SweptKeepsHeap(env: Env, types: Types, h: Heap, d: iset<Ref>)
    requires WellFormedEnv(env) && HeapOk(env, types, h)
    ensures HeapOk(env, types, Swept(env, types, h, d))
    ensures forall r :: Out(env, types, Swept(env, types, h, d), r) == Out(env, types, h, r)
  {
    hide HasShape, Touches, ResetCell;
    forall l | l in types
      ensures IsMarked(env, types[l]) ==> HasShape(env, types, types[l], ResetCell(env, types[l], h.cells[l]))
      ensures IsMarked(env, types[l]) ==>
        Touches(env, types[l], ResetCell(env, types[l], h.cells[l])) == Touches(env, types[l], h.cells[l])
    {
      ResetCellFacts(env, types, types[l], h.cells[l]);
    }
  }

  lemma SweptCellsTwice(env: Env, types: Types, h: Heap, d: iset<Ref>, e: iset<Ref>)
    requires WellFormedEnv(env) && HeapOk(env, types, h)
    ensures Swept(env, types, Swept(env, types, h, d), e).cells == Swept(env, types, h, d + e).cells
  {
    forall l | l in types
      ensures ResetCell(env, types[l], ResetCell(env, types[l], h.cells[l])) == ResetCell(env, types[l], h.cells[l])
    {
      ResetCellFacts(env, types, types[l], h.cells[l]);
    }
    hide HasShape, Touches, ResetCell, WellFormedEnv;
  }

  lemma SweptTwice(env: Env, types: Types, h: Heap, d: iset<Ref>, e: iset<Ref>)
    requires WellFormedEnv(env) && HeapOk(env, types, h)
    ensures HeapOk(env, types, Swept(env, types, h, d))
    ensures Swept(env, types, Swept(env, types, h, d), e) == Swept(env, types, h, d + e)
  {
    SweptKeepsHeap(env, types, h, d);
    SweptCellsTwice(env, types, h, d, e);
    hide HeapOk, ResetCell, WellFormedEnv;
    assert Swept(env, types, Swept(env, types, h, d), e).maps == Swept(env, types, h, d + e).maps;
    hide Swept;
  }

  // ---- reachability --------------------------------------------------------------------

  lemma ReachSame(env: Env, types: Types, h: Heap, g: Heap, start: set<Ref>)
    requires WellFormedEnv(env) && forall r :: Out(env, types, g, r) == Out(env, types, h, r)
    ensures Reached(env, types, g, start) == Reached(env, types, h, start)
  {
    hide Out, WellFormedEnv;
    forall p ensures Path(env, types, g, p) == Path(env, types, h, p) {}
    hide Path;
  }

  lemma ReachUnion(env: Env, types: Types, h: Heap, a: set<Ref>, b: set<Ref>)
    requires WellFormedEnv(env)
    ensures Reached(env, types, h, a + b) == Reached(env, types, h, a) + Reached(env, types, h, b)
  {
    hide Path;
  }

  lemma ReachNone(env: Env, types: Types, h: Heap)
    requires WellFormedEnv(env)
    ensures Reached(env, types, h, {}) == iset{}
  {}

  lemma FirstStep(env: Env, types: Types, h: Heap, x: Ref, r: Ref)
    requires WellFormedEnv(env) && Reach(env, types, h, {x}, r) && r != x
    ensures Reach(env, types, h, Out(env, types, h, x), r)
  {
    hide Out, WellFormedEnv;
    var p :| p != [] && p[0] in {x} && p[|p| - 1] == r && Path(env, types, h, p);
    var q := p[1..];
    assert p[0 + 1] in Out(env, types, h, p[0]);
    assert q != [] && q[0] in Out(env, types, h, x) && q[|q| - 1] == r;
    forall i | 0 <= i < |q| - 1 ensures q[i + 1] in Out(env, types, h, q[i]) {
      assert p[(i + 1) + 1] in Out(env, types, h, p[i + 1]);
    }
  }

  lemma PrependStep(env: Env, types: Types, h: Heap, x: Ref, r: Ref)
    requires WellFormedEnv(env) && Reach(env, types, h, Out(env, types, h, x), r)
    ensures Reach(env, types, h, {x}, r)
  {
    hide Out, WellFormedEnv;
    var q :| q != [] && q[0] in Out(env, types, h, x) && q[|q| - 1] == r && Path(env, types, h, q);
    var p := [x] + q;
    forall i | 0 <= i < |p| - 1 ensures p[i + 1] in Out(env, types, h, p[i]) {
      if i > 0 {
        assert q[(i - 1) + 1] in Out(env, types, h, q[i - 1]);
      }
    }
    assert p != [] && p[0] in {x} && p[|p| - 1] == r;
  }

  lemma ReachOne(env: Env, types: Types, h: Heap, x: Ref)
    requires WellFormedEnv(env)
    ensures Reached(env, types, h, {x}) == iset{x} + Reached(env, types, h, Out(env, types, h, x))
  {
    assert [x] != [] && [x][0] in {x} && Path(env, types, h, [x]);
    assert Reach(env, types, h, {x}, x);
    hide Out, Reach, WellFormedEnv;
    forall r | Reach(env, types, h, {x}, r) && r != x ensures Reach(env, types, h, Out(env, types, h, x), r) {
      FirstStep(env, types, h, x, r);
    }
    forall r | Reach(env, types, h, Out(env, types, h, x), r) ensures Reach(env, types, h, {x}, r) {
      PrependStep(env, types, h, x, r);
    }
  }

  /** The heap after everything reached from the start has been reset. */
  ghost function Sweep(env: Env, types: Types, h: Heap, start: set<Ref>): Heap
    requires WellFormedEnv(env) && HeapOk(env, types, h)
  {
    Swept(env, types, h, Reached(env, types, h, start))
  }

  /** Two sweeps one after the other are the sweep of what both starts reach. */
  lemma SweepThenSweep(env: Env, types: Types, h: Heap, a: set<Ref>, b: set<Ref>)
    requires WellFormedEnv(env) && HeapOk(env, types, h)
    ensures HeapOk(env, types, Sweep(env, types, h, a))
    ensures Sweep(env, types, Sweep(env, types, h, a), b) == Sweep(env, types, h, a + b)
    ensures forall r :: Out(env, types, Sweep(env, types, h, a), r) == Out(env, types, h, r)
  {
    var h1 := Swept(env, types, h, Reached(env, types, h, a));
    hide Swept, Reached, HeapOk, Out;
    SweptKeepsHeap(env, types, h, Reached(env, types, h, a));
    ReachSame(env, types, h, h1, b);
    ReachUnion(env, types, h, a, b);
    SweptTwice(env, types, h, Reached(env, types, h, a), Reached(env, types, h, b));
  }

  // ---- the fields of one receiver ------------------------------------------------------

  /** The receiver's field values fit the struct. */
  predicate Fits(env: Env, s: string, i: nat, vs: seq<Value>)
  {
    s in env.structs && s in env.depth && i <= |env.structs[s]| == |vs|
  }

  function TouchesFrom(env: Env, s: string, i: nat, vs: seq<Value>): set<Ref>
    requires WellFormedEnv(env) && Fits(env, s, i, vs)
  {
    TouchesFields(env, env.structs[s][i..], vs[i..], env.depth[s])
  }

  /** The values with every field from the i-th on in its reset form. */
  function ResetFrom(env: Env, s: string, i: nat, vs: seq<Value>): seq<Value>
    requires WellFormedEnv(env) && Fits(env, s, i, vs)
  {
    vs[..i] + ResetFields(env, env.structs[s][i..], vs[i..], env.depth[s])
  }

  predicate ShapesFrom(env: Env, types: Types, s: string, i: nat, vs: seq<Value>)
    requires WellFormedEnv(env) && Fits(env, s, i, vs)
  {
    HasShapes(env, types, env.structs[s][i..], vs[i..], env.depth[s])
  }

  lemma SplitTouches(env: Env, s: string, i: nat, vs: seq<Value>, w: Value)
    requires WellFormedEnv(env) && Fits(env, s, i, vs) && i < |vs|
    ensures TouchesFrom(env, s, i, vs) ==
      Touches(env, env.structs[s][i].typ, vs[i]) + TouchesFrom(env, s, i + 1, vs[i := w])
  {
    var fs, vs1 := env.structs[s], vs[i := w];
    assert fs[i..][0] == fs[i] && vs[i..][0] == vs[i];
    assert fs[i..][1..] == fs[i + 1..] && vs[i..][1..] == vs[i + 1..] == vs1[i + 1..];
    hide Touches, WellFormedEnv;
  }

  lemma SplitReset(env: Env, s: string, i: nat, vs: seq<Value>)
    requires WellFormedEnv(env) && Fits(env, s, i, vs) && i < |vs|
    ensures ResetFrom(env, s, i, vs) ==
      ResetFrom(env, s, i + 1, vs[i := ResetValue(env, env.structs[s][i].typ, vs[i])])
  {
    var fs := env.structs[s];
    var w := ResetValue(env, fs[i].typ, vs[i]);
    var vs1 := vs[i := w];
    assert fs[i..][0] == fs[i] && vs[i..][0] == vs[i];
    assert fs[i..][1..] == fs[i + 1..] && vs[i..][1..] == vs[i + 1..] == vs1[i + 1..];
    assert vs1[..i + 1] == vs[..i] + [w];
    hide ResetValue, WellFormedEnv;
  }

  lemma SplitShapes(env: Env, types: Types, s: string, i: nat, vs: seq<Value>, w: Value)
    requires WellFormedEnv(env) && Fits(env, s, i, vs) && i < |vs| && ShapesFrom(env, types, s, i, vs)
    ensures HasShape(env, types, env.structs[s][i].typ, vs[i]) && ShapesFrom(env, types, s, i + 1, vs[i := w])
  {
    var fs, vs1 := env.structs[s], vs[i := w];
    assert fs[i..][0] == fs[i] && vs[i..][0] == vs[i];
    assert fs[i..][1..] == fs[i + 1..] && vs[i..][1..] == vs[i + 1..] == vs1[i + 1..];
    hide HasShape, WellFormedEnv;
  }

  /** The fields from the i-th on: the i-th, then the rest. */
  lemma SplitFields(env: Env, types: Types, s: string, i: nat, vs: seq<Value>)
    requires WellFormedEnv(env) && Fits(env, s, i, vs) && i < |vs| && ShapesFrom(env, types, s, i, vs)
    ensures var t := env.structs[s][i].typ; var vs1 := vs[i := ResetValue(env, t, vs[i])];
      && TouchesFrom(env, s, i, vs) == Touches(env, t, vs[i]) + TouchesFrom(env, s, i + 1, vs1)
      && ResetFrom(env, s, i, vs) == ResetFrom(env, s, i + 1, vs1)
      && HasShape(env, types, t, vs[i]) && ShapesFrom(env, types, s, i + 1, vs1)
  {
    hide Touches, ResetValue, HasShape, WellFormedEnv, TouchesFrom, ResetFrom, ShapesFrom;
    var w := ResetValue(env, env.structs[s][i].typ, vs[i]);
    SplitTouches(env, s, i, vs, w);
    SplitReset(env, s, i, vs);
    SplitShapes(env, types, s, i, vs, w);
  }

  lemma WholeReceiver(env: Env, types: Types, n: string, vs: seq<Value>)
    requires WellFormedEnv(env) && n in env.marked && Fits(env, n, 0, vs)
    ensures TouchesFrom(env, n, 0, vs) == Touches(env, Ident(n), StructV(vs))
    ensures ResetValue(env, Ident(n), StructV(vs)) == StructV(ResetFrom(env, n, 0, vs))
    ensures HasShape(env, types, Ident(n), StructV(vs)) <==> ShapesFrom(env, types, n, 0, vs)
  {
    assert env.structs[n][0..] == env.structs[n] && vs[0..] == vs;
  }

  // ---- small sweeps --------------------------------------------------------------------

  lemma SweptEmpty(env: Env, types: Types, h: Heap)
    requires WellFormedEnv(env) && h.cells.Keys <= types.Keys
    ensures Swept(env, types, h, iset{}) == h
  {
    hide ResetCell, WellFormedEnv;
  }

  lemma SweptCell(env: Env, types: Types, h: Heap, l: nat)
    requires WellFormedEnv(env) && h.cells.Keys <= types.Keys && l in h.cells
    ensures Swept(env, types, h, iset{ToCell(l)}) == h.(cells := h.cells[l := ResetCell(env, types[l], h.cells[l])])
  {
    hide ResetCell, WellFormedEnv;
  }

  lemma SweptMap(env: Env, types: Types, h: Heap, m: nat)
    requires WellFormedEnv(env) && h.cells.Keys <= types.Keys
    ensures Swept(env, types, h, iset{ToMap(m)}) == if m in h.maps then h.(maps := h.maps[m := map[]]) else h
  {
    hide ResetCell, WellFormedEnv;
  }

  lemma SweptCellLast(env: Env, types: Types, h: Heap, d: iset<Ref>, l: nat)
    requires WellFormedEnv(env) && h.cells.Keys <= types.Keys && l in h.cells
    ensures var h1 := Swept(env, types, h, d);
      h1.(cells := h1.cells[l := ResetCell(env, types[l], h.cells[l])]) == Swept(env, types, h, iset{ToCell(l)} + d)
  {
    hide ResetCell, WellFormedEnv;
  }

  lemma SweepNothing(env: Env, types: Types, h: Heap)
    requires WellFormedEnv(env) && HeapOk(env, types, h)
    ensures Sweep(env, types, h, {}) == h
  {
    ReachNone(env, types, h);
    SweptEmpty(env, types, h);
    hide Swept, Reached;
  }

  /** Cells and maps that are not entered lead no further. */
  lemma ReachLeaf(env: Env, types: Types, h: Heap, x: Ref)
    requires WellFormedEnv(env) && !Followed(env, types, x)
    ensures Reached(env, types, h, {x}) == iset{x}
  {
    ReachOne(env, types, h, x);
    ReachNone(env, types, h);
    hide Reached;
  }

  lemma SweepLeafCell(env: Env, types: Types, h: Heap, l: nat)
    requires WellFormedEnv(env) && HeapOk(env, types, h) && l in h.cells && !Followed(env, types, ToCell(l))
    ensures Sweep(env, types, h, {ToCell(l)}) == h.(cells := h.cells[l := ResetCell(env, types[l], h.cells[l])])
  {
    ReachLeaf(env, types, h, ToCell(l));
    SweptCell(env, types, h, l);
    hide Swept, Reached, ResetCell;
  }

  lemma SweepMap(env: Env, types: Types, h: Heap, m: nat)
    requires WellFormedEnv(env) && HeapOk(env, types, h)
    ensures Sweep(env, types, h, {ToMap(m)}) == if m in h.maps then h.(maps := h.maps[m := map[]]) else h
  {
    ReachLeaf(env, types, h, ToMap(m));
    SweptMap(env, types, h, m);
    hide Swept, Reached;
  }

  /** A cell reset after everything behind it was. */
  lemma CellAfterRest(env: Env, types: Types, h: Heap, l: nat)
    requires WellFormedEnv(env) && HeapOk(env, types, h) && l in h.cells
    ensures var h1 := Sweep(env, types, h, Out(env, types, h, ToCell(l)));
      h1.(cells := h1.cells[l := ResetCell(env, types[l], h.cells[l])]) == Sweep(env, types, h, {ToCell(l)})
  {
    ReachOne(env, types, h, ToCell(l));
    SweptCellLast(env, types, h, Reached(env, types, h, Out(env, types, h, ToCell(l))), l);
    hide Swept, ResetCell, Reached, Out;
  }

  // ---- the statement of one field ------------------------------------------------------

  /** The code of the i-th field runs. */
  function FieldRun(env: Env, recv: string, fs: seq<Field>, i: nat, h: Heap, vs: seq<Value>, fuel: nat): Outcome
    requires WellFormedEnv(env) && fuel > 0 && i < |fs| == |vs|
  {
    Exec(env, recv, fs, Compile(fs[i].name, fs[i].typ, env.marked), h, vs, fuel)
  }

  /** The code behind the nil check of a pointer to the cell at l, of type x, runs. */
  function PointeeRun(env: Env, recv: string, x: Expr, h: Heap, vs: seq<Value>, l: nat, fuel: nat): Outcome
    requires WellFormedEnv(env) && fuel > 0 && l in h.cells
  {
    ExecPtr(env, recv, x, CompilePointee(x, env.marked), h, vs, l, fuel)
  }

  /** The code of the i-th field compiles and finds that field. */
  predicate Addressed(env: Env, recv: string, fs: seq<Field>, i: nat, vs: seq<Value>)
    requires WellFormedEnv(env)
  {
    && i < |fs| == |vs| && Compiles(env, recv, fs[i])
    && (fs[i].name == "_" || Index(fs, fs[i].name) == i)
  }

  lemma FieldIsAddressed(env: Env, s: string, i: nat, vs: seq<Value>)
    requires WellFormedEnv(env) && AllCompile(env) && s in env.marked && Fits(env, s, 0, vs) && i < |vs|
    ensures s != [] && Addressed(env, Receiver(s), env.structs[s], i, vs)
  {
    var fs := env.structs[s];
    assert MethodCompiles(env, s) && fs[i] in fs;
    var k := Index(fs, fs[i].name);
    assert k <= i;
    hide Compiles;
  }

  /** A literal assigned to a field or pointee is its reset form. */
  lemma LiteralIsReset(env: Env, recv: string, t: Expr, rhs: Rhs, before: Value)
    requires WellFormedEnv(env) && !IsMarked(env, t) && Eval(env, recv, rhs, t).Some?
    requires t.Ident? || t.Array? || t.Slice? || t.Map? || t.Interface? || t.Func? || t.Chan?
    ensures Eval(env, recv, rhs, t).value == ResetCell(env, t, before)
  {
    hide Parse, Local, Normal;
  }

  lemma AssignedField(env: Env, recv: string, fs: seq<Field>, i: nat, h: Heap, vs: seq<Value>, fuel: nat)
    requires WellFormedEnv(env) && fuel > 0 && Addressed(env, recv, fs, i, vs) && !IsMarked(env, fs[i].typ)
    requires var t := fs[i].typ; t.Ident? || t.Array? || t.Interface? || t.Func? || t.Chan?
    ensures FieldRun(env, recv, fs, i, h, vs, fuel) == Done(h, vs[i := ResetValue(env, fs[i].typ, vs[i])])
  {
    var stmt := Compile(fs[i].name, fs[i].typ, env.marked);
    LiteralIsReset(env, recv, fs[i].typ, stmt.rhs, vs[i]);
    hide Eval, ResetValue, WellFormedEnv;
  }

  lemma MapField(env: Env, types: Types, recv: string, fs: seq<Field>, i: nat, h: Heap, vs: seq<Value>, fuel: nat)
    requires WellFormedEnv(env) && HeapOk(env, types, h) && fuel > 0
    requires Addressed(env, recv, fs, i, vs) && fs[i].typ.Map? && vs[i].MapV?
    ensures FieldRun(env, recv, fs, i, h, vs, fuel) == Done(Sweep(env, types, h, Touches(env, fs[i].typ, vs[i])), vs)
  {
    hide Sweep, HeapOk, WellFormedEnv, Run;
    if vs[i].ref.MapAt? {
      SweepMap(env, types, h, vs[i].ref.loc);
    } else {
      SweepNothing(env, types, h);
    }
  }

  lemma KeptField(env: Env, recv: string, fs: seq<Field>, i: nat, h: Heap, vs: seq<Value>, fuel: nat)
    requires WellFormedEnv(env) && fuel > 0 && Addressed(env, recv, fs, i, vs)
    requires var t := fs[i].typ; (t.Slice? && vs[i].SliceV?) || t.Selector? || t.BasicLit? || t.OtherExpr?
    ensures FieldRun(env, recv, fs, i, h, vs, fuel) == Done(h, vs[i := ResetValue(env, fs[i].typ, vs[i])])
  {
    assert vs[i := vs[i]] == vs;
    hide WellFormedEnv, Run;
  }

  /** A field that is neither a marked struct nor a pointer touches no cell. */
  lemma PlainField(env: Env, types: Types, recv: string, fs: seq<Field>, i: nat, h: Heap, vs: seq<Value>, fuel: nat)
    requires WellFormedEnv(env) && HeapOk(env, types, h) && fuel > 0 && Addressed(env, recv, fs, i, vs)
    requires HasShape(env, types, fs[i].typ, vs[i]) && !IsMarked(env, fs[i].typ) && !fs[i].typ.Star?
    ensures FieldRun(env, recv, fs, i, h, vs, fuel) ==
      Done(Sweep(env, types, h, Touches(env, fs[i].typ, vs[i])), vs[i := ResetValue(env, fs[i].typ, vs[i])])
  {
    hide Sweep, HeapOk, WellFormedEnv, FieldRun, Compiles;
    assert vs[i := vs[i]] == vs;
    SweepNothing(env, types, h);
    match fs[i].typ
    case Map(_, _) => MapField(env, types, recv, fs, i, h, vs, fuel);
    case Slice(_) => KeptField(env, recv, fs, i, h, vs, fuel);
    case Selector(_, _) => KeptField(env, recv, fs, i, h, vs, fuel);
    case BasicLit(_) => KeptField(env, recv, fs, i, h, vs, fuel);
    case OtherExpr => KeptField(env, recv, fs, i, h, vs, fuel);
    case _ => AssignedField(env, recv, fs, i, h, vs, fuel); hide ResetValue;
  }

  /** The statement of a marked struct field: the call it makes. */
  lemma CallOnField(env: Env, recv: string, fs: seq<Field>, i: nat, h: Heap, vs: seq<Value>, fuel: nat)
    requires WellFormedEnv(env) && fuel > 0 && Addressed(env, recv, fs, i, vs)
    requires IsMarked(env, fs[i].typ) && vs[i].StructV?
    ensures var o := FieldRun(env, recv, fs, i, h, vs, fuel);
      var inner := Run(env, fs[i].typ.name, h, vs[i].fields, fuel - 1);
      && (o.OutOfFuel? <==> inner.OutOfFuel?)
      && (inner.Done? ==> o == Done(inner.h, vs[i := StructV(inner.vs)]))
  {
    hide Run, WellFormedEnv, StmtCompiles;
  }

  /** The statement of a pointer field. */
  lemma PointerField(env: Env, recv: string, fs: seq<Field>, i: nat, h: Heap, vs: seq<Value>, fuel: nat)
    requires WellFormedEnv(env) && fuel > 0 && Addressed(env, recv, fs, i, vs)
    requires fs[i].typ.Star? && vs[i].PtrV? && (vs[i].to.Some? ==> vs[i].to.value in h.cells)
    ensures FieldRun(env, recv, fs, i, h, vs, fuel) ==
      if vs[i].to.None? then Done(h, vs) else PointeeRun(env, recv, fs[i].typ.x, h, vs, vs[i].to.value, fuel)
  {
    hide ExecPtr, CompilePointee, WellFormedEnv, StmtCompiles;
  }

  /** The code behind the nil check compiles. */
  predicate PointeeCompiles(env: Env, recv: string, x: Expr)
    requires WellFormedEnv(env)
  {
    var action := CompilePointee(x, env.marked);
    action.AssignPtr? ==> Eval(env, recv, action.rhs, x).Some?
  }

  lemma FieldOfPointee(env: Env, recv: string, f: Field)
    requires WellFormedEnv(env) && Compiles(env, recv, f) && f.typ.Star?
    ensures PointeeCompiles(env, recv, f.typ.x)
  {
    hide Eval, CompilePointee, WellFormedEnv;
  }

  /** The statement behind a pointer to a marked struct. */
  lemma CallOnPointee(env: Env, recv: string, x: Expr, h: Heap, vs: seq<Value>, l: nat, fuel: nat)
    requires WellFormedEnv(env) && fuel > 0 && l in h.cells && IsMarked(env, x) && h.cells[l].StructV?
    ensures var o := PointeeRun(env, recv, x, h, vs, l, fuel);
      var inner := Run(env, x.name, h, h.cells[l].fields, fuel - 1);
      && (o.OutOfFuel? <==> inner.OutOfFuel?)
      && (inner.Done? ==> o == Done(inner.h.(cells := inner.h.cells[l := StructV(inner.vs)]), vs))
  {
    hide Run, WellFormedEnv;
  }

  /** A cell holding a marked struct fits it, and leads where its fields lead. */
  lemma CellShape(env: Env, types: Types, h: Heap, l: nat)
    requires WellFormedEnv(env) && HeapOk(env, types, h) && l in types && IsMarked(env, types[l])
    ensures h.cells[l].StructV? && Fits(env, types[l].name, 0, h.cells[l].fields)
    ensures ShapesFrom(env, types, types[l].name, 0, h.cells[l].fields)
    ensures Out(env, types, h, ToCell(l)) == TouchesFrom(env, types[l].name, 0, h.cells[l].fields)
    ensures ResetCell(env, types[l], h.cells[l]) == StructV(ResetFrom(env, types[l].name, 0, h.cells[l].fields))
  {
    WholeReceiver(env, types, types[l].name, h.cells[l].fields);
    hide TouchesFrom, ShapesFrom, ResetFrom;
  }

  /** A pointee that is not a marked struct is overwritten, or handed to its own Reset. */
  lemma PlainPointee(env: Env, types: Types, recv: string, x: Expr, h: Heap, vs: seq<Value>, l: nat, fuel: nat)
    requires WellFormedEnv(env) && HeapOk(env, types, h) && fuel > 0
    requires PointeeCompiles(env, recv, x) && l in types && types[l] == x && l in h.cells && !IsMarked(env, x)
    ensures PointeeRun(env, recv, x, h, vs, l, fuel) == Done(Sweep(env, types, h, {ToCell(l)}), vs)
  {
    hide Sweep, HasShape, HeapOk;
    SweepLeafCell(env, types, h, l);
    if x.Selector? {
      assert h.cells[l := h.cells[l]] == h.cells;
    } else {
      PointeeForms(env, recv, x);
      LiteralIsReset(env, recv, x, CompilePointee(x, env.marked).rhs, h.cells[l]);
      hide Eval, ResetCell, WellFormedEnv;
    }
  }

  /** Only literals of these forms are Go. */
  lemma PointeeForms(env: Env, recv: string, x: Expr)
    requires WellFormedEnv(env) && PointeeCompiles(env, recv, x) && !IsMarked(env, x)
    ensures x.Selector? || (CompilePointee(x, env.marked).AssignPtr? && (x.Ident? || x.Array? || x.Slice? || x.Map?))
  {
    hide WellFormedEnv, Parse, TypeString, Fresh, Local, Normal;
  }

  // ---- whenever it returns, it is right ------------------------------------------------

  /** The generated file compiles and the heap is well typed. */
  ghost predicate Good(env: Env, types: Types, h: Heap)
    requires WellFormedEnv(env)
  {
    AllCompile(env) && HeapOk(env, types, h)
  }

  /** A Reset that returns leaves the reset fields and the swept heap, whatever the pointer graph. */
  lemma {:induction false} RunCorrect(env: Env, types: Types, s: string, h: Heap, vs: seq<Value>, fuel: nat)
    requires WellFormedEnv(env) && Good(env, types, h) && s in env.marked
    requires Fits(env, s, 0, vs) && ShapesFrom(env, types, s, 0, vs)
    requires !Run(env, s, h, vs, fuel).OutOfFuel?
    ensures Run(env, s, h, vs, fuel) == Done(Sweep(env, types, h, TouchesFrom(env, s, 0, vs)), ResetFrom(env, s, 0, vs))
    decreases fuel, 2, 0
  {
    BodyCorrect(env, types, s, 0, h, vs, fuel);
    hide RunBody, ShapesFrom, Sweep, TouchesFrom, ResetFrom, Good, WellFormedEnv;
  }

  lemma BodyStep(env: Env, s: string, i: nat, h: Heap, vs: seq<Value>, fuel: nat)
    requires WellFormedEnv(env) && fuel > 0 && Fits(env, s, i, vs)
    ensures i == |vs| ==> RunBody(env, s, i, h, vs, fuel) == Done(h, vs)
    ensures i < |vs| ==>
      var o := FieldRun(env, Receiver(s), env.structs[s], i, h, vs, fuel);
      && (o.OutOfFuel? ==> RunBody(env, s, i, h, vs, fuel).OutOfFuel?)
      && (o.Done? && |o.vs| == |vs| ==> RunBody(env, s, i, h, vs, fuel) == RunBody(env, s, i + 1, o.h, o.vs, fuel))
  {
    hide Exec, Compile;
  }

  lemma BodyEnd(env: Env, types: Types, s: string, h: Heap, vs: seq<Value>)
    requires WellFormedEnv(env) && HeapOk(env, types, h) && Fits(env, s, |vs|, vs)
    ensures Sweep(env, types, h, TouchesFrom(env, s, |vs|, vs)) == h && ResetFrom(env, s, |vs|, vs) == vs
  {
    SweepNothing(env, types, h);
    hide Sweep, HeapOk, WellFormedEnv;
  }

  /** The code of the i-th field is about to run in a good state. */
  ghost predicate Ready(env: Env, types: Types, recv: string, fs: seq<Field>, i: nat, h: Heap, vs: seq<Value>)
  {
    && WellFormedEnv(env) && Good(env, types, h) && Addressed(env, recv, fs, i, vs)
    && HasShape(env, types, fs[i].typ, vs[i])
  }

  /** It does not return, or leaves the field in its reset form and everything the field reaches reset. */
  ghost predicate FieldResets(
      env: Env, types: Types, recv: string, fs: seq<Field>, i: nat, h: Heap, vs: seq<Value>, fuel: nat)
    requires Ready(env, types, recv, fs, i, h, vs) && fuel > 0
  {
    var o := FieldRun(env, recv, fs, i, h, vs, fuel);
    || o.OutOfFuel?
    || o == Done(Sweep(env, types, h, Touches(env, fs[i].typ, vs[i])), vs[i := ResetValue(env, fs[i].typ, vs[i])])
  }

  lemma {:induction false} BodyCorrect(env: Env, types: Types, s: string, i: nat, h: Heap, vs: seq<Value>, fuel: nat)
    requires WellFormedEnv(env) && Good(env, types, h) && s in env.marked
    requires Fits(env, s, i, vs) && ShapesFrom(env, types, s, i, vs)
    requires fuel > 0 && !RunBody(env, s, i, h, vs, fuel).OutOfFuel?
    ensures RunBody(env, s, i, h, vs, fuel) ==
      Done(Sweep(env, types, h, TouchesFrom(env, s, i, vs)), ResetFrom(env, s, i, vs))
    decreases fuel, 1, |vs| - i
  {
    hide RunBody, FieldRun, Touches, TouchesFrom, ResetValue, ResetFrom, HeapOk, Sweep, HasShape, ShapesFrom;
    hide Compiles, AllCompile, WellFormedEnv;
    BodyStep(env, s, i, h, vs, fuel);
    if i == |vs| {
      BodyEnd(env, types, s, h, vs);
    } else {
      FieldIsAddressed(env, s, i, vs);
      SplitFields(env, types, s, i, vs);
      var f := env.structs[s][i];
      FieldCorrect(env, types, Receiver(s), env.structs[s], i, h, vs, fuel);
      var a, vs1 := Touches(env, f.typ, vs[i]), vs[i := ResetValue(env, f.typ, vs[i])];
      SweepThenSweep(env, types, h, a, TouchesFrom(env, s, i + 1, vs1));
      BodyCorrect(env, types, s, i + 1, Sweep(env, types, h, a), vs1, fuel);
    }
  }

  lemma {:induction false} FieldCorrect(
      env: Env, types: Types, recv: string, fs: seq<Field>, i: nat, h: Heap, vs: seq<Value>, fuel: nat)
    requires Ready(env, types, recv, fs, i, h, vs) && fuel > 0
    ensures FieldResets(env, types, recv, fs, i, h, vs, fuel)
    decreases fuel, 0, 2
  {
    hide FieldRun, Sweep, HeapOk, AllCompile, Touches, ResetValue, HasShape, WellFormedEnv, Compiles, FieldResets;
    if IsMarked(env, fs[i].typ) {
      StructFieldCorrect(env, types, recv, fs, i, h, vs, fuel);
    } else if fs[i].typ.Star? {
      PointerFieldCorrect(env, types, recv, fs, i, h, vs, fuel);
    } else {
      PlainFieldCorrect(env, types, recv, fs, i, h, vs, fuel);
    }
  }

  lemma PlainFieldCorrect(
      env: Env, types: Types, recv: string, fs: seq<Field>, i: nat, h: Heap, vs: seq<Value>, fuel: nat)
    requires Ready(env, types, recv, fs, i, h, vs) && fuel > 0 && !IsMarked(env, fs[i].typ) && !fs[i].typ.Star?
    ensures FieldResets(env, types, recv, fs, i, h, vs, fuel)
  {
    hide FieldRun, Sweep, HeapOk, AllCompile, Touches, ResetValue, HasShape, WellFormedEnv, Compiles;
    PlainField(env, types, recv, fs, i, h, vs, fuel);
  }

  lemma {:induction false} StructFieldCorrect(
      env: Env, types: Types, recv: string, fs: seq<Field>, i: nat, h: Heap, vs: seq<Value>, fuel: nat)
    requires Ready(env, types, recv, fs, i, h, vs) && fuel > 0 && IsMarked(env, fs[i].typ)
    ensures FieldResets(env, types, recv, fs, i, h, vs, fuel)
    decreases fuel, 0, 1
  {
    hide FieldRun, Sweep, Good, Run, ResetFrom, TouchesFrom, ShapesFrom, Touches, ResetValue, HasShape, WellFormedEnv;
    hide Compiles, IsMarked, Fits, Depth;
    StructShape(env, types, fs[i].typ, vs[i]);
    CallOnField(env, recv, fs, i, h, vs, fuel);
    var n, ws := fs[i].typ.name, vs[i].fields;
    if !Run(env, n, h, ws, fuel - 1).OutOfFuel? {
      RunCorrect(env, types, n, h, ws, fuel - 1);
    }
  }

  /** A value of a marked struct type, as a receiver of its own Reset. */
  lemma StructShape(env: Env, types: Types, t: Expr, v: Value)
    requires WellFormedEnv(env) && IsMarked(env, t) && HasShape(env, types, t, v)
    ensures t.Ident? && t.name in env.marked && v.StructV? && Fits(env, t.name, 0, v.fields)
    ensures t.name in env.depth && env.depth[t.name] + 1 == Depth(env, t)
    ensures ShapesFrom(env, types, t.name, 0, v.fields)
    ensures TouchesFrom(env, t.name, 0, v.fields) == Touches(env, t, v)
    ensures StructV(ResetFrom(env, t.name, 0, v.fields)) == ResetValue(env, t, v)
  {
    WholeReceiver(env, types, t.name, v.fields);
    hide ShapesFrom, TouchesFrom, ResetFrom;
  }

  lemma {:induction false} PointerFieldCorrect(
      env: Env, types: Types, recv: string, fs: seq<Field>, i: nat, h: Heap, vs: seq<Value>, fuel: nat)
    requires Ready(env, types, recv, fs, i, h, vs) && fuel > 0 && fs[i].typ.Star?
    ensures FieldResets(env, types, recv, fs, i, h, vs, fuel)
    decreases fuel, 0, 1
  {
    var x, v := fs[i].typ.x, vs[i];
    hide FieldRun, PointeeRun, Sweep, AllCompile, WellFormedEnv, Compiles;
    assert vs[i := v] == vs;
    PointerField(env, recv, fs, i, h, vs, fuel);
    FieldOfPointee(env, recv, fs[i]);
    if v.to.None? {
      SweepNothing(env, types, h);
    } else if !IsMarked(env, x) {
      PlainPointee(env, types, recv, x, h, vs, v.to.value, fuel);
    } else if !PointeeRun(env, recv, x, h, vs, v.to.value, fuel).OutOfFuel? {
      PtrCorrect(env, types, recv, x, h, vs, v.to.value, fuel);
    }
  }

  lemma {:induction false} PtrCorrect(
      env: Env, types: Types, recv: string, x: Expr, h: Heap, vs: seq<Value>, l: nat, fuel: nat)
    requires WellFormedEnv(env) && Good(env, types, h)
    requires IsMarked(env, x) && l in types && types[l] == x && l in h.cells
    requires fuel > 0 && !PointeeRun(env, recv, x, h, vs, l, fuel).OutOfFuel?
    ensures PointeeRun(env, recv, x, h, vs, l, fuel) == Done(Sweep(env, types, h, {ToCell(l)}), vs)
    decreases fuel, 0, 0
  {
    hide AllCompile, PointeeRun, Run, HeapOk, Sweep, ShapesFrom, ResetFrom, TouchesFrom, ResetCell;
    hide WellFormedEnv, Out;
    CellShape(env, types, h, l);
    CallOnPointee(env, recv, x, h, vs, l, fuel);
    CellAfterRest(env, types, h, l);
    RunCorrect(env, types, x.name, h, h.cells[l].fields, fuel - 1);
  }
}
