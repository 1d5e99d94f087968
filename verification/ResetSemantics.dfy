/**
 * What the generated code does: Go values, a heap of cells behind pointers and of map objects, and
 * an interpreter for the statements.  A pointer leads to a whole cell, never into the middle of
 * one.  Fuel counts nested Reset calls; a run that needs more than it is given is OutOfFuel.
 */
module ResetSemantics {
  import opened Options
  import opened GoTypes
  import opened ResetGen

  datatype Value =
    | BoolV(b: bool)
    | StrV(s: string)
    | NumV(n: int)
    | StructV(fields: seq<Value>)
    | ArrV(elems: seq<Value>)
    | SliceV(base: Base, len: nat, cap: nat)
    | MapV(ref: MapRef)
    | PtrV(to: Option<nat>)
    | RefV(token: Option<nat>)     // func, chan, interface
    | ExtV(state: int)             // a value of a type declared elsewhere; 0 is its zero

  /** The array behind a slice, and the object behind a map; a literal makes a new empty one. */
  datatype Base = NilBase | NewBase | BaseAt(loc: nat)
  datatype MapRef = NilMap | NewMap | MapAt(loc: nat)

  datatype Heap = Heap(cells: map<nat, Value>, maps: map<nat, map<Value, Value>>)

  /**
   * The package: its named types whose underlying type is a struct, be it declared here or taken
   * from another package, with their named fields, its other named types with their underlying
   * types, its constants; which structs are marked; which of them take no method this way, being
   * generic or aliases, and which have a Reset of their own, a method or an embedded field; how deep
   * named types nest inside each other by value; the lengths of array types; and for each foreign
   * type that has a Reset method the state that method leaves.
   */
  datatype Env = Env(
    structs: map<string, seq<Field>>, named: map<string, Expr>, consts: set<string>,
    marked: set<string>, noMethods: set<string>, ownReset: set<string>, depth: map<string, nat>,
    lengths: map<Expr, nat>, foreign: map<Expr, int>)

  predicate IsMarked(env: Env, t: Expr) { t.Ident? && t.name in env.marked }

  function Depth(env: Env, t: Expr): nat
  {
    match t
    case Ident(n) => if (n in env.structs || n in env.named) && n in env.depth then env.depth[n] + 1 else 0
    case Array(_, elt) => Depth(env, elt)
    case _ => 0
  }

  /** What the Go compiler guarantees: distinct names and no type inside itself. */
  ghost predicate WellFormedEnv(env: Env)
  {
    && env.marked <= env.structs.Keys && env.structs.Keys + env.named.Keys <= env.depth.Keys
    && (forall n | n in env.structs :: IsIdent(n) && !IsBasic(n) && n !in env.named)
    && (forall n | n in env.named :: IsIdent(n) && !IsBasic(n) && Depth(env, env.named[n]) <= env.depth[n])
    && (forall n, i | n in env.structs && 0 <= i < |env.structs[n]| ::
          Depth(env, env.structs[n][i].typ) <= env.depth[n])
    && (forall n, i, j | n in env.structs && 0 <= i < j < |env.structs[n]| ::
          env.structs[n][i].name != env.structs[n][j].name || env.structs[n][i].name == "_")
  }

  // ---- zero values and literals --------------------------------------------------------

  function Zero(env: Env, t: Expr): Value
    requires WellFormedEnv(env)
    decreases Depth(env, t), 0, t
  {
    match t
    case Ident(n) =>
      if n == "bool" then BoolV(false)
      else if n == "string" then StrV("")
      else if n in NUMERIC then NumV(0)
      else if n in env.structs then StructV(ZeroFields(env, env.structs[n], env.depth[n]))
      else if n in env.named then Zero(env, env.named[n])
      else ExtV(0)
    case Array(len, elt) => ArrV(Repeat(Zero(env, elt), if len in env.lengths then env.lengths[len] else 0))
    case Star(_) => PtrV(None)
    case Slice(_) => SliceV(NilBase, 0, 0)
    case Map(_, _) => MapV(NilMap)
    case Selector(_, _) => ExtV(0)
    case _ => RefV(None)
  }

  function Repeat(v: Value, n: nat): seq<Value> { seq(n, _ => v) }

  function ZeroFields(env: Env, fs: seq<Field>, d: nat): (r: seq<Value>)
    requires WellFormedEnv(env) && forall i :: 0 <= i < |fs| ==> Depth(env, fs[i].typ) <= d
    ensures |r| == |fs| && forall i :: 0 <= i < |fs| ==> r[i] == Zero(env, fs[i].typ)
    decreases d, 1, fs
  {
    if fs == [] then [] else [Zero(env, fs[0].typ)] + ZeroFields(env, fs[1..], d)
  }

  /** The type a name stands for, when that is not a struct. */
  function Underlying(env: Env, t: Expr): Expr
  {
    if t.Ident? && t.name in env.named then env.named[t.name] else t
  }

  /** T{} is Go: T is a struct, array, slice or map type. */
  predicate Composable(env: Env, t: Expr)
  {
    var u := Underlying(env, t);
    if t.Ident? && t.name in env.structs then true else u.Array? || u.Slice? || u.Map?
  }

  /** The value of T{}, and of the zero literal of a basic type: slices and maps are new and empty. */
  function Fresh(env: Env, t: Expr): Value
    requires WellFormedEnv(env)
  {
    match Underlying(env, t)
    case Slice(_) => SliceV(NewBase, 0, 0)
    case Map(_, _) => MapV(NewMap)
    case _ => Zero(env, t)
  }

  /**
   * Every name the printed type contains means the same in the generated file: that file imports
   * nothing, so no qualified name does, and its receiver hides a name spelled alike.
   */
  predicate Local(env: Env, recv: string, e: Expr)
  {
    match e
    case Ident(n) =>
      && n != recv
      && (IsBasic(n) || n in {"any", "error"} || n in env.structs || n in env.named || n in env.consts)
    case Star(x) => Local(env, recv, x)
    case Slice(elt) => Local(env, recv, elt)
    case Array(len, elt) => Local(env, recv, len) && Local(env, recv, elt)
    case Map(key, value) => Local(env, recv, key) && Local(env, recv, value)
    case BasicLit(_) => true
    case _ => false
  }

  /** The right-hand side assigned to a place of type t; None when Go would not compile it. */
  function Eval(env: Env, recv: string, rhs: Rhs, t: Expr): Option<Value>
    requires WellFormedEnv(env)
  {
    match rhs
    case LitFalse => if t == Ident("bool") then Some(BoolV(false)) else None
    case LitEmptyString => if t == Ident("string") then Some(StrV("")) else None
    case LitZero => if t.Ident? && t.name in NUMERIC then Some(NumV(0)) else None
    case LitNil => if t.Interface? || t.Func? || t.Chan? then Some(RefV(None)) else None
    case Composite(text) =>
      if Parse(text) == Some(Parsed(Normal(t), "")) && Local(env, recv, Normal(t)) && Composable(env, t) then
        Some(Fresh(env, t))
      else None
  }

  // ---- running the statements ----------------------------------------------------------

  /** Done carries the heap and the receiver's fields; Stuck is code Go would refuse. */
  datatype Outcome = Done(h: Heap, vs: seq<Value>) | OutOfFuel | Stuck

  function Index(fs: seq<Field>, name: string): (i: nat)
    ensures i <= |fs| && (i < |fs| ==> fs[i].name == name) && forall k :: 0 <= k < i ==> fs[k].name != name
  {
    if fs == [] || fs[0].name == name then 0 else 1 + Index(fs[1..], name)
  }

  /** The Reset method of a marked struct on a receiver with these field values. */
  function Run(env: Env, s: string, h: Heap, vs: seq<Value>, fuel: nat): Outcome
    requires WellFormedEnv(env)
    decreases fuel, 2, 0
  {
    if fuel == 0 then OutOfFuel
    else if s !in env.structs || |vs| != |env.structs[s]| then Stuck
    else RunBody(env, s, 0, h, vs, fuel)
  }

  /** The statements from the i-th field on. */
  function RunBody(env: Env, s: string, i: nat, h: Heap, vs: seq<Value>, fuel: nat): Outcome
    requires WellFormedEnv(env) && fuel > 0 && s in env.structs && i <= |env.structs[s]| == |vs|
    decreases fuel, 1, |env.structs[s]| - i
  {
    var fs := env.structs[s];
    if i == |fs| then Done(h, vs) else
    match Exec(env, Receiver(s), fs, Compile(fs[i].name, fs[i].typ, env.marked), h, vs, fuel)
    case Done(h1, vs1) => if |vs1| == |fs| then RunBody(env, s, i + 1, h1, vs1, fuel) else Stuck
    case bad => bad
  }

  /** The statement of one field; Go refuses every mention of a blank field. */
  function Exec(env: Env, recv: string, fs: seq<Field>, stmt: Stmt, h: Heap, vs: seq<Value>, fuel: nat): Outcome
    requires WellFormedEnv(env) && fuel > 0 && |fs| == |vs|
    decreases fuel, 0, 1
  {
    var i := Index(fs, stmt.field);
    if stmt.Comment? then Done(h, vs) else
    if i == |fs| || stmt.field == "_" then Stuck else
    var t, v := fs[i].typ, vs[i];
    match stmt
    case CallReset(_) =>
      if !t.Ident? || !v.StructV? then Stuck else
      (match Run(env, t.name, h, v.fields, fuel - 1)
       case Done(h1, ws) => Done(h1, vs[i := StructV(ws)])
       case bad => bad)
    case Assign(_, rhs) =>
      (match Eval(env, recv, rhs, t)
       case None => Stuck
       case Some(w) => Done(h, vs[i := w]))
    case IfNotNil(_, action) =>
      if !t.Star? || !v.PtrV? then Stuck
      else if v.to.None? then Done(h, vs)
      else if v.to.value !in h.cells then Stuck
      else ExecPtr(env, recv, t.x, action, h, vs, v.to.value, fuel)
    case Truncate(_) => if v.SliceV? then Done(h, vs[i := SliceV(v.base, 0, v.cap)]) else Stuck
    case Clear(_) =>
      if !v.MapV? then Stuck
      else if v.ref.MapAt? && v.ref.loc in h.maps then Done(h.(maps := h.maps[v.ref.loc := map[]]), vs)
      else Done(h, vs)
    case ResetIfAble(_) => if t in env.foreign then Done(h, vs[i := ExtV(env.foreign[t])]) else Done(h, vs)
  }

  /** The statement inside `if recv.f != nil`, for a pointer to the cell at l of type t. */
  function ExecPtr(
      env: Env, recv: string, t: Expr, action: PtrAction, h: Heap, vs: seq<Value>, l: nat, fuel: nat): Outcome
    requires WellFormedEnv(env) && fuel > 0 && l in h.cells
    decreases fuel, 0, 0
  {
    match action
    case CallPtrReset =>
      if !t.Ident? || !h.cells[l].StructV? then Stuck else
      (match Run(env, t.name, h, h.cells[l].fields, fuel - 1)
       case Done(h1, ws) => Done(h1.(cells := h1.cells[l := StructV(ws)]), vs)
       case bad => bad)
    case AssignPtr(rhs) =>
      (match Eval(env, recv, rhs, t)
       case None => Stuck
       case Some(w) => Done(h.(cells := h.cells[l := w]), vs))
    case PtrResetIfAble =>
      Done(if t in env.foreign then h.(cells := h.cells[l := ExtV(env.foreign[t])]) else h, vs)
  }

  // ---- which packages the generator supports -------------------------------------------

  /** The code emitted for the field compiles. */
  predicate Compiles(env: Env, recv: string, f: Field)
    requires WellFormedEnv(env)
  {
    var stmt := Compile(f.name, f.typ, env.marked);
    stmt.Comment? || (f.name != "_" && StmtCompiles(env, recv, stmt, f.typ))
  }

  predicate StmtCompiles(env: Env, recv: string, stmt: Stmt, t: Expr)
    requires WellFormedEnv(env)
  {
    match stmt
    case Assign(_, rhs) => Eval(env, recv, rhs, t).Some?
    case IfNotNil(_, action) => action.AssignPtr? ==> t.Star? && Eval(env, recv, action.rhs, t.x).Some?
    case _ => true
  }

  /** The Reset method of a struct compiles: its receiver can be read, its name is free, its code compiles. */
  predicate MethodCompiles(env: Env, s: string)
    requires WellFormedEnv(env) && s in env.structs
  {
    && Receiver(s) != "_" && Receiver(s) != REPLACEMENT
    && s !in env.noMethods && s !in env.ownReset
    && (forall f | f in env.structs[s] :: f.name != "Reset")
    && (forall f | f in env.structs[s] :: Compiles(env, Receiver(s), f))
  }

  /** The generated file compiles. */
  ghost predicate AllCompile(env: Env)
    requires WellFormedEnv(env)
  {
    forall s | s in env.marked :: MethodCompiles(env, s)
  }

  /** A type whose composite literal can be printed and means that type in the generated file. */
  predicate Printable(env: Env, recv: string, t: Expr)
  {
    WellFormed(Normal(t)) && Local(env, recv, Normal(t))
  }

  /** A named type the generator can give a zero: basic, a struct, or a named array, slice or map. */
  predicate IsPlainName(env: Env, recv: string, n: string)
  {
    IsBasic(n) || (n != recv && Composable(env, Ident(n)))
  }

  predicate Supported(env: Env, recv: string, t: Expr)
  {
    match t
    case Ident(n) => n in env.marked || IsPlainName(env, recv, n)
    case Star(x) =>
      (match x
       case Ident(n) => n in env.marked || IsPlainName(env, recv, n)
       case Selector(_, _) => true
       case Slice(_) => Printable(env, recv, x)
       case Array(_, _) => Printable(env, recv, x)
       case Map(_, _) => Printable(env, recv, x)
       case _ => false)
    case Array(_, _) => Printable(env, recv, t)
    case BasicLit(_) => false
    case OtherExpr => false
    case _ => true
  }

  lemma CompositeCompiles(env: Env, recv: string, t: Expr)
    requires WellFormedEnv(env)
    ensures Eval(env, recv, Composite(TypeString(t)), t).Some? <==> Printable(env, recv, t) && Composable(env, t)
  {
    PrintsTheType(t);
    hide Parse, TypeString, Normal, WellFormed, Composable, Fresh, WellFormedEnv, Local;
  }

  lemma NameCompiles(env: Env, recv: string, n: string)
    requires WellFormedEnv(env)
    ensures Eval(env, recv, ZeroRhs(n), Ident(n)).Some? <==> IsPlainName(env, recv, n)
  {
    CompositeCompiles(env, recv, Ident(n));
    assert TypeString(Ident(n)) == n;
    hide Parse, TypeString, Fresh;
  }

  /**
   * The code emitted for a field compiles exactly when the field's type is answered with a comment,
   * or the field is not blank and its type is supported.  Not supported are the names of interfaces
   * and of named basic, pointer, function and channel types; pointers to pointers, functions,
   * channels and interfaces; and, where a composite literal is printed, types with a qualified name,
   * with a name the receiver hides, or with a node the printer does not know.
   */
  lemma CompilesExactlyWhenSupported(env: Env, recv: string, f: Field)
    requires WellFormedEnv(env)
    ensures Compiles(env, recv, f) <==>
      f.typ.BasicLit? || f.typ.OtherExpr? || (f.name != "_" && Supported(env, recv, f.typ))
  {
    match f.typ
    case Ident(n) => NameCompiles(env, recv, n); hide Eval, IsPlainName, WellFormedEnv;
    case Star(x) =>
      if x.Ident? {
        NameCompiles(env, recv, x.name);
        hide Eval, IsPlainName, TypeString, WellFormedEnv;
      } else {
        CompositeCompiles(env, recv, x);
        hide Eval, TypeString, WellFormedEnv, Printable;
      }
    case Array(_, _) => CompositeCompiles(env, recv, f.typ); hide Eval, TypeString, Printable, WellFormedEnv;
    case _ => hide TypeString, Printable, Fresh, WellFormedEnv;
  }

  predicate IsAsciiLetter(c: char) { 'a' <= c <= 'z' || 'A' <= c <= 'Z' }

  /**
   * The generated file compiles exactly when every marked struct has a name that starts with an
   * ASCII letter, is neither generic nor an alias, and has no Reset of its own and only fields as
   * above.
   */
  lemma FileCompilesExactly(env: Env)
    requires WellFormedEnv(env)
    ensures AllCompile(env) <==>
      forall s | s in env.marked ::
        && IsAsciiLetter(s[0]) && s !in env.noMethods && s !in env.ownReset
        && forall f | f in env.structs[s] ::
             && f.name != "Reset"
             && (f.typ.BasicLit? || f.typ.OtherExpr? || (f.name != "_" && Supported(env, Receiver(s), f.typ)))
  {
    forall s, f | s in env.marked && f in env.structs[s]
      ensures Compiles(env, Receiver(s), f) <==>
        f.typ.BasicLit? || f.typ.OtherExpr? || (f.name != "_" && Supported(env, Receiver(s), f.typ))
    {
      CompilesExactlyWhenSupported(env, Receiver(s), f);
    }
    hide Compiles, Supported;
    assert forall s | s in env.marked :: IsLetter(s[0]);
  }

  const DURATION := Selector(Ident("time"), "Duration")

  /** In every package: [3]time.Duration, *[]time.Duration, [pkg.N]int, **int and *func() fields. */
  lemma FormsThatDoNotCompile(env: Env, recv: string, f: Field)
    requires WellFormedEnv(env)
    requires f.typ in {
      Array(BasicLit("3"), DURATION), Star(Slice(DURATION)), Array(Selector(Ident("pkg"), "N"), Ident("int")),
      Star(Star(Ident("int"))), Star(Func)}
    ensures !Compiles(env, recv, f)
  {
    CompilesExactlyWhenSupported(env, recv, f);
    hide Compiles, WellFormedEnv, WellFormed;
    assert Normal(DURATION) == DURATION && !Local(env, recv, DURATION);
    assert !Local(env, recv, Slice(DURATION)) && !Local(env, recv, Array(BasicLit("3"), DURATION));
    assert !Local(env, recv, Array(Selector(Ident("pkg"), "N"), Ident("int")));
  }

  /** In every package: a field of a named int or interface type, of a type the receiver hides, and a blank field. */
  lemma NamesThatDoNotCompile(env: Env, recv: string, f: Field)
    requires WellFormedEnv(env) && f.typ.Ident?
    requires
      || (f.typ.name in env.named && env.named[f.typ.name] in {Ident("int"), Interface(true)})
      || (f.typ.name == recv && recv in env.structs && recv !in env.marked)
      || f.name == "_"
    ensures !Compiles(env, recv, f)
  {
    CompilesExactlyWhenSupported(env, recv, f);
    hide Compiles;
  }

  /** Whatever literal token gives the length: [3]int, ['a']int, [1.0]int and [0x1p4]int fields compile. */
  lemma LengthsThatCompile(env: Env, recv: string, f: Field)
    requires WellFormedEnv(env) && f.name != "_" && recv != "int"
    requires f.typ.Array? && f.typ.elt == Ident("int") && f.typ.len.BasicLit? && IsLengthLit(f.typ.len.text)
    ensures Compiles(env, recv, f)
    ensures IsLengthLit("3") && IsLengthLit("'a'") && IsLengthLit("1.0") && IsLengthLit("0x1p4")
  {
    hide *;
    LiteralLengths();
    IntArrayIsPrintable(env, recv, f.typ);
    CompilesExactlyWhenSupported(env, recv, f);
    assert Supported(env, recv, f.typ) by { PrintableArray(env, recv, f.typ); }
  }

  lemma PrintableArray(env: Env, recv: string, t: Expr)
    requires t.Array? && Printable(env, recv, t)
    ensures Supported(env, recv, t)
  {
    hide Printable;
  }

  lemma IntArrayIsPrintable(env: Env, recv: string, t: Expr)
    requires WellFormedEnv(env) && recv != "int"
    requires t.Array? && t.elt == Ident("int") && t.len.BasicLit? && IsLengthLit(t.len.text)
    ensures Printable(env, recv, t)
  {
    hide WellFormedEnv, IsLengthLit;
    assert "int" in NUMERIC;
    assert WellFormed(Ident("int")) && Local(env, recv, Ident("int")) && Local(env, recv, t.len);
    assert Normal(t) == t && WellFormed(t) && Local(env, recv, t);
  }

  lemma LiteralLengths()
    ensures IsLengthLit("3") && IsLengthLit("'a'") && IsLengthLit("1.0") && IsLengthLit("0x1p4")
  {
    assert QuoteFrom("'a'", 2) == 2;
    hide IsHex;
  }
}
