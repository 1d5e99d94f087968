/**
 * What the generator makes of the types everyone uses: the basic ones, name by name, and the structs
 * this repository marks, whose generated code comes out letter for letter and is run on a heap.
 */
module ResetFiles {
  import opened Options
  import opened GoTypes
  import opened ResetGen
  import opened ResetSemantics
  import opened ResetCorrect

  // ---- the basic types -----------------------------------------------------------------

  /** The predeclared numeric types of Go, name by name. */
  predicate IsNumber(n: string)
  {
    n in {"int", "int8", "int16", "int32", "int64", "uint", "uint8", "uint16", "uint32", "uint64", "uintptr",
          "float32", "float64", "complex64", "complex128", "byte", "rune"}
  }

  /** The generator knows exactly these, and they are no other basic type. */
  lemma NumbersAreNumeric(n: string)
    ensures IsNumber(n) <==> n in NUMERIC
    ensures IsNumber(n) ==> n != "bool" && n != "string" && ZeroValue(n) == "0" && ZeroRhs(n) == LitZero
  {
    hide TypeString;
    if IsNumber(n) && n[0] == 'b' {
      assert n == "byte";
    }
    assert "string"[0] == 's' && "bool"[1] == 'o';
  }

  /** A field of a numeric type compiles, gets `= 0`, and holds zero afterwards. */
  lemma NumericField(env: Env, recv: string, f: Field, v: Value)
    requires WellFormedEnv(env) && f.name != "_" && f.typ.Ident? && IsNumber(f.typ.name)
    ensures Compiles(env, recv, f) && ResetValue(env, f.typ, v) == NumV(0)
    ensures BuildFieldReset(recv, f.name, f.typ, env.marked) == "\t" + recv + "." + f.name + " = 0\n"
  {
    hide IsNumber, TypeString, Parse, ZeroValue, ZeroRhs;
    var n := f.typ.name;
    NumbersAreNumeric(n);
    assert IsBasic(n) && n !in env.marked && n !in env.named && n !in env.structs;
    assert "\t" + (recv + "." + f.name) + " = " + "0" + "\n" == "\t" + recv + "." + f.name + " = 0\n";
  }

  lemma BoolField(env: Env, recv: string, f: Field, v: Value)
    requires WellFormedEnv(env) && f.name != "_" && f.typ == Ident("bool")
    ensures Compiles(env, recv, f) && ResetValue(env, f.typ, v) == BoolV(false)
    ensures BuildFieldReset(recv, f.name, f.typ, env.marked) == "\t" + recv + "." + f.name + " = false\n"
  {
    assert IsBasic("bool") && "bool" !in env.marked && "bool" !in env.named;
    hide TypeString, Parse;
  }

  lemma StringField(env: Env, recv: string, f: Field, v: Value)
    requires WellFormedEnv(env) && f.name != "_" && f.typ == Ident("string")
    ensures Compiles(env, recv, f) && ResetValue(env, f.typ, v) == StrV("")
    ensures BuildFieldReset(recv, f.name, f.typ, env.marked) == "\t" + recv + "." + f.name + " = \"\"\n"
  {
    assert IsBasic("string") && "string" !in env.marked && "string" !in env.named;
    hide TypeString, Parse;
  }

  /** Every other name gets a composite literal, unless it is that of a marked struct. */
  lemma OtherField(recv: string, fieldName: string, n: string, marked: set<string>)
    requires n != "bool" && n != "string" && !IsNumber(n)
    ensures BuildFieldReset(recv, fieldName, Ident(n), marked) ==
      "\t" + recv + "." + fieldName + (if n in marked then ".Reset()\n" else " = " + n + "{}\n")
  {
    hide IsNumber, TypeString;
    NumbersAreNumeric(n);
    if n in marked {
      assert BuildFieldReset(recv, fieldName, Ident(n), marked) == "\t" + (recv + "." + fieldName) + ".Reset()\n";
    } else {
      assert BuildFieldReset(recv, fieldName, Ident(n), marked) ==
        "\t" + (recv + "." + fieldName) + " = " + (n + "{}") + "\n";
    }
  }

  // ---- the structs of this repository --------------------------------------------------

  /** One more declaration adds its names, in order. */
  lemma NamedFieldsGrow(fields: seq<AstField>, last: AstField)
    ensures NamedFields(fields + [last]) ==
      NamedFields(fields) + seq(|last.names|, i requires 0 <= i < |last.names| => Field(last.names[i], last.typ))
  {
    assert (fields + [last])[..|fields|] == fields;
  }

  lemma OneMoreField(fields: seq<AstField>, name: string, typ: Expr)
    ensures NamedFields(fields + [AstField([name], typ)]) == NamedFields(fields) + [Field(name, typ)]
  {
    NamedFieldsGrow(fields, AstField([name], typ));
  }

  /** Each field declared alone. */
  function Declared(fields: seq<Field>): seq<AstField>
  {
    seq(|fields|, i requires 0 <= i < |fields| => AstField([fields[i].name], fields[i].typ))
  }

  lemma {:induction false} DeclaredFields(fields: seq<Field>)
    ensures NamedFields(Declared(fields)) == fields
  {
    if fields != [] {
      var front, last := fields[..|fields| - 1], fields[|fields| - 1];
      DeclaredFields(front);
      OneMoreField(Declared(front), last.name, last.typ);
      assert Declared(fields) == Declared(front) + [AstField([last.name], last.typ)];
    }
  }

  const MUTEX := Selector(Ident("sync"), "RWMutex")
  const STRING := Ident("string")
  const INT64 := Ident("int64")
  const FLOAT64 := Ident("float64")

  const METRICS_FIELDS :=
    [Field("ID", STRING), Field("MType", STRING), Field("Delta", Star(INT64)), Field("Value", Star(FLOAT64))]

  const STORAGE_FIELDS :=
    [Field("mu", MUTEX), Field("gauges", Map(STRING, FLOAT64)), Field("counters", Map(STRING, INT64))]

  const COLLECTOR_FIELDS :=
    [Field("mu", MUTEX), Field("gauges", Map(STRING, FLOAT64)), Field("pollCount", INT64),
     Field("randomValue", FLOAT64), Field("rand", Star(Selector(Ident("rand"), "Rand")))]

  /** The code of a struct whose fields are declared one by one. */
  lemma CodeOf(name: string, fields: seq<Field>, marked: set<string>)
    requires name != []
    ensures var code := Code(ResetStruct(name, Declared(fields)), marked);
      && |code| == |fields|
      && forall k :: 0 <= k < |fields| ==>
           code[k] == BuildFieldReset(Receiver(name), fields[k].name, fields[k].typ, marked)
  {
    hide BuildFieldReset, Receiver;
    DeclaredFields(fields);
  }

  /** The check for a Reset method of a field mu, under receiver m. */
  lemma MutexCode(marked: set<string>)
    ensures BuildFieldReset("m", "mu", MUTEX, marked) ==
      "\tif resetter, ok := interface{}(&m.mu" + ").(interface{ Reset() }); ok {\n"
      + "\t\tresetter.Reset()\n" + "\t}\n"
  {
    hide TypeString;
    assert "\tif resetter, ok := interface{}(&" + ("m" + "." + "mu") == "\tif resetter, ok := interface{}(&m.mu";
  }

  lemma StorageMaps(marked: set<string>)
    ensures BuildFieldReset("m", "gauges", Map(STRING, FLOAT64), marked) == "\tclear(m.gauges)\n"
    ensures BuildFieldReset("m", "counters", Map(STRING, INT64), marked) == "\tclear(m.counters)\n"
  {
    hide TypeString;
  }

  lemma FirstOfM()
    ensures Receiver("MemStorage") == "m" && Receiver("Metrics") == "m" && Receiver("MetricsCollector") == "m"
    ensures Receiver("GopsutilCollector") == "g"
  {}

  /** The generated code of MemStorage. */
  lemma StorageCode()
    ensures Code(ResetStruct("MemStorage", Declared(STORAGE_FIELDS)), {"MemStorage"}) == [
      "\tif resetter, ok := interface{}(&m.mu" + ").(interface{ Reset() }); ok {\n"
      + "\t\tresetter.Reset()\n" + "\t}\n",
      "\tclear(m.gauges)\n",
      "\tclear(m.counters)\n"]
  {
    hide TypeString, BuildFieldReset, Receiver, Code, Declared;
    CodeOf("MemStorage", STORAGE_FIELDS, {"MemStorage"});
    FirstOfM();
    MutexCode({"MemStorage"});
    StorageMaps({"MemStorage"});
  }

  lemma DeltaCode(marked: set<string>)
    requires "int64" !in marked
    ensures BuildFieldReset("m", "Delta", Star(INT64), marked) ==
      "\tif m.Delta != nil {\n" + "\t\t*m.Delta = 0\n" + "\t}\n"
  {
    hide TypeString;
  }

  lemma ValueCode(marked: set<string>)
    requires "float64" !in marked
    ensures BuildFieldReset("m", "Value", Star(FLOAT64), marked) ==
      "\tif m.Value != nil {\n" + "\t\t*m.Value = 0\n" + "\t}\n"
  {
    hide TypeString;
  }

  lemma NamesCode(marked: set<string>)
    requires "string" !in marked
    ensures BuildFieldReset("m", "ID", STRING, marked) == "\tm.ID = \"\"\n"
    ensures BuildFieldReset("m", "MType", STRING, marked) == "\tm.MType = \"\"\n"
  {
    hide TypeString;
  }

  /** The generated code of Metrics. */
  lemma MetricsCode()
    ensures Code(ResetStruct("Metrics", Declared(METRICS_FIELDS)), {"Metrics"}) == [
      "\tm.ID = \"\"\n",
      "\tm.MType = \"\"\n",
      "\tif m.Delta != nil {\n" + "\t\t*m.Delta = 0\n" + "\t}\n",
      "\tif m.Value != nil {\n" + "\t\t*m.Value = 0\n" + "\t}\n"]
  {
    hide TypeString, BuildFieldReset, Receiver, Code, Declared;
    CodeOf("Metrics", METRICS_FIELDS, {"Metrics"});
    FirstOfM();
    NamesCode({"Metrics"});
    DeltaCode({"Metrics"});
    ValueCode({"Metrics"});
  }

  lemma CountsCode(marked: set<string>)
    requires "int64" !in marked && "float64" !in marked
    ensures BuildFieldReset("m", "pollCount", INT64, marked) == "\tm.pollCount = 0\n"
    ensures BuildFieldReset("m", "randomValue", FLOAT64, marked) == "\tm.randomValue = 0\n"
  {
    hide TypeString;
  }

  lemma RandCode(marked: set<string>)
    ensures BuildFieldReset("m", "rand", Star(Selector(Ident("rand"), "Rand")), marked) ==
      "\tif m.rand != nil {\n"
      + ("\t\tif resetter, ok := interface{}(m.rand" + ").(interface{ Reset() }); ok {\n"
      + "\t\t\tresetter.Reset()\n" + "\t\t}\n")
      + "\t}\n"
  {
    hide TypeString;
    assert "\t\tif resetter, ok := interface{}(" + ("m" + "." + "rand") == "\t\tif resetter, ok := interface{}(m.rand";
    assert "\tif " + ("m" + "." + "rand") + " != nil {\n" == "\tif m.rand != nil {\n";
  }

  /** The generated code of MetricsCollector, in a package with two marked structs. */
  lemma CollectorCode(marked: set<string>)
    requires marked == {"MetricsCollector", "GopsutilCollector"}
    ensures Code(ResetStruct("MetricsCollector", Declared(COLLECTOR_FIELDS)), marked) == [
      "\tif resetter, ok := interface{}(&m.mu" + ").(interface{ Reset() }); ok {\n"
      + "\t\tresetter.Reset()\n" + "\t}\n",
      "\tclear(m.gauges)\n",
      "\tm.pollCount = 0\n",
      "\tm.randomValue = 0\n",
      "\tif m.rand != nil {\n"
      + ("\t\tif resetter, ok := interface{}(m.rand" + ").(interface{ Reset() }); ok {\n"
      + "\t\t\tresetter.Reset()\n" + "\t\t}\n")
      + "\t}\n"]
  {
    hide TypeString, BuildFieldReset, Receiver, Code, Declared;
    CodeOf("MetricsCollector", COLLECTOR_FIELDS, marked);
    FirstOfM();
    MutexCode(marked);
    StorageMaps(marked);
    NotMarked(marked);
    CountsCode(marked);
    RandCode(marked);
  }

  lemma NotMarked(marked: set<string>)
    requires marked == {"MetricsCollector", "GopsutilCollector"}
    ensures "int64" !in marked && "float64" !in marked
  {
    assert "MetricsCollector"[0] == 'M' && "GopsutilCollector"[0] == 'G';
  }

  // ---- the same structs on a heap ------------------------------------------------------

  /** Field i is the first of its name, and the name is not blank. */
  predicate At(fs: seq<Field>, i: nat, vs: seq<Value>)
  {
    i < |fs| == |vs| && fs[i].name != "_" && Index(fs, fs[i].name) == i
  }

  lemma BasicIsBasic(env: Env, n: string)
    requires WellFormedEnv(env) && n in {"string", "bool", "int", "int64", "float64"}
    ensures n !in env.structs && n !in env.named && n !in env.marked
  {
    assert IsBasic(n);
  }

  lemma StringRun(env: Env, recv: string, fs: seq<Field>, i: nat, h: Heap, vs: seq<Value>)
    requires WellFormedEnv(env) && At(fs, i, vs) && fs[i].typ == STRING
    ensures FieldRun(env, recv, fs, i, h, vs, 1) == Done(h, vs[i := StrV("")])
  {
    hide WellFormedEnv;
    BasicIsBasic(env, "string");
  }

  lemma PointerRun(env: Env, recv: string, fs: seq<Field>, i: nat, h: Heap, vs: seq<Value>)
    requires WellFormedEnv(env) && At(fs, i, vs) && fs[i].typ in {Star(INT64), Star(FLOAT64)}
    requires vs[i].PtrV? && (vs[i].to.Some? ==> vs[i].to.value in h.cells)
    ensures FieldRun(env, recv, fs, i, h, vs, 1) == Done(ZeroAt(h, vs[i].to), vs)
  {
    hide WellFormedEnv;
    BasicIsBasic(env, fs[i].typ.x.name);
  }

  /** The heap with a zero number behind the pointer. */
  function ZeroAt(h: Heap, p: Option<nat>): Heap
  {
    if p.Some? then h.(cells := h.cells[p.value := NumV(0)]) else h
  }

  /** The code of the i-th field, which leaves the other fields as they are. */
  lemma RunOn(env: Env, s: string, i: nat, h: Heap, vs: seq<Value>, h1: Heap, vs1: seq<Value>)
    requires WellFormedEnv(env) && Fits(env, s, i, vs) && i < |vs| == |vs1|
    requires FieldRun(env, Receiver(s), env.structs[s], i, h, vs, 1) == Done(h1, vs1)
    ensures RunBody(env, s, i, h, vs, 1) == RunBody(env, s, i + 1, h1, vs1, 1)
  {
    hide RunBody, FieldRun, WellFormedEnv;
    BodyStep(env, s, i, h, vs, 1);
  }

  lemma HasDepth(env: Env, s: string)
    requires WellFormedEnv(env) && s in env.structs
    ensures s in env.depth
  {}

  lemma MetricsIndexes(vs: seq<Value>)
    requires |vs| == 4
    ensures At(METRICS_FIELDS, 0, vs) && At(METRICS_FIELDS, 1, vs) && At(METRICS_FIELDS, 2, vs)
    ensures At(METRICS_FIELDS, 3, vs)
  {
    assert METRICS_FIELDS[1..][0].name == "MType" && METRICS_FIELDS[1..][1..][0].name == "Delta";
  }

  /** Resetting a Metrics empties its strings and puts zeros behind its pointers. */
  lemma MetricsResets(env: Env, h: Heap, id: string, mtype: string, delta: Option<nat>, value: Option<nat>)
    requires WellFormedEnv(env) && "Metrics" in env.structs && env.structs["Metrics"] == METRICS_FIELDS
    requires (delta.Some? ==> delta.value in h.cells) && (value.Some? ==> value.value in h.cells)
    ensures Run(env, "Metrics", h, [StrV(id), StrV(mtype), PtrV(delta), PtrV(value)], 1) ==
      Done(ZeroAt(ZeroAt(h, delta), value), [StrV(""), StrV(""), PtrV(delta), PtrV(value)])
  {
    hide FieldRun, RunBody, Index, WellFormedEnv, HasShape;
    var fs, vs := METRICS_FIELDS, [StrV(id), StrV(mtype), PtrV(delta), PtrV(value)];
    HasDepth(env, "Metrics");
    MetricsIndexes(vs);
    StringRun(env, "m", fs, 0, h, vs);
    RunOn(env, "Metrics", 0, h, vs, h, vs[0 := StrV("")]);
    var vs1 := vs[0 := StrV("")];
    StringRun(env, "m", fs, 1, h, vs1);
    var vs2 := vs1[1 := StrV("")];
    RunOn(env, "Metrics", 1, h, vs1, h, vs2);
    PointerRun(env, "m", fs, 2, h, vs2);
    var h1 := ZeroAt(h, delta);
    RunOn(env, "Metrics", 2, h, vs2, h1, vs2);
    PointerRun(env, "m", fs, 3, h1, vs2);
    var h2 := ZeroAt(h1, value);
    RunOn(env, "Metrics", 3, h1, vs2, h2, vs2);
    BodyStep(env, "Metrics", 4, h2, vs2, 1);
  }

  // ---- the other forms on a heap -------------------------------------------------------

  const BUFFER_FIELDS :=
    [Field("data", Slice(Ident("byte"))), Field("pair", Array(BasicLit("2"), Ident("int"))), Field("done", Func),
     Field("cache", Map(STRING, INT64))]

  lemma BufferIndexes(vs: seq<Value>)
    requires |vs| == 4
    ensures At(BUFFER_FIELDS, 0, vs) && At(BUFFER_FIELDS, 1, vs) && At(BUFFER_FIELDS, 2, vs)
    ensures At(BUFFER_FIELDS, 3, vs)
  {
    assert BUFFER_FIELDS[1..][0].name == "pair" && BUFFER_FIELDS[1..][1..][0].name == "done";
  }

  lemma SliceRun(env: Env, recv: string, fs: seq<Field>, i: nat, h: Heap, vs: seq<Value>)
    requires WellFormedEnv(env) && At(fs, i, vs) && fs[i].typ.Slice? && vs[i].SliceV?
    ensures FieldRun(env, recv, fs, i, h, vs, 1) == Done(h, vs[i := SliceV(vs[i].base, 0, vs[i].cap)])
  {
    hide WellFormedEnv;
  }

  lemma FuncRun(env: Env, recv: string, fs: seq<Field>, i: nat, h: Heap, vs: seq<Value>)
    requires WellFormedEnv(env) && At(fs, i, vs) && fs[i].typ.Func?
    ensures FieldRun(env, recv, fs, i, h, vs, 1) == Done(h, vs[i := RefV(None)])
  {
    hide WellFormedEnv;
  }

  lemma MapRun(env: Env, recv: string, fs: seq<Field>, i: nat, h: Heap, vs: seq<Value>, m: nat)
    requires WellFormedEnv(env) && At(fs, i, vs) && fs[i].typ.Map? && vs[i] == MapV(MapAt(m)) && m in h.maps
    ensures FieldRun(env, recv, fs, i, h, vs, 1) == Done(h.(maps := h.maps[m := map[]]), vs)
  {
    hide WellFormedEnv;
  }

  lemma PairZero(env: Env, v: Value)
    requires WellFormedEnv(env) && BasicLit("2") in env.lengths && env.lengths[BasicLit("2")] == 2
    ensures ResetValue(env, Array(BasicLit("2"), Ident("int")), v) == ArrV([NumV(0), NumV(0)])
  {
    BasicIsBasic(env, "int");
    var t := Array(BasicLit("2"), Ident("int"));
    assert Zero(env, t.elt) == NumV(0);
    assert Repeat(NumV(0), 2) == [NumV(0), NumV(0)];
    hide WellFormedEnv;
  }

  lemma TwoIsALength()
    ensures IsLengthLit("2")
  {
    hide IsHex;
  }

  lemma PairRun(env: Env, fs: seq<Field>, i: nat, h: Heap, vs: seq<Value>)
    requires WellFormedEnv(env) && At(fs, i, vs) && fs[i].typ == Array(BasicLit("2"), Ident("int"))
    requires BasicLit("2") in env.lengths && env.lengths[BasicLit("2")] == 2
    ensures FieldRun(env, "b", fs, i, h, vs, 1) == Done(h, vs[i := ArrV([NumV(0), NumV(0)])])
  {
    hide WellFormedEnv, Parse, IsLengthLit, TypeString, FieldRun, Compiles, ResetValue;
    TwoIsALength();
    assert "b"[0] != "int"[0];
    LengthsThatCompile(env, "b", fs[i]);
    AssignedField(env, "b", fs, i, h, vs, 1);
    PairZero(env, vs[i]);
  }

  /**
   * Resetting a struct of the other forms: the slice keeps its array and capacity and loses its
   * elements, the array is all zeros, the function is nil, and the map that was there is empty.
   */
  lemma BufferResets(env: Env, h: Heap, base: Base, len: nat, cap: nat, pair: Value, done: Value, m: nat)
    requires WellFormedEnv(env) && "Buffer" in env.structs && env.structs["Buffer"] == BUFFER_FIELDS
    requires BasicLit("2") in env.lengths && env.lengths[BasicLit("2")] == 2 && m in h.maps
    ensures Run(env, "Buffer", h, [SliceV(base, len, cap), pair, done, MapV(MapAt(m))], 1) ==
      Done(h.(maps := h.maps[m := map[]]),
           [SliceV(base, 0, cap), ArrV([NumV(0), NumV(0)]), RefV(None), MapV(MapAt(m))])
  {
    hide FieldRun, RunBody, Index, WellFormedEnv, HasShape;
    var fs, vs := BUFFER_FIELDS, [SliceV(base, len, cap), pair, done, MapV(MapAt(m))];
    HasDepth(env, "Buffer");
    BufferIndexes(vs);
    SliceRun(env, "b", fs, 0, h, vs);
    var vs1 := vs[0 := SliceV(base, 0, cap)];
    RunOn(env, "Buffer", 0, h, vs, h, vs1);
    PairRun(env, fs, 1, h, vs1);
    var vs2 := vs1[1 := ArrV([NumV(0), NumV(0)])];
    RunOn(env, "Buffer", 1, h, vs1, h, vs2);
    FuncRun(env, "b", fs, 2, h, vs2);
    var vs3 := vs2[2 := RefV(None)];
    RunOn(env, "Buffer", 2, h, vs2, h, vs3);
    MapRun(env, "b", fs, 3, h, vs3, m);
    var h1 := h.(maps := h.maps[m := map[]]);
    RunOn(env, "Buffer", 3, h, vs3, h1, vs3);
    BodyStep(env, "Buffer", 4, h1, vs3, 1);
  }

  /**
   * A value of a type declared elsewhere is reset by its own Reset method, in a field or behind a
   * pointer, and stays as it is when it has none.
   */
  lemma ForeignResets(env: Env, recv: string, fs: seq<Field>, i: nat, h: Heap, vs: seq<Value>, t: Expr, state: int)
    requires WellFormedEnv(env) && At(fs, i, vs) && t.Selector? && (t in env.foreign ==> env.foreign[t] == state)
    ensures fs[i].typ == t && vs[i].ExtV? ==>
      FieldRun(env, recv, fs, i, h, vs, 1) == Done(h, if t in env.foreign then vs[i := ExtV(state)] else vs)
    ensures fs[i].typ == Star(t) && vs[i].PtrV? && vs[i].to.Some? && vs[i].to.value in h.cells ==>
      FieldRun(env, recv, fs, i, h, vs, 1) ==
        Done(if t in env.foreign then h.(cells := h.cells[vs[i].to.value := ExtV(state)]) else h, vs)
  {
    hide WellFormedEnv;
  }

  lemma SpelledTypes(env: Env, recv: string)
    requires WellFormedEnv(env) && recv !in {"byte", "string", "int64"}
    ensures Supported(env, recv, Star(Slice(Ident("byte")))) && Supported(env, recv, Star(Map(STRING, INT64)))
  {
    hide WellFormedEnv;
    var b := Ident("byte");
    assert IsBasic("byte") && IsBasic("string") && IsBasic("int64");
    assert WellFormed(b) && WellFormed(STRING) && WellFormed(INT64);
    assert Local(env, recv, b) && Local(env, recv, STRING) && Local(env, recv, INT64);
    assert Normal(b) == b && Normal(STRING) == STRING && Normal(INT64) == INT64;
    assert Normal(Slice(b)) == Slice(b) && WellFormed(Slice(b)) && Local(env, recv, Slice(b));
    var m := Map(STRING, INT64);
    assert Normal(m) == m && WellFormed(m) && Local(env, recv, m);
  }

  /** Behind a pointer a slice and a map are not truncated or cleared but replaced by new empty ones. */
  lemma FreshBehindPointer(env: Env, recv: string, fs: seq<Field>, i: nat, h: Heap, vs: seq<Value>, l: nat)
    requires WellFormedEnv(env) && At(fs, i, vs) && vs[i] == PtrV(Some(l)) && l in h.cells
    requires recv !in {"byte", "string", "int64"}
    ensures fs[i].typ == Star(Slice(Ident("byte"))) ==>
      FieldRun(env, recv, fs, i, h, vs, 1) == Done(h.(cells := h.cells[l := SliceV(NewBase, 0, 0)]), vs)
    ensures fs[i].typ == Star(Map(STRING, INT64)) ==>
      FieldRun(env, recv, fs, i, h, vs, 1) == Done(h.(cells := h.cells[l := MapV(NewMap)]), vs)
  {
    SpelledTypes(env, recv);
    if fs[i].typ in {Star(Slice(Ident("byte"))), Star(Map(STRING, INT64))} {
      CompilesExactlyWhenSupported(env, recv, fs[i]);
      hide WellFormedEnv, Supported, Parse, TypeString, Local;
      var x := fs[i].typ.x;
      PointerField(env, recv, fs, i, h, vs, 1);
      assert Eval(env, recv, Composite(TypeString(x)), x).Some?;
    }
  }
}
