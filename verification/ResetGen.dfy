/**
 * The generator: from the fields of the marked structs to the text of their Reset methods.
 * Each field's text is also given as a statement tree, which is what the semantics runs.
 */
module ResetGen {
  import opened GoTypes

  /** A named field; `a, b T` is two of them. */
  datatype Field = Field(name: string, typ: Expr)

  datatype Rhs = LitFalse | LitEmptyString | LitZero | LitNil | Composite(typeText: string)

  datatype PtrAction = CallPtrReset | AssignPtr(rhs: Rhs) | PtrResetIfAble

  /** The statement emitted for one field of the receiver. */
  datatype Stmt =
    | CallReset(field: string)
    | Assign(field: string, rhs: Rhs)
    | IfNotNil(field: string, action: PtrAction)
    | Truncate(field: string)
    | Clear(field: string)
    | ResetIfAble(field: string)
    | Comment(field: string)

  const NUMERIC: set<string> :=
    {"int", "int8", "int16", "int32", "int64", "uint", "uint8", "uint16", "uint32", "uint64",
     "float32", "float64", "complex64", "complex128", "byte", "rune", "uintptr"}

  predicate IsBasic(name: string) { name == "bool" || name == "string" || name in NUMERIC }

  // ---- the text, as the generator builds it --------------------------------------------

  function ZeroValue(typeName: string): string
  {
    if typeName == "bool" then "false"
    else if typeName == "string" then "\"\""
    else if typeName in NUMERIC then "0"
    else typeName + "{}"
  }

  function ZeroLiteral(e: Expr): string
  {
    if e.Ident? then ZeroValue(e.name) else TypeString(e) + "{}"
  }

  /** What buildFieldReset writes inside the nil check of a pointer field. */
  function BuildPointeeReset(access: string, x: Expr, marked: set<string>): string
  {
    match x
    case Ident(name) =>
      if name in marked then "\t\t" + access + ".Reset()\n" else "\t\t*" + access + " = " + ZeroValue(name) + "\n"
    case Selector(_, _) =>
      "\t\tif resetter, ok := interface{}(" + access + ").(interface{ Reset() }); ok {\n"
      + "\t\t\tresetter.Reset()\n" + "\t\t}\n"
    case _ => "\t\t*" + access + " = " + ZeroLiteral(x) + "\n"
  }

  function BuildFieldReset(recv: string, fieldName: string, e: Expr, marked: set<string>): string
  {
    var access := recv + "." + fieldName;
    match e
    case Ident(name) =>
      if name in marked then "\t" + access + ".Reset()\n" else "\t" + access + " = " + ZeroValue(name) + "\n"
    case Star(x) =>
      "\tif " + access + " != nil {\n" + BuildPointeeReset(access, x, marked) + "\t}\n"
    case Slice(_) => "\t" + access + " = " + access + "[:0]\n"
    case Array(_, _) => "\t" + access + " = " + TypeString(e) + "{}\n"
    case Map(_, _) => "\tclear(" + access + ")\n"
    case Selector(_, _) =>
      "\tif resetter, ok := interface{}(&" + access + ").(interface{ Reset() }); ok {\n"
      + "\t\tresetter.Reset()\n" + "\t}\n"
    case Interface(_) => "\t" + access + " = nil\n"
    case Func => "\t" + access + " = nil\n"
    case Chan => "\t" + access + " = nil\n"
    case _ => "\t// unsupported type for field " + fieldName + "\n"
  }

  // ---- the same as statements ----------------------------------------------------------

  function ZeroRhs(typeName: string): Rhs
  {
    if typeName == "bool" then LitFalse
    else if typeName == "string" then LitEmptyString
    else if typeName in NUMERIC then LitZero
    else Composite(typeName)
  }

  function CompilePointee(x: Expr, marked: set<string>): PtrAction
  {
    match x
    case Ident(name) => if name in marked then CallPtrReset else AssignPtr(ZeroRhs(name))
    case Selector(_, _) => PtrResetIfAble
    case _ => AssignPtr(Composite(TypeString(x)))
  }

  function Compile(fieldName: string, e: Expr, marked: set<string>): Stmt
  {
    match e
    case Ident(name) => if name in marked then CallReset(fieldName) else Assign(fieldName, ZeroRhs(name))
    case Star(x) => IfNotNil(fieldName, CompilePointee(x, marked))
    case Slice(_) => Truncate(fieldName)
    case Array(_, _) => Assign(fieldName, Composite(TypeString(e)))
    case Map(_, _) => Clear(fieldName)
    case Selector(_, _) => ResetIfAble(fieldName)
    case Interface(_) => Assign(fieldName, LitNil)
    case Func => Assign(fieldName, LitNil)
    case Chan => Assign(fieldName, LitNil)
    case _ => Comment(fieldName)
  }

  function RhsText(r: Rhs): string
  {
    match r
    case LitFalse => "false"
    case LitEmptyString => "\"\""
    case LitZero => "0"
    case LitNil => "nil"
    case Composite(typeText) => typeText + "{}"
  }

  function ActionText(access: string, action: PtrAction): string
  {
    match action
    case CallPtrReset => "\t\t" + access + ".Reset()\n"
    case AssignPtr(rhs) => "\t\t*" + access + " = " + RhsText(rhs) + "\n"
    case PtrResetIfAble =>
      "\t\tif resetter, ok := interface{}(" + access + ").(interface{ Reset() }); ok {\n"
      + "\t\t\tresetter.Reset()\n" + "\t\t}\n"
  }

  function StmtText(recv: string, s: Stmt): string
  {
    var access := recv + "." + s.field;
    match s
    case CallReset(_) => "\t" + access + ".Reset()\n"
    case Assign(_, rhs) => "\t" + access + " = " + RhsText(rhs) + "\n"
    case IfNotNil(_, action) =>
      "\tif " + access + " != nil {\n" + ActionText(access, action) + "\t}\n"
    case Truncate(_) => "\t" + access + " = " + access + "[:0]\n"
    case Clear(_) => "\tclear(" + access + ")\n"
    case ResetIfAble(_) =>
      "\tif resetter, ok := interface{}(&" + access + ").(interface{ Reset() }); ok {\n"
      + "\t\tresetter.Reset()\n" + "\t}\n"
    case Comment(_) => "\t// unsupported type for field " + s.field + "\n"
  }

  lemma ZeroRhsIsZeroValue(name: string)
    ensures RhsText(ZeroRhs(name)) == ZeroValue(name)
  {}

  lemma CompilePointeeIsBuild(access: string, x: Expr, marked: set<string>)
    ensures ActionText(access, CompilePointee(x, marked)) == BuildPointeeReset(access, x, marked)
  {
    if x.Ident? {
      ZeroRhsIsZeroValue(x.name);
    }
    hide TypeString, ZeroValue, ZeroRhs;
  }

  lemma CompileNameIsBuild(recv: string, fieldName: string, name: string, marked: set<string>)
    ensures StmtText(recv, Compile(fieldName, Ident(name), marked)) ==
      BuildFieldReset(recv, fieldName, Ident(name), marked)
  {
    ZeroRhsIsZeroValue(name);
    hide TypeString, ZeroValue, ZeroRhs;
  }

  lemma CompilePointerIsBuild(recv: string, fieldName: string, x: Expr, marked: set<string>)
    ensures StmtText(recv, Compile(fieldName, Star(x), marked)) == BuildFieldReset(recv, fieldName, Star(x), marked)
  {
    CompilePointeeIsBuild(recv + "." + fieldName, x, marked);
    hide TypeString, ActionText, CompilePointee, BuildPointeeReset;
  }

  lemma CompileFormIsBuild(recv: string, fieldName: string, e: Expr, marked: set<string>)
    requires !e.Ident? && !e.Star?
    ensures StmtText(recv, Compile(fieldName, e, marked)) == BuildFieldReset(recv, fieldName, e, marked)
  {
    hide TypeString, ZeroValue, ZeroRhs, ActionText, CompilePointee, BuildPointeeReset;
  }

  /** The statement trees are the text, read as Go. */
  lemma CompileIsBuild(recv: string, fieldName: string, e: Expr, marked: set<string>)
    ensures StmtText(recv, Compile(fieldName, e, marked)) == BuildFieldReset(recv, fieldName, e, marked)
  {
    hide StmtText, Compile, BuildFieldReset;
    match e
    case Ident(name) => CompileNameIsBuild(recv, fieldName, name, marked);
    case Star(x) => CompilePointerIsBuild(recv, fieldName, x, marked);
    case _ => CompileFormIsBuild(recv, fieldName, e, marked);
  }

  // ---- the file ------------------------------------------------------------------------

  /** A declaration group `a, b T`; an embedded field has no names. */
  datatype AstField = AstField(names: seq<string>, typ: Expr)

  datatype ResetStruct = ResetStruct(name: string, fields: seq<AstField>)

  datatype TemplateStruct = TemplateStruct(name: string, receiver: string, code: seq<string>)

  /** The named fields of a struct, in order; embedded ones are passed over. */
  function NamedFields(fields: seq<AstField>): seq<Field>
  {
    if fields == [] then [] else
    var last := fields[|fields| - 1];
    NamedFields(fields[..|fields| - 1])
      + seq(|last.names|, i requires 0 <= i < |last.names| => Field(last.names[i], last.typ))
  }

  function Names(structs: seq<ResetStruct>): set<string> { set s | s in structs :: s.name }

  function Lower(c: char): char { if 'A' <= c <= 'Z' then c - 'A' + 'a' else c }

  /** The bytes of U+FFFD, which stands in for a byte that is no character of its own. */
  const REPLACEMENT := "\U{EF}\U{BF}\U{BD}"

  /** The first byte of the name in lower case. */
  function Receiver(name: string): string
    requires name != []
  {
    if name[0] < '\U{0080}' then [Lower(name[0])] else REPLACEMENT
  }

  /** The pieces of code of a struct's Reset method: one a named field, in order. */
  function Code(s: ResetStruct, marked: set<string>): seq<string>
    requires s.name != []
  {
    var fields := NamedFields(s.fields);
    seq(|fields|, k requires 0 <= k < |fields| =>
      BuildFieldReset(Receiver(s.name), fields[k].name, fields[k].typ, marked))
  }

  function Generated(s: ResetStruct, marked: set<string>): TemplateStruct
    requires s.name != []
  {
    TemplateStruct(s.name, Receiver(s.name), Code(s, marked))
  }

  /** generateFile: one Reset method a struct. */
  method GenerateFile(structs: seq<ResetStruct>) returns (file: seq<TemplateStruct>)
    requires forall s | s in structs :: s.name != []
    ensures |file| == |structs|
    ensures forall i :: 0 <= i < |structs| ==> file[i] == Generated(structs[i], Names(structs))
  {
    var marked: set<string> := {};
    for i := 0 to |structs|
      invariant marked == Names(structs[..i])
    {
      marked := marked + {structs[i].name};
      assert structs[..i + 1] == structs[..i] + [structs[i]];
    }
    assert structs[..|structs|] == structs;
    file := [];
    for i := 0 to |structs|
      invariant |file| == i
      invariant forall j :: 0 <= j < i ==> file[j] == Generated(structs[j], Names(structs))
    {
      var code := GenerateStruct(structs[i], marked);
      file := file + [TemplateStruct(structs[i].name, Receiver(structs[i].name), code)];
    }
  }

  method GenerateStruct(s: ResetStruct, marked: set<string>) returns (code: seq<string>)
    requires s.name != []
    ensures code == Code(s, marked)
  {
    hide BuildFieldReset;
    code := [];
    for f := 0 to |s.fields|
      invariant |code| == |NamedFields(s.fields[..f])|
      invariant forall k :: 0 <= k < |code| ==>
        var field := NamedFields(s.fields[..f])[k];
        code[k] == BuildFieldReset(Receiver(s.name), field.name, field.typ, marked)
    {
      var names := s.fields[f].names;
      ghost var before := NamedFields(s.fields[..f]);
      assert s.fields[..f + 1][..f] == s.fields[..f];
      for n := 0 to |names|
        invariant |code| == |before| + n
        invariant forall k :: 0 <= k < |before| ==>
          code[k] == BuildFieldReset(Receiver(s.name), before[k].name, before[k].typ, marked)
        invariant forall k :: 0 <= k < n ==>
          code[|before| + k] == BuildFieldReset(Receiver(s.name), names[k], s.fields[f].typ, marked)
      {
        code := code + [BuildFieldReset(Receiver(s.name), names[n], s.fields[f].typ, marked)];
      }
    }
    assert s.fields[..|s.fields|] == s.fields;
  }
}
