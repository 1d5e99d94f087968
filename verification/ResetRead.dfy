/**
 * A reader for the generated statements, with its own idea of how Go writes them.  What the generator
 * prints reads back as the statement the semantics runs.
 */
module ResetRead {
  import opened Options
  import opened GoTypes
  import opened ResetGen

  // ---- the reader ----------------------------------------------------------------------

  /** What follows a token, when the text starts with it. */
  function After(token: string, s: string): (r: Option<string>)
    ensures r.Some? <==> token <= s
    ensures r.Some? ==> s == token + r.value
  {
    if token <= s then Some(s[|token|..]) else None
  }

  /** What precedes a token, when the text ends with it. */
  function Before(s: string, token: string): (r: Option<string>)
    ensures r.Some? ==> s == r.value + token
  {
    if |token| <= |s| && s[|s| - |token|..] == token then Some(s[..|s| - |token|]) else None
  }

  datatype Access = Access(field: string, rest: string)

  /** A field of the receiver. */
  function ReadAccess(recv: string, s: string): Option<Access>
  {
    match After(recv + ".", s)
    case None => None
    case Some(t) => Some(Access(t[..Span(t)], t[Span(t)..]))
  }

  /** The right-hand side of an assignment, to the end of its line. */
  function ReadRhs(s: string): Option<Rhs>
  {
    match Before(s, "\n")
    case None => None
    case Some(v) =>
      if v == "false" then Some(LitFalse)
      else if v == "\"\"" then Some(LitEmptyString)
      else if v == "0" then Some(LitZero)
      else if v == "nil" then Some(LitNil)
      else match Before(v, "{}") case None => None case Some(t) => Some(Composite(t))
  }

  /** The tokens of the check whether a value has a Reset method of its own. */
  function OpenResetter(): string { "resetter, ok := interface{}(" }

  function IsResetter(): string { ").(interface{ Reset() }); ok {\n" }

  function CallResetter(): string { "resetter.Reset()\n" }

  /** What a pointer field gets: in the check, the pointer alone, or the value behind it. */
  function ReadAction(access: string, s: string): Option<PtrAction>
  {
    match After("\t\tif ", s)
    case Some(t) =>
      if t == OpenResetter() + (access + (IsResetter() + ("\t\t\t" + (CallResetter() + "\t\t}\n")))) then
        Some(PtrResetIfAble)
      else None
    case None =>
      match After("\t\t*", s)
      case Some(t) => ReadAssignPtr(access, t)
      case None => if s == "\t\t" + (access + ".Reset()\n") then Some(CallPtrReset) else None
  }

  function ReadAssignPtr(access: string, t: string): Option<PtrAction>
  {
    match After(access + " = ", t)
    case None => None
    case Some(v) => match ReadRhs(v) case None => None case Some(rhs) => Some(AssignPtr(rhs))
  }

  /** What stands after the field a statement begins with. */
  function ReadTail(recv: string, field: string, rest: string): Option<Stmt>
  {
    if rest == ".Reset()\n" then Some(CallReset(field))
    else
      match After(" = ", rest)
      case None => None
      case Some(v) =>
        if v == recv + "." + field + "[:0]\n" then Some(Truncate(field))
        else match ReadRhs(v) case None => None case Some(rhs) => Some(Assign(field, rhs))
  }

  function ReadIfNotNil(recv: string, a: Access): Option<Stmt>
  {
    match After(" != nil {\n", a.rest)
    case None => None
    case Some(body) =>
      match Before(body, "\t}\n")
      case None => None
      case Some(inner) =>
        match ReadAction(recv + "." + a.field, inner)
        case None => None
        case Some(action) => Some(IfNotNil(a.field, action))
  }

  function ReadResetter(recv: string, t: string): Option<Stmt>
  {
    match After(OpenResetter() + "&", t)
    case None => None
    case Some(u) =>
      match ReadAccess(recv, u)
      case None => None
      case Some(a) =>
        if a.rest == IsResetter() + ("\t\t" + (CallResetter() + "\t}\n")) then Some(ResetIfAble(a.field)) else None
  }

  /** An if: the nil check of a field, or the check for a Reset method. */
  function ReadIf(recv: string, t: string): Option<Stmt>
  {
    match ReadAccess(recv, t)
    case Some(a) => ReadIfNotNil(recv, a)
    case None => ReadResetter(recv, t)
  }

  function ReadClear(recv: string, t: string): Option<Stmt>
  {
    match ReadAccess(recv, t)
    case None => None
    case Some(a) => if a.rest == ")\n" then Some(Clear(a.field)) else None
  }

  function Unsupported(): string { " unsupported type for field " }

  function ReadComment(t: string): Option<Stmt>
  {
    match After(Unsupported(), t)
    case None => None
    case Some(u) => match Before(u, "\n") case None => None case Some(field) => Some(Comment(field))
  }

  /** One statement of a Reset method with this receiver, after its tab. */
  function ReadLine(recv: string, t: string): Option<Stmt>
  {
    if "//" <= t then ReadComment(t[2..])
    else if "clear(" <= t then ReadClear(recv, t[6..])
    else if "if " <= t then ReadIf(recv, t[3..])
    else match ReadAccess(recv, t) case None => None case Some(a) => ReadTail(recv, a.field, a.rest)
  }

  function Read(recv: string, s: string): Option<Stmt>
  {
    match After("\t", s) case None => None case Some(t) => ReadLine(recv, t)
  }

  // ---- it reads what the generator prints ----------------------------------------------

  /** A name Receiver gives: one byte, or the character that stands in for a byte. */
  predicate IsReceiver(recv: string) { IsWord(recv) && (|recv| == 1 || recv[0] >= '\U{0080}') }

  lemma ReceiverIsReceiver(name: string)
    requires IsIdent(name)
    ensures IsReceiver(Receiver(name))
  {
    assert IsWordChar(name[0]);
  }

  lemma AfterToken(token: string, rest: string)
    ensures token <= token + rest && After(token, token + rest) == Some(rest)
  {}

  lemma BeforeToken(front: string, token: string)
    ensures Before(front + token, token) == Some(front)
  {}

  lemma AccessReads(recv: string, field: string, rest: string)
    requires IsWord(field) && rest != [] && !IsWordChar(rest[0])
    ensures ReadAccess(recv, recv + "." + field + rest) == Some(Access(field, rest))
  {
    assert recv + "." + field + rest == (recv + ".") + (field + rest);
    AfterToken(recv + ".", field + rest);
    SpanOfWord(field, rest);
  }

  /** The values the generator assigns. */
  lemma RhsReads(rhs: Rhs)
    ensures ReadRhs(RhsText(rhs) + "\n") == Some(rhs)
  {
    BeforeToken(RhsText(rhs), "\n");
    if rhs.Composite? {
      BeforeToken(rhs.typeText, "{}");
      assert RhsText(rhs)[|RhsText(rhs)| - 1] == '}';
    }
  }

  lemma ZeroReads(name: string)
    ensures ReadRhs(ZeroValue(name) + "\n") == Some(ZeroRhs(name))
  {
    ZeroRhsIsZeroValue(name);
    RhsReads(ZeroRhs(name));
  }

  lemma LiteralReads(x: Expr)
    ensures !x.Ident? ==> ReadRhs(ZeroLiteral(x) + "\n") == Some(Composite(TypeString(x)))
  {
    RhsReads(Composite(TypeString(x)));
  }

  // ---- inside the nil check ------------------------------------------------------------

  lemma AssignPtrReads(access: string, value: string)
    requires ReadRhs(value + "\n").Some?
    ensures ReadAction(access, "\t\t*" + access + " = " + value + "\n") == Some(AssignPtr(ReadRhs(value + "\n").value))
  {
    hide ReadRhs, OpenResetter, IsResetter, CallResetter;
    var t := (access + " = ") + (value + "\n");
    var s := "\t\t*" + t;
    assert "\t\t*" + access + " = " + value + "\n" == s;
    assert s[2] == '*' && "\t\tif "[2] == 'i';
    AfterToken("\t\t*", t);
    AfterToken(access + " = ", value + "\n");
  }

  lemma CallReads(access: string)
    requires |access| >= 3 && IsWordChar(access[0]) && (access[1] == '.' || access[0] >= '\U{0080}')
    ensures ReadAction(access, "\t\t" + access + ".Reset()\n") == Some(CallPtrReset)
  {
    hide ReadRhs, OpenResetter, IsResetter, CallResetter, ReadAssignPtr;
    var s := "\t\t" + (access + ".Reset()\n");
    assert "\t\t" + access + ".Reset()\n" == s;
    assert s[2] == access[0] && s[3] == access[1];
    assert "\t\tif "[3] == 'f' && "\t\tif "[2] == 'i' && "\t\t*"[2] == '*';
  }

  lemma OpenPointee()
    ensures "\t\tif resetter, ok := interface{}(" == "\t\tif " + OpenResetter()
  {}

  lemma CloseCheck()
    ensures ").(interface{ Reset() }); ok {\n" == IsResetter()
  {}

  lemma PointeeCall()
    ensures "\t\t\tresetter.Reset()\n" == "\t\t\t" + CallResetter()
  {}

  lemma Regroup(a: string, b: string, c: string, d: string, e: string, f: string, g: string)
    ensures (a + b) + c + d + (e + f) + g == a + (b + (c + (d + (e + (f + g)))))
  {}

  lemma ResetterActionReads(access: string, open: string, close: string, call: string)
    requires open == "\t\tif " + OpenResetter() && close == IsResetter() && call == "\t\t\t" + CallResetter()
    ensures ReadAction(access, open + access + close + call + "\t\t}\n") == Some(PtrResetIfAble)
  {
    hide OpenResetter, IsResetter, CallResetter, ReadRhs, ReadAssignPtr;
    Regroup("\t\tif ", OpenResetter(), access, close, "\t\t\t", CallResetter(), "\t\t}\n");
    AfterToken("\t\tif ", OpenResetter() + (access + (close + ("\t\t\t" + (CallResetter() + "\t\t}\n")))));
  }

  lemma CheckedPointeeReads(access: string, x: Expr, marked: set<string>)
    requires x.Selector?
    ensures ReadAction(access, BuildPointeeReset(access, x, marked)) == Some(PtrResetIfAble)
  {
    hide OpenResetter, IsResetter, CallResetter, ReadAction;
    var open, close, call := "\t\tif resetter, ok := interface{}(", ").(interface{ Reset() }); ok {\n",
      "\t\t\tresetter.Reset()\n";
    OpenPointee();
    CloseCheck();
    PointeeCall();
    ResetterActionReads(access, open, close, call);
    assert open + access + close + call + "\t\t}\n" == BuildPointeeReset(access, x, marked);
  }

  lemma PointeeReads(access: string, x: Expr, marked: set<string>)
    requires |access| >= 3 && IsWordChar(access[0]) && (access[1] == '.' || access[0] >= '\U{0080}')
    ensures ReadAction(access, BuildPointeeReset(access, x, marked)) == Some(CompilePointee(x, marked))
  {
    hide ReadAction, ZeroValue, ZeroRhs, TypeString, ReadRhs;
    match x
    case Ident(name) =>
      if name in marked {
        CallReads(access);
      } else {
        ZeroReads(name);
        AssignPtrReads(access, ZeroValue(name));
      }
    case Selector(_, _) => CheckedPointeeReads(access, x, marked);
    case _ =>
      LiteralReads(x);
      AssignPtrReads(access, ZeroLiteral(x));
  }

  // ---- the statements that begin with the field ----------------------------------------

  /** A receiver is no keyword and starts no comment. */
  lemma FieldFirst(recv: string, rest: string)
    requires IsReceiver(recv)
    ensures var t := recv + "." + rest; !("//" <= t) && !("clear(" <= t) && !("if " <= t)
  {
    var t := recv + "." + rest;
    assert IsWordChar(recv[0]);
    assert t[0] == recv[0] && (|recv| == 1 ==> t[1] == '.');
    assert "//"[0] == '/' && "clear("[0] == 'c' && "clear("[1] == 'l' && "if "[0] == 'i' && "if "[1] == 'f';
  }

  lemma TailReads(recv: string, field: string, rest: string)
    requires IsReceiver(recv) && IsWord(field) && rest != [] && !IsWordChar(rest[0])
    ensures Read(recv, "\t" + (recv + "." + field + rest)) == ReadTail(recv, field, rest)
  {
    hide ReadTail, ReadAccess, ReadClear, ReadIf, ReadComment, IsReceiver, IsWord;
    var t := recv + "." + field + rest;
    AfterToken("\t", t);
    assert t == recv + "." + (field + rest);
    FieldFirst(recv, field + rest);
    AccessReads(recv, field, rest);
  }

  lemma AssignReads(recv: string, field: string, value: string)
    requires IsReceiver(recv) && IsWord(field) && ReadRhs(value + "\n").Some?
    ensures Read(recv, "\t" + (recv + "." + field) + " = " + value + "\n") ==
      Some(Assign(field, ReadRhs(value + "\n").value))
  {
    hide Read, ReadRhs, IsReceiver, IsWord;
    var rest := " = " + (value + "\n");
    assert "\t" + (recv + "." + field) + " = " + value + "\n" == "\t" + (recv + "." + field + rest);
    TailReads(recv, field, rest);
    AfterToken(" = ", value + "\n");
    NotTruncated(recv + "." + field, value);
    assert rest[0] == ' ' && ".Reset()\n"[0] == '.';
  }

  /** No value the generator assigns ends like a truncation. */
  lemma NotTruncated(access: string, value: string)
    requires ReadRhs(value + "\n").Some?
    ensures value + "\n" != access + "[:0]\n"
  {
    BeforeToken(value, "\n");
    var v, t := value + "\n", access + "[:0]\n";
    assert |value| > 0 && value[|value| - 1] != ']';
    assert v[|v| - 2] == value[|value| - 1];
    assert t[|t| - 2] == "[:0]\n"[3] == ']';
  }

  lemma TruncateReads(recv: string, field: string)
    requires IsReceiver(recv) && IsWord(field)
    ensures Read(recv, "\t" + (recv + "." + field) + " = " + (recv + "." + field) + "[:0]\n") == Some(Truncate(field))
  {
    hide Read, ReadRhs, IsReceiver, IsWord;
    var access := recv + "." + field;
    var rest := " = " + (access + "[:0]\n");
    assert "\t" + access + " = " + access + "[:0]\n" == "\t" + (access + rest);
    TailReads(recv, field, rest);
    AfterToken(" = ", access + "[:0]\n");
    assert rest[0] == ' ' && ".Reset()\n"[0] == '.';
  }

  lemma CallResetReads(recv: string, field: string)
    requires IsReceiver(recv) && IsWord(field)
    ensures Read(recv, "\t" + (recv + "." + field) + ".Reset()\n") == Some(CallReset(field))
  {
    hide Read, IsReceiver, IsWord;
    assert "\t" + (recv + "." + field) + ".Reset()\n" == "\t" + (recv + "." + field + ".Reset()\n");
    TailReads(recv, field, ".Reset()\n");
  }

  // ---- the statements that begin with a keyword ----------------------------------------

  lemma ClearFirst(recv: string, t: string)
    ensures Read(recv, "\tclear(" + t) == ReadClear(recv, t)
  {
    hide ReadAccess, ReadClear, ReadIf, ReadComment, ReadTail;
    var u := "clear(" + t;
    assert "\tclear(" + t == "\t" + u;
    AfterToken("\t", u);
    assert u[0] == 'c' && "//"[0] == '/' && u[6..] == t;
  }

  lemma IfFirst(recv: string, t: string)
    ensures Read(recv, "\tif " + t) == ReadIf(recv, t)
  {
    hide ReadAccess, ReadClear, ReadIf, ReadComment, ReadTail;
    var u := "if " + t;
    assert "\tif " + t == "\t" + u;
    AfterToken("\t", u);
    assert u[0] == 'i' && "//"[0] == '/' && "clear("[0] == 'c' && u[3..] == t;
  }

  lemma ClearReads(recv: string, field: string)
    requires IsWord(field)
    ensures Read(recv, "\tclear(" + (recv + "." + field) + ")\n") == Some(Clear(field))
  {
    hide Read, ReadAccess, IsWord;
    assert "\tclear(" + (recv + "." + field) + ")\n" == "\tclear(" + (recv + "." + field + ")\n");
    ClearFirst(recv, recv + "." + field + ")\n");
    AccessReads(recv, field, ")\n");
  }

  lemma IfNotNilReads(recv: string, field: string, inner: string)
    requires IsWord(field) && ReadAction(recv + "." + field, inner).Some?
    ensures Read(recv, "\tif " + (recv + "." + field) + " != nil {\n" + inner + "\t}\n") ==
      Some(IfNotNil(field, ReadAction(recv + "." + field, inner).value))
  {
    hide Read, ReadAccess, ReadAction, IsWord;
    var body := inner + "\t}\n";
    var rest := " != nil {\n" + body;
    assert "\tif " + (recv + "." + field) + " != nil {\n" + inner + "\t}\n" == "\tif " + (recv + "." + field + rest);
    IfFirst(recv, recv + "." + field + rest);
    assert rest[0] == ' ';
    AccessReads(recv, field, rest);
    AfterToken(" != nil {\n", body);
    BeforeToken(inner, "\t}\n");
  }

  /** The check for a Reset method does not begin with the receiver. */
  lemma ResetterFirst(recv: string, t: string)
    requires IsReceiver(recv)
    ensures ReadAccess(recv, OpenResetter() + t) == None
  {
    var s := OpenResetter() + t;
    assert s[0] == 'r' && s[1] == 'e';
    assert |recv| == 1 ==> (recv + ".")[1] == '.';
  }

  lemma OpenField()
    ensures "\tif resetter, ok := interface{}(&" == "\tif " + (OpenResetter() + "&")
  {}

  lemma FieldCall()
    ensures "\t\tresetter.Reset()\n" == "\t\t" + CallResetter()
  {}

  lemma RegroupField(a: string, b: string, c: string, d: string, e: string, f: string, g: string)
    ensures a + (b + c) + d + e + f + g == a + ((b + c) + (d + (e + (f + g))))
  {}

  lemma CheckReads(recv: string, field: string, open: string, close: string, call: string)
    requires IsReceiver(recv) && IsWord(field)
    requires open == "\tif " + (OpenResetter() + "&") && close == IsResetter() && call == "\t\t" + CallResetter()
    requires close != [] && !IsWordChar(close[0])
    ensures Read(recv, open + (recv + "." + field) + close + call + "\t}\n") == Some(ResetIfAble(field))
  {
    hide OpenResetter, IsResetter, CallResetter, Read, ReadAccess, IsReceiver, IsWord;
    var rest := close + ("\t\t" + (CallResetter() + "\t}\n"));
    var t := recv + "." + field + rest;
    var whole := open + (recv + "." + field) + close + call + "\t}\n";
    assert whole == "\tif " + ((OpenResetter() + "&") + t);
    IfFirst(recv, (OpenResetter() + "&") + t);
    assert (OpenResetter() + "&") + t == OpenResetter() + ("&" + t);
    ResetterFirst(recv, "&" + t);
    AfterToken(OpenResetter() + "&", t);
    assert rest[0] == close[0];
    AccessReads(recv, field, rest);
  }

  lemma ResetterReads(recv: string, field: string, e: Expr, marked: set<string>)
    requires IsReceiver(recv) && IsWord(field) && e.Selector?
    ensures Read(recv, BuildFieldReset(recv, field, e, marked)) == Some(ResetIfAble(field))
  {
    hide OpenResetter, IsResetter, CallResetter, Read, IsReceiver, IsWord;
    var open, close, call := "\tif resetter, ok := interface{}(&", ").(interface{ Reset() }); ok {\n",
      "\t\tresetter.Reset()\n";
    OpenField();
    CloseCheck();
    FieldCall();
    assert close[0] == ')';
    CheckReads(recv, field, open, close, call);
    assert open + (recv + "." + field) + close + call + "\t}\n" == BuildFieldReset(recv, field, e, marked);
  }

  lemma OpenComment()
    ensures "\t// unsupported type for field " == "\t" + ("//" + Unsupported())
  {}

  lemma CommentReads(recv: string, field: string, open: string)
    requires open == "\t" + ("//" + Unsupported())
    ensures Read(recv, open + field + "\n") == Some(Comment(field))
  {
    hide Unsupported, ReadAccess, ReadClear, ReadIf, ReadTail;
    var t := "//" + (Unsupported() + (field + "\n"));
    assert open + field + "\n" == "\t" + t;
    AfterToken("\t", t);
    assert t[2..] == Unsupported() + (field + "\n");
    AfterToken(Unsupported(), field + "\n");
    BeforeToken(field, "\n");
  }

  lemma AccessStarts(recv: string, field: string)
    requires IsReceiver(recv) && IsWord(field)
    ensures var access := recv + "." + field;
      |access| >= 3 && IsWordChar(access[0]) && (access[1] == '.' || access[0] >= '\U{0080}')
  {
    assert (recv + "." + field)[0] == recv[0];
  }

  /** The text generated for a field reads back as the statement the semantics runs. */
  lemma BuildReads(recv: string, fieldName: string, e: Expr, marked: set<string>)
    requires IsReceiver(recv) && IsWord(fieldName)
    ensures Read(recv, BuildFieldReset(recv, fieldName, e, marked)) == Some(Compile(fieldName, e, marked))
  {
    hide Read, ReadAction, ReadRhs, ZeroValue, ZeroRhs, TypeString, BuildPointeeReset, CompilePointee, IsWord,
      IsReceiver, OpenResetter, IsResetter, CallResetter, Unsupported;
    match e
    case Ident(name) =>
      if name in marked {
        CallResetReads(recv, fieldName);
      } else {
        ZeroReads(name);
        AssignReads(recv, fieldName, ZeroValue(name));
      }
    case Star(x) =>
      AccessStarts(recv, fieldName);
      PointeeReads(recv + "." + fieldName, x, marked);
      IfNotNilReads(recv, fieldName, BuildPointeeReset(recv + "." + fieldName, x, marked));
    case Slice(_) => TruncateReads(recv, fieldName);
    case Array(_, _) => ArrayReads(recv, fieldName, e);
    case Map(_, _) => ClearReads(recv, fieldName);
    case Selector(_, _) => ResetterReads(recv, fieldName, e, marked);
    case Interface(_) => NilReads(recv, fieldName);
    case Func => NilReads(recv, fieldName);
    case Chan => NilReads(recv, fieldName);
    case _ =>
      OpenComment();
      CommentReads(recv, fieldName, "\t// unsupported type for field ");
  }

  lemma ArrayReads(recv: string, field: string, e: Expr)
    requires IsReceiver(recv) && IsWord(field)
    ensures Read(recv, "\t" + (recv + "." + field) + " = " + TypeString(e) + "{}\n") ==
      Some(Assign(field, Composite(TypeString(e))))
  {
    hide Read, ReadRhs, TypeString, IsReceiver, IsWord;
    RhsReads(Composite(TypeString(e)));
    AssignReads(recv, field, TypeString(e) + "{}");
    assert "\t" + (recv + "." + field) + " = " + TypeString(e) + "{}\n" ==
      "\t" + (recv + "." + field) + " = " + (TypeString(e) + "{}") + "\n";
  }

  lemma NilReads(recv: string, field: string)
    requires IsReceiver(recv) && IsWord(field)
    ensures Read(recv, "\t" + (recv + "." + field) + " = nil\n") == Some(Assign(field, LitNil))
  {
    hide Read, ReadRhs, IsReceiver, IsWord;
    RhsReads(LitNil);
    assert RhsText(LitNil) == "nil";
    AssignReads(recv, field, "nil");
    assert "\t" + (recv + "." + field) + " = nil\n" == "\t" + (recv + "." + field) + " = " + "nil" + "\n";
  }

  lemma NameIsNotEmpty(name: string)
    requires IsIdent(name)
    ensures name != []
  {}

  /** So the generated code of a struct is the statements the semantics runs, field by field. */
  lemma CodeReads(s: ResetStruct, marked: set<string>)
    requires IsIdent(s.name) && forall f | f in NamedFields(s.fields) :: IsWord(f.name)
    ensures var fields, code := NamedFields(s.fields), Code(s, marked);
      && |code| == |fields|
      && forall k :: 0 <= k < |fields| ==>
           Read(Receiver(s.name), code[k]) == Some(Compile(fields[k].name, fields[k].typ, marked))
  {
    hide Read, Compile, BuildFieldReset, IsWord, Receiver, IsReceiver, NamedFields, IsIdent;
    var fields := NamedFields(s.fields);
    ReceiverIsReceiver(s.name);
    NameIsNotEmpty(s.name);
    forall k | 0 <= k < |fields|
      ensures Read(Receiver(s.name), Code(s, marked)[k]) == Some(Compile(fields[k].name, fields[k].typ, marked))
    {
      BuildReads(Receiver(s.name), fields[k].name, fields[k].typ, marked);
    }
  }
}
